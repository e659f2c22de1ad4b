# A verified model of the Garmr authorisation service

Garmr decides, for one web request at a time, whether a client may pass: it
checks a proof-of-work token, runs iptables-style rule chains, charges a use
quota, limits pending requests per address, and keeps its own configuration
under revision control. This project models those parts in Dafny and proves
what they promise, on every input and over every run.

The models are written twice where the program changes state step by step.
A specification describes one step as a function from state to state
(`ConsumeNext`, `EnterNext`, `ApplyNext`, `Evaluate`, `Merge`, ...). A class or
method does the same work on fields, maps and loops as the Go code does, and
is proved to compute exactly that step. The main theorems are about the
specification: over whole runs, and as exact conditions on plain fields that
name no step function (`VerifyAdmitsIff`, `TokenPassesIff`, `ApplyAcceptsIff`,
`RulesSeeEarlierRequests`, `DecisionsComeFromTheChains`).

| file | models |
|---|---|
| `Prelude.dfy`, `Decimal.dfy`, `ConfigPaths.dfy` | small shared pieces: ASCII case, search in strings, decimal numbers, dotted configuration paths |
| `RuleChains.dfy`, `RuleChainProps.dfy` | the recursive rule-chain evaluator; the tail-jump machine it equals, its visit guard, erasure of LOG and MARK |
| `JumpGraph.dfy` | the three-colour cycle search of the configuration check, and what it buys the evaluator |
| `Difficulty.dfy`, `Token.dfy` | the leading-zero test; token validation, canonical text and sign-id text with their decoders |
| `UsageStores.dfy` | the quota in memory, in Postgres and in Redis |
| `Auth.dfy`, `Service.dfy` | the verdict on a request as a function of the stores, and the service that computes it on real ones |
| `Verdicts.dfy` | what a good token is, what each decision of the rules answers, and exactly when a whole request is admitted, on the fields of token, request and store |
| `Reports.dfy` | the sign id and use counts an answer reports, and whether they name the record that was written |
| `Samples.dfy` | the token and settings with which the failing runs start |
| `QuotaRuns.dfy`, `ServiceQuota.dfy`, `FirstUse.dfy` | whole runs with cleanup: the use cap over interleaved steps and over whole requests, and first-use binding of empty-IP tokens |
| `PendingLimiter.dfy` | per-address slots and timed blocks against a ledger that never forgets |
| `CounterStores.dfy`, `Counting.dfy`, `ServiceCounting.dfy` | fixed-window buckets against a plain count over an event log, up to what a counter rule sees in a run of requests |
| `ConfigStore.dfy` | the append-only revision history under failing and interrupted file replacements |
| `NormalForm.dfy`, `Diff.dfy`, `DiffProps.dfy`, `DiffDanger.dfy` | normal form of decoded YAML, differences of configuration trees, their replay, what they show and how dangerous they are rated |
| `Secrets.dfy`, `SecretProps.dfy`, `SecretNodes.dfy` | redaction and secret merging, as functions and in place on the node tree |

Verify everything with `dafny verify dfyconfig.toml`.

## Conventions

- A mutex-protected body is one atomic step. Time is a non-decreasing integer
  passed in; where the code reads the clock several times in one request the
  readings are separate fields of `Readings` and `Clock`.
- SHA-256, token decoding, case folding, address parsing, query parsing, rule
  matchers and YAML decoding are function values passed in. Collision freedom
  of SHA-256 is assumed only in the run theorems, and only for the pre-images
  that occur in the run (`NoCollision`).
- A Go string is a sequence of bytes, written as a Dafny `string`. Go's map
  iteration order is left open: loops over maps pick any remaining key.
- Chain names and configuration paths are compared with ASCII case folding.
- A step function returns the answer and the new state; `None` for a store
  stands for "no usage store configured".

## What turned out to differ from the stated intent

- Postgres admits the first use of a sign id whatever the cap; the three
  drivers agree exactly when the cap is at least one, which configuration
  validation enforces (`DriversAgreeIffCapPositive`).
- A validated request may charge up to one second later than the grace period
  without breaking the cap, and not a nanosecond more: the exact bound is
  `gap <= grace + 1 s` (`GapBoundIsExact`).
- First-use binding survives cleanup exactly when the grace period is at least
  minus one second (`GraceBoundIsExact`); the configuration defaults a zero and
  accepts any other value.
- The PoW-only flow rewrites token faults under dry-run and the rule-engine
  flow does not: without a token one admits and the other refuses
  (`DryRunSplitsMissingTokens`). The two give the same verdict exactly when
  dry-run is off or the request is one that dry-run treats alike
  (`DryRunAlike`).
- A rule or policy may carry a `status`, which the engine puts into its decision
  and the answer never uses (`RuleStatusIsUnused`). A REJECT gets the status of
  its reason text: 403 for most, but 200 when the text is one of the nine that
  stand for an admission, and that is the status sent (`RejectRefuses` gives the
  exact condition, `RejectCanAnswer200` an input).
- Of the three quota drivers only Redis looks at the expiry of a token
  (`ExpiredCallsDiffer`); callers check it beforehand.
- The sign id reported for an empty-IP token is computed after the request's
  address has been filled into the payload, so it never names the stored
  record (`FirstUseReportsAnotherID`); for tokens with an IP of their own it is
  the token's id (`ReportedIDNamesRecordIff`). REQUIRE_POW reports no id for
  ip_bound tokens at all, and the same id and counts as the PoW-only flow for
  generic ones (`SameReportIff`).
- `itoa` prints the smallest 64-bit integer as a bare `-`; for every other
  integer it is the decimal text (`Itoa`).
- Validation without options leaves the salt unchecked; the canonical text then
  decodes exactly when the salt has no newline (`CanonicalDecodes`,
  `NewlineSaltIsNotReadBack`). The only caller, internal/auth/pow_verify.go:40,
  always passes options.
- Comments in `manager.go` and `secret.go` say sensitive values never appear in
  a diff. Blanking works on exact paths, so a section that appears or
  disappears as a whole is shown with the sensitive values in it
  (`NewSectionIsShown`), and a sensitive field that is itself a mapping is shown
  below its path (`MappingSaltIsShown`); the exact condition is
  `SensitiveShownIff`.
- Danger goes by the path of the change: a section that comes or goes as a whole
  is rated by its own name, so a new `pow:` section that sets `bypass_all` is a
  normal change (`BypassSectionIsNormal`). The exact condition for paths rated
  dangerous whatever the values is `WatchedChangeIsDangerousIff`.
- A lowered difficulty is critical as far as float64 tells the numbers apart:
  always up to 2^53 (`SmallIntegersAreExact`), not beyond
  (`RoundingHidesADecrease`).
- Redaction descends into sequences and the merge does not
  (`SequencesAreNotRestored`); merging a redacted document restores it exactly
  when nothing under a sequence was redacted and no ordinary text starts with
  the placeholder prefix (`MergeOfRedact`).
- `secret.go` says sensitive base fields must survive. The merge asks this of
  the mappings that base and edit share: an edit that leaves a whole section
  out is accepted and loses the secrets in it (`LeavingASectionOutLosesIt`).
  The exact condition is `KeepsSections` (`MergeKeepsFieldsIff`).
- `secret.go` says sensitive fields may only be edited through placeholders and
  cannot be introduced by an edit. What an edit puts where the base has no
  mapping is not looked at: with an empty `pow:` in the base any salt is
  accepted, and a KEEP placeholder stays in place as the salt
  (`NullSectionLetsAnythingIn`). The same goes for lists: a placeholder in one
  stays live text (`ListKeepsPlaceholder`), and a salt can be introduced in one
  (`ListLetsSaltIn`). The exact condition is `NoGap` (`MergeIsCleanIff`).
- Counter names may contain the separator of the bucket keys. Two names share
  buckets exactly when one followed by the separator begins the other followed
  by the separator (`NamesCollideIff`), and then one counter is read under the
  other (`CollidingNamesMiscount`). The store counts every log right if and only
  if no two names are like that (`CountsExactlyIff`), which configuration
  validation does not check.

## Model

| member | source | states |
|---|---|---|
| `RuleChains.Evaluation.LookupChain` | internal/risk/engine.go:68-78 | finds the chain whose name matches up to case, in whatever order the map is scanned, or reports none |
| `RuleChains.Evaluation.RunChain` | internal/risk/engine.go:82-90 | lookup, visit count and guard of one chain entry: outcome, trace, marks and visits are those of the specification, also on cyclic maps |
| `RuleChains.Evaluation.RunRules` | internal/risk/engine.go:91-148 | the rule loop with LOG, MARK, RETURN, JUMP and the policy computes the specified outcome, trace, marks and visits |
| `RuleChains.EvaluateWithEntry` | internal/risk/engine.go:44-64 | a fresh evaluation from the entry chain, INPUT by default |
| `RuleChainProps.ChainIsTailJump` | internal/risk/engine.go:82-90 | entering a chain recursively ends where the iterative machine ends, with the same trace, marks and visits and the reason picked through the enclosing JUMPs |
| `RuleChainProps.RulesAreTailJump` | internal/risk/engine.go:91-136 | the same for the remaining rules of a chain, from any accumulated state |
| `RuleChainProps.EvaluatorIsTailJumpMachine` | internal/risk/engine.go:44-148 | the recursive evaluator equals an iterative tail-jump machine on verdict, trace, marks and error; the reason is the first non-empty one from the decider outward |
| `RuleChainProps.DecisionsComeFromTheChains` | internal/risk/engine.go:82-163 | every decision is the visit guard's 500 REJECT, the policy of a chain in the map, or that of a matching rule with a deciding target: target, status with its default, limit rate, chain and rule name, field by field |
| `RuleChainProps.EntriesAreBounded` | internal/risk/engine.go:82-90 | on any chain map, cyclic or not, an evaluation enters at most 8 times the number of chains plus one chains |
| `RuleChainProps.LogAndMarkNeverDecide` | internal/risk/engine.go:92-135 | deleting every LOG and MARK rule leaves the decision unchanged for every request |
| `JumpGraph.CycleDetector.constructor` | internal/config/validate.go:278-282 | the search graph has exactly the chains under upper-case names |
| `JumpGraph.CycleDetector.Visit` | internal/config/validate.go:284-310 | colouring, early returns on a found cycle, termination by the shrinking set of white nodes; an unreported visit finishes the node after all its successors |
| `JumpGraph.CycleDetector.VisitJumps` | internal/config/validate.go:300-306 | the rule loop stops at the first reported cycle, and otherwise leaves every JUMP target finished |
| `JumpGraph.CycleDetector.Report` | internal/config/validate.go:287-290 | the first problem recorded names a walk in the graph that closes on itself |
| `JumpGraph.CycleDetector.Finish` | internal/config/validate.go:307-308 | a node turns black after all its successors, which keeps the finish order complete |
| `JumpGraph.CycleDetector.DetectCycles` | internal/config/validate.go:272-314 | a problem is recorded if and only if the JUMP graph has a cycle, for every iteration order, and the first one names a real cycle |
| `JumpGraph.FinishedMeansAcyclic` | internal/config/validate.go:300-313 | if every chain was finished after its successors there is no cycle |
| `JumpGraph.ValidConfigNeverTripsGuard` | internal/risk/engine.go:82-90 | with an INPUT chain, resolvable JUMPs and no reported cycle an evaluation always reaches a verdict and enters each chain at most once |
| `Difficulty.HasLeadingZeroBits` | internal/pow/difficulty.go:13-34 | the byte loop and mask test hold exactly when the first n bits are zero, equivalently when the big-endian value is below 2^(8L-n) |
| `Difficulty.MeetsByBytes` | internal/pow/difficulty.go:19-33 | whole zero bytes plus a masked byte are the first n bits |
| `Difficulty.BitsMeanBound` | internal/pow/difficulty.go:13-34 | n leading zero bits if and only if the big-endian number is below 2^(8L-n) |
| `Difficulty.BoundIsAntitone` | internal/pow/difficulty.go:13-34 | meeting a difficulty means meeting every lower one |
| `Token.CanonicalDecodes` | internal/pow/token.go:95-212 | the canonical text of every accepted payload decodes to its fields exactly when the salt has no newline, which validation with options guarantees; the IP may contain anything |
| `Token.PayloadPassesIff` | internal/pow/token.go:95-212 | validation accepts a payload if and only if version, mode, algorithm, path, IP, counter letters, difficulty range, salt list and times are as listed, with and without options |
| `Token.ErrorNamesAFault` | internal/pow/token.go:95-212 | the error returned is about a field that really is at fault |
| `Token.CanonicalLayout` | internal/pow/canonical.go:14-41 | the canonical text line by line, the IP only for ip_bound tokens |
| `Token.SignIDLayout` | internal/pow/sign_id.go:22-32 | the text behind a sign id line by line |
| `Token.NewlineSaltIsNotReadBack` | internal/pow/token.go:95-212 | a payload with a newline for a salt, accepted without options, does not decode to its fields |
| `Token.CanonicalRoundTrip` | internal/pow/canonical.go:14-41 | decoding undoes printing for newline-free mode, path, counter and salt |
| `Token.PreimageDecodes` | internal/pow/sign_id.go:22-32 | mode, canonical text and sign can be read back from the text behind a sign id |
| `Token.PreimageDeterminesFields` | internal/pow/sign_id.go:22-32 | two accepted payloads have the same sign-id text only if all fields, the mode and the sign are equal |
| `Decimal.ParseOfFormat` | internal/pow/canonical.go:20-40 | decimal printing of timestamps and difficulty can be read back |
| `UsageStores.MemoryStore.Consume` | internal/storage/memory/usage.go:21-77 | creates the record if needed, refuses at the cap without charging, otherwise charges or skips for HEAD; the whole new map is stated |
| `UsageStores.MemoryStore.Get` | internal/storage/memory/usage.go:79-91 | a copy of the record, not found, or closed; nothing changes |
| `UsageStores.MemoryStore.CleanupExpired` | internal/storage/memory/usage.go:93-107 | removes exactly the records that expired before the threshold and counts them |
| `UsageStores.MemoryStore.Close` | internal/storage/memory/usage.go:120-126 | a closed store keeps refusing |
| `UsageStores.PostgresStore.Upsert` | internal/storage/postgres/usage.go:56-81 | insert, or update only while below the stored cap, as one step on the table; no row back means the cap is reached |
| `UsageStores.PostgresStore.Consume` | internal/storage/postgres/usage.go:36-93 | HEAD reads without a write; otherwise the conditional upsert, and the stored count when it refuses |
| `UsageStores.RedisStore.RunScript` | internal/storage/redis/lua.go:16-62 | the consume script as one atomic step on the keyspace |
| `UsageStores.RedisStore.Consume` | internal/storage/redis/usage.go:33-89 | expiry check, HEAD path, key lifetime and the script's verdict |
| `UsageStores.AlignedStep` | internal/storage/redis/usage.go:33-89 | with a cap of at least one, one proper call gets the same answer from all three drivers and keeps their use counts equal |
| `UsageStores.DriversStayAligned` | internal/storage/postgres/usage.go:36-93 | from aligned states every sequence of proper calls is answered alike |
| `UsageStores.DriversAgreeIffCapPositive` | internal/storage/redis/lua.go:16-62 | the drivers agree on every sequence of unexpired calls if and only if the cap is at least one |
| `UsageStores.ChargedRowsAgree` | internal/storage/redis/usage.go:33-89 | a charged use leaves the same row in all three drivers up to the user agent Redis keeps, and a Redis key that lives until the expiry plus the grace period |
| `UsageStores.ExpiredCallsDiffer` | internal/storage/redis/usage.go:45-48 | an expired call is refused by Redis without a trace and admitted by the other two while uses are left |
| `Auth.CheckTime` | internal/auth/pow_verify.go:103-114 | a token passes exactly when it has not expired, is at most 60 seconds ahead of the clock and respects the TTL cap; every fault answers 403 |
| `Verdicts.TokenPassesIff` | internal/auth/pow_verify.go:28-98 | a token passes if and only if its mode is known and enabled, its fields are well formed for that mode, path and times fit, the sign is 64 hex digits that fold to the digest of the canonical text, and the digest is below the difficulty bound |
| `Verdicts.RefusalNamesAFault` | internal/auth/pow_verify.go:28-114 | the reason of a refusal names a fault the token really has |
| `Verdicts.ClassifiedIff` | internal/auth/pow_verify.go:280-308 | exactly when a token is missing, valid, unverifiable, expired or of a disabled mode for the rules, with its payload and mode |
| `Verdicts.QuotaIsCharged` | internal/auth/pow_verify.go:213-238 | a generic use is refused exactly at the cap, otherwise counted once unless it is a free HEAD; no other record moves and the answer holds the new count |
| `Verdicts.UseIsRecorded` | internal/storage/memory/usage.go:33-77 | the record a use leaves behind, field by field, for quota and binding, new or old |
| `Verdicts.BindingIff` | internal/auth/pow_verify.go:160-208 | an empty-IP token goes on exactly when there is no record of it, or one of no or the same address; a refusal is 500 or 403, rewritten by dry-run |
| `Verdicts.PowOnlyAdmitsIff` | internal/auth/pow_verify.go:59-258 | the PoW-only flow admits exactly the presented, good and payable tokens, under dry-run all but an ip_bound token without a request address; the status of every refusal |
| `Verdicts.RejectRefuses` | internal/auth/service.go:319-343 | REJECT and TOO_MANY refuse under every configuration, dry-run included, with the rule's reason or the fallback, 429 for TOO_MANY, the status of the reason for REJECT, and an unchanged store |
| `Verdicts.ChargeIff` | internal/auth/service.go:388-421 | what a rule allow path charges: nothing without a valid token, else exactly when quota or binding permit, with the answer when they do not |
| `Verdicts.AcceptAdmitsIff` | internal/auth/service.go:297-317 | ACCEPT and RATE_LIMIT admit with the rule's rate, reason, trace and marks exactly when the use of a valid token can be paid, and report its id and count |
| `Verdicts.RequirePowAdmitsIff` | internal/auth/service.go:345-376 | REQUIRE_POW admits exactly the valid tokens whose use can be paid; every other status has its own reason and HTTP status and charges nothing |
| `Verdicts.RuleStatusIsUnused` | internal/auth/service.go:297-379 | the status of a rule or policy never changes the answer or the store |
| `Verdicts.RejectCanAnswer200` | internal/auth/service.go:319-330 | a REJECT with the reason not_protected is answered with status 200 |
| `Verdicts.RulesSeeTheRequest` | internal/auth/service.go:186-212 | which request field the rules see as path, address, method and so on, and when a request counts as a range request |
| `Verdicts.GatesAnswer` | internal/auth/service.go:152-173 | bypass, missing headers and a refused slot answer first, in this order, and touch no store |
| `Verdicts.VerifyAdmitsIff` | internal/auth/service.go:132-379 | with dry-run off and whatever the clock does, a request is admitted exactly in the listed cases: bypass, a rule's allow or REQUIRE_POW whose token use is paid, nothing to enforce, or a presented, good and payable token |
| `Verdicts.RefusedByTheRules` | internal/auth/service.go:271-379 | if the chains say REJECT or TOO_MANY the request is not admitted and nothing is charged, dry-run or not |
| `Verdicts.PowReasonsMeanGoodTokens` | internal/auth/service.go:132-379 | an answer ip_bound_valid, generic_valid or require_pow_pass is given only for a presented token that is good at the instant of the check, right sign and difficulty included, comes from its address and is paid for |
| `Verdicts.DryRunRewrites` | internal/auth/service.go:423-437 | dry-run turns a denial into a 200 that keeps the original reason and everything else |
| `Verdicts.VerySlowIff` | internal/auth/decision.go:28-67 | a rate written as a number and a unit is very slow up to 128k |
| `Verdicts.LabelIff` | internal/auth/decision.go:7-26 | the label of an admission by rule, by mode, reason and rate |
| `Auth.RequirePowAgreesWithPowOnly` | internal/auth/service.go:345-421 | a REQUIRE_POW decision and the PoW-only flow leave the same store, give the same verdict exactly when dry-run is off or treats both alike, and report the same sign id and counts exactly when the PoW-only flow reports no ip_bound id, so for every generic token |
| `Auth.RequirePowChainsAgreeWithNoEngine` | internal/auth/service.go:242-379 | the same for whole requests: chains that answer REQUIRE_POW against no rule engine at all |
| `Auth.SameReportIff` | internal/auth/pow_verify.go:126-258 | on which answers the two flows report the same sign id, uses and max_uses |
| `Reports.ReportedIDNamesRecordIff` | internal/auth/pow_verify.go:126-168 | an answer ip_bound_valid reports the id of the token's record exactly when the token carries its own IP; the text behind the id decides it without any assumption on the hash |
| `Reports.FirstUseReportsAnotherID` | internal/auth/pow_verify.go:138-152 | the first use of an empty-IP token: the one record written is not under the reported id |
| `Reports.GenericAnswerNamesRecord` | internal/auth/pow_verify.go:213-258 | an admitted generic token reports the id of a record that is in the store with the reported use count |
| `Reports.DryRunSplitsMissingTokens` | internal/auth/service.go:345-378 | without a token and with dry-run on, the PoW-only flow admits and a REQUIRE_POW chain answers 403 |
| `Auth.BareInputChain` | internal/risk/engine.go:138-148 | an INPUT chain without rules decides with the target, status, rate and reason of its policy, so the agreement applies to it |
| `Auth.BindingEffect` | internal/auth/pow_verify.go:160-208 | first-use binding admits only the recorded address or records this one, writes at most one consume, and refuses without a write |
| `Auth.FinalizeEffect` | internal/auth/pow_verify.go:116-258 | finishing a validated token changes the store by at most its own consume |
| `Auth.PowOnlyEffect` | internal/auth/pow_verify.go:59-80 | the PoW-only flow changes the store by at most one consume of its own token and binds empty-IP tokens before admitting them |
| `Auth.ChargeEffect` | internal/auth/service.go:388-421 | charging on a rule allow path consumes or binds like the PoW-only flow |
| `Auth.RiskEffect` | internal/auth/service.go:271-379 | every rule-engine answer keeps the same bounds on the store, and admits an empty-IP token only with a matching binding |
| `Auth.VerifyEffect` | internal/auth/service.go:132-232 | every request changes the store by at most one consume of its own validated token and never admits an unbound empty-IP token while enforcing |
| `QuotaRuns.SameIDSameExpiry` | internal/pow/sign_id.go:22-32 | validated tokens with the same sign-id text have the same expiry and mode |
| `QuotaRuns.ConsumeEffect` | internal/storage/memory/usage.go:21-77 | what one consume does to the charge count of its id and to all other records |
| `QuotaRuns.RunKeepsInv` | internal/storage/memory/usage.go:21-107 | over any timely run, charges of an id are counted by its live record, or the record is gone for good and the id can no longer validate |
| `QuotaRuns.QuotaHoldsOverRuns` | internal/auth/pow_verify.go:103-114 | over any interleaving of validations, charges and cleanups with gaps up to the grace period plus one second, no sign id is charged more than max_uses times |
| `QuotaRuns.LateChargeBreaksCap` | internal/app/app.go:250-276 | for every longer gap there is a run that overcharges a one-use token |
| `QuotaRuns.GapBoundIsExact` | internal/app/app.go:260-262 | the cap holds over all runs with gaps up to g if and only if g is at most the grace period plus one second |
| `ServiceQuota.VerifyUsesValidated` | internal/auth/service.go:132-232 | whatever the clock does within a request, Verify leaves the store alone or performs one consume of a token it found good at one of its readings, and an answer that costs a use has been charged one |
| `ServiceQuota.HistoryIsRun` | internal/auth/service.go:132-232 | every run of whole requests and cleanups is a run of validate and consume steps with the same store |
| `ServiceQuota.AdmissionsStayWithinCap` | internal/auth/service.go:132-421 | over any run of requests and cleanups with gaps up to the grace period plus one second, no sign id is answered with more than max_uses admissions that cost a use, on whatever path |
| `FirstUse.HistoryKeepsInv` | internal/auth/pow_verify.go:126-208 | for the grace periods for which binding holds at all, over any run the record of an admitted empty-IP token names its first address until the token has expired |
| `FirstUse.EmptyIPTokensStayWithFirstAddress` | internal/auth/pow_verify.go:126-208 | over any run with cleanup and a grace period of at least minus one second, all requests admitted with one empty-IP token come from an address matching the first one, on every allow path |
| `FirstUse.ShortGraceStrays` | internal/app/app.go:250-276 | for every shorter grace period, a run in which one token is admitted from two addresses |
| `FirstUse.GraceBoundIsExact` | internal/config/defaults.go:119-126 | first-use binding holds over all runs if and only if the grace period is at least minus one second; the configuration accepts any |
| `PendingLimiter.IPPendingBlocker.Enter` | internal/risk/pending.go:81-121 | sweep, lazy expiry, block check, automatic block and slot count of one entry; an unparsable address gets a no-op handle |
| `PendingLimiter.PositiveLimitsAreKept` | internal/risk/pending.go:45-57 | positive limits are taken unchanged; others become one slot and one hour |
| `PendingLimiter.SweepDropsIdle` | internal/risk/pending.go:155-168 | a sweep that is due leaves no entry without slot or block behind, one that is not due changes nothing |
| `PendingLimiter.IPPendingBlocker.Sweep` | internal/risk/pending.go:155-168 | at most every 30 seconds, drops exactly the idle entries and expires the others |
| `PendingLimiter.IPPendingBlocker.Release` | internal/risk/pending.go:123-143 | gives one slot back and deletes the entry when nothing is left of it |
| `PendingLimiter.IPPendingBlocker.Close` | internal/risk/pending.go:170-182 | forgets all entries, once |
| `PendingLimiter.ReleaseHandle.Call` | internal/risk/pending.go:117-120 | only the first call of a handle releases |
| `PendingLimiter.SweepIsLazyExpiry` | internal/risk/pending.go:149-168 | a sweep is unobservable: it leaves every address as lazy expiry would |
| `PendingLimiter.LimiterRefinesLedger` | internal/risk/pending.go:81-182 | over every interleaving the limiter answers like a ledger that never forgets; stored pending equals unreleased handles and stays within the limit, and blocks start at least blockTTL apart |
| `PendingLimiter.RefusalNeverExtends` | internal/risk/pending.go:98-103 | a refusal during a block moves the end of no block |
| `PendingLimiter.SlotIsGivenBack` | internal/risk/pending.go:81-143 | entering and releasing leaves the same pending counts and blocks for every address |
| `CounterStores.Itoa` | internal/storage/memory/counter.go:133-154 | prints the decimal text for every 64-bit integer except the smallest, within its 20-byte buffer |
| `CounterStores.FillDigits` | internal/storage/memory/counter.go:140-148 | fills the buffer backwards with exactly the digits, leaving room for a sign |
| `CounterStores.BucketKeysAreInjective` | internal/storage/memory/counter.go:128-131 | bucket keys of names that are apart collide only for equal name, key and window start |
| `CounterStores.NamesCollideIff` | internal/storage/memory/counter.go:128-131 | two names share a bucket key for some keys and window if and only if one with the separator added begins the other with the separator added |
| `CounterStores.CounterStore.Incr` | internal/storage/memory/counter.go:53-76 | sweeps when due, starts or replaces the bucket of the current window, adds one; the whole new state is stated |
| `CounterStores.IncrRaisesReading` | internal/storage/memory/counter.go:53-109 | an increment answers one more than the reading before and is read right after, a new bucket lasts one window, a reset reads as zero; closed stores and empty windows only answer with errors |
| `CounterStores.SweepDropsStale` | internal/storage/memory/counter.go:41-51 | a sweep that is due leaves no bucket past its expiry behind |
| `CounterStores.CounterStore.Get` | internal/storage/memory/counter.go:78-94 | the live bucket's value, else zero; nothing changes |
| `CounterStores.CounterStore.Reset` | internal/storage/memory/counter.go:96-109 | removes the bucket of the current window only |
| `CounterStores.CounterStore.DropExpired` | internal/storage/memory/counter.go:41-51 | removes exactly the expired buckets |
| `CounterStores.CounterStore.Close` | internal/storage/memory/counter.go:111-117 | a closed store answers with an error from then on |
| `Counting.CurrentBucketLives` | internal/storage/memory/counter.go:41-51 | a sweep never removes a bucket that the current window can still reach |
| `Counting.EventEffect` | internal/storage/memory/counter.go:53-109 | what one increment or reset does to the reading of any name, key and later instant |
| `Counting.StoreCountsLog` | internal/storage/memory/counter.go:41-109 | with names pairwise apart, after any log of increments and resets every current reading is the plain count of the log |
| `Counting.GetIsPlainCount` | internal/storage/memory/counter.go:78-94 | Get returns how often Incr was called for that name and key in the current window since the last Reset, for names pairwise apart |
| `Counting.CollidingNamesMiscount` | internal/storage/memory/counter.go:128-131 | for any two counters whose names are not apart, one increment of the one is read back under the other |
| `Counting.CountsExactlyIff` | internal/storage/memory/counter.go:41-131 | over all logs every reading is the plain count if and only if the counter names are pairwise apart |
| `Counting.IncrementForRequest` | internal/risk/counter.go:40-58 | applies the increments of exactly the counters whose condition and key match, each once, in whatever order the map yields them |
| `Counting.IncrementsSpelledOut` | internal/risk/counter.go:40-91 | one request is counted once for each counter whose conditions on protection, range, pow_status text and mode it meets, under its address, its path, or both; unknown key fields and empty keys count nothing |
| `Counting.CountOfRequest` | internal/risk/counter.go:40-91 | one request raises a counter's count by one if it matches and falls in the window, else not at all |
| `Counting.CounterRuleSeesEarlierRequests` | internal/auth/service.go:276-288 | a counter rule sees the number of earlier evaluated requests that met the conditions, had the same address, path or both, and fall in the current window; zero for unknown counters and keys |
| `Counting.CachingResolver.Get` | internal/risk/counter.go:122-153 | cached value first, store reading otherwise, errors as zero and not cached |
| `Counting.OneSnapshotPerEvaluation` | internal/risk/counter.go:122-153 | however the store moves, one evaluation sees one value of a counter from its first successful read on |
| `Service.AuthService.CheckSignAndDifficulty` | internal/auth/pow_verify.go:86-98 | sign format, sign comparison and difficulty on the recomputed hash |
| `Service.AuthService.ValidateTokenForMode` | internal/auth/pow_verify.go:28-55 | the cascade of mode, payload, path, time and sign checks |
| `Service.AuthService.ClassifyPoW` | internal/auth/pow_verify.go:280-308 | the status handed to the rule engine for any token, sign, path and address |
| `Service.AuthService.ConsumeGenericQuota` | internal/auth/pow_verify.go:213-238 | one consume on the usage store, or a storage error without one |
| `Service.AuthService.BindEmptyIPFirstUse` | internal/auth/pow_verify.go:160-208 | lookup, comparison with the first address, recording, and filling the address into the payload |
| `Service.AuthService.FinalizeIPBound` | internal/auth/pow_verify.go:126-153 | address checks of an ip_bound token in order, with first-use binding for an empty address |
| `Service.AuthService.FinalizeGeneric` | internal/auth/pow_verify.go:242-258 | charges the quota and answers with the use count or the refusal |
| `Service.AuthService.VerifyPoWOnly` | internal/auth/pow_verify.go:59-80 | token checks then finish by mode: the specified answer and usage store |
| `Service.AuthService.ChargeQuotaForRiskAllow` | internal/auth/service.go:388-421 | charges or binds a validated token on a rule allow path, and nothing otherwise |
| `Service.AuthService.ActOn` | internal/auth/service.go:297-378 | what each decision target answers and charges |
| `Service.AuthService.EvaluateAndCount` | internal/auth/service.go:271-296 | evaluates on one snapshot of the counters and bumps them only after a decision |
| `Service.AuthService.SnapshotCounters` | internal/risk/counter.go:97-153 | every counter name resolves to its reading at the instant of evaluation, unknown names to zero |
| `Service.AuthService.RunRiskEngine` | internal/auth/service.go:271-379 | evaluation, counting and acting on the decision; falls through without one |
| `Service.AuthService.VerifyWithoutPow` | internal/auth/service.go:242-267 | with proof of work off only the rule engine or path protection decides |
| `Service.AuthService.VerifyWithPow` | internal/auth/service.go:174-232 | the branch with proof of work on: extraction, classification, then rules and the PoW-only flow |
| `Service.AuthService.VerifyGated` | internal/auth/service.go:174-232 | a request past bypass and limiter: classification, rule engine, then the PoW-only flow |
| `Service.AuthService.VerifyHoldingSlot` | internal/auth/service.go:164-173 | a refused slot answers 429 and touches no other store; a granted slot is given back at the end |
| `Service.AuthService.VerifyAndRelease` | internal/auth/service.go:166-173 | everything past the limiter, then the deferred release of the slot |
| `Service.AuthService.Verify` | internal/auth/service.go:132-232 | answer, usage store, counters and limiter after one request are those of the specification, on every branch |
| `Service.LimiterIsForProtected` | internal/auth/service.go:164-173 | the limiter counts exactly the protected requests with a proper address while it is switched on, and is left alone by all others |
| `ServiceCounting.StateIsLog` | internal/auth/service.go:271-288 | over any run of requests the counter store holds exactly the counts of the requests that reached a decision |
| `ServiceCounting.RulesSeeEarlierRequests` | internal/auth/service.go:271-288 | in every request of a run, the value a rule sees is the number of earlier decided requests from the same address, for the same path, or both, as the key field says, that met the counter's conditions and fall in the current window |
| `ConfigStore.Disk.WriteRevision` | internal/configstore/store.go:392-410 | the yaml file then the json file, with clean-up when the second fails |
| `ConfigStore.LoadHistory` | internal/configstore/store.go:350-384 | the highest recorded revision and its time, for any listing order |
| `ConfigStore.Open` | internal/configstore/store.go:114-165 | bootstraps an empty history, or records an outside edit as a new revision |
| `ConfigStore.Store.Apply` | internal/configstore/store.go:260-294 | conflict checks, revision, active file and in-memory state under any one fault; the whole new state is stated |
| `ConfigStore.Store.HistoryGet` | internal/configstore/store.go:316-334 | exactly the published revision with its bytes, or the error |
| `ConfigStore.Store.SaveDraft` | internal/configstore/store.go:184-215 | creates or advances the draft under its optimistic checks |
| `ConfigStore.Store.GetDraft` | internal/configstore/store.go:217-228 | returns the draft, or drops it after 24 hours |
| `ConfigStore.Store.MarkDraftValidated` | internal/configstore/store.go:230-242 | marks exactly the named draft revision |
| `ConfigStore.Store.DiscardDraft` | internal/configstore/store.go:244-258 | discards only the named draft |
| `ConfigStore.WriteOutcome` | internal/configstore/store.go:392-410 | writing revision n+1 publishes it or publishes nothing; earlier revisions keep their bytes through any fault |
| `ConfigStore.OpenRestores` | internal/configstore/store.go:116-165 | opening any sound history finds its newest revision and leaves it equal to the active file |
| `ConfigStore.ApplySurvives` | internal/configstore/store.go:260-294 | through every failure and crash point the history stays 1..max with parents r-1; a failure without a crash changes neither file, store nor history |
| `ConfigStore.ApplyAcceptsIff` | internal/configstore/store.go:260-294 | an apply without a fault succeeds if and only if the file is the one last read, the named revision is none or the current one and the text fits; the error says which, refusals change nothing, and a success states metadata, store and disk field by field |
| `ConfigStore.ApplyNeverOverwritesUnseen` | internal/configstore/store.go:260-294 | over any run with crashes, an apply naming revision n succeeds only while n is the newest published revision and the active file holds the bytes n always had |
| `ConfigStore.OpenRecords` | internal/configstore/store.go:114-165 | what an undisturbed boot records: nothing, a bootstrap, or an outside edit with its parent |
| `ConfigStore.HistoryGetIff` | internal/configstore/store.go:316-334 | a revision is found exactly when its number is positive and both files exist; which error otherwise |
| `ConfigStore.StepKeepsWorld` | internal/configstore/store.go:114-294 | every boot, apply and outside edit keeps the world sound and everything published |
| `ConfigStore.HistoryIsAppendOnly` | internal/configstore/store.go:260-294 | over any run with failures and crashes, what was once published is published unchanged at every later point |
| `ConfigStore.ReopeningRestores` | internal/configstore/store.go:114-165 | whatever happened before, an undisturbed open ends with the newest revision equal to the active file |
| `ConfigStore.AppliedStaysRetrievable` | internal/configstore/store.go:260-334 | over any run, an applied revision can be fetched with its metadata and bytes at every later point |
| `ConfigStore.DraftsMoveForward` | internal/configstore/store.go:184-258 | over any draft operations a draft id only moves to later revisions or keeps its content |
| `ConfigStore.SaveAcceptsIff` | internal/configstore/store.go:184-215 | a save succeeds if and only if size, base revision, draft id and expected revision fit; the error says which, and the new draft is stated |
| `ConfigStore.DraftAnswers` | internal/configstore/store.go:217-258 | when fetching, marking and discarding a draft succeed, with which error otherwise, and what changes |
| `ConfigStore.SaveNeverOverwritesUnseen` | internal/configstore/store.go:199-214 | a save naming a draft revision succeeds only on top of exactly the bytes that revision had |
| `ConfigPaths.KeysOfPathOf` | internal/configctl/secret.go:288-293 | a dotted path built from plain keys splits back into them |
| `NormalForm.NormalizeYAML` | internal/configctl/manager.go:221-244 | returns a normal form: every rendered key present, every entry from a key that renders to it, recursively, for any map order |
| `NormalForm.NormalFormIsUnique` | internal/configctl/manager.go:229-234 | without keys that render alike the result does not depend on the map order |
| `NormalForm.ClashIsUndecided` | internal/configctl/manager.go:229-234 | where two keys render alike the value of either can be the outcome |
| `Diff.DiffValue` | internal/configctl/manager.go:246-282 | appends exactly the specified changes for these two trees, whatever was recorded before |
| `Diff.DiffKeys` | internal/configctl/manager.go:262-271 | the loop over the keys of two mappings appends the changes under them in the given order |
| `Diff.ClassifyAll` | internal/configctl/manager.go:206-217 | blanks and classifies every change in place; the danger is the worst level and occurs in the list |
| `Diff.Diff` | internal/configctl/manager.go:195-219 | a change is reported if and only if it is the finished change of a position where the trees part; the overall danger is critical if any change is, normal if all are, else dangerous, and restart means non-empty |
| `Diff.Position` | internal/configctl/manager.go:246-282 | every recorded change sits at a position where the trees part |
| `Diff.Recorded` | internal/configctl/manager.go:246-282 | every position where the trees part is recorded |
| `DiffProps.NoChangesIffSame` | internal/configctl/manager.go:246-282 | the list is empty exactly when the trees agree up to null-valued entries |
| `DiffProps.PathsArePrefixFree` | internal/configctl/manager.go:246-282 | no recorded path is equal to or above another |
| `DiffProps.OneChangePerPosition` | internal/configctl/manager.go:195-219 | with plain keys each position where the trees part is reported exactly once, however the list is sorted |
| `DiffProps.ReplayGivesNew` | internal/configctl/manager.go:246-282 | replaying the changes on the old tree in any order gives the new tree up to null-valued entries |
| `DiffProps.SensitiveShownIff` | internal/configctl/manager.go:193-211 | a sensitive value, or a part of it, is shown by some change if and only if it is present on one side while the other lacks a mapping on the way to it, or it is a mapping on both sides and differs inside |
| `DiffProps.NewSectionIsShown` | internal/configctl/manager.go:206-211 | a section that appears as a whole shows the salt in it |
| `DiffProps.MappingSaltIsShown` | internal/configctl/manager.go:206-211 | a salt written as a mapping is reported below its own path and shown |
| `DiffDanger.LoweringDifficultyIsCritical` | internal/configctl/manager.go:284-322 | a number that is lower as a float64, under a path that mentions difficulty and inside mappings on both sides, is reported as critical |
| `DiffDanger.ReportedFields` | internal/configctl/manager.go:195-219 | path, kind, values, sensitivity and restart flag of the change at a position; the five secret paths are blanked |
| `DiffDanger.SwitchesAreCritical` | internal/configctl/manager.go:284-297 | any change at a path that ends in bypass_all, allow_empty_salt, pow.enabled or risk_control.enabled is critical |
| `DiffDanger.SettingsAreDangerous` | internal/configctl/manager.go:284-297 | any change at a path with enabled or excluded in it, under protection, or of a secret is at least dangerous |
| `DiffDanger.SwitchingIsCritical` | internal/configctl/manager.go:246-297 | changing such a switch inside its section is reported, as critical |
| `DiffDanger.SmallIntegersAreExact` | internal/configctl/manager.go:308-322 | integers up to 2^53 in size are compared without loss |
| `DiffDanger.RoundingHidesADecrease` | internal/configctl/manager.go:308-322 | 2^53 + 1 and 2^53 are the same float64, so that decrease is not seen |
| `DiffDanger.WatchedChangeIsDangerousIff` | internal/configctl/manager.go:284-297 | a change at a path rated dangerous whatever the values, with none such above it, is reported as at least dangerous if and only if its section is a mapping on both sides |
| `DiffDanger.BypassSectionIsNormal` | internal/configctl/manager.go:284-297 | a new pow section that sets bypass_all is one change at pow, rated normal |
| `Secrets.RedactShowsExactly` | internal/configctl/secret.go:54-78 | two documents redact alike if and only if they agree off the sensitive fields |
| `SecretProps.SecretForms` | internal/configctl/secret.go:225-287 | which scalars read as placeholders, and what KEEP and CLEAR stand for |
| `SecretProps.RedactIsIdentityIff` | internal/configctl/secret.go:54-78 | redaction changes nothing exactly when no sensitive field differs from the placeholder |
| `SecretProps.MergePointwise` | internal/configctl/secret.go:116-185 | with unique keys the base pass and the candidate pass amount to settling every entry on its own |
| `SecretProps.MergeOfRedact` | internal/configctl/secret.go:84-185 | merging the redacted base gives the base back if and only if it is restorable |
| `SecretProps.NoOffenceIff` | internal/configctl/secret.go:187-207 | the rejection walk finds nothing exactly when no sensitive key and no placeholder lies below |
| `SecretProps.MergeSettles` | internal/configctl/secret.go:116-185 | the merge accepts an edit with a result if and only if, in every mapping that base and edit share, each sensitive base field is present at its base value, its cleared form or an equal literal, none is added and nothing else changed; sections the edit leaves out are not looked at, and below a base value that is not a mapping the edit is taken over as it is |
| `SecretProps.MergeKeepsFieldsIff` | internal/configctl/secret.go:126-147 | an accepted edit still has every sensitive field of the base if and only if it keeps every section, recursively, with a sensitive field below it |
| `SecretProps.LeavingASectionOutLosesIt` | internal/configctl/secret.go:126-147 | the empty edit is accepted over a base with a salted pow section and loses the salt |
| `SecretProps.MergeIsCleanIff` | internal/configctl/secret.go:116-185 | an accepted edit brings in no sensitive field without a base value and leaves no stray placeholder, lists included, if and only if it puts neither where the base has no mapping |
| `SecretProps.ListKeepsPlaceholder` | internal/configctl/secret.go:175-182 | a placeholder in a list is accepted and stays as live text |
| `SecretProps.ListLetsSaltIn` | internal/configctl/secret.go:175-182 | a list holding a salt is accepted over a base without one, although redaction treats the field as sensitive |
| `SecretProps.NullSectionLetsAnythingIn` | internal/configctl/secret.go:175-182 | over an empty pow section the merge accepts any text as the salt, also the KEEP placeholder itself |
| `SecretProps.SequencesAreNotRestored` | internal/configctl/secret.go:73-76 | a salt inside a sequence is redacted and not put back |
| `SecretProps.MergedShowsTheEdit` | internal/configctl/secret.go:54-185 | an accepted edit redacts after the merge to what it redacted to before |
| `SecretNodes.YamlNode.RedactNode` | internal/configctl/secret.go:54-78 | rewrites the node tree in place into the redacted document |
| `SecretNodes.YamlNode.SetPlaceholder` | internal/configctl/secret.go:225-232 | turns any node into a placeholder scalar |
| `SecretNodes.YamlNode.DeepCopy` | internal/configctl/secret.go:240-251 | a fresh tree that shares no node and stands for the same document |
| `SecretNodes.YamlNode.ReplaceWith` | internal/configctl/secret.go:236-238 | takes over a copy of another node's document |
| `SecretNodes.YamlNode.Reject` | internal/configctl/secret.go:187-207 | finds the first offence of the specification |
| `SecretNodes.YamlNode.ResolveSecret` | internal/configctl/secret.go:162-173 | placeholder, cleared form or equal literal of one sensitive value |
| `SecretNodes.YamlNode.ShareAll` | internal/configctl/secret.go:128-147 | the base pass, merging shared mappings in place |
| `SecretNodes.YamlNode.ResolveAll` | internal/configctl/secret.go:152-183 | the candidate pass, entry by entry in place |
| `SecretNodes.YamlNode.MergeSecretNode` | internal/configctl/secret.go:116-185 | in-place merge on disjoint trees: the merged document or the same error as the specification, the base untouched |

## Left out

- HTTP transport, Nginx glue, metrics, logging, the CLI and its confirmation
  tokens, application wiring: input and output only. The threshold formula of the cleanup loop is modelled.
- SHA-256, base64url, JSON, YAML parsing and printing, regular expressions,
  CIDR matching, `netip`: parameters. `sameIP` keeps only "equal when parsed".
- A YAML not-a-number, which differs from itself under DeepEqual.
- Diff.Diff: sorting the change list is a library call that is only known to
  permute it; `ReplayGivesNew` therefore holds for every order. Integers are
  rounded to float64 where the code does so; a float read from the file is taken
  as it is.
- SecretNodes.YamlNode.MergeSecretNode: says nothing about the candidate
  after an error, which the caller drops. Comments, styles, anchors, aliases,
  indentation and CRLF handling are not modelled.
- Text-level entry points of redaction and merging (empty input, input that
  does not parse).
- ConfigStore.Store.Apply: withdrawing a revision (two file removals) is one
  step that does not fail, and one operation meets at most one fault. Two
  processes on one store, the Status view, listing with a limit and the choice
  of a draft id are not modelled; revision file names are numbers. A store is
  opened with the bytes just read from the active file.
- First-use binding on Postgres and Redis, and concurrent first uses: the code
  does not persist or lock these cases.
- FirstUse.EmptyIPTokensStayWithFirstAddress: assumes the memory store and
  requests as atomic steps; the bound on the grace period is exact.
- QuotaRuns.QuotaHoldsOverRuns: models the memory store, whose records the
  cleanup loop deletes; a sign id is counted per id, not per payload, since one
  payload has several accepted spellings of its signature.
- ServiceQuota.AdmissionsStayWithinCap: requests follow one another; overlapping
  requests are covered step by step by QuotaRuns.QuotaHoldsOverRuns.
- Service.AuthService.SnapshotCounters: reads every configured counter up
  front, where the code reads a counter when a rule first asks; the answers
  are the same because the store does not move within one evaluation step.
- Auth.RequirePowChainsAgreeWithNoEngine: assumes the clock stands still
  within the request (`Frozen`), since the two flows read it at different
  points.
- The limit-rate syntax and its overflow, default
  values and field-by-field configuration checks, path protection and path
  normalisation, `MinimumSignForDifficulty`.
- The Redis and Postgres counter stores and the Redis and Postgres readers
  (`Get`, `CountActive`): only the quota-consuming operation is compared.
