// Token payloads, their canonical text and the text behind a sign id
// (internal/pow): validation, printing, and decoders that undo the printing.
module Token {
  import opened Prelude
  import Decimal

  datatype TokenPayload = TokenPayload(
    version: int, mode: string, algorithm: string, ip: string, path: string,
    timestamp: int, expiresAt: int, difficulty: int, counter: string, salt: string)

  // Library calls whose results the model leaves open: SHA-256 (as bytes and
  // as lower-case hex), token decoding, Unicode case folding, IP parsing.
  datatype Library = Library(
    sha256: string -> seq<bv8>,
    sha256Hex: string -> string,
    decodeToken: string -> Option<TokenPayload>,
    equalFold: (string, string) -> bool,
    parseAddr: string -> Option<int>)

  const IP_BOUND := "ip_bound"
  const GENERIC := "generic"

  // ----------------------------------------------------------- validation

  datatype ValidatorOptions = ValidatorOptions(
    allowedSalts: seq<string>, allowEmptySalt: bool, allowedModes: seq<string>,
    minDifficulty: int, maxDifficulty: int, algorithm: string)

  datatype PayloadError =
    | UnsupportedVersion | UnsupportedMode | UnsupportedAlgorithm
    | PathInvalid | PathTooLong | IPInvalid | IPForbidden
    | CounterInvalid | DifficultyInvalid | SaltInvalid | TimestampInvalid | ExpiryInvalid

  const MAX_PATH_LENGTH := 4096
  const MAX_COUNTER_LENGTH := 64
  const MAX_DIFFICULTY := 64

  predicate IsCounterByte(c: char) {
    '0' <= c <= '9' || 'a' <= c <= 'f' || 'A' <= c <= 'Z' || c == '-' || c == '_' || c == '='
  }

  predicate IsCounterSafe(s: string) {
    s != "" && forall c :: c in s ==> IsCounterByte(c)
  }

  // unicode.IsControl over UTF-8 bytes: C0 and DEL are single bytes, a C1
  // control is the byte 0xC2 followed by 0x80..0x9F.
  predicate HasControl(s: string) {
    exists i :: 0 <= i < |s| && (s[i] as int < 0x20 || s[i] as int == 0x7F
                                 || (s[i] as int == 0xC2 && i + 1 < |s| && 0x80 <= s[i + 1] as int <= 0x9F))
  }

  predicate IsCanonicalSafe(s: string) {
    '\n' !in s && '\r' !in s && !HasControl(s)
  }

  predicate ModeAllowed(mode: string, opts: Option<ValidatorOptions>) {
    if opts.Some? && opts.value.allowedModes != [] then mode in opts.value.allowedModes
    else mode == IP_BOUND || mode == GENERIC
  }

  function ValidatePayload(lib: Library, p: TokenPayload, opts: Option<ValidatorOptions>): Option<PayloadError> {
    var wantAlg := if opts.Some? && opts.value.algorithm != "" then opts.value.algorithm else "sha256";
    var minD := if opts.Some? && opts.value.minDifficulty > 0 then opts.value.minDifficulty else 0;
    var maxD := if opts.Some? && opts.value.maxDifficulty > 0 then opts.value.maxDifficulty else MAX_DIFFICULTY;
    if p.version != 1 then Some(UnsupportedVersion)
    else if !ModeAllowed(p.mode, opts) then Some(UnsupportedMode)
    else if p.algorithm == "" || !lib.equalFold(p.algorithm, wantAlg) then Some(UnsupportedAlgorithm)
    else if p.path == "" || !HasPrefix(p.path, "/") then Some(PathInvalid)
    else if |p.path| > MAX_PATH_LENGTH then Some(PathTooLong)
    else if !IsCanonicalSafe(p.path) then Some(PathInvalid)
    else if p.mode == IP_BOUND && p.ip != "" && lib.parseAddr(p.ip).None? then Some(IPInvalid)
    else if p.mode == GENERIC && p.ip != "" then Some(IPForbidden)
    else if p.counter == "" || |p.counter| > MAX_COUNTER_LENGTH || !IsCounterSafe(p.counter) then Some(CounterInvalid)
    else if p.difficulty < minD || p.difficulty > maxD then Some(DifficultyInvalid)
    else if opts.Some? && !SaltAllowed(p.salt, opts.value) then Some(SaltInvalid)
    else if p.timestamp <= 0 then Some(TimestampInvalid)
    else if p.expiresAt <= 0 || p.expiresAt <= p.timestamp then Some(ExpiryInvalid)
    else None
  }

  predicate SaltAllowed(salt: string, opts: ValidatorOptions) {
    if salt == "" then opts.allowEmptySalt else IsCanonicalSafe(salt) && salt in opts.allowedSalts
  }

  // -------------------------------------------- what an accepted token is

  // 0-9, a-f, A-Z, '-', '_' and '='.
  predicate NonceLetter(byte: int) {
    48 <= byte < 58 || 97 <= byte < 103 || 65 <= byte < 91 || byte == 45 || byte == 95 || byte == 61
  }

  // No byte that could break a line of the canonical text.
  ghost predicate Printable(s: string) {
    forall i :: 0 <= i < |s| ==>
      s[i] as int >= 32 && s[i] as int != 127 && !(s[i] as int == 194 && i + 1 < |s| && 128 <= s[i + 1] as int < 160)
  }

  // The payload, field by field.
  ghost predicate WellFormed(lib: Library, p: TokenPayload, opts: Option<ValidatorOptions>) {
    && p.version == 1
    && (if opts.None? || opts.value.allowedModes == [] then p.mode == "ip_bound" || p.mode == "generic"
        else p.mode in opts.value.allowedModes)
    && p.algorithm != ""
    && lib.equalFold(p.algorithm, if opts.None? || opts.value.algorithm == "" then "sha256" else opts.value.algorithm)
    && 1 <= |p.path| <= 4096 && p.path[0] == '/' && Printable(p.path)
    && (p.mode == "generic" ==> p.ip == "")
    && (p.mode == "ip_bound" ==> p.ip == "" || lib.parseAddr(p.ip).Some?)
    && 1 <= |p.counter| <= 64 && (forall c :: c in p.counter ==> NonceLetter(c as int))
    && (if opts.None? then 0 <= p.difficulty <= 64
        else && 0 <= p.difficulty && opts.value.minDifficulty <= p.difficulty
             && p.difficulty <= if opts.value.maxDifficulty > 0 then opts.value.maxDifficulty else 64)
    && (opts.Some? ==> if p.salt == "" then opts.value.allowEmptySalt else p.salt in opts.value.allowedSalts && Printable(p.salt))
    && 0 < p.timestamp < p.expiresAt
  }

  lemma PrintableIsSafe(s: string)
    ensures IsCanonicalSafe(s) <==> Printable(s)
  {
    if Printable(s) {
      assert forall c :: c in s ==> c as int >= 32;
    }
  }

  // Validation accepts exactly the well-formed payloads.
  lemma PayloadPassesIff(lib: Library, p: TokenPayload, opts: Option<ValidatorOptions>)
    ensures ValidatePayload(lib, p, opts).None? <==> WellFormed(lib, p, opts)
  {
    PrintableIsSafe(p.path);
    PrintableIsSafe(p.salt);
    assert IsCounterSafe(p.counter) <==> p.counter != "" && forall c :: c in p.counter ==> NonceLetter(c as int);
    assert HasPrefix(p.path, "/") <==> p.path != "" && p.path[0] == '/';
  }

  // The field an error speaks about is at fault.
  ghost predicate FieldFault(lib: Library, p: TokenPayload, o: ValidatorOptions, e: PayloadError) {
    match e
    case UnsupportedVersion => p.version != 1
    case UnsupportedMode => if o.allowedModes == [] then p.mode != "ip_bound" && p.mode != "generic" else p.mode !in o.allowedModes
    case UnsupportedAlgorithm => p.algorithm == "" || !lib.equalFold(p.algorithm, if o.algorithm == "" then "sha256" else o.algorithm)
    case PathInvalid => p.path == "" || p.path[0] != '/' || !Printable(p.path)
    case PathTooLong => |p.path| > 4096
    case IPInvalid => p.mode == "ip_bound" && p.ip != "" && lib.parseAddr(p.ip).None?
    case IPForbidden => p.mode == "generic" && p.ip != ""
    case CounterInvalid => !(1 <= |p.counter| <= 64 && forall c :: c in p.counter ==> NonceLetter(c as int))
    case DifficultyInvalid => p.difficulty < 0 || p.difficulty < o.minDifficulty
                              || p.difficulty > if o.maxDifficulty > 0 then o.maxDifficulty else 64
    case SaltInvalid => if p.salt == "" then !o.allowEmptySalt else !(p.salt in o.allowedSalts && Printable(p.salt))
    case TimestampInvalid => p.timestamp <= 0
    case ExpiryInvalid => p.expiresAt <= p.timestamp || p.expiresAt <= 0
  }

  lemma ErrorNamesAFault(lib: Library, p: TokenPayload, o: ValidatorOptions)
    ensures var e := ValidatePayload(lib, p, Some(o)); e.Some? ==> FieldFault(lib, p, o, e.value)
  {
    PrintableIsSafe(p.path);
    PrintableIsSafe(p.salt);
    assert IsCounterSafe(p.counter) <==> p.counter != "" && forall c :: c in p.counter ==> NonceLetter(c as int);
    assert HasPrefix(p.path, "/") <==> p.path != "" && p.path[0] == '/';
  }

  // ------------------------------------------------------------- printing

  const CANONICAL_PREFIX := "mirrors-pow-v1"
  const SIGN_ID_VERSION := "mirrors-pow-sign-id-v2"

  function Field(key: string, value: string): string {
    key + "=" + value + "\n"
  }

  // Only ip_bound tokens carry their IP into the canonical text.
  function CanonicalIP(p: TokenPayload): string {
    if p.mode == IP_BOUND then p.ip else ""
  }

  function BuildCanonicalInput(p: TokenPayload): string {
    CANONICAL_PREFIX + "\n" +
    Field("mode", p.mode) + Field("ip", CanonicalIP(p)) + Field("path", p.path) +
    Field("ts", Decimal.Format(p.timestamp)) + Field("exp", Decimal.Format(p.expiresAt)) +
    Field("difficulty", Decimal.Format(p.difficulty)) +
    Field("cnt", p.counter) + Field("salt", p.salt)
  }

  function SignIDPreimage(p: TokenPayload, sign: string, mode: string): string {
    SIGN_ID_VERSION + "\n" + Field("mode", mode) + Field("canonical", BuildCanonicalInput(p)) + Field("sign", sign)
  }

  function ComputeSignID(lib: Library, p: TokenPayload, sign: string, mode: string): string {
    lib.sha256Hex(SignIDPreimage(p, sign, mode))
  }

  // The canonical text and the text behind a sign id, line by line, as the
  // front end builds them.
  lemma CanonicalLayout(p: TokenPayload)
    ensures BuildCanonicalInput(p)
         == "mirrors-pow-v1\n" + ("mode=" + p.mode + "\n") + ("ip=" + (if p.mode == "ip_bound" then p.ip else "") + "\n")
            + ("path=" + p.path + "\n") + ("ts=" + Decimal.Format(p.timestamp) + "\n")
            + ("exp=" + Decimal.Format(p.expiresAt) + "\n") + ("difficulty=" + Decimal.Format(p.difficulty) + "\n")
            + ("cnt=" + p.counter + "\n") + ("salt=" + p.salt + "\n")
  {
    assert "mirrors-pow-v1" + "\n" == "mirrors-pow-v1\n";
    assert "mode" + "=" == "mode=" && "ip" + "=" == "ip=" && "path" + "=" == "path=" && "ts" + "=" == "ts=";
    assert "exp" + "=" == "exp=" && "difficulty" + "=" == "difficulty=" && "cnt" + "=" == "cnt=" && "salt" + "=" == "salt=";
  }

  lemma SignIDLayout(p: TokenPayload, sign: string, mode: string)
    ensures SignIDPreimage(p, sign, mode)
         == "mirrors-pow-sign-id-v2\n" + ("mode=" + mode + "\n") + ("canonical=" + BuildCanonicalInput(p) + "\n")
            + ("sign=" + sign + "\n")
  {
    assert "mirrors-pow-sign-id-v2" + "\n" == "mirrors-pow-sign-id-v2\n";
    assert "mode" + "=" == "mode=" && "canonical" + "=" == "canonical=" && "sign" + "=" == "sign=";
  }

  // ------------------------------------------------------------- decoding

  datatype Fields = Fields(
    mode: string, ip: string, path: string, ts: int, exp: int, difficulty: int, cnt: string, salt: string)

  function FieldsOf(p: TokenPayload): Fields {
    Fields(p.mode, CanonicalIP(p), p.path, p.timestamp, p.expiresAt, p.difficulty, p.counter, p.salt)
  }

  // Splits `rest + key=value\n` into rest and value, from the right.
  function TakeLast(s: string, key: string): Option<(string, string)> {
    if s == [] || s[|s| - 1] != '\n' then None
    else
      var body := s[..|s| - 1];
      var i := AfterLast(body, '\n');
      match StripPrefix(body[i..], key + "=")
      case None => None
      case Some(value) => Some((body[..i], value))
  }

  // Splits `key=value\n + rest` into value and rest, from the left.
  function TakeFirst(s: string, key: string): Option<(string, string)> {
    if !HasPrefix(s, key + "=") then None
    else
      var body := s[|key| + 1..];
      var i := IndexOf(body, '\n');
      if i < |body| then Some((body[..i], body[i + 1..])) else None
  }

  function StripPrefix(s: string, prefix: string): Option<string> {
    if HasPrefix(s, prefix) then Some(s[|prefix|..]) else None
  }

  // Six fields from the right, then the mode from the left; what remains
  // between them is the IP, whatever characters it holds.
  function ParseCanonical(s: string): Option<Fields> {
    match TakeLast(s, "salt") case None => None case Some((s1, salt)) =>
    match TakeLast(s1, "cnt") case None => None case Some((s2, cnt)) =>
    match TakeLast(s2, "difficulty") case None => None case Some((s3, d)) =>
    match ParseTimes(s3) case None => None case Some((s6, path, ts, exp)) =>
    match ParseHead(s6) case None => None case Some((mode, ip)) =>
    Some(Fields(mode, ip, path, Decimal.Parse(ts), Decimal.Parse(exp), Decimal.Parse(d), cnt, salt))
  }

  function ParseTimes(s: string): Option<(string, string, string, string)> {
    match TakeLast(s, "exp") case None => None case Some((s4, exp)) =>
    match TakeLast(s4, "ts") case None => None case Some((s5, ts)) =>
    match TakeLast(s5, "path") case None => None case Some((s6, path)) => Some((s6, path, ts, exp))
  }

  function ParseHead(s: string): Option<(string, string)> {
    match StripPrefix(s, CANONICAL_PREFIX + "\n") case None => None case Some(s7) =>
    match TakeFirst(s7, "mode") case None => None case Some((mode, s8)) =>
    if HasPrefix(s8, "ip=") && |s8| > 3 then Some((mode, s8[3..|s8| - 1])) else None
  }

  // The mode, the canonical text and the sign inside a sign-id pre-image.
  function ParsePreimage(s: string): Option<(string, string, string)> {
    match TakeLast(s, "sign") case None => None case Some((s1, sign)) =>
    match StripPrefix(s1, SIGN_ID_VERSION + "\n") case None => None case Some(s2) =>
    match TakeFirst(s2, "mode") case None => None case Some((mode, s3)) =>
    if HasPrefix(s3, "canonical=") && |s3| > |"canonical="| then Some((mode, s3[|"canonical="|..|s3| - 1], sign)) else None
  }

  lemma TakeLastField(rest: string, key: string, value: string)
    requires rest == [] || rest[|rest| - 1] == '\n'
    requires '\n' !in key && '\n' !in value
    ensures TakeLast(rest + Field(key, value), key) == Some((rest, value))
  {
    var s, line := rest + Field(key, value), key + "=" + value;
    var body := s[..|s| - 1];
    assert body == rest + line;
    AfterLastSeparator(rest, '\n', line);
    SplitAt(rest, line);
    PrefixStrips(key + "=", value);
  }

  lemma TakeFirstField(key: string, value: string, rest: string)
    requires '\n' !in value
    ensures TakeFirst(Field(key, value) + rest, key) == Some((value, rest))
  {
    var s := Field(key, value) + rest;
    assert s[|key| + 1..] == value + "\n" + rest;
    IndexOfSeparator(value, '\n', rest);
    assert (value + "\n" + rest)[..|value|] == value && (value + "\n" + rest)[|value| + 1..] == rest;
  }

  lemma DigitsHaveNoNewline(n: int)
    ensures '\n' !in Decimal.Format(n)
  {
  }

  // A field peeled off the right is free of newlines.
  lemma TakenIsOneLine(s: string, key: string)
    ensures TakeLast(s, key).Some? ==> '\n' !in TakeLast(s, key).value.1
  {
    if TakeLast(s, key).Some? {
      var body := s[..|s| - 1];
      var line := body[AfterLast(body, '\n')..];
      assert forall c :: c in line[|key + "="|..] ==> c in line;
    }
  }

  // Every payload that validation accepts can be read back from its
  // canonical text: mode, IP (any characters at all), path, times,
  // difficulty, counter and salt. Validation with options guarantees a
  // newline-free salt; without options the salt is unchecked, and then the
  // text decodes exactly when the salt happens to be newline-free.
  lemma CanonicalDecodes(lib: Library, p: TokenPayload, opts: Option<ValidatorOptions>)
    requires ValidatePayload(lib, p, opts).None?
    requires '\n' !in p.mode
    ensures ParseCanonical(BuildCanonicalInput(p)) == Some(FieldsOf(p)) <==> '\n' !in p.salt
    ensures opts.Some? ==> '\n' !in p.salt
    ensures p.mode in {IP_BOUND, GENERIC} ==> FieldsOf(p).ip == p.ip
  {
    if '\n' in p.salt {
      TakenIsOneLine(BuildCanonicalInput(p), "salt");
    } else {
      CanonicalRoundTrip(p);
    }
  }

  // Accepted without options, and not read back.
  const NEWLINE_SALT := TokenPayload(1, GENERIC, "sha256", "", "/", 1, 2, 0, "0", "\n")

  lemma NewlineSaltIsNotReadBack(lib: Library)
    requires lib.equalFold("sha256", "sha256")
    ensures ValidatePayload(lib, NEWLINE_SALT, None).None?
    ensures ParseCanonical(BuildCanonicalInput(NEWLINE_SALT)) != Some(FieldsOf(NEWLINE_SALT))
  {
    assert !HasControl("/") by { assert forall i :: 0 <= i < |"/"| ==> "/"[i] == '/'; }
    assert ValidatePayload(lib, NEWLINE_SALT, None).None?;
    CanonicalDecodes(lib, NEWLINE_SALT, None);
  }

  lemma CanonicalRoundTrip(p: TokenPayload)
    requires '\n' !in p.mode && '\n' !in p.path && '\n' !in p.counter && '\n' !in p.salt
    ensures ParseCanonical(BuildCanonicalInput(p)) == Some(FieldsOf(p))
  {
    var ts, exp, d := Decimal.Format(p.timestamp), Decimal.Format(p.expiresAt), Decimal.Format(p.difficulty);
    DigitsHaveNoNewline(p.timestamp);
    DigitsHaveNoNewline(p.expiresAt);
    DigitsHaveNoNewline(p.difficulty);
    Decimal.ParseOfFormat(p.timestamp);
    Decimal.ParseOfFormat(p.expiresAt);
    Decimal.ParseOfFormat(p.difficulty);
    var s6 := CANONICAL_PREFIX + "\n" + Field("mode", p.mode) + Field("ip", CanonicalIP(p));
    HeadRoundTrip(p.mode, CanonicalIP(p));
    var s3 := s6 + Field("path", p.path) + Field("ts", ts) + Field("exp", exp);
    TimesRoundTrip(s6, p.path, ts, exp);
    TailRoundTrip(s3, d, p.counter, p.salt);
  }

  // The last three fields, taken off from the right.
  lemma TailRoundTrip(s3: string, d: string, cnt: string, salt: string)
    requires s3 != [] && s3[|s3| - 1] == '\n' && '\n' !in d && '\n' !in cnt && '\n' !in salt
    ensures TakeLast(s3 + Field("difficulty", d) + Field("cnt", cnt) + Field("salt", salt), "salt")
         == Some((s3 + Field("difficulty", d) + Field("cnt", cnt), salt))
    ensures TakeLast(s3 + Field("difficulty", d) + Field("cnt", cnt), "cnt") == Some((s3 + Field("difficulty", d), cnt))
    ensures TakeLast(s3 + Field("difficulty", d), "difficulty") == Some((s3, d))
  {
    TakeLastField(s3 + Field("difficulty", d) + Field("cnt", cnt), "salt", salt);
    TakeLastField(s3 + Field("difficulty", d), "cnt", cnt);
    TakeLastField(s3, "difficulty", d);
  }

  lemma TimesRoundTrip(s6: string, path: string, ts: string, exp: string)
    requires s6 != [] && s6[|s6| - 1] == '\n' && '\n' !in path && '\n' !in ts && '\n' !in exp
    ensures ParseTimes(s6 + Field("path", path) + Field("ts", ts) + Field("exp", exp)) == Some((s6, path, ts, exp))
  {
    TakeLastField(s6 + Field("path", path) + Field("ts", ts), "exp", exp);
    TakeLastField(s6 + Field("path", path), "ts", ts);
    TakeLastField(s6, "path", path);
  }

  lemma HeadRoundTrip(mode: string, ip: string)
    requires '\n' !in mode
    ensures ParseHead(CANONICAL_PREFIX + "\n" + Field("mode", mode) + Field("ip", ip)) == Some((mode, ip))
  {
    var s8 := Field("ip", ip);
    var s7 := Field("mode", mode) + s8;
    PrefixStrips(CANONICAL_PREFIX + "\n", s7);
    assert CANONICAL_PREFIX + "\n" + Field("mode", mode) + s8 == (CANONICAL_PREFIX + "\n") + s7;
    TakeFirstField("mode", mode, s8);
    assert s8[3..|s8| - 1] == ip;
  }

  lemma PrefixStrips(prefix: string, rest: string)
    ensures StripPrefix(prefix + rest, prefix) == Some(rest)
  {
    assert (prefix + rest)[|prefix|..] == rest;
  }

  lemma PreimageDecodes(p: TokenPayload, sign: string, mode: string)
    requires '\n' !in sign && '\n' !in mode
    ensures ParsePreimage(SignIDPreimage(p, sign, mode)) == Some((mode, BuildCanonicalInput(p), sign))
  {
    var canonical := BuildCanonicalInput(p);
    PreimageRoundTrip(mode, canonical, sign);
  }

  lemma PreimageRoundTrip(mode: string, canonical: string, sign: string)
    requires '\n' !in sign && '\n' !in mode
    ensures ParsePreimage(SIGN_ID_VERSION + "\n" + Field("mode", mode) + Field("canonical", canonical) + Field("sign", sign))
         == Some((mode, canonical, sign))
  {
    var s3 := Field("canonical", canonical);
    var s2 := Field("mode", mode) + s3;
    var s1 := SIGN_ID_VERSION + "\n" + Field("mode", mode) + s3;
    TakeLastField(s1, "sign", sign);
    assert s1 == (SIGN_ID_VERSION + "\n") + s2;
    PrefixStrips(SIGN_ID_VERSION + "\n", s2);
    TakeFirstField("mode", mode, s3);
    assert s3[|"canonical="|..|s3| - 1] == canonical;
  }

  // Sign-id pre-images coincide only for equal fields, mode and sign.
  lemma PreimageDeterminesFields(lib: Library, p: TokenPayload, q: TokenPayload, po: ValidatorOptions, qo: ValidatorOptions,
                                 sign: string, sign': string)
    requires ValidatePayload(lib, p, Some(po)).None? && ValidatePayload(lib, q, Some(qo)).None?
    requires '\n' !in p.mode && '\n' !in q.mode && '\n' !in sign && '\n' !in sign'
    requires SignIDPreimage(p, sign, p.mode) == SignIDPreimage(q, sign', q.mode)
    ensures FieldsOf(p) == FieldsOf(q) && sign == sign'
  {
    PreimageDecodes(p, sign, p.mode);
    PreimageDecodes(q, sign', q.mode);
    CanonicalDecodes(lib, p, Some(po));
    CanonicalDecodes(lib, q, Some(qo));
  }
}
