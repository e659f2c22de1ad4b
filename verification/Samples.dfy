// A token that validates under every hash that accepts its sign, for the
// inputs on which a property fails.
module Samples {
  import opened Prelude
  import opened Token
  import opened Auth

  const ZERO_SIGN := seq(64, _ => '0')
  const LAX_MODE := ModeSettings(true, 0, 0, 0)

  function LaxConfig(grace: int): Config {
    Config(true, false, false, 100, 100, [], true, "sha256", LAX_MODE, LAX_MODE, 1, false, grace, false, false)
  }

  // Good for one second from 10 on, with an empty IP and no difficulty.
  function LaxToken(mode: string): TokenPayload {
    TokenPayload(1, mode, "sha256", "", "/", 10, 11, 0, "0", "")
  }

  lemma LaxTokenPasses(lib: Library, grace: int, mode: string)
    requires mode == IP_BOUND || mode == GENERIC
    requires lib.equalFold("sha256", "sha256")
    requires var computed := lib.sha256Hex(BuildCanonicalInput(LaxToken(mode))); computed != "" && lib.equalFold(computed, ZERO_SIGN)
    ensures ValidateTokenForMode(lib, LaxConfig(grace), LaxToken(mode), mode, "/", ZERO_SIGN, 10).None?
  {
    var p := LaxToken(mode);
    assert !HasControl("/") by { assert forall i :: 0 <= i < |"/"| ==> "/"[i] == '/'; }
    assert ValidatePayload(lib, p, Some(ModeConfigFor(LaxConfig(grace), mode).value.opts)).None?;
    assert CheckSignAndDifficulty(lib, p, ZERO_SIGN).None?;
  }
}
