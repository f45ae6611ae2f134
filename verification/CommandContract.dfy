/** The acceptance checks of components/command-contract/src/main.c that compute something. */
module CommandContract {

  import opened Text

  const NANOSECONDS: int := 1_000_000_000

  predicate Representable(n: int) { -0x8000_0000_0000_0000 <= n < 0x8000_0000_0000_0000 }

  /** A timespec as clock_gettime fills it. */
  datatype Timespec = Timespec(seconds: int, nanoseconds: int) {
    predicate Normalized() { 0 <= nanoseconds < NANOSECONDS && Representable(seconds) }

    function Total(): int { seconds * NANOSECONDS + nanoseconds }
  }

  /** What a conversion to unsigned long long makes of a signed number. */
  function Unsigned(n: int): nat { n % WORD_MODULUS }

  /** Borrowing, splitting the budget and comparing in two parts decides exactly the unbounded comparison. */
  method TimeExceeded(started: Timespec, finished: Timespec, milliseconds: nat) returns (exceeded: bool)
    requires started.Normalized() && finished.Normalized() && milliseconds < WORD_MODULUS
    // Signed subtraction has no meaning in C where it overflows.
    requires Representable(finished.seconds - started.seconds)
    requires finished.nanoseconds < started.nanoseconds ==> Representable(finished.seconds - started.seconds - 1)
    ensures exceeded <==>
            var elapsed := finished.Total() - started.Total();
            elapsed < 0 || elapsed > milliseconds * 1_000_000
  {
    var seconds := finished.seconds - started.seconds;
    var nanoseconds := finished.nanoseconds - started.nanoseconds;
    if nanoseconds < 0 {
      seconds := seconds - 1;
      nanoseconds := nanoseconds + NANOSECONDS;
    }
    assert seconds * NANOSECONDS + nanoseconds == finished.Total() - started.Total() && 0 <= nanoseconds < NANOSECONDS;
    var maximumSeconds := milliseconds / 1000;
    var maximumNanoseconds := (milliseconds % 1000) * 1_000_000 % WORD_MODULUS;
    assert maximumSeconds * NANOSECONDS + maximumNanoseconds == milliseconds * 1_000_000;
    assert maximumNanoseconds < NANOSECONDS;
    exceeded := seconds < 0;
    if !exceeded {
      exceeded := Unsigned(seconds) > maximumSeconds;
    }
    if !exceeded && Unsigned(seconds) == maximumSeconds {
      exceeded := Unsigned(nanoseconds) > maximumNanoseconds;
    }
  }

  /** The machine sum may wrap; the finding is still that of the true sum. */
  method OutputExceeded(output: nat, errors: nat, maximum: nat) returns (exceeded: bool)
    requires output < WORD_MODULUS && errors < WORD_MODULUS && maximum < WORD_MODULUS
    ensures exceeded <==> output + errors > maximum
  {
    var total := (output + errors) % WORD_MODULUS;
    assert total == if output + errors < WORD_MODULUS then output + errors else output + errors - WORD_MODULUS;
    exceeded := total < output || total > maximum;
  }

  predicate FoundAt(data: string, text: string, k: nat) {
    k + |text| <= |data| && data[k..k + |text|] == text
  }

  /** text occurs somewhere in data. */
  ghost predicate Discloses(data: string, text: string) {
    exists before, after :: data == before + text + after
  }

  lemma DisclosureHasOffset(data: string, text: string)
    ensures Discloses(data, text) <==> exists k: nat :: FoundAt(data, text, k)
  {
    if Discloses(data, text) {
      var before, after :| data == before + text + after;
      assert FoundAt(data, text, |before|);
    }
    if k: nat :| FoundAt(data, text, k) {
      assert data == data[..k] + text + data[k + |text|..];
    }
  }

  /** captured_contains looks at every offset, also past NUL bytes. */
  method Contains(data: string, text: string) returns (found: bool)
    ensures found <==> Discloses(data, text)
  {
    DisclosureHasOffset(data, text);
    found := false;
    if |text| <= |data| {
      var offset := 0;
      while offset <= |data| - |text|
        invariant offset <= |data| - |text| + 1
        invariant !found && forall k :: 0 <= k < offset ==> !FoundAt(data, text, k)
      {
        if FoundAt(data, text, offset) {
          return true;
        }
        offset := offset + 1;
      }
    }
  }

  datatype Redaction = Refused | Clean | Disclosed

  /** An empty probe is refused: it would be disclosed by any output at all. */
  method CheckRedaction(output: string, errors: string, probe: string) returns (verdict: Redaction)
    ensures verdict == Refused <==> probe == ""
    ensures verdict == Disclosed <==>
            probe != "" && (Discloses(output, probe) || Discloses(errors, probe))
  {
    if probe == "" {
      return Refused;
    }
    var inOutput := Contains(output, probe);
    var inErrors := Contains(errors, probe);
    verdict := if inOutput || inErrors then Disclosed else Clean;
  }
}
