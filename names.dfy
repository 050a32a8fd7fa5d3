/** Generated names: `genForVariableName` (src/translator.cpp:613-620) appends the value
    of a global counter, printed in decimal, to a prefix (`__arg`, `__fbound`, ...). */
module Names {

  function Digit(d: nat): (c: char)
    requires d < 10
    ensures '0' <= c <= '9'
  {
    "0123456789"[d]
  }

  /** `n` printed in decimal, as `operator<<` on a stringstream prints it. */
  function NatToString(n: nat): (s: string)
    ensures |s| >= 1
    ensures forall i :: 0 <= i < |s| ==> '0' <= s[i] <= '9'
    ensures n < 10 <==> |s| == 1
  {
    if n < 10 then [Digit(n)] else NatToString(n / 10) + [Digit(n % 10)]
  }

  lemma DigitInjective(a: nat, b: nat)
    requires a < 10 && b < 10 && Digit(a) == Digit(b)
    ensures a == b
  {
  }

  /** Different counter values print differently, so no generated name repeats. */
  lemma {:induction false} NatToStringInjective(a: nat, b: nat)
    requires NatToString(a) == NatToString(b)
    ensures a == b
  {
    var s := NatToString(a);
    if a < 10 || b < 10 {
      if a < 10 && b < 10 { DigitInjective(a, b); }
    } else {
      var sa, sb := NatToString(a / 10), NatToString(b / 10);
      assert sa + [Digit(a % 10)] == sb + [Digit(b % 10)];
      assert |sa| == |sb|;
      assert sa == (sa + [Digit(a % 10)])[..|sa|];
      assert sb == (sb + [Digit(b % 10)])[..|sb|];
      NatToStringInjective(a / 10, b / 10);
      assert s[|s| - 1] == Digit(a % 10) == Digit(b % 10);
      DigitInjective(a % 10, b % 10);
    }
  }

  /** The name `genForVariableName(prefix)` returns when the counter holds `counter`. */
  function GenName(prefix: string, counter: nat): string
  {
    prefix + NatToString(counter)
  }

  lemma GenNameInjective(prefix: string, a: nat, b: nat)
    requires GenName(prefix, a) == GenName(prefix, b)
    ensures a == b
  {
    assert NatToString(a) == GenName(prefix, a)[|prefix|..];
    assert NatToString(b) == GenName(prefix, b)[|prefix|..];
    NatToStringInjective(a, b);
  }
}
