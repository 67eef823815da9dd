// Decimal text: `to_string` on integers and `str::parse::<i64>` / `str::parse::<usize>`.
module Decimal {
  import opened Prelude

  const MINUS: byte := 45
  const PLUS: byte := 43
  const ZERO: byte := 48

  predicate IsDigit(b: byte) { 48 <= b <= 57 }

  predicate AllDigits(t: bytes) { forall i :: 0 <= i < |t| ==> IsDigit(t[i]) }

  predicate IsI64(i: int) { -0x8000_0000_0000_0000 <= i < 0x8000_0000_0000_0000 }

  function NatText(n: nat): (t: bytes)
    ensures t != [] && AllDigits(t)
  {
    if n < 10 then [ZERO + n] else NatText(n / 10) + [ZERO + n % 10]
  }

  function IntText(i: int): bytes {
    if i < 0 then [MINUS] + NatText(-i) else NatText(i)
  }

  function DigitsValue(t: bytes): nat
    requires AllDigits(t)
  {
    if t == [] then 0 else DigitsValue(t[..|t| - 1]) * 10 + (t[|t| - 1] - ZERO)
  }

  // The digits after an optional sign; a sign alone or an empty text is refused.
  function ParseNat(t: bytes): Option<nat> {
    if t != [] && AllDigits(t) then Some(DigitsValue(t)) else None
  }

  function ParseI64(t: bytes): Option<int> {
    if t != [] && t[0] == MINUS then
      var n := ParseNat(t[1..]);
      if n.Some? then (var v: int := n.value; if IsI64(-v) then Some(-v) else None) else None
    else
      var n := ParseNat(if t != [] && t[0] == PLUS then t[1..] else t);
      if n.Some? && IsI64(n.value) then Some(n.value) else None
  }

  function ParseUsize(t: bytes): Option<nat> {
    var n := ParseNat(if t != [] && t[0] == PLUS then t[1..] else t);
    if n.Some? && n.value < U64 then n else None
  }

  lemma {:induction false} NatTextValue(n: nat)
    ensures DigitsValue(NatText(n)) == n
  {
    if n >= 10 {
      NatTextValue(n / 10);
      var t := NatText(n);
      assert t[..|t| - 1] == NatText(n / 10);
    } else {
      assert NatText(n)[..0] == [];
    }
  }

  // A number is written canonically when it has no superfluous leading zero.
  predicate CanonicalNat(t: bytes) {
    t != [] && AllDigits(t) && (t[0] == ZERO ==> |t| == 1)
  }

  // ... and no plus sign and no negative zero.
  predicate CanonicalInt(t: bytes) {
    if t != [] && t[0] == MINUS then CanonicalNat(t[1..]) && t[1] != ZERO else CanonicalNat(t)
  }

  lemma {:induction false} NatTextCanonical(n: nat)
    ensures CanonicalNat(NatText(n))
    ensures n > 0 ==> NatText(n)[0] != ZERO
  {
    if n >= 10 {
      NatTextCanonical(n / 10);
    }
  }

  lemma {:induction false} CanonicalNatIsText(t: bytes)
    requires CanonicalNat(t)
    ensures NatText(DigitsValue(t)) == t
    ensures t[0] != ZERO ==> DigitsValue(t) > 0
  {
    var init, last := t[..|t| - 1], t[|t| - 1];
    if init == [] {
      assert t == [last];
      assert DigitsValue(init) == 0;
    } else {
      CanonicalNatIsText(init);
      var v := DigitsValue(init);
      assert DigitsValue(t) / 10 == v && DigitsValue(t) % 10 == last - ZERO;
      assert t == init + [last];
    }
  }

  // Canonical texts are exactly the ones `to_string` writes.
  lemma CanonicalNatExactly(t: bytes)
    requires t != [] && AllDigits(t)
    ensures CanonicalNat(t) <==> t == NatText(DigitsValue(t))
  {
    if CanonicalNat(t) {
      CanonicalNatIsText(t);
    } else {
      NatTextCanonical(DigitsValue(t));
    }
  }

  lemma CanonicalIntExactly(t: bytes)
    requires ParseI64(t).Some?
    ensures CanonicalInt(t) <==> t == IntText(ParseI64(t).value)
  {
    if t[0] == MINUS {
      var d := t[1..];
      CanonicalNatExactly(d);
      NatTextCanonical(DigitsValue(d));
      assert t == [MINUS] + d;
      if CanonicalInt(t) {
        CanonicalNatIsText(d);
        assert DigitsValue(d) > 0;
      } else {
        assert IntText(0) == [ZERO];
        var v: int := DigitsValue(d);
        assert v > 0 ==> IntText(-v)[1..] == NatText(v);
      }
    } else if t[0] == PLUS {
      var v := ParseI64(t).value;
      assert IsDigit(IntText(v)[0]);
    } else {
      CanonicalNatExactly(t);
    }
  }

  lemma ParseIntText(i: int)
    requires IsI64(i)
    ensures ParseI64(IntText(i)) == Some(i)
  {
    if i < 0 {
      NatTextValue(-i);
      assert IntText(i)[1..] == NatText(-i);
    } else {
      NatTextValue(i);
      assert IsDigit(NatText(i)[0]);
    }
  }

  lemma ParseNatText(n: nat)
    requires n < U64
    ensures ParseUsize(NatText(n)) == Some(n)
  {
    NatTextValue(n);
    assert IsDigit(NatText(n)[0]);
  }

  // --- places ---

  // The number without its last k digits.
  function Without(n: nat, k: nat): nat { if k == 0 then n else Without(n / 10, k - 1) }

  // The k-th digit from the right is the last one of the number without its last k digits.
  lemma {:induction false} DigitsHavePlaces(t: bytes, k: nat)
    requires AllDigits(t)
    ensures Without(DigitsValue(t), |t|) == 0
    ensures k < |t| ==> t[|t| - 1 - k] == Ascii("0123456789")[Without(DigitsValue(t), k) % 10]
  {
    if t != [] {
      var init, d := t[..|t| - 1], t[|t| - 1] - ZERO;
      var v := DigitsValue(t);
      DigitsHavePlaces(init, if k > 0 then k - 1 else 0);
      assert v / 10 == DigitsValue(init) && v % 10 == d;
    }
  }

  // The text of a number, digit by digit, without a leading zero except for 0 itself.
  lemma NatTextIs(n: nat, k: nat)
    ensures var t := NatText(n);
            && Without(n, |t|) == 0 && (|t| > 1 ==> t[0] != Ascii("0")[0])
            && (k < |t| ==> t[|t| - 1 - k] == Ascii("0123456789")[Without(n, k) % 10])
  {
    NatTextValue(n);
    NatTextCanonical(n);
    DigitsHavePlaces(NatText(n), k);
  }
}
