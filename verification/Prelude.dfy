// Vocabulary shared by every module: bytes, digests, Option/Result and sums over sequences.
module Prelude {
  type byte = x: int | 0 <= x < 256
  type bytes = seq<byte>

  // The 20-byte output of SHA-1. The hash itself is always a parameter `H: bytes -> Digest`.
  type Digest = d: bytes | |d| == 20 witness seq(20, _ => 0)

  const U32: nat := 0x1_0000_0000
  const U64: nat := 0x1_0000_0000_0000_0000

  datatype Option<+T> = None | Some(value: T)

  datatype Result<+T, +E> = Ok(value: T) | Err(error: E) {
    predicate IsFailure() { Err? }

    function PropagateFailure<U>(): Result<U, E>
      requires Err?
    {
      Err(error)
    }

    function Extract(): T
      requires Ok?
    {
      value
    }
  }

  function Min(a: int, b: int): int { if a < b then a else b }

  // The bytes of a text of ASCII characters.
  function Ascii(text: string): (b: bytes)
    requires forall i :: 0 <= i < |text| ==> (text[i] as int) < 128
    ensures |b| == |text|
  {
    seq(|text|, i requires 0 <= i < |text| => text[i] as int)
  }

  // Rust's `saturating_sub` on unsigned integers.
  function SaturatingSub(a: nat, b: nat): nat { if b <= a then a - b else 0 }

  function CeilDiv(a: nat, b: nat): nat
    requires b > 0
  {
    (a + b - 1) / b
  }

  lemma CeilDivBounds(a: nat, b: nat)
    requires b > 0
    ensures a <= CeilDiv(a, b) * b < a + b
  {
    var q := CeilDiv(a, b);
    assert a + b - 1 == q * b + (a + b - 1) % b;
  }

  // CeilDiv is determined by its bounds.
  lemma CeilDivUnique(a: nat, b: nat, q: nat)
    requires b > 0
    requires a <= q * b < a + b
    ensures q == CeilDiv(a, b)
  {
    CeilDivBounds(a, b);
    var c := CeilDiv(a, b);
    if q < c {
      MulLess(q, c, b);
    } else if c < q {
      MulLess(c, q, b);
    }
  }

  lemma MulLess(a: nat, b: nat, k: nat)
    requires a < b
    ensures a * k + k <= b * k
  {
    assert (a + 1) * k <= b * k;
  }

  lemma MulNext(a: nat, k: nat)
    ensures (a + 1) * k == a * k + k
  {
  }

  // `f` overwritten with `data` from `at` on, clipped at the end of `f`.
  function Splice(f: bytes, at: nat, data: bytes): (r: bytes)
    ensures |r| == |f|
  {
    if at >= |f| then f
    else
      var n := Min(|data|, |f| - at);
      f[..at] + data[..n] + f[at + n..]
  }

  // Byte by byte.
  lemma SpliceAt(f: bytes, at: nat, data: bytes, x: nat)
    requires x < |f|
    ensures Splice(f, at, data)[x] == if at <= x < at + |data| then data[x - at] else f[x]
  {
  }

  lemma ConcatAssoc<T>(x: seq<T>, y: seq<T>, z: seq<T>)
    ensures x + (y + z) == x + y + z
  {
  }

  lemma SliceOfSlice<T>(s: seq<T>, lo: nat, hi: nat, a: nat, b: nat)
    requires lo <= hi <= |s| && a <= b <= hi - lo
    ensures s[lo..hi][a..b] == s[lo + a..lo + b]
  {
    forall i | 0 <= i < b - a ensures s[lo..hi][a..b][i] == s[lo + a..lo + b][i] {
    }
    assert |s[lo..hi][a..b]| == |s[lo + a..lo + b]|;
  }

  // A prefix of `s` written in two parts.
  lemma PrefixInParts<T>(s: seq<T>, k: nat, n: nat, x: seq<T>, y: seq<T>)
    requires k <= n <= |s|
    ensures |x| == k ==> (x + y == s[..n] <==> x == s[..k] && y == s[k..][..n - k])
  {
    assert s[..n] == s[..k] + s[k..][..n - k];
    if |x| == k && x + y == s[..n] {
      assert (x + y)[..k] == x && (x + y)[k..] == y;
      assert s[..n][..k] == s[..k] && s[..n][k..] == s[k..][..n - k];
    }
  }

  lemma PrefixAndRest<T>(s: seq<T>, n: nat, x: seq<T>, y: seq<T>)
    requires n <= |s| && x + y == s[..n]
    ensures s == x + (y + s[n..])
  {
    assert s == s[..n] + s[n..];
  }

  // A splice inside a slice is a splice of that slice; beside a slice it does not touch it.
  lemma SpliceInside(f: bytes, at: nat, data: bytes, lo: nat, hi: nat)
    requires lo <= at <= at + |data| <= hi <= |f|
    ensures Splice(f, at, data)[lo..hi] == f[lo..at] + data + f[at + |data|..hi]
  {
    if at < |f| {
      assert data[..|data|] == data;
    }
  }

  lemma SpliceBeside(f: bytes, at: nat, data: bytes, lo: nat, hi: nat)
    requires lo <= hi <= |f| && (hi <= at || at + |data| <= lo)
    ensures Splice(f, at, data)[lo..hi] == f[lo..hi]
  {
  }

  // --- sums over sequences ---

  function SumBy<T>(f: T -> nat, s: seq<T>): nat {
    if s == [] then 0 else f(s[0]) + SumBy(f, s[1..])
  }

  lemma {:induction false} SumByConcat<T>(f: T -> nat, a: seq<T>, b: seq<T>)
    ensures SumBy(f, a + b) == SumBy(f, a) + SumBy(f, b)
  {
    if a == [] {
      assert a + b == b;
    } else {
      assert (a + b)[1..] == a[1..] + b;
      SumByConcat(f, a[1..], b);
    }
  }

  lemma SumBySplit<T>(f: T -> nat, s: seq<T>, i: nat)
    requires i < |s|
    ensures SumBy(f, s) == SumBy(f, s[..i]) + f(s[i]) + SumBy(f, s[i + 1..])
  {
    assert s == s[..i] + s[i..];
    SumByConcat(f, s[..i], s[i..]);
    assert s[i..][1..] == s[i + 1..];
  }

  lemma SumByUpdate<T>(f: T -> nat, s: seq<T>, i: nat, x: T)
    requires i < |s|
    ensures SumBy(f, s[i := x]) + f(s[i]) == SumBy(f, s) + f(x)
  {
    SumBySplit(f, s, i);
    SumBySplit(f, s[i := x], i);
    assert s[i := x][..i] == s[..i];
    assert s[i := x][i + 1..] == s[i + 1..];
  }

  lemma SumByRemove<T>(f: T -> nat, s: seq<T>, i: nat)
    requires i < |s|
    ensures SumBy(f, s[..i] + s[i + 1..]) + f(s[i]) == SumBy(f, s)
  {
    SumBySplit(f, s, i);
    SumByConcat(f, s[..i], s[i + 1..]);
  }

  lemma SumByAppend<T>(f: T -> nat, s: seq<T>, x: T)
    ensures SumBy(f, s + [x]) == SumBy(f, s) + f(x)
  {
    SumByConcat(f, s, [x]);
    assert [x][1..] == [];
  }

  // An element never weighs more than the whole.
  lemma SumByMember<T>(f: T -> nat, s: seq<T>, i: nat)
    requires i < |s|
    ensures f(s[i]) <= SumBy(f, s)
  {
    SumBySplit(f, s, i);
  }

  // Two positions together never weigh more than the whole.
  lemma SumByTwoMembers<T>(f: T -> nat, s: seq<T>, i: nat, j: nat)
    requires i < j < |s|
    ensures f(s[i]) + f(s[j]) <= SumBy(f, s)
  {
    SumBySplit(f, s, i);
    SumByMember(f, s[i + 1..], j - i - 1);
    assert s[i + 1..][j - i - 1] == s[j];
  }

  // Sums compare as their terms do.
  lemma {:induction false} SumByAtMost<T>(f: T -> nat, h: T -> nat, c: nat, s: seq<T>)
    requires forall x :: x in s ==> f(x) <= c * h(x)
    ensures SumBy(f, s) <= c * SumBy(h, s)
  {
    if s != [] {
      SumByAtMost(f, h, c, s[1..]);
      assert s[0] in s;
      assert c * (h(s[0]) + SumBy(h, s[1..])) == c * h(s[0]) + c * SumBy(h, s[1..]);
    }
  }

  lemma {:induction false} SumByAdd<T>(f: T -> nat, g: T -> nat, h: T -> nat, s: seq<T>)
    requires forall x :: x in s ==> f(x) == g(x) + h(x)
    ensures SumBy(f, s) == SumBy(g, s) + SumBy(h, s)
  {
    if s != [] {
      SumByAdd(f, g, h, s[1..]);
      assert s[0] in s;
    }
  }

  lemma {:induction false} SumByWitness<T>(f: T -> nat, s: seq<T>) returns (i: nat)
    requires SumBy(f, s) > 0
    ensures i < |s| && f(s[i]) > 0
  {
    if f(s[0]) > 0 {
      i := 0;
    } else {
      var j := SumByWitness(f, s[1..]);
      i := j + 1;
    }
  }
}
