/**
  Byte strings: big-endian integers (`to_be_bytes`/`from_be_bytes`) and the
  lexicographic order in which a key-value store lists its keys.
*/
module Bytes {

  type Byte = x: int | 0 <= x < 256

  const TWO_64: nat := 0x1_0000_0000_0000_0000
  const TWO_32: nat := 0x1_0000_0000

  function Pow256(width: nat): (p: nat)
    ensures p > 0
  {
    if width == 0 then 1 else 256 * Pow256(width - 1)
  }

  /** The `width` big-endian bytes of `n`; higher digits are cut off, as a cast does. */
  function ToBE(n: nat, width: nat): (s: seq<Byte>)
    ensures |s| == width
  {
    if width == 0 then [] else ToBE(n / 256, width - 1) + [n % 256]
  }

  function FromBE(s: seq<Byte>): (n: nat)
    ensures n < Pow256(|s|)
  {
    if s == [] then 0 else FromBE(s[..|s| - 1]) * 256 + s[|s| - 1]
  }

  lemma {:induction false} FromToBE(n: nat, width: nat)
    requires n < Pow256(width)
    ensures FromBE(ToBE(n, width)) == n
  {
    if width > 0 {
      FromToBE(n / 256, width - 1);
      var s := ToBE(n, width);
      assert s[..|s| - 1] == ToBE(n / 256, width - 1);
    }
  }

  lemma {:induction false} ToFromBE(s: seq<Byte>)
    ensures ToBE(FromBE(s), |s|) == s
  {
    if s != [] {
      ToFromBE(s[..|s| - 1]);
      assert s == s[..|s| - 1] + [s[|s| - 1]];
      var hi, lo := FromBE(s[..|s| - 1]), s[|s| - 1];
      assert (hi * 256 + lo) / 256 == hi && (hi * 256 + lo) % 256 == lo;
    }
  }

  lemma Widths()
    ensures Pow256(4) == TWO_32 && Pow256(8) == TWO_64
  {
    assert Pow256(1) == 256 && Pow256(2) == 0x1_0000 && Pow256(3) == 0x100_0000;
    assert Pow256(5) == 0x100_0000_0000 && Pow256(6) == 0x1_0000_0000_0000 && Pow256(7) == 0x100_0000_0000_0000;
  }

  /** Lexicographic order, shorter first on a tie: the order of keys in the store, and of `str`. */
  predicate LexLt(a: seq<int>, b: seq<int>) {
    b != [] && (a == [] || a[0] < b[0] || (a[0] == b[0] && LexLt(a[1..], b[1..])))
  }

  predicate LexLe(a: seq<int>, b: seq<int>) {
    !LexLt(b, a)
  }

  lemma SameStart(a: seq<int>, b: seq<int>, n: nat)
    ensures 0 < n <= |a| && n <= |b| && a[..n] == b[..n] ==> a[0] == b[0]
  {
    if 0 < n <= |a| && n <= |b| {
      assert a[..n][0] == a[0] && b[..n][0] == b[0];
    }
  }

  /** It is the first difference that decides, or the end of the shorter. */
  lemma {:induction false} LexLtIff(a: seq<int>, b: seq<int>)
    ensures LexLt(a, b) <==> exists n :: 0 <= n <= |a| && n < |b| && a[..n] == b[..n] && (n == |a| || a[n] < b[n])
  {
    if a != [] && b != [] && a[0] == b[0] {
      LexLtIff(a[1..], b[1..]);
      if LexLt(a, b) {
        var n :| 0 <= n <= |a| - 1 && n < |b| - 1 && a[1..][..n] == b[1..][..n] && (n == |a| - 1 || a[1..][n] < b[1..][n]);
        assert a[..n + 1] == [a[0]] + a[1..][..n] && b[..n + 1] == [b[0]] + b[1..][..n];
      }
      if n :| 0 <= n <= |a| && n < |b| && a[..n] == b[..n] && (n == |a| || a[n] < b[n]) {
        assert a[1..][..n - 1] == a[..n][1..] && b[1..][..n - 1] == b[..n][1..];
      }
    } else if a != [] && b != [] {
      assert a[..0] == b[..0];
      forall n: nat { SameStart(a, b, n); }
    } else if b != [] {
      assert a[..0] == b[..0];
    }
  }

  lemma {:induction false} LexAsymmetric(a: seq<int>, b: seq<int>)
    ensures !(LexLt(a, b) && LexLt(b, a))
    ensures LexLt(a, b) || LexLt(b, a) || a == b
  {
    if a != [] && b != [] && a[0] == b[0] {
      LexAsymmetric(a[1..], b[1..]);
      assert a == [a[0]] + a[1..] && b == [b[0]] + b[1..];
    }
  }

  lemma {:induction false} LexTransitive(a: seq<int>, b: seq<int>, c: seq<int>)
    ensures LexLt(a, b) && LexLt(b, c) ==> LexLt(a, c)
  {
    if a != [] && b != [] && c != [] && a[0] == b[0] == c[0] {
      LexTransitive(a[1..], b[1..], c[1..]);
    }
  }

  lemma {:induction false} LexPrefix(p: seq<int>, a: seq<int>, b: seq<int>)
    ensures LexLt(p + a, p + b) <==> LexLt(a, b)
  {
    if p == [] {
      assert p + a == a && p + b == b;
    } else {
      LexPrefix(p[1..], a, b);
      assert (p + a)[1..] == p[1..] + a && (p + b)[1..] == p[1..] + b;
    }
  }

  lemma {:induction false} LexLastDigit(a: seq<int>, b: seq<int>, x: int, y: int)
    requires |a| == |b|
    ensures LexLt(a + [x], b + [y]) <==> LexLt(a, b) || (a == b && x < y)
  {
    if a == [] {
      assert a + [x] == [x] && b + [y] == [y];
      assert [x][1..] == [] && [y][1..] == [];
    } else {
      assert (a + [x])[1..] == a[1..] + [x] && (b + [y])[1..] == b[1..] + [y];
      LexLastDigit(a[1..], b[1..], x, y);
      assert a == [a[0]] + a[1..] && b == [b[0]] + b[1..];
    }
  }

  /** Big-endian key order is numeric order. */
  lemma {:induction false} BigEndianOrder(m: nat, n: nat, width: nat)
    requires m < Pow256(width) && n < Pow256(width)
    ensures LexLt(ToBE(m, width), ToBE(n, width)) <==> m < n
  {
    if width > 0 {
      BigEndianOrder(m / 256, n / 256, width - 1);
      LexLastDigit(ToBE(m / 256, width - 1), ToBE(n / 256, width - 1), m % 256, n % 256);
      if ToBE(m / 256, width - 1) == ToBE(n / 256, width - 1) {
        FromToBE(m / 256, width - 1);
        FromToBE(n / 256, width - 1);
      }
    }
  }
}
