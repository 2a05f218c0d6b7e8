/** Splitting, searching and ordering strings the way `str` does. */
module Text {
  import opened Wrappers
  import opened Bytes
  import opened Sorting

  /** The first position of `c` in `s`, or `|s|`. */
  function IndexOf(s: string, c: char): (i: nat)
    ensures i <= |s|
    ensures forall j :: 0 <= j < i ==> s[j] != c
    ensures i < |s| ==> s[i] == c
  {
    if s == "" || s[0] == c then 0 else 1 + IndexOf(s[1..], c)
  }

  /** The last position of `c` in `s`. */
  function LastIndexOf(s: string, c: char): (i: Option<nat>)
    ensures i.None? ==> c !in s
    ensures i.Some? ==> i.value < |s| && s[i.value] == c && c !in s[i.value + 1..]
  {
    if s == "" then None
    else if s[|s| - 1] == c then Some(|s| - 1)
    else
      assert s == s[..|s| - 1] + [s[|s| - 1]];
      match LastIndexOf(s[..|s| - 1], c)
      case None => None
      case Some(i) =>
        assert s[i + 1..] == s[..|s| - 1][i + 1..] + [s[|s| - 1]];
        Some(i)
  }

  /** `split(c)`: the pieces between the occurrences of `c`, never empty as a list. */
  function Split(s: string, c: char): (parts: seq<string>)
    ensures |parts| > 0
    decreases |s|
  {
    var i := IndexOf(s, c);
    if i == |s| then [s] else [s[..i]] + Split(s[i + 1..], c)
  }

  predicate StartsWith(s: string, p: string) {
    p <= s
  }

  /** The first position where `p` starts in `s`. */
  function Find(s: string, p: string): (i: Option<nat>)
    ensures i.Some? ==> i.value <= |s| && StartsWith(s[i.value..], p)
  {
    if StartsWith(s, p) then Some(0)
    else if s == "" then None
    else match Find(s[1..], p)
      case None => None
      case Some(i) => Some(i + 1)
  }

  predicate Contains(s: string, p: string) {
    Find(s, p).Some?
  }

  function TrimStart(white: char -> bool, s: string): string {
    if s != "" && white(s[0]) then TrimStart(white, s[1..]) else s
  }

  function TrimEnd(white: char -> bool, s: string): string {
    if s != "" && white(s[|s| - 1]) then TrimEnd(white, s[..|s| - 1]) else s
  }

  function Trim(white: char -> bool, s: string): string {
    TrimEnd(white, TrimStart(white, s))
  }

  /** `Find` is the first place, and finds one if there is one. */
  lemma {:induction false} FindIsFirst(a: string, p: string, b: string)
    ensures Contains(a + p + b, p) && Find(a + p + b, p).value <= |a|
  {
    var s := a + p + b;
    if a == "" {
      assert s[..|p|] == p;
      assert s == p + b;
    } else if !StartsWith(s, p) {
      FindIsFirst(a[1..], p, b);
      assert s[1..] == a[1..] + p + b;
    }
  }

  lemma ContainsIff(s: string, p: string)
    ensures Contains(s, p) <==> exists a, b :: s == a + p + b
  {
    if Contains(s, p) {
      var i := Find(s, p).value;
      var rest := s[i..];
      assert s == s[..i] + rest && rest == p + rest[|p|..];
      assert s == s[..i] + p + rest[|p|..];
    }
    if a, b :| s == a + p + b { FindIsFirst(a, p, b); }
  }

  /** Trimming takes off white space at both ends, all of it and nothing else. */
  lemma {:induction false} TrimIff(white: char -> bool, a: string, s: string, b: string)
    requires (forall c :: c in a ==> white(c)) && (forall c :: c in b ==> white(c))
    ensures s == "" || (!white(s[0]) && !white(s[|s| - 1])) ==> Trim(white, a + s + b) == s
  {
    if s == "" || (!white(s[0]) && !white(s[|s| - 1])) {
      TrimStartDrops(white, a, s, b);
      if s == "" {
        TrimStartDrops(white, b, "", "");
        assert b + "" + "" == b;
      } else {
        TrimEndDrops(white, s, b);
      }
    }
  }

  /** A character that is not white stops the trimming on either side. */
  lemma {:induction false} TrimKeeps(white: char -> bool, s: string, i: nat)
    requires i < |s| && !white(s[i])
    ensures Trim(white, s) != ""
    decreases i
  {
    if white(s[0]) {
      TrimKeeps(white, s[1..], i - 1);
    } else {
      TrimEndKeeps(white, s);
    }
  }

  lemma {:induction false} TrimEndKeeps(white: char -> bool, s: string)
    requires s != "" && !white(s[0])
    ensures TrimEnd(white, s) != ""
  {
    if |s| > 1 { TrimEndKeeps(white, s[..|s| - 1]); }
  }

  lemma {:induction false} TrimStartDrops(white: char -> bool, a: string, s: string, b: string)
    requires (forall c :: c in a ==> white(c)) && (s != "" ==> !white(s[0]))
    ensures TrimStart(white, a + s + b) == if s == "" then TrimStart(white, b) else s + b
  {
    if a == "" {
      assert a + s + b == s + b;
      if s == "" { assert s + b == b; }
    } else {
      assert a[0] in a && forall c :: c in a[1..] ==> c in a;
      TrimStartDrops(white, a[1..], s, b);
      assert (a + s + b)[1..] == a[1..] + s + b;
    }
  }

  lemma {:induction false} TrimEndDrops(white: char -> bool, s: string, b: string)
    requires (forall c :: c in b ==> white(c)) && s != "" && !white(s[|s| - 1])
    ensures TrimEnd(white, s + b) == s
  {
    var n := |b| - 1;
    if b == "" {
      assert s + b == s;
    } else {
      assert b[n] in b && forall c :: c in b[..n] ==> c in b;
      TrimEndDrops(white, s, b[..n]);
      assert (s + b)[..|s + b| - 1] == s + b[..n];
    }
  }

  lemma {:induction false} IndexAtEndOf(a: string, b: string, c: char)
    requires c !in a && (b == "" || b[0] == c)
    ensures IndexOf(a + b, c) == |a|
  {
    if a == "" {
      assert a + b == b;
    } else {
      assert (a + b)[1..] == a[1..] + b;
      IndexAtEndOf(a[1..], b, c);
    }
  }

  lemma SplitWithout(s: string, c: char)
    requires c !in s
    ensures Split(s, c) == [s]
  {
    assert s + "" == s;
    IndexAtEndOf(s, "", c);
  }

  lemma SplitAt(a: string, b: string, c: char)
    requires c !in a
    ensures Split(a + [c] + b, c) == [a] + Split(b, c)
  {
    IndexAtEndOf(a, [c] + b, c);
    assert a + [c] + b == a + ([c] + b);
    assert (a + [c] + b)[..|a|] == a && (a + [c] + b)[|a| + 1..] == b;
  }

  /** The last piece is empty exactly when the text ends with a separator, or is empty. */
  lemma {:induction false} LastPiece(s: string, c: char)
    ensures var parts := Split(s, c);
      parts[|parts| - 1] == "" <==> s == "" || s[|s| - 1] == c
    decreases |s|
  {
    hide Split;
    var i := IndexOf(s, c);
    hide IndexOf;
    if i == |s| {
      SplitWithout(s, c);
    } else {
      LastPiece(s[i + 1..], c);
      SplitsAtFirst(s, c);
      assert i + 1 < |s| ==> s[i + 1..][|s[i + 1..]| - 1] == s[|s| - 1];
    }
  }

  /** One separator at the end adds one empty piece. */
  lemma SplitWithEnd(s: string, c: char)
    ensures Split(s + [c], c) == Split(s, c) + [""]
  {
    SplitJoins(s, "", c);
    SplitWithout("", c);
    assert s + [c] + "" == s + [c];
  }

  /** `a` is `b`, or `b` goes on after `a` with a separator. */
  predicate PrefixAtBoundary(a: string, b: string, c: char) {
    b == a || (a <= b && StartsWith(b[|a|..], [c]))
  }

  lemma UnsplitPrefix(a: string, b: string, c: char)
    requires c !in a
    ensures PrefixAtBoundary(a, b, c) <==> Split(a, c) <= Split(b, c)
  {
    SplitWithout(a, c);
    var j := IndexOf(b, c);
    assert Split(b, c)[0] == b[..j];
    assert Split(a, c) <= Split(b, c) <==> a == b[..j];
    if PrefixAtBoundary(a, b, c) {
      assert b == a + b[|a|..];
      IndexAtEndOf(a, b[|a|..], c);
    }
  }

  lemma ConsPrefix(x: string, s: seq<string>, y: string, t: seq<string>)
    ensures [x] + s <= [y] + t <==> x == y && s <= t
  {
    if [x] + s <= [y] + t {
      assert ([x] + s)[0] == ([y] + t)[0];
      assert s == ([x] + s)[1..] && t == ([y] + t)[1..];
    }
  }

  /** A prefix that ends at a separator is a prefix of the list of pieces. */
  lemma {:induction false} BoundaryIsListPrefix(a: string, b: string, c: char)
    ensures PrefixAtBoundary(a, b, c) <==> Split(a, c) <= Split(b, c)
    decreases |a|
  {
    hide PrefixAtBoundary, Split, IndexOf;
    var i, j := IndexOf(a, c), IndexOf(b, c);
    if i == |a| {
      assert c !in a;
      UnsplitPrefix(a, b, c);
    } else if j < |b| {
      BoundaryIsListPrefix(a[i + 1..], b[j + 1..], c);
      BoundaryOfTails(a, b, c);
    } else {
      MoreSeparators(a, b, c);
    }
  }

  lemma BoundaryOfTails(a: string, b: string, c: char)
    requires IndexOf(a, c) < |a| && IndexOf(b, c) < |b|
    requires var x, y := a[IndexOf(a, c) + 1..], b[IndexOf(b, c) + 1..];
      PrefixAtBoundary(x, y, c) <==> Split(x, c) <= Split(y, c)
    ensures PrefixAtBoundary(a, b, c) <==> Split(a, c) <= Split(b, c)
  {
    hide PrefixAtBoundary, Split, IndexOf;
    var i, j := IndexOf(a, c), IndexOf(b, c);
    HeadsAndTails(a, b, c, i, j);
    SplitsAtFirst(a, c);
    SplitsAtFirst(b, c);
    ConsPrefix(a[..i], Split(a[i + 1..], c), b[..j], Split(b[j + 1..], c));
  }

  lemma SplitsAtFirst(s: string, c: char)
    requires IndexOf(s, c) < |s|
    ensures Split(s, c) == [s[..IndexOf(s, c)]] + Split(s[IndexOf(s, c) + 1..], c)
  {
  }

  lemma MoreSeparators(a: string, b: string, c: char)
    requires IndexOf(a, c) < |a| && IndexOf(b, c) == |b|
    ensures !PrefixAtBoundary(a, b, c) && !(Split(a, c) <= Split(b, c))
  {
    assert c !in b;
    SplitWithout(b, c);
    assert |Split(a, c)| > 1;
    assert a[IndexOf(a, c)] == c;
  }

  lemma HeadsAndTails(a: string, b: string, c: char, i: nat, j: nat)
    requires i == IndexOf(a, c) < |a| && j == IndexOf(b, c) < |b|
    ensures PrefixAtBoundary(a, b, c) <==> a[..i] == b[..j] && PrefixAtBoundary(a[i + 1..], b[j + 1..], c)
  {
    hide IndexOf, PrefixAtBoundary;
    CutAtFirst(a, c);
    CutAtFirst(b, c);
    ClosedPrefix(a, b, c);
    ClosedPrefix(a[i + 1..], b[j + 1..], c);
    CommonHead(a[..i], a[i + 1..] + [c], b[..j], b[j + 1..] + [c], c);
  }

  lemma CutAtFirst(s: string, c: char)
    requires c in s
    ensures var i := IndexOf(s, c);
      i < |s| && c !in s[..i] && s + [c] == s[..i] + [c] + (s[i + 1..] + [c])
  {
    var i := IndexOf(s, c);
    hide IndexOf;
    assert s == s[..i] + [c] + s[i + 1..];
    Associate(s[..i] + [c], s[i + 1..], [c]);
  }

  lemma ClosedPrefix(a: string, b: string, c: char)
    ensures PrefixAtBoundary(a, b, c) <==> a + [c] <= b + [c]
  {
    if a + [c] <= b + [c] {
      assert a == (a + [c])[..|a|] == (b + [c])[..|a|] == b[..|a|];
      assert (a + [c])[|a|] == (b + [c])[|a|];
    }
  }

  lemma CommonHead(h: string, x: string, g: string, y: string, c: char)
    requires c !in h && c !in g
    ensures h + [c] + x <= g + [c] + y <==> h == g && x <= y
  {
    var a, b := h + [c] + x, g + [c] + y;
    if a <= b {
      assert a[|h|] == c == b[|g|] && a[|h|] == b[|h|];
      assert |g| < |a| ==> a[|g|] == b[|g|];
      assert |h| == |g|;
      assert h == a[..|h|] == b[..|g|] == g;
      assert x == a[|h| + 1..] && y == b[|g| + 1..];
    }
  }

  lemma {:induction false} SplitJoins(a: string, b: string, c: char)
    ensures Split(a + [c] + b, c) == Split(a, c) + Split(b, c)
    decreases |a|
  {
    var i := IndexOf(a, c);
    if i == |a| {
      SplitWithout(a, c);
      SplitAt(a, b, c);
    } else {
      SplitJoins(a[i + 1..], b, c);
      hide Split;
      SplitJoinsAfter(a[..i], a[i + 1..], b, c);
      assert a == a[..i] + [c] + a[i + 1..];
    }
  }

  lemma SplitJoinsAfter(h: string, t: string, b: string, c: char)
    requires c !in h && Split(t + [c] + b, c) == Split(t, c) + Split(b, c)
    ensures Split(h + [c] + t + [c] + b, c) == Split(h + [c] + t, c) + Split(b, c)
  {
    SplitAt(h, t + [c] + b, c);
    SplitAt(h, t, c);
    hide Split;
    Associate(h + [c], t, [c]);
    Associate(h + [c], t + [c], b);
    Associate([h], Split(t, c), Split(b, c));
  }

  lemma Associate<T>(a: seq<T>, b: seq<T>, c: seq<T>)
    ensures a + b + c == a + (b + c)
  {
  }

  lemma {:induction false} FindStays(s: string, t: string, p: string)
    requires Find(s, p).Some?
    ensures Find(s + t, p) == Find(s, p)
  {
    if StartsWith(s, p) {
      assert StartsWith(s + t, p);
    } else {
      assert (s + t)[1..] == s[1..] + t;
      FindStays(s[1..], t, p);
      ShortStart(s, t, p);
    }
  }

  lemma ShortStart(s: string, t: string, p: string)
    requires Find(s, p).Some? && !StartsWith(s, p)
    ensures !StartsWith(s + t, p)
  {
    assert |s| >= |p| by { FoundFits(s, p); }
    assert (s + t)[..|p|] == s[..|p|];
  }

  lemma {:induction false} FoundFits(s: string, p: string)
    requires Find(s, p).Some?
    ensures Find(s, p).value + |p| <= |s|
  {
    if !StartsWith(s, p) { FoundFits(s[1..], p); }
  }

  lemma PrefixAt(p: string, i: nat, u: string)
    requires i <= |p| && u <= p[i..]
    ensures p[..i] + u <= p
  {
    assert p == p[..i] + p[i..];
    assert p[i..] == u + p[i..][|u|..];
    assert p == (p[..i] + u) + p[i..][|u|..];
  }

  lemma {:induction false} ContainsEnd(a: string, b: string)
    ensures Contains(a + b, b)
  {
    if a == "" {
      assert a + b == b;
    } else if !StartsWith(a + b, b) {
      assert (a + b)[1..] == a[1..] + b;
      ContainsEnd(a[1..], b);
    }
  }

  // ---- Order ----

  function Codes(s: string): (c: seq<int>)
    ensures |c| == |s| && forall i :: 0 <= i < |s| ==> c[i] == s[i] as int
  {
    seq(|s|, i requires 0 <= i < |s| => s[i] as int)
  }

  predicate TextLt(a: string, b: string) {
    LexLt(Codes(a), Codes(b))
  }

  predicate TextLe(a: string, b: string) {
    !TextLt(b, a)
  }

  lemma TextOrder(a: string, b: string)
    ensures TextLt(a, b) ==> !TextLt(b, a)
    ensures TextLt(a, b) || TextLt(b, a) || a == b
  {
    LexAsymmetric(Codes(a), Codes(b));
    if Codes(a) == Codes(b) {
      assert |a| == |b|;
      forall i | 0 <= i < |a| ensures a[i] == b[i] {
        assert Codes(a)[i] == Codes(b)[i];
      }
    }
  }

  lemma TextLtIff(a: string, b: string)
    ensures TextLt(a, b) <==> exists n :: 0 <= n <= |a| && n < |b| && a[..n] == b[..n] && (n == |a| || a[n] < b[n])
  {
    var x, y := Codes(a), Codes(b);
    LexLtIff(x, y);
    forall n | 0 <= n <= |a| && n < |b| ensures x[..n] == y[..n] <==> a[..n] == b[..n] {
      if x[..n] == y[..n] {
        forall i | 0 <= i < n ensures a[i] == b[i] { assert x[..n][i] == y[..n][i]; }
      }
      if a[..n] == b[..n] {
        forall i | 0 <= i < n ensures x[i] == y[i] { assert a[..n][i] == b[..n][i]; }
      }
    }
  }

  lemma TextLeIsPreorder()
    ensures TotalPreorder(TextLe) && Asymmetric(TextLt)
  {
    forall a, b ensures (TextLe(a, b) || TextLe(b, a)) && (TextLt(a, b) ==> !TextLt(b, a)) {
      TextOrder(a, b);
    }
    forall a, b, c | TextLe(a, b) && TextLe(b, c) ensures TextLe(a, c) {
      TextOrder(a, b);
      TextOrder(b, c);
      if TextLt(c, a) && a != b && b != c { LexTransitive(Codes(a), Codes(b), Codes(c)); TextOrder(a, c); }
    }
  }
}
