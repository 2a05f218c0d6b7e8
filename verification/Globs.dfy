/**
  Globs: the laws of the linked matcher (globset 0.4 with its default options,
  on a system whose separator is `/`) that the ceilings rest on, and a small
  matcher that obeys them all.
*/
module Globs {
  import opened Text

  type Glob = (string, string) -> bool

  predicate IsMeta(c: char) {
    c == '?' || c == '*' || c == '[' || c == '{' || c == '}' || c == '\\'
  }

  /** A pattern without metacharacters. */
  predicate IsLiteral(p: string) {
    forall i :: 0 <= i < |p| ==> !IsMeta(p[i])
  }

  /** What stands before the first metacharacter. */
  function LiteralHead(p: string): (h: string)
    ensures h <= p && IsLiteral(h)
  {
    if p == "" || IsMeta(p[0]) then "" else [p[0]] + LiteralHead(p[1..])
  }

  /** A backslash before every character takes all of them literally. */
  function Escaped(t: string): (p: string)
    ensures t != "" ==> |p| > 1 && p[0] == '\\' && p[1] == t[0]
    ensures forall x :: x in t ==> x in p
  {
    if t == "" then ""
    else
      assert t == [t[0]] + t[1..];
      ['\\', t[0]] + Escaped(t[1..])
  }

  predicate EndsWith(x: string, t: string) {
    |t| <= |x| && x[|x| - |t|..] == t
  }

  /** An escaped text matches itself alone. */
  ghost predicate EscapesAreExact(glob: Glob) {
    forall t, x :: glob(Escaped(t), x) <==> x == t
  }

  /** So does a pattern without metacharacters. */
  ghost predicate LiteralsAreExact(glob: Glob) {
    forall p, x :: IsLiteral(p) ==> (glob(p, x) <==> x == p)
  }

  /** Whatever a pattern matches starts with the pattern's literal head. */
  ghost predicate HeadsMatch(glob: Glob) {
    forall p, x :: glob(p, x) ==> LiteralHead(p) <= x
  }

  /** A leading doubled star is any directory, or none. */
  ghost predicate AnywhereMatches(glob: Glob) {
    forall t, x :: t != "" && '/' !in t ==> (glob("**/" + Escaped(t), x) <==> x == t || EndsWith(x, "/" + t))
  }

  /** A class that is never closed does not compile, and a pattern that does not compile matches nothing. */
  ghost predicate UnclosedMatchesNothing(glob: Glob) {
    forall p, x :: !glob(p + "#[", x)
  }

  /** An ordinary character at the end of a pattern matches itself there. */
  ghost predicate EndsExtend(glob: Glob) {
    forall p, x :: Contains(p, "://") && glob(p, x) ==> glob(p + "#", x + "#")
  }

  ghost predicate Lawful(glob: Glob) {
    && EscapesAreExact(glob) && LiteralsAreExact(glob) && HeadsMatch(glob)
    && AnywhereMatches(glob) && UnclosedMatchesNothing(glob) && EndsExtend(glob)
    && glob("*", "")
  }

  // ---- A matcher that obeys the laws ----

  /** Stars, escapes and ordinary characters; any other metacharacter matches nothing. */
  predicate Matches(p: string, x: string)
    decreases |p| + |x|
  {
    if p == "" then x == ""
    else if p[0] == '*' then Matches(p[1..], x) || (x != "" && Matches(p, x[1..]))
    else if p[0] == '\\' then |p| > 1 && x != "" && x[0] == p[1] && Matches(p[2..], x[1..])
    else !IsMeta(p[0]) && x != "" && x[0] == p[0] && Matches(p[1..], x[1..])
  }

  /** The same with a leading `**` for any directory. */
  predicate StarGlob(p: string, x: string) {
    if StartsWith(p, "**/") && |p| > 3 then
      Matches(p[3..], x) || exists i :: 0 <= i < |x| && x[i] == '/' && Matches(p[3..], x[i + 1..])
    else Matches(p, x)
  }

  lemma {:induction false} EscapedMatches(t: string, x: string)
    ensures Matches(Escaped(t), x) <==> x == t
  {
    if t != "" {
      var p := Escaped(t);
      assert p == ['\\', t[0]] + Escaped(t[1..]);
      assert p[2..] == Escaped(t[1..]);
      if x != "" {
        EscapedMatches(t[1..], x[1..]);
        assert x == [x[0]] + x[1..] && t == [t[0]] + t[1..];
      }
    }
  }

  lemma {:induction false} LiteralMatches(p: string, x: string)
    requires IsLiteral(p)
    ensures Matches(p, x) <==> x == p
  {
    if p != "" && x != "" {
      LiteralMatches(p[1..], x[1..]);
      assert x == [x[0]] + x[1..] && p == [p[0]] + p[1..];
    }
  }

  lemma {:induction false} HeadMatches(p: string, x: string)
    requires Matches(p, x)
    ensures LiteralHead(p) <= x
  {
    if p != "" && !IsMeta(p[0]) {
      HeadMatches(p[1..], x[1..]);
      assert x == [x[0]] + x[1..];
    }
  }

  lemma {:induction false} UnclosedFails(p: string, x: string)
    ensures !Matches(p + "#[", x)
    decreases |p| + |x|
  {
    var q := p + "#[";
    if p == "" {
      assert q == "#[" && q[1..] == "[";
    } else {
      assert q[1..] == p[1..] + "#[";
      UnclosedFails(p[1..], x);
      if x != "" {
        UnclosedFails(p, x[1..]);
        UnclosedFails(p[1..], x[1..]);
        if |p| > 1 {
          assert q[2..] == p[2..] + "#[";
          UnclosedFails(p[2..], x[1..]);
        } else {
          assert q[2..] == "[";
        }
      }
    }
  }

  lemma {:induction false} EndExtends(p: string, x: string)
    requires Matches(p, x)
    ensures Matches(p + "#", x + "#")
    decreases |p| + |x|
  {
    var q, y := p + "#", x + "#";
    if p == "" {
      assert q == "#" && y == "#" && q[1..] == "" && y[1..] == "";
    } else if p[0] == '*' {
      assert q[1..] == p[1..] + "#";
      if Matches(p[1..], x) {
        EndExtends(p[1..], x);
      } else {
        EndExtends(p, x[1..]);
        assert y[1..] == x[1..] + "#";
      }
    } else if p[0] == '\\' {
      EndExtends(p[2..], x[1..]);
      assert q[2..] == p[2..] + "#" && y[1..] == x[1..] + "#";
    } else {
      EndExtends(p[1..], x[1..]);
      assert q[1..] == p[1..] + "#" && y[1..] == x[1..] + "#";
    }
  }

  lemma RootedStars(p: string)
    ensures StartsWith(p, "**/") <==> |p| >= 3 && p[0] == '*' && p[1] == '*' && p[2] == '/'
  {
    if |p| >= 3 { assert p[..3] == [p[0], p[1], p[2]]; }
    assert "**/" == ['*', '*', '/'];
  }

  lemma StarGlobIsExact(t: string, x: string)
    ensures StarGlob(Escaped(t), x) <==> x == t
  {
    EscapedMatches(t, x);
    RootedStars(Escaped(t));
  }

  lemma AfterASlash(x: string, t: string, i: nat)
    requires i < |x|
    ensures x[i] == '/' && x[i + 1..] == t ==> EndsWith(x, "/" + t)
    ensures EndsWith(x, "/" + t) && i == |x| - |t| - 1 ==> x[i] == '/' && x[i + 1..] == t
  {
    assert x[i..] == [x[i]] + x[i + 1..];
    assert x[i..][1..] == x[i + 1..];
    assert ("/" + t)[0] == '/' && ("/" + t)[1..] == t;
  }

  lemma StarGlobAnywhere(t: string, x: string)
    requires t != "" && '/' !in t
    ensures StarGlob("**/" + Escaped(t), x) <==> x == t || EndsWith(x, "/" + t)
  {
    var p := "**/" + Escaped(t);
    assert p[3..] == Escaped(t) && StartsWith(p, "**/");
    EscapedMatches(t, x);
    hide Matches, Escaped, EndsWith;
    forall i | 0 <= i < |x| ensures x[i] == '/' ==> (Matches(p[3..], x[i + 1..]) <==> x[i + 1..] == t) {
      EscapedMatches(t, x[i + 1..]);
    }
    forall i | 0 <= i < |x| ensures x[i] == '/' && x[i + 1..] == t ==> EndsWith(x, "/" + t) {
      AfterASlash(x, t, i);
    }
    if EndsWith(x, "/" + t) {
      EndIsLong(x, "/" + t);
      AfterASlash(x, t, |x| - |t| - 1);
    }
  }

  lemma EndIsLong(x: string, t: string)
    requires EndsWith(x, t)
    ensures |t| <= |x|
  {
  }

  lemma StarGlobUnclosed(p: string, x: string)
    ensures !StarGlob(p + "#[", x)
  {
    var q := p + "#[";
    UnclosedFails(p, x);
    if StartsWith(q, "**/") && |q| > 3 {
      RootedStars(q);
      assert q[|p|] == '#';
      assert q[3..] == p[3..] + "#[";
      UnclosedFails(p[3..], x);
      forall i | 0 <= i < |x| ensures x[i] == '/' ==> !Matches(q[3..], x[i + 1..]) {
        UnclosedFails(p[3..], x[i + 1..]);
      }
    }
  }

  lemma StarGlobExtends(p: string, x: string)
    requires Contains(p, "://") && StarGlob(p, x)
    ensures StarGlob(p + "#", x + "#")
  {
    var q, y := p + "#", x + "#";
    if StartsWith(p, "**/") {
      NoSchemeInStars();
      assert |p| == 3 ==> p == "**/";
      StarsBeforeEnd(p);
      assert q[3..] == p[3..] + "#";
      if Matches(p[3..], x) {
        EndExtends(p[3..], x);
      } else {
        var i :| 0 <= i < |x| && x[i] == '/' && Matches(p[3..], x[i + 1..]);
        EndExtends(p[3..], x[i + 1..]);
        assert y[i] == '/' && y[i + 1..] == x[i + 1..] + "#";
      }
    } else {
      EndExtends(p, x);
      StarsBeforeEnd(p);
    }
  }

  lemma StarsBeforeEnd(p: string)
    ensures StartsWith(p + "#", "**/") <==> StartsWith(p, "**/")
  {
    RootedStars(p);
    RootedStars(p + "#");
    assert (p + "#")[|p|] == '#';
  }

  lemma NoSchemeInStars()
    ensures !Contains("**/", "://")
  {
    assert "**/"[1..] == "*/" && "*/"[1..] == "/" && "/"[1..] == "";
    assert "**/"[0] != "://"[0] && "*/"[0] != "://"[0] && "/"[0] != "://"[0];
  }

  lemma StarGlobOnLiterals(p: string, x: string)
    ensures IsLiteral(p) ==> (StarGlob(p, x) <==> x == p)
    ensures StarGlob(p, x) ==> LiteralHead(p) <= x
  {
    RootedStars(p);
    if !StartsWith(p, "**/") {
      if IsLiteral(p) { LiteralMatches(p, x); }
      if Matches(p, x) { HeadMatches(p, x); }
    }
  }

  /** The laws hold together. */
  lemma StarGlobIsLawful()
    ensures Lawful(StarGlob)
  {
    forall t, x ensures StarGlob(Escaped(t), x) <==> x == t { StarGlobIsExact(t, x); }
    forall t, x | t != "" && '/' !in t ensures StarGlob("**/" + Escaped(t), x) <==> x == t || EndsWith(x, "/" + t) {
      StarGlobAnywhere(t, x);
    }
    forall p, x ensures !StarGlob(p + "#[", x) { StarGlobUnclosed(p, x); }
    forall p, x | Contains(p, "://") && StarGlob(p, x) ensures StarGlob(p + "#", x + "#") { StarGlobExtends(p, x); }
    forall p, x ensures IsLiteral(p) ==> (StarGlob(p, x) <==> x == p) { StarGlobOnLiterals(p, x); }
    forall p, x ensures StarGlob(p, x) ==> LiteralHead(p) <= x { StarGlobOnLiterals(p, x); }
    assert StarGlob("*", "") by { assert "*"[1..] == "" && !StartsWith("*", "**/"); }
  }
}
