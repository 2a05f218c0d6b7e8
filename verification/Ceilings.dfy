/**
  Exactly which ceilings cap every agent faithfully under the linked glob
  matcher, of which only the laws of `Globs.Lawful` are used.
*/
module Ceilings {
  import opened Wrappers
  import opened Text
  import opened ScopeUrl
  import opened Globs
  import opened Capability

  ghost predicate GlobLike(m: Matcher) {
    Lawful(m.glob) && !m.white('*')
  }

  /** There are such matchers. */
  lemma GlobLikeExists()
    ensures GlobLike(Matcher(StarGlob, c => false))
  {
    StarGlobIsLawful();
    hide Lawful;
  }

  /** Capping any agent by the ceiling grants what both grant. */
  ghost predicate Faithful(m: Matcher, ceiling: seq<Scope>) {
    forall agent, capped, needed :: IsIntersection(m, agent, ceiling, capped) ==>
      (Grants(m, capped, needed) <==> Grants(m, agent, needed) && Grants(m, ceiling, needed))
  }

  predicate IsUrl(q: string) {
    Contains(q, "://")
  }

  /** As a pattern, `q` matches no text but itself; URLs are never matched as texts. */
  ghost predicate OnlyItself(m: Matcher, q: string) {
    forall t :: !IsUrl(t) && m.glob(q, t) ==> t == q
  }

  /** As a pattern, `q` matches nothing. */
  ghost predicate Mute(m: Matcher, q: string) {
    forall t :: !IsUrl(t) ==> !m.glob(q, t)
  }

  /** No URL under `q` matches anything as a pattern. */
  ghost predicate MuteBelow(m: Matcher, q: string) {
    forall p :: UrlPrefixGrants(q, p) ==> Mute(m, p)
  }

  /** Whatever `q` matches as a pattern is a scope of the ceiling, and matches itself. */
  ghost predicate Echoed(m: Matcher, ceiling: seq<Scope>, base: string, q: string) {
    forall t :: !IsUrl(t) && m.glob(q, t) ==> base + ":" + t in ceiling && m.glob(t, t)
  }

  /**
    A scope that caps exactly. Unqualified; or a path that matches only itself;
    or a URL that works as a URL only; or what names a URL, does not parse as
    one, and stands beside its base or beside all it matches.
  */
  ghost predicate SafeScope(m: Matcher, ceiling: seq<Scope>, c: Scope) {
    match Qualifier(c)
    case None => true
    case Some(q) =>
      if !IsUrl(q) then '/' in q && OnlyItself(m, q)
      else if ParseScopeUrl(q).Some? then Mute(m, q) && (Base(c) in ceiling || MuteBelow(m, q))
      else Base(c) in ceiling || Echoed(m, ceiling, Base(c), q)
  }

  ghost predicate Safe(m: Matcher, ceiling: seq<Scope>) {
    forall c :: c in ceiling ==> SafeScope(m, ceiling, c)
  }

  /** The vector the two loops of an intersection keep. */
  function Kept(m: Matcher, from: seq<Scope>, other: seq<Scope>): (kept: seq<Scope>)
    ensures forall s :: s in kept <==> s in from && Grants(m, other, s)
  {
    if from == [] then []
    else
      assert from == [from[0]] + from[1..];
      (if Grants(m, other, from[0]) then [from[0]] else []) + Kept(m, from[1..], other)
  }

  lemma IntersectionExists(m: Matcher, a: seq<Scope>, b: seq<Scope>) returns (out: seq<Scope>)
    ensures IsIntersection(m, a, b, out)
  {
    out := FromScopes(Kept(m, a, b) + Kept(m, b, a));
    FromScopesLaw(Kept(m, a, b) + Kept(m, b, a));
  }

  // ---- Parts of scopes ----

  lemma ScopeIsItsParts(s: Scope)
    ensures ':' !in Base(s)
    ensures Qualifier(s).None? ==> s == Base(s)
    ensures Qualifier(s).Some? ==> s == Base(s) + ":" + Qualifier(s).value && |Qualifier(s).value| < |s|
  {
    var i := IndexOf(s, ':');
    if i < |s| { assert s == s[..i] + [s[i]] + s[i + 1..]; }
  }

  lemma BaseOfBase(s: Scope)
    ensures Base(Base(s)) == Base(s) && Qualifier(Base(s)).None?
  {
    ScopeIsItsParts(s);
    assert Base(s) + "" == Base(s);
    IndexAtEndOf(Base(s), "", ':');
  }

  lemma {:induction false} TrimmedParts(m: Matcher, parts: seq<string>)
    ensures |Trimmed(m, parts)| == |parts|
    ensures forall i :: 0 <= i < |parts| ==> Trimmed(m, parts)[i] == Trim(m.white, parts[i])
  {
    hide Trim;
    if parts != [] { TrimmedParts(m, parts[1..]); }
  }

  /** A trimmed item is listed when it is one of the trimmed pieces. */
  lemma ListedOne(m: Matcher, item: string, held: string)
    requires ',' !in item && Trim(m.white, item) == item
    ensures Listed(m, item, held) <==> item in Trimmed(m, Split(held, ','))
  {
    hide Trim;
    SplitWithout(item, ',');
    TrimmedParts(m, [item]);
    hide Split, Trimmed;
    assert Trimmed(m, [item]) == [item];
    assert item in [item];
  }

  lemma {:induction false} SchemeHasSlash(q: string)
    requires Contains(q, "://")
    ensures '/' in q
  {
    if StartsWith(q, "://") {
      assert q[1] == "://"[1];
    } else {
      SchemeHasSlash(q[1..]);
      assert q == [q[0]] + q[1..];
    }
  }

  lemma GrantsLikeItself(p: string, q: string)
    requires ParseScopeUrl(q).Some? && ParseScopeUrl(p) == ParseScopeUrl(q)
    ensures UrlPrefixGrants(p, q)
  {
    hide ParseScopeUrl;
  }

  // ---- What one qualifier covers ----

  predicate Covers(m: Matcher, held: string, needed: string) {
    Check(m, KindOf(needed, held), needed, held)
  }

  lemma UrlsOnly(a: string, b: string)
    ensures UrlPrefixGrants(a, b) ==> IsUrl(a) && IsUrl(b) && ParseScopeUrl(a).Some? && ParseScopeUrl(b).Some?
    ensures IsUrl(a) ==> '/' in a
    ensures UrlPrefixGrants(a, a) <==> ParseScopeUrl(a).Some?
  {
    if IsUrl(a) { SchemeHasSlash(a); }
    GrantsPreorder(a, a, a);
  }

  lemma PathCovers(m: Matcher, q: string, t: string)
    requires !IsUrl(q) && '/' in q && OnlyItself(m, q) && Covers(m, q, t)
    ensures t == q
  {
    UrlsOnly(q, t);
  }

  lemma UrlCovers(m: Matcher, q: string, t: string)
    requires IsUrl(q) && Mute(m, q) && Covers(m, q, t)
    ensures IsUrl(t) && UrlPrefixGrants(q, t)
  {
    UrlsOnly(q, t);
  }

  /** A URL that works as a URL only covers all that anything it covers does. */
  lemma UrlCoversOn(m: Matcher, q: string, p: string, t: string)
    requires ParseScopeUrl(q).Some? && MuteBelow(m, q) && Covers(m, q, p) && Covers(m, p, t)
    ensures Covers(m, q, t)
  {
    UrlsOnly(q, q);
    UrlCovers(m, q, p);
    UrlsOnly(q, p);
    UrlCovers(m, p, t);
    GrantsPreorder(q, p, t);
  }

  /** What covers a scope with a safe qualifier covers all that scope does. */
  lemma CoversOn(m: Matcher, p: string, q: string, t: string)
    requires Covers(m, p, q) && Covers(m, q, t)
    requires if !IsUrl(q) then '/' in q && OnlyItself(m, q) else ParseScopeUrl(q).Some? ==> Mute(m, q)
    ensures Covers(m, p, t)
  {
    if IsUrl(q) {
      UrlsOnly(p, q);
      UrlCovers(m, q, t);
      GrantsPreorder(p, q, t);
    } else {
      PathCovers(m, q, t);
    }
  }

  /** Of two qualifiers that cover a third, one covers the other. */
  lemma OneCovers(m: Matcher, p: string, q: string, t: string)
    requires Covers(m, p, t) && Covers(m, q, t)
    requires if !IsUrl(q) then '/' in q && OnlyItself(m, q) else ParseScopeUrl(q).Some? && MuteBelow(m, q)
    ensures Covers(m, p, q) || Covers(m, q, p)
  {
    if IsUrl(q) {
      UrlsOnly(q, q);
      UrlCovers(m, q, t);
      UrlsOnly(p, t);
      GrantersCompare(p, q, t);
    } else {
      PathCovers(m, q, t);
    }
  }

  // ---- A safe ceiling is exact ----

  lemma BaseGrants(m: Matcher, s: Scope)
    ensures IsGrantedBy(m, s, Base(s))
  {
    BaseOfBase(s);
  }

  /** A scope that survives by the ceiling grants no more than the ceiling. */
  lemma CeilingCovers(m: Matcher, ceiling: seq<Scope>, c: Scope, s: Scope, needed: Scope)
    requires Safe(m, ceiling) && c in ceiling && IsGrantedBy(m, s, c) && IsGrantedBy(m, needed, s)
    ensures Grants(m, ceiling, needed)
  {
    BaseGrants(m, needed);
    assert SafeScope(m, ceiling, c);
    hide Check, KindOf, Safe, ParseScopeUrl;
    ScopeIsItsParts(s);
    ScopeIsItsParts(c);
    if Qualifier(c).Some? && Base(c) !in ceiling {
      var q, p, t := Qualifier(c).value, Qualifier(s).value, Qualifier(needed).value;
      if !IsUrl(q) {
        PathCovers(m, q, p);
        assert IsGrantedBy(m, needed, c);
      } else if ParseScopeUrl(q).Some? {
        UrlCoversOn(m, q, p, t);
        assert IsGrantedBy(m, needed, c);
      } else {
        EchoIsListed(m, ceiling, Base(c), q, p);
        assert s in ceiling;
      }
    }
  }

  lemma EchoIsListed(m: Matcher, ceiling: seq<Scope>, base: string, q: string, t: string)
    requires IsUrl(q) && ParseScopeUrl(q).None? && Echoed(m, ceiling, base, q) && Covers(m, q, t)
    ensures !IsUrl(t) && base + ":" + t in ceiling && m.glob(t, t)
  {
    UrlsOnly(q, t);
  }

  /** What grants a scope of the ceiling grants all that scope does. */
  lemma AgentCovers(m: Matcher, ceiling: seq<Scope>, c: Scope, a: Scope, needed: Scope)
    requires Safe(m, ceiling) && c in ceiling && IsGrantedBy(m, c, a) && IsGrantedBy(m, needed, c)
    ensures IsGrantedBy(m, needed, a)
  {
    assert SafeScope(m, ceiling, c);
    hide Check, KindOf, Safe, ParseScopeUrl;
    if Qualifier(a).Some? {
      CoversOn(m, Qualifier(a).value, Qualifier(c).value, Qualifier(needed).value);
    }
  }

  /** Where agent and ceiling both grant a scope, something survives that does. */
  lemma OneSurvives(m: Matcher, ceiling: seq<Scope>, c: Scope, a: Scope, needed: Scope)
    requires Safe(m, ceiling) && c in ceiling && IsGrantedBy(m, needed, c) && IsGrantedBy(m, needed, a)
    ensures Grants(m, ceiling, a) || exists h :: h in ceiling && IsGrantedBy(m, h, a) && IsGrantedBy(m, needed, h)
  {
    BaseGrants(m, a);
    assert SafeScope(m, ceiling, c);
    hide Check, KindOf, ParseScopeUrl;
    ScopeIsItsParts(needed);
    ScopeIsItsParts(c);
    if Qualifier(c).None? {
      assert IsGrantedBy(m, a, c);
    } else if Qualifier(a).None? {
      assert IsGrantedBy(m, c, a);
    } else if Base(c) !in ceiling {
      var q, p, t := Qualifier(c).value, Qualifier(a).value, Qualifier(needed).value;
      if !IsUrl(q) || ParseScopeUrl(q).Some? {
        OneCovers(m, p, q, t);
        assert IsGrantedBy(m, a, c) || IsGrantedBy(m, c, a);
      } else {
        EchoIsListed(m, ceiling, Base(c), q, t);
        assert needed in ceiling;
        assert SafeScope(m, ceiling, needed);
        CoversItself(m, t);
        assert IsGrantedBy(m, needed, needed);
      }
    } else {
      assert IsGrantedBy(m, a, Base(a));
    }
  }

  lemma CoversItself(m: Matcher, t: string)
    requires !IsUrl(t) && '/' in t && m.glob(t, t)
    ensures Covers(m, t, t)
  {
  }

  /** A safe ceiling caps every agent exactly, whatever laws the matcher obeys. */
  lemma SafeIsExact(m: Matcher, agent: seq<Scope>, ceiling: seq<Scope>, capped: seq<Scope>, needed: Scope)
    requires Safe(m, ceiling) && IsIntersection(m, agent, ceiling, capped)
    ensures Grants(m, capped, needed) <==> Grants(m, agent, needed) && Grants(m, ceiling, needed)
  {
    hide IsGrantedBy, Safe;
    if Grants(m, capped, needed) {
      var s :| s in capped && IsGrantedBy(m, needed, s);
      assert Survives(m, agent, ceiling, s);
      if s in agent && Grants(m, ceiling, s) {
        var c :| c in ceiling && IsGrantedBy(m, s, c);
        CeilingCovers(m, ceiling, c, s, needed);
      } else {
        var a :| a in agent && IsGrantedBy(m, s, a);
        AgentCovers(m, ceiling, s, a, needed);
      }
    }
    if Grants(m, agent, needed) && Grants(m, ceiling, needed) {
      var a :| a in agent && IsGrantedBy(m, needed, a);
      var c :| c in ceiling && IsGrantedBy(m, needed, c);
      OneSurvives(m, ceiling, c, a, needed);
      if Grants(m, ceiling, a) {
        assert Survives(m, agent, ceiling, a);
      } else {
        var h :| h in ceiling && IsGrantedBy(m, h, a) && IsGrantedBy(m, needed, h);
        assert Grants(m, agent, h) && Survives(m, agent, ceiling, h);
      }
    }
  }

  // ---- An unsafe ceiling is not ----

  /** The ceiling's scope survives by the agent's scope, and grants what the agent does not. */
  lemma CeilingLeaks(m: Matcher, ceiling: seq<Scope>, c: Scope, held: Scope, needed: Scope)
    requires c in ceiling && IsGrantedBy(m, c, held) && IsGrantedBy(m, needed, c) && !IsGrantedBy(m, needed, held)
    ensures !Faithful(m, ceiling)
  {
    hide IsGrantedBy;
    var capped := IntersectionExists(m, [held], ceiling);
    assert Grants(m, [held], c);
    assert Survives(m, [held], ceiling, c);
    assert c in capped;
    assert Grants(m, capped, needed) && !Grants(m, [held], needed);
  }

  /** The same of qualifiers. */
  lemma CoverLeaks(m: Matcher, ceiling: seq<Scope>, base: string, q: string, p: string, t: string)
    requires ':' !in base && base + ":" + q in ceiling
    requires Covers(m, p, q) && Covers(m, q, t) && !Covers(m, p, t)
    ensures !Faithful(m, ceiling)
  {
    ScopeParts(base, q);
    ScopeParts(base, p);
    ScopeParts(base, t);
    hide Faithful, Check, KindOf, Base, Qualifier;
    CeilingLeaks(m, ceiling, base + ":" + q, base + ":" + p, base + ":" + t);
  }

  lemma {:induction false} TrimmedJoins(m: Matcher, a: seq<string>, b: seq<string>)
    ensures Trimmed(m, a + b) == Trimmed(m, a) + Trimmed(m, b)
  {
    hide Trim;
    if a == [] {
      assert a + b == b;
    } else {
      assert (a + b)[1..] == a[1..] + b;
      TrimmedJoins(m, a[1..], b);
    }
  }

  /** A list given twice is listed by itself. */
  lemma TwiceIsListed(m: Matcher, q: string)
    ensures Listed(m, q + "," + q, q)
  {
    SplitJoins(q, q, ',');
    hide Split;
    TrimmedJoins(m, Split(q, ','), Split(q, ','));
    hide Trimmed;
  }

  lemma NoSlashNoUrl(s: string)
    requires '/' !in s
    ensures !IsUrl(s)
  {
    NoScheme(s);
  }

  /** A qualifier without a slash lets through its own repetition. */
  lemma SlashlessLeaks(m: Matcher, ceiling: seq<Scope>, base: string, q: string)
    requires GlobLike(m) && ':' !in base && base + ":" + q in ceiling && '/' !in q
    ensures !Faithful(m, ceiling)
  {
    var twice := q + "," + q;
    NoSlashNoUrl(q);
    NoSlashNoUrl(twice);
    TwiceIsListed(m, q);
    assert ',' in twice;
    assert Covers(m, q, twice);
    if q == "" {
      BlankIsNoStar(m);
      CoverLeaks(m, ceiling, base, q, "*", twice);
    } else {
      var p := "**/" + Escaped(q);
      NoSlashNoEnd(twice, q);
      AnywhereLaw(m, q, q);
      AnywhereLaw(m, q, twice);
      assert p[2] == '/';
      hide Escaped, GlobLike;
      CoverLeaks(m, ceiling, base, q, p, twice);
    }
  }

  lemma NoSlashNoEnd(x: string, q: string)
    requires '/' !in x
    ensures !EndsWith(x, "/" + q)
  {
    assert |x| >= |q| + 1 ==> x[|x| - |q| - 1] in x;
    assert |x| >= |q| + 1 ==> x[|x| - |q| - 1..][0] == x[|x| - |q| - 1] && ("/" + q)[0] == '/';
  }

  lemma AnywhereLaw(m: Matcher, t: string, x: string)
    requires GlobLike(m) && t != "" && '/' !in t
    ensures m.glob("**/" + Escaped(t), x) <==> x == t || EndsWith(x, "/" + t)
  {
    hide Escaped, EndsWith;
  }

  lemma BlankIsNoStar(m: Matcher)
    requires GlobLike(m)
    ensures Covers(m, "*", "") && !Covers(m, "*", "" + "," + "")
  {
    NoSlashNoUrl("");
    NoSlashNoUrl(",");
    assert "" + "," + "" == ",";
    SplitWithout("*", ',');
    SplitWithout("", ',');
    SplitAt("", "", ',');
    assert "" + [','] + "" == ",";
    hide Split, GlobLike;
    assert !m.white('*');
    TrimNothing(m, "*");
    assert Trimmed(m, ["*"]) == ["*"];
    assert Trimmed(m, ["", ""])[0] == "" && "" in Trimmed(m, ["", ""]);
    assert "" !in ["*"];
    assert !Listed(m, ",", "*");
  }

  /** A path that matches another text leaks it to whoever holds the path as text. */
  lemma PathLeaks(m: Matcher, ceiling: seq<Scope>, base: string, q: string, t: string)
    requires GlobLike(m) && ':' !in base && base + ":" + q in ceiling
    requires '/' in q && !IsUrl(q) && !IsUrl(t) && m.glob(q, t) && t != q
    ensures !Faithful(m, ceiling)
  {
    var p := Escaped(q);
    assert '/' in p;
    assert m.glob(p, q) && !m.glob(p, t);
    hide Escaped, GlobLike;
    CoverLeaks(m, ceiling, base, q, p, t);
  }

  /** A fragment changes nothing about a scope URL. */
  lemma FragmentIsIgnored(q: string, f: string)
    requires ParseScopeUrl(q).Some?
    ensures ParseScopeUrl(q + ("#" + f)) == ParseScopeUrl(q)
  {
    var t, i := "#" + f, Find(q, "://").value;
    FindStays(q, t, "://");
    ParsesAs(q, i);
    ParsesAs(q + t, i);
    hide ParseScopeUrl, Find, Resource, ParseResource;
    AppendSlices(q, t, i);
    ResourceStays(q[i + 3..], f);
  }

  lemma ParsesAs(s: string, i: nat)
    requires Find(s, "://") == Some(i)
    ensures i + 3 <= |s| && ParseScopeUrl(s) == ParseResource(s[..i], Resource(s[i + 3..]))
  {
    FoundFits(s, "://");
    hide Find, ParseResource, Resource;
  }

  lemma AppendSlices(q: string, t: string, i: nat)
    requires i + 3 <= |q|
    ensures (q + t)[..i] == q[..i] && (q + t)[i + 3..] == q[i + 3..] + t
  {
  }

  lemma ResourceStays(t: string, f: string)
    ensures Resource(t + ("#" + f)) == Resource(t)
  {
    var q, h := IndexOf(t, '?'), IndexOf(t, '#');
    IndexStays(t, "#" + f, '?');
    IndexStays(t, "#" + f, '#');
  }

  lemma {:induction false} IndexStays(t: string, u: string, c: char)
    ensures c in t ==> IndexOf(t + u, c) == IndexOf(t, c) < |t|
    ensures c !in t ==> IndexOf(t, c) == |t| && IndexOf(t + u, c) == |t| + IndexOf(u, c)
  {
    if t == "" {
      assert t + u == u;
    } else {
      assert (t + u)[1..] == t[1..] + u;
      IndexStays(t[1..], u, c);
      assert t == [t[0]] + t[1..];
    }
  }

  /** A URL that matches a text leaks it to whoever holds the URL in a form that does not compile. */
  lemma UrlLeaks(m: Matcher, ceiling: seq<Scope>, base: string, q: string, t: string)
    requires GlobLike(m) && ':' !in base && base + ":" + q in ceiling
    requires ParseScopeUrl(q).Some? && !IsUrl(t) && m.glob(q, t)
    ensures !Faithful(m, ceiling)
  {
    var p := q + ("#" + "[");
    FragmentIsIgnored(q, "[");
    assert p == q + "#[";
    assert !m.glob(p, t);
    hide GlobLike;
    UrlsOnly(q, q);
    UrlsOnly(p, q);
    GrantsLikeItself(p, q);
    hide ParseScopeUrl, UrlPrefixGrants;
    CoverLeaks(m, ceiling, base, q, p, t);
  }

  // ---- What the scopes of a faithful ceiling are ----

  lemma FaithfulIsTightAt(m: Matcher, ceiling: seq<Scope>, c: Scope)
    requires GlobLike(m) && Faithful(m, ceiling) && c in ceiling && Qualifier(c).Some?
    ensures var q := Qualifier(c).value;
      if !IsUrl(q) then '/' in q && OnlyItself(m, q) else ParseScopeUrl(q).Some? ==> Mute(m, q)
  {
    ScopeIsItsParts(c);
    var base, q := Base(c), Qualifier(c).value;
    hide Faithful, GlobLike, ParseScopeUrl, Base, Qualifier;
    if !IsUrl(q) {
      if '/' !in q { SlashlessLeaks(m, ceiling, base, q); }
      forall t | !IsUrl(t) && m.glob(q, t) ensures t == q {
        if t != q { PathLeaks(m, ceiling, base, q, t); }
      }
    } else if ParseScopeUrl(q).Some? {
      forall t | !IsUrl(t) ensures !m.glob(q, t) {
        if m.glob(q, t) { UrlLeaks(m, ceiling, base, q, t); }
      }
    }
  }

  /** What grants a text in a faithful ceiling is its base, itself as a path, or a URL that does not parse. */
  lemma GranterOfText(m: Matcher, ceiling: seq<Scope>, base: string, t: string, h: Scope)
    requires GlobLike(m) && Faithful(m, ceiling) && ':' !in base && base !in ceiling && !IsUrl(t)
    requires h in ceiling && IsGrantedBy(m, base + ":" + t, h)
    ensures (h == base + ":" + t && m.glob(t, t))
         || (Qualifier(h).Some? && IsUrl(Qualifier(h).value) && ParseScopeUrl(Qualifier(h).value).None? && m.glob(Qualifier(h).value, t))
    ensures Base(h) == base
  {
    ScopeParts(base, t);
    ScopeIsItsParts(h);
    if Qualifier(h).Some? {
      FaithfulIsTightAt(m, ceiling, h);
      var q := Qualifier(h).value;
      hide Faithful, GlobLike, ParseScopeUrl, OnlyItself, Mute;
      assert Covers(m, q, t);
      if !IsUrl(q) {
        PathCovers(m, q, t);
      } else {
        SchemeHasSlash(q);
        if ParseScopeUrl(q).Some? { UrlCovers(m, q, t); }
      }
    }
  }

  /** A URL that does not parse and matches a text needs the text's own scope: an agent that holds the URL survives by nothing else. */
  lemma FaithfulEchoes(m: Matcher, ceiling: seq<Scope>, base: string, q: string, t: string)
    requires GlobLike(m) && Faithful(m, ceiling) && ':' !in base && base !in ceiling && base + ":" + q in ceiling
    requires IsUrl(q) && ParseScopeUrl(q).None? && !IsUrl(t) && m.glob(q, t)
    ensures base + ":" + t in ceiling && m.glob(t, t)
  {
    var c, needed := base + ":" + q, base + ":" + t;
    ScopeParts(base, q);
    ScopeParts(base, t);
    SchemeHasSlash(q);
    assert Covers(m, q, t);
    NothingGrantsIt(m, ceiling, c);
    hide Check, KindOf, GlobLike, Base, Qualifier, ParseScopeUrl, Faithful;
    assert IsGrantedBy(m, needed, c);
    hide IsGrantedBy;
    SurvivorOf(m, ceiling, c, needed);
    var s :| s in ceiling && IsGrantedBy(m, s, c) && IsGrantedBy(m, needed, s);
    GranterOfText(m, ceiling, base, t, s);
    if s != needed { GrantsNoUrl(m, s, c); }
  }

  /** Under a faithful ceiling that does not grant the agent's scope, one of its own must survive in its place. */
  lemma SurvivorOf(m: Matcher, ceiling: seq<Scope>, c: Scope, needed: Scope)
    requires Faithful(m, ceiling) && c in ceiling && !Grants(m, ceiling, c) && IsGrantedBy(m, needed, c)
    ensures exists s :: s in ceiling && IsGrantedBy(m, s, c) && IsGrantedBy(m, needed, s)
  {
    hide IsGrantedBy;
    var capped := IntersectionExists(m, [c], ceiling);
    assert Grants(m, [c], needed) && Grants(m, ceiling, needed);
    assert Grants(m, capped, needed);
    var s :| s in capped && IsGrantedBy(m, needed, s);
    assert Survives(m, [c], ceiling, s);
  }

  /** Only its own base grants a URL that does not parse. */
  lemma NothingGrantsIt(m: Matcher, ceiling: seq<Scope>, c: Scope)
    requires Qualifier(c).Some? && IsUrl(Qualifier(c).value) && ParseScopeUrl(Qualifier(c).value).None? && Base(c) !in ceiling
    ensures !Grants(m, ceiling, c)
  {
    forall h | h in ceiling ensures !IsGrantedBy(m, c, h) {
      ScopeIsItsParts(h);
    }
  }

  lemma GrantsNoUrl(m: Matcher, s: Scope, c: Scope)
    requires Qualifier(c).Some? && ParseScopeUrl(Qualifier(c).value).None?
    requires Qualifier(s).Some? && IsUrl(Qualifier(s).value)
    ensures !IsGrantedBy(m, s, c)
  {
  }

  // ---- A text longer than every scope ----

  function Longest(scopes: seq<Scope>): (n: nat)
    ensures forall s :: s in scopes ==> |s| <= n
  {
    if scopes == [] then 0
    else
      assert scopes == [scopes[0]] + scopes[1..];
      var n := Longest(scopes[1..]);
      if |scopes[0]| < n then n else |scopes[0]|
  }

  function Marks(n: nat): (s: string)
    ensures |s| == n && forall x :: x in s ==> x == '#'
  {
    if n == 0 then "" else Marks(n - 1) + "#"
  }

  lemma {:induction false} MarksExtend(m: Matcher, p: string, t: string, n: nat)
    requires GlobLike(m) && IsUrl(p) && m.glob(p, t)
    ensures IsUrl(p + Marks(n)) && m.glob(p + Marks(n), t + Marks(n))
  {
    if n == 0 {
      assert p + "" == p && t + "" == t;
    } else {
      MarksExtend(m, p, t, n - 1);
      var q, x := p + Marks(n - 1), t + Marks(n - 1);
      assert p + Marks(n) == q + "#" && t + Marks(n) == x + "#";
      hide Marks, GlobLike, IsUrl;
      OneMarkExtends(m, q, x);
    }
  }

  lemma OneMarkExtends(m: Matcher, p: string, t: string)
    requires GlobLike(m) && IsUrl(p) && m.glob(p, t)
    ensures IsUrl(p + "#") && m.glob(p + "#", t + "#")
  {
    FindStays(p, "#", "://");
  }

  lemma {:induction false} MarksMakeNoUrl(t: string, n: nat)
    requires !IsUrl(t)
    ensures !IsUrl(t + Marks(n))
  {
    if n == 0 {
      assert t + "" == t;
    } else {
      MarksMakeNoUrl(t, n - 1);
      assert t + Marks(n) == (t + Marks(n - 1)) + "#";
      MarkMakesNoUrl(t + Marks(n - 1));
    }
  }

  lemma {:induction false} MarkMakesNoUrl(t: string)
    requires !IsUrl(t)
    ensures !IsUrl(t + "#")
  {
    var s := t + "#";
    assert s[|t|] == '#';
    assert "://" == [':', '/', '/'];
    if |s| >= 3 { assert s[..3] == [s[0], s[1], s[2]]; }
    if |t| >= 3 { assert t[..3] == [t[0], t[1], t[2]]; }
    if t != "" {
      assert s[1..] == t[1..] + "#";
      MarkMakesNoUrl(t[1..]);
    } else {
      assert s[1..] == "";
    }
  }

  /** A URL under the ceiling's that matches a text matches texts longer than every scope. */
  lemma FaithfulIsMuteBelow(m: Matcher, ceiling: seq<Scope>, base: string, q: string, p: string, t: string)
    requires GlobLike(m) && Faithful(m, ceiling) && ':' !in base && base !in ceiling && base + ":" + q in ceiling
    requires UrlPrefixGrants(q, p) && !IsUrl(t)
    ensures !m.glob(p, t)
  {
    if m.glob(p, t) {
      var n := Longest(ceiling) + 1;
      var p', t' := p + Marks(n), t + Marks(n);
      hide ParseScopeUrl, UrlPrefixGrants, GlobLike, Faithful, Grants;
      UrlsOnly(q, p);
      UrlsOnly(p', p');
      MarksExtend(m, p, t, n);
      MarksMakeNoUrl(t, n);
      MarksAreIgnored(q, p, n);
      TooLongToGrant(m, ceiling, base, t');
      LongTextLeaks(m, ceiling, base, q, p', t');
    }
  }

  lemma MarksAreIgnored(q: string, p: string, n: nat)
    requires UrlPrefixGrants(q, p) && ParseScopeUrl(p).Some? && n > 0
    ensures UrlPrefixGrants(q, p + Marks(n))
  {
    hide ParseScopeUrl, UrlPrefixGrants;
    assert Marks(n) == "#" + Marks(n)[1..] by { assert Marks(n)[0] in Marks(n); }
    FragmentIsIgnored(p, Marks(n)[1..]);
    SameParse(q, p, p + Marks(n));
  }

  lemma SameParse(q: string, p: string, p': string)
    requires UrlPrefixGrants(q, p) && ParseScopeUrl(p') == ParseScopeUrl(p)
    ensures UrlPrefixGrants(q, p')
  {
    hide ParseScopeUrl;
  }

  /** The agent's scope survives by a scope of the ceiling, and grants what the ceiling does not. */
  lemma AgentLeaks(m: Matcher, ceiling: seq<Scope>, held: Scope, needed: Scope)
    requires Grants(m, ceiling, held) && IsGrantedBy(m, needed, held) && !Grants(m, ceiling, needed)
    ensures !Faithful(m, ceiling)
  {
    hide IsGrantedBy;
    var capped := IntersectionExists(m, [held], ceiling);
    assert Survives(m, [held], ceiling, held);
    assert held in capped;
    assert Grants(m, capped, needed);
  }

  /** A faithful ceiling grants no text longer than its scopes, but by its base. */
  lemma TooLongToGrant(m: Matcher, ceiling: seq<Scope>, base: string, t: string)
    requires GlobLike(m) && Faithful(m, ceiling) && ':' !in base && base !in ceiling
    requires !IsUrl(t) && |t| > Longest(ceiling)
    ensures !Grants(m, ceiling, base + ":" + t)
  {
    hide IsGrantedBy, GlobLike, Faithful, ParseScopeUrl;
    assert |base + ":" + t| > Longest(ceiling);
    forall h | h in ceiling ensures !IsGrantedBy(m, base + ":" + t, h) {
      if IsGrantedBy(m, base + ":" + t, h) {
        GranterOfText(m, ceiling, base, t, h);
        ScopeIsItsParts(h);
        if h != base + ":" + t {
          FaithfulEchoes(m, ceiling, base, Qualifier(h).value, t);
        }
      }
    }
  }

  lemma LongTextLeaks(m: Matcher, ceiling: seq<Scope>, base: string, q: string, p: string, t: string)
    requires ':' !in base && base + ":" + q in ceiling && !Grants(m, ceiling, base + ":" + t)
    requires UrlPrefixGrants(q, p) && IsUrl(p) && '/' in p && !IsUrl(t) && m.glob(p, t)
    ensures !Faithful(m, ceiling)
  {
    var held, needed := base + ":" + p, base + ":" + t;
    ScopeParts(base, q);
    ScopeParts(base, p);
    ScopeParts(base, t);
    assert Covers(m, q, p) && Covers(m, p, t);
    hide Check, KindOf, Faithful, Base, Qualifier;
    assert IsGrantedBy(m, held, base + ":" + q);
    AgentLeaks(m, ceiling, held, needed);
  }

  lemma FaithfulIsSafe(m: Matcher, ceiling: seq<Scope>)
    requires GlobLike(m) && Faithful(m, ceiling)
    ensures Safe(m, ceiling)
  {
    hide GlobLike, Faithful;
    forall c | c in ceiling ensures SafeScope(m, ceiling, c) {
      if Qualifier(c).Some? {
        FaithfulIsTightAt(m, ceiling, c);
        ScopeIsItsParts(c);
        var base, q := Base(c), Qualifier(c).value;
        hide ParseScopeUrl, Base, Qualifier;
        if IsUrl(q) && base !in ceiling {
          if ParseScopeUrl(q).Some? {
            forall p, t | UrlPrefixGrants(q, p) && !IsUrl(t) ensures !m.glob(p, t) {
              FaithfulIsMuteBelow(m, ceiling, base, q, p, t);
            }
          } else {
            forall t | !IsUrl(t) && m.glob(q, t) ensures base + ":" + t in ceiling && m.glob(t, t) {
              FaithfulEchoes(m, ceiling, base, q, t);
            }
          }
        }
      }
    }
  }

  /** Under the linked matcher, a ceiling caps every agent exactly if and only if each of its scopes is safe. */
  lemma FaithfulIffSafe(m: Matcher, ceiling: seq<Scope>)
    requires GlobLike(m)
    ensures Faithful(m, ceiling) <==> Safe(m, ceiling)
  {
    hide Safe, Grants, IsIntersection;
    if Faithful(m, ceiling) { FaithfulIsSafe(m, ceiling); }
    if Safe(m, ceiling) {
      forall agent, capped, needed | IsIntersection(m, agent, ceiling, capped)
        ensures Grants(m, capped, needed) <==> Grants(m, agent, needed) && Grants(m, ceiling, needed)
      {
        SafeIsExact(m, agent, ceiling, capped, needed);
      }
    }
  }

  // ---- What can be told from a scope's text ----

  /** Unqualified, a path without metacharacters, or a URL whose scheme has none. */
  predicate SafeBySight(c: Scope) {
    Qualifier(c).None?
    || (!IsUrl(Qualifier(c).value) && '/' in Qualifier(c).value && IsLiteral(Qualifier(c).value))
    || IsUrl(LiteralHead(Qualifier(c).value))
  }

  lemma {:induction false} UrlHeadMakesUrl(h: string, t: string)
    requires IsUrl(h) && h <= t
    ensures IsUrl(t) && Find(t, "://") == Find(h, "://")
  {
    FindStays(h, t[|h|..], "://");
    assert h + t[|h|..] == t;
  }

  lemma UrlHeadIsMute(m: Matcher, q: string)
    requires GlobLike(m) && IsUrl(LiteralHead(q))
    ensures IsUrl(q) && Mute(m, q)
  {
    UrlHeadMakesUrl(LiteralHead(q), q);
    forall t | m.glob(q, t) ensures IsUrl(t) {
      assert LiteralHead(q) <= t;
      hide GlobLike, IsUrl;
      UrlHeadMakesUrl(LiteralHead(q), t);
    }
  }

  /** The literal head of a pattern holds every prefix without metacharacters. */
  lemma {:induction false} LiteralPrefix(h: string, p: string)
    requires IsLiteral(h) && h <= p
    ensures h <= LiteralHead(p)
  {
    if h != "" {
      LiteralPrefix(h[1..], p[1..]);
      assert h == [h[0]] + h[1..];
    }
  }

  /** URLs of one scheme start alike. */
  lemma SchemeStartsUrl(p: string)
    requires ParseScopeUrl(p).Some?
    ensures var h := ParseScopeUrl(p).value.scheme + "://"; h <= p && IsUrl(h)
  {
    var i := Find(p, "://").value;
    hide Find, ParseResource;
    PrefixAt(p, i, "://");
    ContainsEnd(p[..i], "://");
  }

  lemma SchemeInHead(q: string)
    requires IsUrl(LiteralHead(q)) && ParseScopeUrl(q).Some?
    ensures IsLiteral(ParseScopeUrl(q).value.scheme + "://")
  {
    var head := LiteralHead(q);
    UrlHeadMakesUrl(head, q);
    var i := Find(q, "://").value;
    FoundFits(head, "://");
    hide Find, LiteralHead;
    SchemeIsLiteral(q, head, i);
  }

  lemma SchemeIsLiteral(q: string, head: string, i: nat)
    requires head <= q && IsLiteral(head) && i <= |head|
    ensures IsLiteral(q[..i] + "://")
  {
    var h := q[..i] + "://";
    forall k | 0 <= k < |h| ensures !IsMeta(h[k]) {
      assert h[k] == if k < i then head[k] else "://"[k - i];
      assert "://" == [':', '/', '/'];
    }
  }

  lemma UrlHeadIsMuteBelow(m: Matcher, q: string)
    requires GlobLike(m) && IsUrl(LiteralHead(q))
    ensures MuteBelow(m, q)
  {
    forall p | UrlPrefixGrants(q, p) ensures Mute(m, p) {
      UrlsOnly(q, p);
      SchemeInHead(q);
      SchemeStartsUrl(p);
      var h := ParseScopeUrl(p).value.scheme + "://";
      LiteralPrefix(h, p);
      UrlHeadMakesUrl(h, LiteralHead(p));
      hide GlobLike, Mute;
      UrlHeadIsMute(m, p);
    }
  }

  /** A ceiling of such scopes caps every agent exactly, under every matcher like the linked one. */
  lemma SafeBySightIsFaithful(m: Matcher, ceiling: seq<Scope>)
    requires GlobLike(m) && forall c :: c in ceiling ==> SafeBySight(c)
    ensures Safe(m, ceiling) && Faithful(m, ceiling)
  {
    forall c | c in ceiling ensures SafeScope(m, ceiling, c) {
      if Qualifier(c).Some? {
        var q := Qualifier(c).value;
        if IsUrl(LiteralHead(q)) {
          UrlHeadIsMute(m, q);
          UrlHeadIsMuteBelow(m, q);
        }
      }
    }
    hide Faithful, Safe, SafeBySight;
    FaithfulIffSafe(m, ceiling);
  }

  /** Neither a path nor a list, and not padded. */
  predicate IsItem(m: Matcher, s: string) {
    '/' !in s && ',' !in s && Trim(m.white, s) == s
  }

  /** An agent's list that names the ceiling's pattern beside another item lets through what the pattern matches. */
  lemma ExtraItemLeaks(
    m: Matcher, ceiling: seq<Scope>, capped: seq<Scope>, base: string, q: string, x: string, t: string, held: Scope, c: Scope, needed: Scope)
    requires ':' !in base && c in ceiling
    requires c == base + ":" + q && held == base + ":" + (q + "," + x) && needed == base + ":" + t
    requires IsItem(m, q) && IsItem(m, x) && IsItem(m, t)
    requires m.glob(q, t) && t != q && t != x
    requires IsIntersection(m, [held], ceiling, capped)
    ensures Grants(m, capped, needed) && !Grants(m, [held], needed)
  {
    var list := q + "," + x;
    TwoItems(m, q, x);
    ListedOne(m, q, list);
    ListedOne(m, t, list);
    PlainMatch(m, base, q, list);
    PlainMatch(m, base, t, list);
    PlainMatch(m, base, t, q);
    hide IsGrantedBy, Listed, Trim, Split, Trimmed;
    LeakBack(m, held, ceiling, c, needed, capped);
  }

  lemma TwoItems(m: Matcher, q: string, x: string)
    requires ',' !in q && ',' !in x && Trim(m.white, q) == q && Trim(m.white, x) == x
    ensures Trimmed(m, Split(q + "," + x, ',')) == [q, x]
  {
    SplitWithout(x, ',');
    SplitAt(q, x, ',');
    hide Split, Trim;
    assert Trimmed(m, [x]) == [x];
    assert ([q] + [x])[1..] == [x];
  }

  /** A ceiling with a qualifier that has no slash is never faithful. */
  lemma SlashlessIsUnfaithful(m: Matcher, ceiling: seq<Scope>, c: Scope)
    requires GlobLike(m) && c in ceiling && Qualifier(c).Some? && '/' !in Qualifier(c).value
    ensures !Faithful(m, ceiling)
  {
    ScopeIsItsParts(c);
    SlashlessLeaks(m, ceiling, Base(c), Qualifier(c).value);
  }
}
