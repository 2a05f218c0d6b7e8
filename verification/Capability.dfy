/**
  Capability scopes: when a held scope grants a needed one, canonical scope
  sets, and capping an agent's set by a trust tier's ceiling.
*/
module Capability {
  import opened Wrappers
  import opened Sorting
  import opened Text
  import opened ScopeUrl

  /** `base` or `base:qualifier` */
  type Scope = string

  /** The glob matcher and the Unicode white-space table, whatever they are. */
  datatype Matcher = Matcher(glob: (string, string) -> bool, white: char -> bool)

  function Base(s: Scope): string {
    s[..IndexOf(s, ':')]
  }

  function Qualifier(s: Scope): Option<string> {
    var i := IndexOf(s, ':');
    if i < |s| then Some(s[i + 1..]) else None
  }

  function Trimmed(m: Matcher, parts: seq<string>): seq<string> {
    if parts == [] then [] else [Trim(m.white, parts[0])] + Trimmed(m, parts[1..])
  }

  datatype QualifierKind = UrlPrefix | PathGlob | Allowlist | SimpleGlob

  function KindOf(needed: string, held: string): QualifierKind {
    if Contains(needed, "://") then UrlPrefix
    else if '/' in needed || '/' in held then PathGlob
    else if ',' in needed || ',' in held then Allowlist
    else SimpleGlob
  }

  /** Every needed item is among the held ones, both comma-separated and trimmed. */
  predicate Listed(m: Matcher, needed: string, held: string) {
    var items, list := Trimmed(m, Split(needed, ',')), Trimmed(m, Split(held, ','));
    forall x :: x in items ==> x in list
  }

  predicate Check(m: Matcher, kind: QualifierKind, needed: string, held: string) {
    match kind
    case UrlPrefix => UrlPrefixGrants(held, needed)
    case PathGlob => m.glob(held, needed)
    case Allowlist => Listed(m, needed, held)
    case SimpleGlob => m.glob(held, needed)
  }

  predicate IsGrantedBy(m: Matcher, needed: Scope, held: Scope) {
    Base(needed) == Base(held) &&
    match (Qualifier(needed), Qualifier(held))
    case (_, None) => true
    case (None, Some(_)) => false
    case (Some(n), Some(h)) => Check(m, KindOf(n, h), n, h)
  }

  predicate Grants(m: Matcher, held: seq<Scope>, needed: Scope) {
    exists h :: h in held && IsGrantedBy(m, needed, h)
  }

  // ---- Canonical sets ----

  /** `dedup`: drop each element equal to its predecessor. */
  function Dedup(s: seq<Scope>): seq<Scope> {
    if |s| <= 1 then s
    else if s[0] == s[1] then Dedup(s[1..])
    else [s[0]] + Dedup(s[1..])
  }

  lemma {:induction false} DedupOfSorted(s: seq<Scope>)
    requires SortedBy(s, TextLe)
    ensures SortedBy(Dedup(s), TextLt)
    ensures forall x :: x in Dedup(s) <==> x in s
    ensures s != [] ==> Dedup(s) != [] && Dedup(s)[0] == s[0]
  {
    if |s| > 1 {
      DedupOfSorted(s[1..]);
      assert s == [s[0]] + s[1..];
      if s[0] != s[1] {
        TextOrder(s[0], s[1]);
        forall x | x in s[1..] ensures TextLt(s[0], x) {
          var i :| 1 <= i < |s| && s[i] == x;
          TextOrder(s[0], x);
          TextOrder(s[1], x);
          assert TextLe(s[0], s[i]) && (i == 1 || TextLe(s[1], s[i]));
        }
      }
    }
  }

  /** The stored form of a set of scopes: `sort_by` then `dedup`. */
  function FromScopes(scopes: seq<Scope>): seq<Scope> {
    Dedup(Sort(scopes, TextLe))
  }

  /** It is strictly sorted and holds exactly the scopes given, whatever their order or multiplicity. */
  lemma FromScopesLaw(scopes: seq<Scope>)
    ensures SortedBy(FromScopes(scopes), TextLt)
    ensures forall x :: x in FromScopes(scopes) <==> x in scopes
  {
    TextLeIsPreorder();
    SortSorted(scopes, TextLe);
    SameMembers(Sort(scopes, TextLe), scopes);
    DedupOfSorted(Sort(scopes, TextLe));
  }

  /** Two vectors in stored form with the same members are the same vector. */
  lemma CanonicalForm(a: seq<Scope>, b: seq<Scope>)
    requires SortedBy(a, TextLt) && SortedBy(b, TextLt)
    requires forall x :: x in a <==> x in b
    ensures a == b
  {
    TextLeIsPreorder();
    SortedUnique(a, b, TextLt);
  }

  /** So the stored form is canonical: it depends on the members alone, and storing it again changes nothing. */
  lemma FromScopesIsCanonical(a: seq<Scope>, b: seq<Scope>)
    ensures FromScopes(a) == FromScopes(b) <==> forall x :: x in a <==> x in b
    ensures FromScopes(FromScopes(a)) == FromScopes(a)
  {
    FromScopesLaw(a);
    FromScopesLaw(b);
    FromScopesLaw(FromScopes(a));
    CanonicalForm(FromScopes(FromScopes(a)), FromScopes(a));
    if forall x :: x in a <==> x in b {
      CanonicalForm(FromScopes(a), FromScopes(b));
    }
    if FromScopes(a) == FromScopes(b) {
      forall x ensures x in a <==> x in b { assert x in FromScopes(a) <==> x in a; }
    }
  }

  /** What survives an intersection: on either side, the scopes the other side grants. */
  predicate Survives(m: Matcher, a: seq<Scope>, b: seq<Scope>, s: Scope) {
    (s in a && Grants(m, b, s)) || (s in b && Grants(m, a, s))
  }

  ghost predicate IsIntersection(m: Matcher, a: seq<Scope>, b: seq<Scope>, out: seq<Scope>) {
    SortedBy(out, TextLt) && forall s :: s in out <==> Survives(m, a, b, s)
  }

  method Intersect(m: Matcher, a: seq<Scope>, b: seq<Scope>) returns (out: seq<Scope>)
    ensures IsIntersection(m, a, b, out)
  {
    var kept: seq<Scope> := [];
    for i := 0 to |a|
      invariant forall s :: s in kept <==> s in a[..i] && Grants(m, b, s)
    {
      assert a[..i + 1] == a[..i] + [a[i]];
      if Grants(m, b, a[i]) {
        kept := kept + [a[i]];
      }
    }
    assert a[..|a|] == a;
    for i := 0 to |b|
      invariant forall s :: s in kept <==> (s in a && Grants(m, b, s)) || (s in b[..i] && Grants(m, a, s))
    {
      assert b[..i + 1] == b[..i] + [b[i]];
      if Grants(m, a, b[i]) && b[i] !in kept {
        kept := kept + [b[i]];
      }
    }
    assert b[..|b|] == b;
    out := FromScopes(kept);
    FromScopesLaw(kept);
  }

  lemma IntersectionCommutes(m: Matcher, a: seq<Scope>, b: seq<Scope>, ab: seq<Scope>, ba: seq<Scope>)
    requires IsIntersection(m, a, b, ab) && IsIntersection(m, b, a, ba)
    ensures ab == ba
  {
    forall s ensures s in ab <==> s in ba {
      assert Survives(m, a, b, s) <==> Survives(m, b, a, s);
    }
    CanonicalForm(ab, ba);
  }

  /**
    Capping by a ceiling of unqualified scopes is exact: the capped set grants
    a scope exactly when both the agent and the ceiling grant it.
  */
  lemma CeilingLaw(m: Matcher, agent: seq<Scope>, ceiling: seq<Scope>, capped: seq<Scope>, needed: Scope)
    requires forall c :: c in ceiling ==> Qualifier(c).None?
    requires IsIntersection(m, agent, ceiling, capped)
    ensures Grants(m, capped, needed) <==> Grants(m, agent, needed) && Grants(m, ceiling, needed)
  {
    hide Check, KindOf;
    if Grants(m, capped, needed) {
      var s :| s in capped && IsGrantedBy(m, needed, s);
      assert Survives(m, agent, ceiling, s);
      if s in agent && Grants(m, ceiling, s) {
        var c :| c in ceiling && IsGrantedBy(m, s, c);
        assert IsGrantedBy(m, needed, c);
      } else {
        var a :| a in agent && IsGrantedBy(m, s, a);
        assert IsGrantedBy(m, needed, a);
      }
    }
    if Grants(m, agent, needed) && Grants(m, ceiling, needed) {
      var a :| a in agent && IsGrantedBy(m, needed, a);
      var c :| c in ceiling && IsGrantedBy(m, needed, c);
      assert IsGrantedBy(m, a, c);
      assert Survives(m, agent, ceiling, a);
    }
  }

  /**
    With a qualified ceiling the law can fail: a held pattern is matched as
    plain text, so a pattern the ceiling lists survives and then grants what
    the ceiling does not.
  */
  lemma QualifiedCeilingLeaks(m: Matcher, capped: seq<Scope>)
    requires m.glob("g*", "git") && forall c :: c in "g*,lsit" ==> !m.white(c)
    requires IsIntersection(m, ["shell.exec:g*"], ["shell.exec:g*,ls"], capped)
    ensures Grants(m, capped, "shell.exec:git") && !Grants(m, ["shell.exec:g*,ls"], "shell.exec:git")
  {
    hide IsGrantedBy, Listed, IsIntersection, Grants;
    assert "shell.exec" + ":" + "g*" == "shell.exec:g*";
    assert "shell.exec" + ":" + "g*,ls" == "shell.exec:g*,ls";
    assert "shell.exec" + ":" + "git" == "shell.exec:git";
    LeakLists(m);
    PlainMatch(m, "shell.exec", "g*", "g*,ls");
    PlainMatch(m, "shell.exec", "git", "g*,ls");
    PlainMatch(m, "shell.exec", "git", "g*");
    Leak(m, "shell.exec:g*", "shell.exec:g*,ls", "shell.exec:git", capped);
  }

  /**
    Listing the base as well does not mend it: a ceiling's own pattern survives
    when an agent's list names it, and then grants what the agent does not have.
  */
  lemma RedundantCeilingLeaks(m: Matcher, capped: seq<Scope>)
    requires m.glob("g*", "git") && forall c :: c in "g*,lsit" ==> !m.white(c)
    requires IsIntersection(m, ["shell.exec:g*,ls"], ["shell.exec", "shell.exec:g*"], capped)
    ensures Grants(m, capped, "shell.exec:git") && !Grants(m, ["shell.exec:g*,ls"], "shell.exec:git")
  {
    hide IsGrantedBy, Listed, IsIntersection, Grants;
    assert "shell.exec" + ":" + "g*" == "shell.exec:g*";
    assert "shell.exec" + ":" + "g*,ls" == "shell.exec:g*,ls";
    assert "shell.exec" + ":" + "git" == "shell.exec:git";
    LeakLists(m);
    PlainMatch(m, "shell.exec", "g*", "g*,ls");
    PlainMatch(m, "shell.exec", "git", "g*,ls");
    PlainMatch(m, "shell.exec", "git", "g*");
    LeakBack(m, "shell.exec:g*,ls", ["shell.exec", "shell.exec:g*"], "shell.exec:g*", "shell.exec:git", capped);
  }

  lemma LeakBack(m: Matcher, agent: Scope, ceiling: seq<Scope>, c: Scope, needed: Scope, capped: seq<Scope>)
    requires IsIntersection(m, [agent], ceiling, capped) && c in ceiling
    requires IsGrantedBy(m, c, agent) && IsGrantedBy(m, needed, c) && !IsGrantedBy(m, needed, agent)
    ensures Grants(m, capped, needed) && !Grants(m, [agent], needed)
  {
    hide IsGrantedBy;
    assert Grants(m, [agent], c);
    assert Survives(m, [agent], ceiling, c);
  }

  lemma Leak(m: Matcher, agent: Scope, ceiling: Scope, needed: Scope, capped: seq<Scope>)
    requires IsIntersection(m, [agent], [ceiling], capped)
    requires IsGrantedBy(m, agent, ceiling) && IsGrantedBy(m, needed, agent) && !IsGrantedBy(m, needed, ceiling)
    ensures Grants(m, capped, needed) && !Grants(m, [ceiling], needed)
  {
    hide IsGrantedBy;
    assert Grants(m, [ceiling], agent);
    assert Survives(m, [agent], [ceiling], agent);
  }

  /** How a needed qualifier that is neither a URL nor a path is compared. */
  lemma PlainMatch(m: Matcher, base: string, needed: string, held: string)
    requires ':' !in base && '/' !in needed
    ensures IsGrantedBy(m, base + ":" + needed, base + ":" + held) <==>
      if '/' !in held && (',' in needed || ',' in held) then Listed(m, needed, held) else m.glob(held, needed)
  {
    ScopeParts(base, needed);
    ScopeParts(base, held);
    NoScheme(needed);
    hide Base, Qualifier, Split, Trim;
  }

  /** A scope is a base, or a base and all that follows its first colon. */
  lemma ScopeIsItsParts(s: Scope)
    ensures ':' !in Base(s)
    ensures ':' !in s ==> s == Base(s) && Qualifier(s).None?
    ensures ':' in s ==> Qualifier(s).Some? && s == Base(s) + ":" + Qualifier(s).value
  {
    var i := IndexOf(s, ':');
    hide IndexOf;
    if i < |s| {
      assert s == s[..i] + [s[i]] + s[i + 1..];
    } else {
      assert s == s[..i];
    }
  }

  /** A bare base grants itself and all its qualified forms; a qualified scope never grants its base, nor anything of another base. */
  lemma BasesCompared(m: Matcher, base: string, other: string, n: string, h: string)
    requires ':' !in base && ':' !in other
    ensures IsGrantedBy(m, base, other) <==> base == other
    ensures IsGrantedBy(m, base + ":" + n, other) <==> base == other
    ensures !IsGrantedBy(m, base, other + ":" + h)
    ensures base != other ==> !IsGrantedBy(m, base + ":" + n, other + ":" + h)
  {
    ScopeParts(base, n);
    ScopeParts(other, h);
    BareParts(base);
    BareParts(other);
    hide Base, Qualifier, Check, KindOf;
  }

  lemma BareParts(base: string)
    requires ':' !in base
    ensures Base(base) == base && Qualifier(base).None?
  {
    ScopeIsItsParts(base);
  }

  /** Which rule compares two qualifiers of one base: by what is written in the needed one, or in either. */
  lemma QualifiersCompared(m: Matcher, base: string, n: string, h: string)
    requires ':' !in base
    ensures IsGrantedBy(m, base + ":" + n, base + ":" + h) <==>
      if exists a, b :: n == a + "://" + b then UrlPrefixGrants(h, n)
      else if '/' in n || '/' in h then m.glob(h, n)
      else if ',' in n || ',' in h then
        forall x :: x in Split(n, ',') ==> exists y :: y in Split(h, ',') && Trim(m.white, x) == Trim(m.white, y)
      else m.glob(h, n)
  {
    ScopeParts(base, n);
    ScopeParts(base, h);
    ContainsIff(n, "://");
    ListedIff(m, n, h);
    hide Base, Qualifier, Split, Trim, Contains, Listed, UrlPrefixGrants;
  }

  lemma ListedIff(m: Matcher, n: string, h: string)
    ensures Listed(m, n, h) <==>
            forall x :: x in Split(n, ',') ==> exists y :: y in Split(h, ',') && Trim(m.white, x) == Trim(m.white, y)
  {
    var items, list := Split(n, ','), Split(h, ',');
    hide Split, Trim;
    forall t ensures t in Trimmed(m, items) <==> exists x :: x in items && Trim(m.white, x) == t {
      TrimmedMembers(m, items, t);
    }
    forall t ensures t in Trimmed(m, list) <==> exists y :: y in list && Trim(m.white, y) == t {
      TrimmedMembers(m, list, t);
    }
    hide Trimmed;
    if Listed(m, n, h) {
      forall x | x in items ensures exists y :: y in list && Trim(m.white, x) == Trim(m.white, y) {
        assert Trim(m.white, x) in Trimmed(m, items);
      }
    }
  }

  lemma {:induction false} TrimmedMembers(m: Matcher, parts: seq<string>, t: string)
    ensures t in Trimmed(m, parts) <==> exists x :: x in parts && Trim(m.white, x) == t
  {
    if parts != [] {
      assert parts == [parts[0]] + parts[1..];
      TrimmedMembers(m, parts[1..], t);
    }
  }

  /** White space around an item of a list does not matter. */
  lemma PaddedItemIsListed(m: Matcher, base: string, pad: string, item: string, other: string)
    requires ':' !in base && (forall c :: c in pad ==> m.white(c)) && item != "" && !m.white(item[0]) && !m.white(item[|item| - 1])
    requires '/' !in item && '/' !in pad && '/' !in other && ',' !in item && ',' !in pad
    ensures IsGrantedBy(m, base + ":" + item, base + ":" + (other + "," + (pad + item + pad)))
  {
    var held, padded := other + "," + (pad + item + pad), pad + item + pad;
    NoScheme(item);
    ContainsIff(item, "://");
    assert held[|other|] == ',' && '/' !in held;
    SplitJoins(other, padded, ',');
    SplitWithout(padded, ',');
    SplitWithout(item, ',');
    TrimIff(m.white, pad, item, pad);
    TrimIff(m.white, "", item, "");
    assert "" + item + "" == item;
    hide Split, Trim;
    assert padded in Split(other, ',') + [padded];
    QualifiersCompared(m, base, item, held);
    hide IsGrantedBy;
  }

  lemma LeakLists(m: Matcher)
    requires forall c :: c in "g*,lsit" ==> !m.white(c)
    ensures Listed(m, "g*", "g*,ls") && !Listed(m, "git", "g*,ls")
  {
    SplitWithout("g*", ',');
    SplitWithout("git", ',');
    SplitWithout("ls", ',');
    SplitAt("g*", "ls", ',');
    assert "g*" + [','] + "ls" == "g*,ls";
    hide Split;
    TrimNothing(m, "g*");
    TrimNothing(m, "ls");
    TrimNothing(m, "git");
    hide Trim;
    assert Trimmed(m, ["ls"]) == ["ls"];
    assert Trimmed(m, ["g*"] + ["ls"]) == ["g*"] + ["ls"];
    assert Trimmed(m, ["g*"]) == ["g*"];
    assert Trimmed(m, ["git"]) == ["git"];
    assert "git" in ["git"] && |"git"| == 3;
  }

  lemma ScopeParts(base: string, q: string)
    requires ':' !in base
    ensures Base(base + ":" + q) == base && Qualifier(base + ":" + q) == Some(q)
  {
    IndexAtEndOf(base, ":" + q, ':');
    assert base + ":" + q == base + (":" + q);
    assert (base + ":" + q)[|base| + 1..] == q;
  }

  lemma TrimEnds(m: Matcher, s: string)
    requires s != "" && !m.white(s[0]) && !m.white(s[|s| - 1])
    ensures Trim(m.white, s) == s
  {
  }

  lemma TrimNothing(m: Matcher, s: string)
    requires forall c :: c in s ==> !m.white(c)
    ensures Trim(m.white, s) == s
  {
  }

  lemma {:induction false} NoScheme(s: string)
    requires '/' !in s
    ensures !Contains(s, "://")
  {
    assert |s| > 1 ==> s[1] in s && s[1] != "://"[1];
    if s != "" { NoScheme(s[1..]); }
  }
}
