/**
  Trust tiers: the scopes each one allows, what capping an agent by a tier does,
  and the least-trusted tier that reaches a scope.
*/
module TrustTiers {
  import opened Wrappers
  import opened Text
  import opened Capability
  import opened Ceilings

  datatype TrustTier = Untrusted | SemiTrusted | Trusted | Kernel

  function Rank(t: TrustTier): nat {
    match t case Untrusted => 0 case SemiTrusted => 1 case Trusted => 2 case Kernel => 3
  }

  /** A base never holds the separator that starts a qualifier. */
  type BaseName = s: string | ':' !in s witness ""

  // The known bases, in parts so that membership stays cheap to decide.
  function KnownPart1(): seq<BaseName> {
    ["fs.read", "fs.write", "fs.delete", "fs.metadata", "workspace", "net.fetch", "net.post", "net.dns"]
  }
  function KnownPart2(): seq<BaseName> {
    ["shell.exec", "shell.spawn", "git.read", "git.write", "llm.call", "llm.embed", "memory.read",
     "memory.write"]
  }
  function KnownPart3(): seq<BaseName> {
    ["memory.forget", "memory.gc", "channel.send", "channel.receive", "audit.read", "config.read",
     "config.write", "tool.allowlist"]
  }
  function KnownPart4(): seq<BaseName> {
    ["email.read", "email.write", "email.send", "message.send", "web.search", "task.read", "task.write",
     "health.read"]
  }
  function KnownPart5(): seq<BaseName> {
    ["health.write", "budget.read", "budget.write", "calc.eval", "convert.units", "date.compute",
     "calendar.read", "calendar.write"]
  }
  function KnownPart6(): seq<BaseName> {
    ["drive.read", "drive.write", "notion.read", "notion.write", "obsidian.read", "obsidian.write", "n8n.read",
     "n8n.write"]
  }
  function KnownPart7(): seq<BaseName> {
    ["contacts.read", "contacts.write", "app.read", "app.control", "app.input", "mission.create",
     "mission.gate", "mission.list"]
  }
  function KnownPart8(): seq<BaseName> {
    ["mission.status", "role.switch", "schedule.create", "schedule.list", "schedule.delete", "schedule.update",
     "webhook.create", "webhook.list"]
  }
  function KnownPart9(): seq<BaseName> {
    ["webhook.delete", "file_watch.create", "file_watch.list", "file_watch.delete", "mcp.call",
     "reflection.propose", "reflection.apply", "persona.propose"]
  }
  function KnownPart10(): seq<BaseName> {
    ["skills.propose", "skills.list", "skills.invoke", "graph.read", "skill_defaults.list",
     "skill_defaults.read", "routing.status", "routing.read"]
  }
  function KnownPart11(): seq<BaseName> {
    ["skills.write", "role.update", "ollama.list", "ollama.show", "ollama.pull", "notify.send", "loop.next",
     "loop.complete"]
  }
  function KnownPart12(): seq<BaseName> {
    ["loop.note", "remind.read", "remind.write", "kitchen.read", "kitchen.write", "kitchen.order.send",
     "kitchen.haccp.log", "team.delegate"]
  }
  function KnownPart13(): seq<BaseName> {
    ["team.message", "team.run", "team.run.channel", "notify.dispatch", "vision.generate"]
  }

  function KnownBases(): seq<Scope> {
    ((KnownPart1() + (KnownPart2() + KnownPart3())) + (KnownPart4() + (KnownPart5() + KnownPart6()))) + ((KnownPart7() + (KnownPart8() + KnownPart9())) + ((KnownPart10() + KnownPart11()) + (KnownPart12() + KnownPart13())))
  }

  function TrustedPart1(): seq<Scope> {
    ["fs.read", "fs.write", "fs.delete", "fs.metadata", "workspace", "net.fetch", "net.post", "net.dns",
     "shell.exec", "shell.spawn", "git.read", "git.write", "llm.call", "llm.embed", "memory.read",
     "memory.write", "memory.forget", "memory.gc", "channel.send", "channel.receive"]
  }
  function TrustedPart2(): seq<Scope> {
    ["audit.read", "config.read", "config.write", "mission.create", "mission.gate", "mission.list",
     "mission.status", "schedule.create", "schedule.list", "schedule.delete", "schedule.update",
     "webhook.create", "webhook.list", "webhook.delete", "file_watch.create", "file_watch.list",
     "file_watch.delete", "role.switch", "mcp.call", "reflection.propose"]
  }
  function TrustedPart3(): seq<Scope> {
    ["reflection.apply", "persona.propose", "loop.next", "loop.complete", "loop.note", "remind.read",
     "remind.write", "skills.propose", "skills.list", "skills.invoke", "graph.read", "skill_defaults.list",
     "skill_defaults.read", "routing.status", "routing.read", "skills.write", "role.update", "ollama.list",
     "ollama.show", "ollama.pull"]
  }
  function TrustedPart4(): seq<Scope> {
    ["notify.send", "email.read", "email.write", "email.send", "message.send", "web.search", "task.read",
     "task.write", "health.read", "health.write", "budget.read", "budget.write", "calc.eval", "convert.units",
     "date.compute", "vision.generate", "calendar.read", "calendar.write", "drive.read", "drive.write"]
  }
  function TrustedPart5(): seq<Scope> {
    ["notion.read", "notion.write", "obsidian.read", "obsidian.write", "n8n.read", "n8n.write", "contacts.read",
     "contacts.write", "app.read", "app.control", "app.input", "kitchen.read", "kitchen.write",
     "kitchen.order.send", "kitchen.haccp.log", "team.delegate", "team.message", "team.run", "notify.dispatch"]
  }

  function TrustedScopes(): seq<Scope> {
    (TrustedPart1() + TrustedPart2()) + (TrustedPart3() + (TrustedPart4() + TrustedPart5()))
  }

  function SemiTrustedScopes(): seq<Scope> {
    ["fs.metadata", "net.fetch", "net.dns", "llm.call", "llm.embed", "memory.read", "memory.write",
     "config.read", "calc.eval", "convert.units", "date.compute", "vision.generate"]
  }

  function UntrustedScopes(): seq<Scope> {
    ["memory.read:scope:public:*", "audit.read:public"]
  }

  /** The scopes a string may name: a known base, and no `*` for the two bases that take a target's name. */
  function Parse(s: string): Option<Scope> {
    if Base(s) !in Listing(Kernel) then None
    else if Qualifier(s) == Some("*") && (Base(s) == "role.switch" || Base(s) == "notify.send") then None
    else Some(s)
  }

  function Listing(t: TrustTier): seq<Scope> {
    match t
    case Untrusted => UntrustedScopes()
    case SemiTrusted => SemiTrustedScopes()
    case Trusted => TrustedScopes()
    case Kernel => KnownBases()
  }

  function Ceiling(t: TrustTier): seq<Scope> {
    FromScopes(Listing(t))
  }

  /** The first tier in ascending order whose ceiling grants the scope. */
  function MinForScope(m: Matcher, s: Scope): TrustTier {
    if Grants(m, Ceiling(Untrusted), s) then Untrusted
    else if Grants(m, Ceiling(SemiTrusted), s) then SemiTrusted
    else if Grants(m, Ceiling(Trusted), s) then Trusted
    else Kernel
  }

  ghost predicate Plain(s: seq<Scope>) {
    forall x :: x in s ==> ':' !in x
  }

  ghost predicate Within(a: seq<Scope>, b: seq<Scope>) {
    forall x :: x in a ==> x in b
  }

  lemma ListingsNest()
    ensures Within(Listing(SemiTrusted), Listing(Trusted)) && Within(Listing(Trusted), Listing(Kernel))
  {
    Trusted1Known();
    Trusted2Known();
    Trusted3Known();
    Trusted4Known();
    Trusted5Known();
  }

  lemma Trusted1Known()
    ensures Within(TrustedPart1(), KnownBases())
  {
  }

  lemma Trusted2Known()
    ensures Within(TrustedPart2(), KnownBases())
  {
  }

  lemma Trusted3Known()
    ensures Within(TrustedPart3(), KnownBases())
  {
  }

  lemma Trusted4Known()
    ensures Within(TrustedPart4(), KnownBases())
  {
  }

  lemma Trusted5Known()
    ensures Within(TrustedPart5(), KnownBases())
  {
  }

  lemma ListingsArePlain(t: TrustTier)
    requires t != Untrusted
    ensures Plain(Listing(t))
  {
    ListingsNest();
    forall x | x in Listing(Kernel) ensures ':' !in x {
      assert x in KnownPart1() ==> ':' !in x;
      assert x in KnownPart2() ==> ':' !in x;
      assert x in KnownPart3() ==> ':' !in x;
      assert x in KnownPart4() ==> ':' !in x;
      assert x in KnownPart5() ==> ':' !in x;
      assert x in KnownPart6() ==> ':' !in x;
      assert x in KnownPart7() ==> ':' !in x;
      assert x in KnownPart8() ==> ':' !in x;
      assert x in KnownPart9() ==> ':' !in x;
      assert x in KnownPart10() ==> ':' !in x;
      assert x in KnownPart11() ==> ':' !in x;
      assert x in KnownPart12() ==> ':' !in x;
      assert x in KnownPart13() ==> ':' !in x;
    }
  }

  lemma CeilingIsUnqualified(t: TrustTier)
    requires t != Untrusted
    ensures forall c :: c in Ceiling(t) ==> Qualifier(c).None? && Base(c) == c
  {
    hide Listing, FromScopes;
    ListingsArePlain(t);
    FromScopesLaw(Listing(t));
    forall c | c in Ceiling(t) ensures Qualifier(c).None? && Base(c) == c {
      PlainScope(c);
    }
  }

  lemma PlainScope(c: Scope)
    requires ':' !in c
    ensures Qualifier(c).None? && Base(c) == c
  {
    assert c + "" == c;
    IndexAtEndOf(c, "", ':');
  }

  /** From SemiTrusted up a ceiling grants exactly the scopes whose base it lists. */
  lemma CeilingGrants(m: Matcher, t: TrustTier, s: Scope)
    requires t != Untrusted
    ensures Grants(m, Ceiling(t), s) <==> Base(s) in Listing(t)
  {
    hide Check, KindOf, Listing, FromScopes;
    CeilingIsUnqualified(t);
    FromScopesLaw(Listing(t));
    if Grants(m, Ceiling(t), s) {
      var c :| c in Ceiling(t) && IsGrantedBy(m, s, c);
      assert Base(c) in Listing(t);
    }
    if Base(s) in Listing(t) {
      PlainScope(Base(s));
      assert Base(s) in Ceiling(t) && IsGrantedBy(m, s, Base(s));
    }
  }

  /** Capping by any of these tiers is exact, and Kernel's ceiling takes nothing away from a scope that parses. */
  lemma CappedGrants(m: Matcher, agent: seq<Scope>, t: TrustTier, capped: seq<Scope>, needed: Scope)
    requires t != Untrusted && IsIntersection(m, agent, Ceiling(t), capped)
    ensures Grants(m, capped, needed) <==> Grants(m, agent, needed) && Grants(m, Ceiling(t), needed)
    ensures t == Kernel && Parse(needed).Some? ==> (Grants(m, capped, needed) <==> Grants(m, agent, needed))
  {
    hide Grants, IsIntersection, Listing, FromScopes;
    CeilingIsUnqualified(t);
    CeilingLaw(m, agent, Ceiling(t), capped, needed);
    CeilingGrants(m, t, needed);
  }

  /** So every tier but the least trusted caps agents faithfully, and that one does not. */
  lemma FaithfulTiers(m: Matcher, t: TrustTier)
    requires GlobLike(m)
    ensures Faithful(m, Ceiling(t)) <==> t != Untrusted
  {
    hide Faithful, Listing, FromScopes, GlobLike;
    FromScopesLaw(Listing(t));
    if t == Untrusted {
      UntrustedIsQualified();
      SlashlessIsUnfaithful(m, Ceiling(t), "audit.read:public");
    } else {
      CeilingIsUnqualified(t);
      FaithfulIffSafe(m, Ceiling(t));
    }
  }

  lemma UntrustedIsQualified()
    ensures "audit.read:public" in Listing(Untrusted) && "memory.read:scope:public:*" in Listing(Untrusted)
    ensures Qualifier("audit.read:public") == Some("public")
    ensures '/' !in "public"
  {
    hide Base, Qualifier;
    ScopeParts("audit.read", "public");
    assert "audit.read" + ":" + "public" == "audit.read:public";
  }

  /**
    What the Untrusted ceiling lets through: an agent that holds a list naming
    the ceiling's pattern, and nothing else the pattern matches, gets it all.
  */
  lemma UntrustedLeaks(m: Matcher, capped: seq<Scope>)
    requires m.glob("scope:public:*", "scope:public:a") && forall c :: c in "scope:public:*xa" ==> !m.white(c)
    requires IsIntersection(m, ["memory.read:scope:public:*,x"], Ceiling(Untrusted), capped)
    ensures Grants(m, capped, "memory.read:scope:public:a")
    ensures !Grants(m, ["memory.read:scope:public:*,x"], "memory.read:scope:public:a")
  {
    hide IsIntersection, Grants, Listing, FromScopes, IsItem;
    UntrustedIsQualified();
    FromScopesLaw(Listing(Untrusted));
    PublicItems(m);
    PublicScopes();
    ExtraItemLeaks(m, Ceiling(Untrusted), capped, "memory.read", "scope:public:*", "x", "scope:public:a",
      "memory.read:scope:public:*,x", "memory.read:scope:public:*", "memory.read:scope:public:a");
  }

  lemma PublicItems(m: Matcher)
    requires forall c :: c in "scope:public:*xa" ==> !m.white(c)
    ensures IsItem(m, "scope:public:*") && IsItem(m, "scope:public:a") && IsItem(m, "x")
  {
    var all := "scope:public:*xa";
    assert !m.white(all[0]) && !m.white(all[13]) && !m.white(all[14]) && !m.white(all[15]);
    TrimEnds(m, "scope:public:*");
    TrimEnds(m, "scope:public:a");
    TrimEnds(m, "x");
    hide Trim;
  }

  lemma PublicScopes()
    ensures "memory.read:scope:public:*" == "memory.read" + ":" + "scope:public:*"
    ensures "memory.read:scope:public:*,x" == "memory.read" + ":" + ("scope:public:*" + "," + "x")
    ensures "memory.read:scope:public:a" == "memory.read" + ":" + "scope:public:a"
    ensures ':' !in "memory.read" && "scope:public:a" != "scope:public:*" && "scope:public:a" != "x"
  {
    var q, t := "scope:public:*", "scope:public:a";
    assert q[13] != t[13] && |t| != |"x"|;
  }

  /** A scope first reached at SemiTrusted or above is granted by exactly the tiers from that one up. */
  lemma ReachedFromThereUp(m: Matcher, s: Scope, t: TrustTier)
    requires Parse(s).Some? && MinForScope(m, s) != Untrusted
    ensures Grants(m, Ceiling(t), s) <==> Rank(t) >= Rank(MinForScope(m, s))
  {
    hide Grants, Listing, Ceiling;
    ListingsNest();
    CeilingGrants(m, SemiTrusted, s);
    CeilingGrants(m, Trusted, s);
    CeilingGrants(m, Kernel, s);
  }

  /** Below SemiTrusted ceilings do not nest: `audit.read:public` is Untrusted's and not SemiTrusted's. */
  lemma UntrustedDoesNotNest(m: Matcher)
    requires m.glob("public", "public")
    ensures MinForScope(m, "audit.read:public") == Untrusted
    ensures !Grants(m, Ceiling(SemiTrusted), "audit.read:public")
  {
    hide Grants, Listing, Ceiling, Base, Qualifier;
    var s := "audit.read" + ":" + "public";
    assert s == "audit.read:public";
    AuditReadIsNotSemiTrusted();
    ScopeParts("audit.read", "public");
    CeilingGrants(m, SemiTrusted, s);
    ListedIsGranted(m, Untrusted, "audit.read", "public");
  }

  lemma ListedIsGranted(m: Matcher, t: TrustTier, base: string, q: string)
    requires ':' !in base && ':' !in q && '/' !in q && ',' !in q && m.glob(q, q)
    requires base + ":" + q in Listing(t)
    ensures Grants(m, Ceiling(t), base + ":" + q)
  {
    hide IsGrantedBy, Listing, FromScopes;
    FromScopesLaw(Listing(t));
    PlainMatch(m, base, q, q);
  }

  lemma AuditReadIsNotSemiTrusted()
    ensures "audit.read" !in Listing(SemiTrusted) && "audit.read:public" in Listing(Untrusted)
  {
  }

  /** The least tier that reaches a scope grants it, or is Kernel for want of one that does; no lower tier grants it. */
  lemma LeastTier(m: Matcher, s: Scope, t: TrustTier)
    ensures MinForScope(m, s) == t <==>
            && (t == Kernel || Grants(m, Ceiling(t), s))
            && forall lower :: Rank(lower) < Rank(t) ==> !Grants(m, Ceiling(lower), s)
  {
    hide Grants, Ceiling;
    forall a: TrustTier, b: TrustTier ensures Rank(a) == Rank(b) ==> a == b {}
  }

  /** A scope parses when its base is known, unless it asks for every target of a switch or a notification. */
  lemma ParsesIff(base: string, q: string)
    requires ':' !in base
    ensures Parse(base) == if base in Listing(Kernel) then Some(base) else None
    ensures Parse(base + ":" + q)
         == if base in Listing(Kernel) && !(q == "*" && (base == "role.switch" || base == "notify.send"))
            then Some(base + ":" + q) else None
  {
    hide Listing, Base, Qualifier;
    ScopeParts(base, q);
    BareParts(base);
  }
}
