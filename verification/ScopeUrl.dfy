/** The scope-URL matcher: same origin, and a path prefix on component boundaries. */
module ScopeUrl {
  import opened Wrappers
  import opened Text
  import opened Numerals

  datatype ScopeUrl = ScopeUrl(scheme: string, host: string, port: nat, path: string)

  function DefaultPort(scheme: string): Option<nat> {
    if scheme == "http" then Some(80) else if scheme == "https" then Some(443) else None
  }

  function LowerChar(c: char): char {
    if 'A' <= c <= 'Z' then (c as int + 32) as char else c
  }

  /** `to_ascii_lowercase` */
  function Lower(s: string): (t: string)
    ensures |t| == |s|
    ensures forall i :: 0 <= i < |s| ==> t[i] == LowerChar(s[i])
  {
    if s == "" then "" else [LowerChar(s[0])] + Lower(s[1..])
  }

  predicate IsDecimal(c: char) {
    '0' <= c <= '9'
  }

  function ParseDigits(d: string): Option<nat> {
    if d == "" then None
    else if exists i :: 0 <= i < |d| && !IsDecimal(d[i]) then None
    else if ValueOf(d, 10) > 0xFFFF then None
    else Some(ValueOf(d, 10))
  }

  /** `parse::<u16>`: an optional plus sign, then at least one digit, at most 65535. */
  function ParsePort(s: string): Option<nat> {
    if s != "" && s[0] == '+' then ParseDigits(s[1..]) else ParseDigits(s)
  }

  /** Host and effective port; a colon inside an IPv6 bracket is not a port colon. */
  function ParseAuthority(scheme: string, authority: string): Option<(string, nat)> {
    var colon := LastIndexOf(authority, ':');
    if colon.None? || (authority[0] == '[' && !(colon.value > 0 && authority[colon.value - 1] == ']')) then
      match DefaultPort(scheme)
      case None => None
      case Some(p) => if authority == "" then None else Some((Lower(authority), p))
    else
      match ParsePort(authority[colon.value + 1..])
      case None => None
      case Some(p) =>
        if colon.value == 0 then None else Some((Lower(authority[..colon.value]), p))
  }

  /** The resource part: everything before a query or fragment. */
  function Resource(s: string): string {
    var q, f := IndexOf(s, '?'), IndexOf(s, '#');
    s[..if q < f then q else f]
  }

  /** Authority and path of a resource. */
  function ParseResource(scheme: string, rest: string): Option<ScopeUrl> {
    if scheme == "" then None
    else
      var slash := IndexOf(rest, '/');
      var authority, path := rest[..slash], if slash < |rest| then rest[slash..] else "/";
      if authority == "" || '@' in authority then None
      else match ParseAuthority(scheme, authority)
        case None => None
        case Some((host, port)) => Some(ScopeUrl(scheme, host, port, path))
  }

  function ParseScopeUrl(s: string): (u: Option<ScopeUrl>)
    ensures u.Some? ==> Find(s, "://").Some? && u.value.scheme == s[..Find(s, "://").value]
    ensures u.Some? ==> u.value.path != "" && u.value.path[0] == '/'
  {
    match Find(s, "://")
    case None => None
    case Some(i) => ParseResource(s[..i], Resource(s[i + 3..]))
  }

  function StripSlash(path: string): string {
    if path != "" && path[|path| - 1] == '/' then path[..|path| - 1] else path
  }

  predicate UrlPrefixGrants(held: string, needed: string) {
    match (ParseScopeUrl(held), ParseScopeUrl(needed))
    case (Some(h), Some(n)) =>
      if h.scheme != n.scheme || h.host != n.host || h.port != n.port then false
      else
        var heldPath, neededPath := StripSlash(h.path), StripSlash(n.path);
        if neededPath == heldPath then true
        else if heldPath <= neededPath then StartsWith(neededPath[|heldPath|..], "/")
        else false
    case _ => false
  }

  predicate SameOrigin(a: ScopeUrl, b: ScopeUrl) {
    a.scheme == b.scheme && a.host == b.host && a.port == b.port
  }

  /** The pieces of the path between its slashes; the empty piece after a trailing slash does not count. */
  function Components(u: ScopeUrl): seq<string> {
    var pieces := Split(u.path, '/');
    if u.path != "" && pieces[|pieces| - 1] == "" then pieces[..|pieces| - 1] else pieces
  }

  lemma StrippedComponents(u: ScopeUrl)
    ensures Split(StripSlash(u.path), '/') == Components(u)
  {
    hide Split;
    var p, n := u.path, |u.path| - 1;
    LastPiece(p, '/');
    if p != "" && p[n] == '/' {
      SplitWithEnd(p[..n], '/');
      assert p == p[..n] + ['/'];
    }
  }

  /** A held URL grants a needed one exactly when the origins agree and its components begin the other's. */
  lemma GrantsIffComponentPrefix(held: string, needed: string)
    ensures UrlPrefixGrants(held, needed) <==>
            && ParseScopeUrl(held).Some? && ParseScopeUrl(needed).Some?
            && SameOrigin(ParseScopeUrl(held).value, ParseScopeUrl(needed).value)
            && Components(ParseScopeUrl(held).value) <= Components(ParseScopeUrl(needed).value)
  {
    if ParseScopeUrl(held).Some? && ParseScopeUrl(needed).Some? {
      var h, n := ParseScopeUrl(held).value, ParseScopeUrl(needed).value;
      BoundaryIsListPrefix(StripSlash(h.path), StripSlash(n.path), '/');
      StrippedComponents(h);
      StrippedComponents(n);
      hide Components, Split;
    }
  }

  /** The bare origin grants every path below it. */
  lemma RootGrantsOrigin(held: string, needed: string)
    requires ParseScopeUrl(held).Some? && ParseScopeUrl(held).value.path == "/"
    ensures UrlPrefixGrants(held, needed) <==>
            ParseScopeUrl(needed).Some? && SameOrigin(ParseScopeUrl(held).value, ParseScopeUrl(needed).value)
  {
    GrantsIffComponentPrefix(held, needed);
    SplitWithEnd("", '/');
    SplitWithout("", '/');
    assert "" + ['/'] == "/";
    assert Components(ParseScopeUrl(held).value) == [""];
    if ParseScopeUrl(needed).Some? {
      var n := ParseScopeUrl(needed).value;
      assert IndexOf(n.path, '/') == 0;
      assert Split(n.path, '/')[0] == "" && |Split(n.path, '/')| > 1;
    }
  }

  /** One slash at the end of a path makes no difference, on either side. */
  lemma TrailingSlashIsIgnored(a: string, b: string, other: string)
    requires ParseScopeUrl(a).Some? && ParseScopeUrl(b).Some?
    requires var x, y := ParseScopeUrl(a).value, ParseScopeUrl(b).value;
      SameOrigin(x, y) && y.path == x.path + "/" && x.path[|x.path| - 1] != '/'
    ensures UrlPrefixGrants(a, other) <==> UrlPrefixGrants(b, other)
    ensures UrlPrefixGrants(other, a) <==> UrlPrefixGrants(other, b)
  {
    var x, y := ParseScopeUrl(a).value, ParseScopeUrl(b).value;
    SplitWithEnd(x.path, '/');
    LastPiece(x.path, '/');
    assert Components(y) == Components(x);
    GrantsIffComponentPrefix(a, other);
    GrantsIffComponentPrefix(b, other);
    GrantsIffComponentPrefix(other, a);
    GrantsIffComponentPrefix(other, b);
    hide UrlPrefixGrants, ParseScopeUrl, Components;
  }

  /** The relation is a preorder on parseable URLs. */
  lemma GrantsPreorder(a: string, b: string, c: string)
    ensures UrlPrefixGrants(a, a) <==> ParseScopeUrl(a).Some?
    ensures UrlPrefixGrants(a, b) && UrlPrefixGrants(b, c) ==> UrlPrefixGrants(a, c)
  {
    hide UrlPrefixGrants, ParseScopeUrl, Components;
    GrantsIffComponentPrefix(a, a);
    GrantsIffComponentPrefix(a, b);
    GrantsIffComponentPrefix(b, c);
    GrantsIffComponentPrefix(a, c);
  }

  /** Two URLs that grant a third are comparable. */
  lemma GrantersCompare(a: string, b: string, c: string)
    requires UrlPrefixGrants(a, c) && UrlPrefixGrants(b, c)
    ensures UrlPrefixGrants(a, b) || UrlPrefixGrants(b, a)
  {
    hide UrlPrefixGrants, ParseScopeUrl, Components;
    GrantsIffComponentPrefix(a, c);
    GrantsIffComponentPrefix(b, c);
    GrantsIffComponentPrefix(a, b);
    GrantsIffComponentPrefix(b, a);
  }

  // ---- Normalization of the authority ----

  /** The same, or the two cases of one letter: 32 places apart in the table. */
  predicate SameLetter(x: char, y: char) {
    x == y || ('A' <= x <= 'Z' && y as int == x as int + 32) || ('A' <= y <= 'Z' && x as int == y as int + 32)
  }

  /** Equal but for the case of ASCII letters. */
  ghost predicate SameButCase(a: string, b: string) {
    |a| == |b| && forall i :: 0 <= i < |a| ==> SameLetter(a[i], b[i])
  }

  lemma SameLetterLowers(x: char, y: char)
    ensures LowerChar(x) == LowerChar(y) <==> SameLetter(x, y)
  {
  }

  lemma SameButCaseLowers(a: string, b: string)
    ensures Lower(a) == Lower(b) <==> SameButCase(a, b)
  {
    hide LowerChar, SameLetter, Lower;
    var x, y := Lower(a), Lower(b);
    forall i | 0 <= i < |a| && i < |b| ensures x[i] == y[i] <==> SameLetter(a[i], b[i]) {
      SameLetterLowers(a[i], b[i]);
    }
    if x == y {
      forall i | 0 <= i < |a| ensures SameLetter(a[i], b[i]) { assert x[i] == y[i]; }
    }
  }

  lemma ColonHasNoCase(x: char, y: char)
    requires SameLetter(x, y)
    ensures x == ':' <==> y == ':'
  {
  }

  lemma {:induction false} CaseKeepsColon(a: string, b: string)
    requires SameButCase(a, b)
    ensures LastIndexOf(a, ':') == LastIndexOf(b, ':')
  {
    if a != "" {
      assert SameLetter(a[|a| - 1], b[|b| - 1]);
      CaseKeepsColon(a[..|a| - 1], b[..|b| - 1]);
    }
  }

  lemma CaseKeepsDigits(d: string, e: string)
    requires SameButCase(d, e)
    ensures ParseDigits(d) == ParseDigits(e)
  {
    forall i | 0 <= i < |d| ensures IsDecimal(d[i]) ==> d[i] == e[i]
      ensures IsDecimal(e[i]) ==> d[i] == e[i]
    {
      assert SameLetter(d[i], e[i]);
    }
    if forall i :: 0 <= i < |d| ==> IsDecimal(d[i]) {
      assert d == e;
    } else {
      var i :| 0 <= i < |d| && !IsDecimal(d[i]);
      assert !IsDecimal(e[i]);
    }
  }

  lemma CaseKeepsPort(a: string, b: string)
    requires SameButCase(a, b)
    ensures ParsePort(a) == ParsePort(b)
  {
    CaseKeepsDigits(a, b);
    if a != "" {
      assert SameLetter(a[0], b[0]);
      CaseKeepsDigits(a[1..], b[1..]);
    }
  }

  /** Hosts are case-insensitive (section 3.2.2 of RFC 3986). */
  lemma HostCaseIsIgnored(scheme: string, a: string, b: string)
    requires SameButCase(a, b)
    ensures ParseAuthority(scheme, a) == ParseAuthority(scheme, b)
  {
    hide ParsePort, Lower, LastIndexOf, DefaultPort;
    CaseKeepsColon(a, b);
    SameButCaseLowers(a, b);
    var colon := LastIndexOf(a, ':');
    if colon.Some? {
      var i := colon.value;
      CaseKeepsPort(a[i + 1..], b[i + 1..]);
      SameButCaseLowers(a[..i], b[..i]);
      assert SameLetter(a[0], b[0]);
      if i > 0 { assert SameLetter(a[i - 1], b[i - 1]); }
    }
  }

  /** Without a port, two hosts are one exactly when they differ in nothing but the case of letters. */
  lemma SameHostIff(scheme: string, a: string, b: string)
    requires DefaultPort(scheme).Some? && a != "" && b != "" && ':' !in a && ':' !in b
    ensures ParseAuthority(scheme, a) == ParseAuthority(scheme, b) <==> SameButCase(a, b)
  {
    SameButCaseLowers(a, b);
  }

  /** An IPv6 bracket is opened and the host does not end with its close. */
  predicate Unclosed(host: string)
    requires host != ""
  {
    host[0] == '[' && host[|host| - 1] != ']'
  }

  /** A colon after the host proper, which is taken for a port's: any last colon, unless it is inside an IPv6 bracket. */
  predicate HasPortColon(host: string)
    requires host != ""
  {
    var colon := LastIndexOf(host, ':');
    colon.Some? && (host[0] == '[' ==> colon.value > 0 && host[colon.value - 1] == ']')
  }

  /**
    Writing the scheme's own port out changes nothing (section 6.2.3 of RFC
    3986) exactly when the host, an IPv6 literal or not, has no port yet and
    leaves no bracket open.
  */
  lemma DefaultPortIsImplied(scheme: string, host: string, port: string)
    requires host != ""
    requires DefaultPort(scheme).Some? && ParsePort(port) == DefaultPort(scheme)
    ensures ParseAuthority(scheme, host + ":" + port) == ParseAuthority(scheme, host) <==>
            !Unclosed(host) && !HasPortColon(host)
  {
    PortHasNoColon(port);
    PortColon(host, port);
    hide ParsePort, LastIndexOf, DefaultPort;
    assert |Lower(host + ":" + port)| > |Lower(host)|;
  }

  lemma PortHasNoColon(port: string)
    requires ParsePort(port).Some?
    ensures ':' !in port
  {
    assert ParseDigits(port).Some? ==> forall i :: 0 <= i < |port| ==> IsDecimal(port[i]);
    assert port != "" && port[0] == '+' ==> forall i :: 0 < i < |port| ==> port[i] == port[1..][i - 1];
  }

  lemma {:induction false} PortColon(host: string, port: string)
    requires ':' !in port
    ensures LastIndexOf(host + ":" + port, ':') == Some(|host|)
    ensures (host + ":" + port)[..|host|] == host && (host + ":" + port)[|host| + 1..] == port
  {
    var s := host + ":" + port;
    if port != "" {
      PortColon(host, port[..|port| - 1]);
      assert s[..|s| - 1] == host + ":" + port[..|port| - 1];
    }
  }

  // ---- Building and parsing ----

  lemma SchemeFound(scheme: string, rest: string)
    requires ':' !in scheme
    ensures Find(scheme + "://" + rest, "://") == Some(|scheme|)
    ensures (scheme + "://" + rest)[..|scheme|] == scheme && (scheme + "://" + rest)[|scheme| + 3..] == rest
  {
    var s, p := scheme + "://" + rest, "://";
    FindIsFirst(scheme, p, rest);
    var i := Find(s, p).value;
    hide Find;
    forall j | 0 <= j < |scheme| ensures s[j] != ':' {
      assert s[j] == scheme[j];
    }
    assert s[i..][0] == s[i] && p[0] == ':';
    assert p <= s[i..];
  }

  lemma ResourceEnds(body: string, tail: string)
    requires '?' !in body && '#' !in body && (tail == "" || tail[0] == '?' || tail[0] == '#')
    ensures Resource(body + tail) == body
  {
    var s := body + tail;
    var q, f := IndexOf(s, '?'), IndexOf(s, '#');
    hide IndexOf;
    forall j | 0 <= j < |body| ensures s[j] != '?' && s[j] != '#' {
      assert s[j] == body[j];
    }
    assert tail != "" ==> s[|body|] == tail[0];
    assert s[..|body|] == body;
  }

  /** A path ends where a query or a fragment begins, and no path is the root; a URL with user information is refused. */
  lemma ParsedParts(scheme: string, authority: string, path: string, tail: string)
    requires ':' !in scheme && '/' !in authority && '?' !in authority && '#' !in authority
    requires (path == "" || path[0] == '/') && '?' !in path && '#' !in path
    requires tail == "" || tail[0] == '?' || tail[0] == '#'
    ensures ParseScopeUrl(scheme + "://" + (authority + path + tail))
         == if scheme == "" || authority == "" || '@' in authority then None
            else match ParseAuthority(scheme, authority)
              case None => None
              case Some((host, port)) => Some(ScopeUrl(scheme, host, port, if path == "" then "/" else path))
  {
    hide ParseAuthority, Find, IndexOf;
    SchemeFound(scheme, authority + path + tail);
    ResourceEnds(authority + path, tail);
    IndexAtEndOf(authority, path, '/');
    assert (authority + path)[..|authority|] == authority && (authority + path)[|authority|..] == path;
  }

  lemma DecimalDigits(n: nat)
    ensures ParseDigits(Digits(n, 10)) == if n <= 65535 then Some(n) else None
  {
    ValueOfDigits(n, 10);
    DigitsAreDecimal(n);
  }

  lemma {:induction false} DigitsAreDecimal(n: nat)
    ensures forall i :: 0 <= i < |Digits(n, 10)| ==> IsDecimal(Digits(n, 10)[i])
  {
    if n >= 10 {
      DivMod(n, 10);
      DigitsAreDecimal(n / 10);
    }
  }

  lemma PortNumber(n: nat)
    ensures ParsePort(Digits(n, 10)) == if n <= 65535 then Some(n) else None
    ensures ParsePort("+" + Digits(n, 10)) == if n <= 65535 then Some(n) else None
  {
    DecimalDigits(n);
    DigitsAreDecimal(n);
    assert ("+" + Digits(n, 10))[1..] == Digits(n, 10);
    hide Digits;
    assert IsDecimal(Digits(n, 10)[0]);
  }

  /** An authority with a port number in it: the host in lower case and that port, if it fits 16 bits. */
  lemma AuthorityWithPort(scheme: string, host: string, n: nat)
    requires host != "" && (host[0] == '[' ==> host[|host| - 1] == ']')
    ensures ParseAuthority(scheme, host + ":" + Digits(n, 10)) == if n <= 65535 then Some((Lower(host), n)) else None
  {
    hide Digits, ParsePort, ParseAuthority, Lower;
    PortNumber(n);
    DigitsAreDecimal(n);
    PortTaken(scheme, host, Digits(n, 10));
  }

  lemma PortTaken(scheme: string, host: string, port: string)
    requires host != "" && (host[0] == '[' ==> host[|host| - 1] == ']') && ':' !in port
    ensures ParseAuthority(scheme, host + ":" + port)
         == if ParsePort(port).Some? then Some((Lower(host), ParsePort(port).value)) else None
  {
    hide ParsePort, LastIndexOf, ParseAuthority, Lower;
    PortColon(host, port);
    var authority := host + ":" + port;
    assert authority[..|host|][0] == authority[0] && authority[..|host|][|host| - 1] == authority[|host| - 1];
    PortAt(scheme, authority, |host|);
  }

  lemma PortAt(scheme: string, authority: string, i: nat)
    requires LastIndexOf(authority, ':') == Some(i) && 0 < i < |authority| && (authority[0] == '[' ==> authority[i - 1] == ']')
    ensures ParseAuthority(scheme, authority)
         == match ParsePort(authority[i + 1..])
            case Some(p) => Some((Lower(authority[..i]), p))
            case None => None
  {
    hide ParsePort, LastIndexOf, DefaultPort, Lower;
  }

  /** A URL that is put together from its parts is taken apart into them. */
  lemma UrlRoundTrip(scheme: string, host: string, n: nat, path: string, tail: string)
    requires scheme != "" && ':' !in scheme
    requires host != "" && (host[0] == '[' ==> host[|host| - 1] == ']')
    requires '@' !in host && '/' !in host && '?' !in host && '#' !in host
    requires (path == "" || path[0] == '/') && '?' !in path && '#' !in path
    requires tail == "" || tail[0] == '?' || tail[0] == '#'
    ensures ParseScopeUrl(scheme + "://" + (host + ":" + Digits(n, 10) + path + tail))
         == if n <= 65535 then Some(ScopeUrl(scheme, Lower(host), n, if path == "" then "/" else path)) else None
  {
    AuthorityWithPort(scheme, host, n);
    DigitsAreDecimal(n);
    hide Digits, ParseAuthority, ParseScopeUrl, Lower;
    var authority := host + ":" + Digits(n, 10);
    forall c | c in authority ensures c in host || c == ':' || IsDecimal(c) {
    }
    ParsedParts(scheme, authority, path, tail);
  }

  /** Without a port the scheme's own is meant: 80 for http, 443 for https; other schemes have none. */
  lemma UrlWithoutPort(scheme: string, host: string, path: string, tail: string)
    requires scheme != "" && ':' !in scheme
    requires host != "" && ':' !in host && '@' !in host && '/' !in host && '?' !in host && '#' !in host
    requires (path == "" || path[0] == '/') && '?' !in path && '#' !in path
    requires tail == "" || tail[0] == '?' || tail[0] == '#'
    ensures ParseScopeUrl(scheme + "://" + (host + path + tail))
         == if scheme == "http" then Some(ScopeUrl(scheme, Lower(host), 80, if path == "" then "/" else path))
            else if scheme == "https" then Some(ScopeUrl(scheme, Lower(host), 443, if path == "" then "/" else path))
            else None
  {
    ParsedParts(scheme, host, path, tail);
    PortlessAuthority(scheme, host);
    hide ParseScopeUrl, Lower, ParseAuthority;
  }

  lemma PortlessAuthority(scheme: string, host: string)
    requires host != "" && ':' !in host
    ensures ParseAuthority(scheme, host)
         == if scheme == "http" then Some((Lower(host), 80)) else if scheme == "https" then Some((Lower(host), 443)) else None
  {
    hide LastIndexOf, Lower, ParsePort;
  }
}
