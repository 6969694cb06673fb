/**
 The source boundary: which URLs a Job Link admits (crawler/src/scope.rs).
 URL parsing itself is not modelled; a URL arrives as its parsed parts. The
 path walk follows section 5.2.4 of RFC 3986, except that empty segments are
 dropped too and the result always ends with "/".
 */
module Scope {
  import opened Wrappers
  import opened Collections
  import opened AddressFilter

  // ---------- paths ----------

  /** `raw.split('/')`. */
  function Split(s: string): (r: seq<string>)
    ensures |r| >= 1
  {
    if s == [] then [""]
    else if s[0] == '/' then [""] + Split(s[1..])
    else var rest := Split(s[1..]); [[s[0]] + rest[0]] + rest[1..]
  }

  function Join(segments: seq<string>): string {
    if segments == [] then ""
    else if |segments| == 1 then segments[0]
    else segments[0] + "/" + Join(segments[1..])
  }

  /** One segment of the walk: "" and "." change nothing, ".." drops the last kept segment. */
  function Visit(stack: seq<string>, segment: string): seq<string> {
    if segment == "" || segment == "." then stack
    else if segment == ".." then (if stack == [] then [] else stack[..|stack| - 1])
    else stack + [segment]
  }

  function Walk(stack: seq<string>, parts: seq<string>): seq<string>
    decreases |parts|
  {
    if parts == [] then stack else Walk(Visit(stack, parts[0]), parts[1..])
  }

  function Segments(raw: string): seq<string> {
    Walk([], Split(raw))
  }

  /** The text of a segment list: every segment between two slashes. */
  function Render(segments: seq<string>): string {
    if segments == [] then "/" else "/" + segments[0] + Render(segments[1..])
  }

  function Canonical(raw: string): string {
    Render(Segments(raw))
  }

  method CanonicalPath(raw: string) returns (path: string)
    ensures path == Canonical(raw)
  {
    var segments: seq<string> := [];
    var parts := Split(raw);
    for i := 0 to |parts|
      invariant Walk(segments, parts[i..]) == Walk([], parts)
    {
      var segment := parts[i];
      if segment == "" || segment == "." {
      } else if segment == ".." {
        if segments != [] {
          segments := segments[..|segments| - 1];
        }
      } else {
        segments := segments + [segment];
      }
    }
    JoinRenders(segments);
    if segments == [] {
      return "/";
    }
    return "/" + Join(segments) + "/";
  }

  lemma {:induction false} JoinRenders(segments: seq<string>)
    ensures segments != [] ==> "/" + Join(segments) + "/" == Render(segments)
  {
    if |segments| > 1 {
      JoinRenders(segments[1..]);
      assert "/" + Join(segments) + "/" == "/" + segments[0] + ("/" + Join(segments[1..]) + "/");
    } else if |segments| == 1 {
      assert segments[1..] == [];
      assert Render(segments) == "/" + segments[0] + "/";
    }
  }

  predicate SlashFree(s: string) { '/' !in s }

  /** A segment that names something. */
  predicate Name(s: string) {
    s != "" && s != "." && s != ".." && SlashFree(s)
  }

  predicate Clean(segments: seq<string>) {
    forall i :: 0 <= i < |segments| ==> Name(segments[i])
  }

  lemma {:induction false} SplitIsSlashFree(s: string)
    ensures forall i :: 0 <= i < |Split(s)| ==> SlashFree(Split(s)[i])
  {
    if s != [] {
      SplitIsSlashFree(s[1..]);
      var rest := Split(s[1..]);
      assert SlashFree(rest[0]);
      assert s[0] != '/' ==> SlashFree([s[0]] + rest[0]);
    }
  }

  lemma VisitKeepsClean(stack: seq<string>, segment: string)
    requires Clean(stack) && SlashFree(segment)
    ensures Clean(Visit(stack, segment))
  {
  }

  lemma {:induction false} WalkIsClean(stack: seq<string>, parts: seq<string>)
    requires Clean(stack) && forall i :: 0 <= i < |parts| ==> SlashFree(parts[i])
    ensures Clean(Walk(stack, parts))
    decreases |parts|
  {
    if parts != [] {
      VisitKeepsClean(stack, parts[0]);
      WalkIsClean(Visit(stack, parts[0]), parts[1..]);
    }
  }

  /** Whatever the input, the kept segments are proper names. */
  lemma SegmentsAreClean(raw: string)
    ensures Clean(Segments(raw))
  {
    SplitIsSlashFree(raw);
    WalkIsClean([], Split(raw));
  }

  lemma {:induction false} SplitAfterName(name: string, rest: string)
    requires SlashFree(name) && rest != "" && rest[0] == '/'
    ensures Split(name + rest) == [name] + Split(rest[1..])
  {
    if name == "" {
      assert name + rest == rest;
    } else {
      SplitAfterName(name[1..], rest);
      assert (name + rest)[1..] == name[1..] + rest;
      assert [name[0]] + name[1..] == name;
    }
  }

  lemma SplitAfterSlash(rest: string)
    ensures Split("/" + rest) == [""] + Split(rest)
  {
    assert ("/" + rest)[1..] == rest;
  }

  lemma WalkSkipsEmpty(stack: seq<string>, parts: seq<string>)
    ensures Walk(stack, [""] + parts) == Walk(stack, parts)
  {
    assert ([""] + parts)[1..] == parts;
  }

  lemma WalkTakesName(stack: seq<string>, name: string, parts: seq<string>)
    requires Name(name)
    ensures Walk(stack, [name] + parts) == Walk(stack + [name], parts)
  {
    assert ([name] + parts)[1..] == parts;
  }

  lemma WalkOverName(stack: seq<string>, name: string, rest: string)
    requires Name(name) && rest != "" && rest[0] == '/'
    ensures Walk(stack, Split("/" + (name + rest))) == Walk(stack + [name], Split(rest))
  {
    SplitAfterSlash(name + rest);
    WalkSkipsEmpty(stack, Split(name + rest));
    SplitAfterName(name, rest);
    WalkTakesName(stack, name, Split(rest[1..]));
    assert rest == "/" + rest[1..];
    SplitAfterSlash(rest[1..]);
    WalkSkipsEmpty(stack + [name], Split(rest[1..]));
  }

  lemma {:induction false} WalkOfRender(stack: seq<string>, segments: seq<string>)
    requires Clean(segments)
    ensures Walk(stack, Split(Render(segments))) == stack + segments
    decreases |segments|
  {
    if segments == [] {
      SplitAfterSlash("");
      assert "/" + "" == "/";
      WalkSkipsEmpty(stack, Split(""));
      WalkSkipsEmpty(stack, []);
    } else {
      RenderStep(segments);
      WalkOverName(stack, segments[0], Render(segments[1..]));
      WalkOfRender(stack + [segments[0]], segments[1..]);
      MoveHead(stack, segments);
    }
  }

  lemma RenderStep(segments: seq<string>)
    requires segments != []
    ensures Render(segments) == "/" + (segments[0] + Render(segments[1..]))
  {
  }

  lemma MoveHead<T>(a: seq<T>, b: seq<T>)
    requires b != []
    ensures a + [b[0]] + b[1..] == a + b
  {
  }

  lemma SegmentsOfRender(segments: seq<string>)
    requires Clean(segments)
    ensures Segments(Render(segments)) == segments
  {
    WalkOfRender([], segments);
  }

  /** Canonicalising twice changes nothing. */
  lemma CanonicalIsIdempotent(raw: string)
    ensures Canonical(Canonical(raw)) == Canonical(raw)
  {
    SegmentsAreClean(raw);
    SegmentsOfRender(Segments(raw));
  }

  predicate PathIsUnder(prefix: string, candidate: string) {
    prefix == "/" || candidate == prefix || prefix <= candidate
  }

  /** Two names, each followed by a slash: one text leads the other only if the names are equal. */
  lemma NameThenSlash(a: string, x: string, b: string, y: string)
    requires SlashFree(a) && SlashFree(b)
    requires x != "" && y != "" && x[0] == '/' && y[0] == '/'
    ensures a + x <= b + y <==> a == b && x <= y
  {
    assert forall k :: 0 <= k < |a| ==> (a + x)[k] != '/';
    assert forall k :: 0 <= k < |b| ==> (b + y)[k] != '/';
    assert (b + y)[|b|] == '/';
    if a + x <= b + y {
      assert (a + x)[|a|] == '/' == (b + y)[|a|];
      assert |a| == |b|;
      assert (a + x)[..|a|] == a && (b + y)[..|a|] == b;
      assert (a + x)[|a|..] == x && (b + y)[|a|..] == y;
    }
  }

  lemma {:induction false} RenderPrefix(p: seq<string>, c: seq<string>)
    requires Clean(p) && Clean(c)
    ensures Render(p) <= Render(c) <==> p <= c
  {
    if p == [] {
    } else if c == [] {
      assert |Render(p)| > 1;
    } else {
      RenderPrefix(p[1..], c[1..]);
      var p1, c1 := Render(p[1..]), Render(c[1..]);
      NameThenSlash(p[0], p1, c[0], c1);
      RenderStep(p);
      RenderStep(c);
      TailPrefix('/', p[0] + p1, '/', c[0] + c1);
      TailPrefix(p[0], p[1..], c[0], c[1..]);
      assert p == [p[0]] + p[1..] && c == [c[0]] + c[1..];
    }
  }

  lemma TailPrefix<T>(a: T, x: seq<T>, b: T, y: seq<T>)
    ensures [a] + x <= [b] + y <==> a == b && x <= y
  {
    if [a] + x <= [b] + y {
      assert ([a] + x)[0] == ([b] + y)[0];
      assert ([a] + x)[1..] == x && ([b] + y)[1..] == y;
    }
  }

  /** The string test on canonical paths is the prefix relation on segment lists. */
  lemma PathIsUnderIsSegmentPrefix(prefix: string, candidate: string)
    ensures PathIsUnder(Canonical(prefix), Canonical(candidate)) <==> Segments(prefix) <= Segments(candidate)
  {
    SegmentsAreClean(prefix);
    SegmentsAreClean(candidate);
    RenderPrefix(Segments(prefix), Segments(candidate));
    if Segments(prefix) != [] {
      assert |Render(Segments(prefix))| > 1;
    }
  }

  // ---------- hosts ----------

  /** A host text that parses as an address once its trailing dots are gone is a `Literal`. */
  datatype Host = Named(text: string) | Literal(ip: IpAddr)

  function LowerChar(c: char): char {
    if 'A' <= c <= 'Z' then (c as int + 32) as char else c
  }

  function Lower(s: string): (r: string)
    ensures |r| == |s|
    ensures forall i :: 0 <= i < |s| ==> r[i] == LowerChar(s[i])
  {
    seq(|s|, i requires 0 <= i < |s| => LowerChar(s[i]))
  }

  function TrimDots(s: string): string {
    if s != "" && s[|s| - 1] == '.' then TrimDots(s[..|s| - 1]) else s
  }

  function NormalizeIp(ip: IpAddr): IpAddr {
    match ip
    case V4(_) => ip
    case V6(a) => Mapped(a)
  }

  predicate HostsAreEquivalent(left: Host, right: Host) {
    match (left, right)
    case (Literal(l), Literal(r)) => NormalizeIp(l) == NormalizeIp(r)
    case (Named(l), Named(r)) => Lower(TrimDots(l)) == Lower(TrimDots(r))
    case _ => false
  }

  function CanonicalHost(host: Host): Host {
    match host
    case Literal(ip) => Literal(NormalizeIp(ip))
    case Named(text) => Named(TrimDots(Lower(text)))
  }

  lemma {:induction false} TrimLower(s: string)
    ensures TrimDots(Lower(s)) == Lower(TrimDots(s))
  {
    if s != "" {
      var front := s[..|s| - 1];
      TrimLower(front);
      assert Lower(s)[..|s| - 1] == Lower(front);
    }
  }

  lemma {:induction false} TrimIsStable(s: string)
    ensures TrimDots(TrimDots(s)) == TrimDots(s)
  {
    if s != "" && s[|s| - 1] == '.' { TrimIsStable(s[..|s| - 1]); }
  }

  lemma LowerIsStable(s: string)
    ensures Lower(Lower(s)) == Lower(s)
  {
  }

  /** Equivalence of hosts is equality of their canonical forms, and those are fixed points. */
  lemma EquivalentHostsShareCanonicalForm(left: Host, right: Host)
    ensures HostsAreEquivalent(left, right) <==> CanonicalHost(left) == CanonicalHost(right)
    ensures CanonicalHost(CanonicalHost(left)) == CanonicalHost(left)
  {
    match left
    case Named(l) =>
      TrimLower(l);
      LowerIsStable(TrimDots(l));
      TrimLower(TrimDots(l));
      TrimIsStable(l);
      if right.Named? { TrimLower(right.text); }
    case Literal(_) =>
  }

  // ---------- scopes ----------

  /** The parts of a parsed URL that the boundary looks at. */
  datatype Url = Url(scheme: string, credentials: bool, host: Host, port: Option<nat>, path: string)

  /** A URL as text: the path as written, and what the parser makes of the whole. */
  datatype UrlText = UrlText(text: string, writtenPath: string, parsed: Option<Url>)

  datatype ScopeError = MalformedURL | InvalidScheme | InvalidPort | CredentialsNotAllowed | PrivateHost

  datatype SourceScope = SourceScope(base: Url, pathPrefix: string)

  predicate AmbiguousEncoding(path: string) {
    exists escape :: escape in ["%2e", "%2f", "%5c"] && Contains(Lower(path), escape)
  }

  function ParseUrl(raw: UrlText): Result<Url, ScopeError> {
    if AmbiguousEncoding(raw.writtenPath) || raw.parsed.None? then Err(MalformedURL)
    else
      var url := raw.parsed.value;
      if url.scheme != "http" && url.scheme != "https" then Err(InvalidScheme)
      else if url.port == Some(0) then Err(InvalidPort)
      else if url.credentials then Err(CredentialsNotAllowed)
      else if AmbiguousEncoding(url.path) then Err(MalformedURL)
      else Ok(url)
  }

  predicate EndsWith(s: string, suffix: string) {
    |s| >= |suffix| && s[|s| - |suffix|..] == suffix
  }

  predicate IsPublicHostname(host: Host) {
    match host
    case Literal(ip) => RustPublic(ip)
    case Named(text) =>
      var name := Lower(TrimDots(text));
      && name != "" && name != "localhost"
      && !EndsWith(name, ".localhost") && !EndsWith(name, ".local") && !EndsWith(name, ".internal")
  }

  function DefaultPort(scheme: string): Option<nat> {
    if scheme == "http" then Some(80) else if scheme == "https" then Some(443) else None
  }

  function PortOrKnownDefault(url: Url): Option<nat> {
    if url.port.Some? then url.port else DefaultPort(url.scheme)
  }

  function CanonicalizeNetworkUrl(url: Url): Url {
    url.(host := CanonicalHost(url.host),
         port := if url.port.Some? && url.port == DefaultPort(url.scheme) then None else url.port)
  }

  function NewScope(raw: UrlText): Result<SourceScope, ScopeError> {
    match ParseUrl(raw)
    case Err(e) => Err(e)
    case Ok(url) =>
      if !IsPublicHostname(url.host) then Err(PrivateHost)
      else
        var base := CanonicalizeNetworkUrl(url);
        Ok(SourceScope(base, Canonical(base.path)))
  }

  predicate SameHostAndPort(left: Url, right: Url) {
    HostsAreEquivalent(left.host, right.host) && PortOrKnownDefault(left) == PortOrKnownDefault(right)
  }

  predicate AllowsUrl(scope: SourceScope, candidate: Url) {
    && !candidate.credentials
    && !AmbiguousEncoding(candidate.path)
    && Lower(candidate.scheme) == Lower(scope.base.scheme)
    && SameHostAndPort(scope.base, candidate)
    && PathIsUnder(scope.pathPrefix, Canonical(candidate.path))
  }

  predicate Allows(scope: SourceScope, raw: UrlText) {
    var parsed := ParseUrl(raw);
    parsed.Ok? && AllowsUrl(scope, parsed.value)
  }

  /** The URL lies inside the boundary that the base URL draws. */
  predicate InScope(base: UrlText, url: UrlText) {
    var scope := NewScope(base);
    scope.Ok? && Allows(scope.value, url)
  }

  /** What the boundary means: same scheme, host and effective port, and the base's segments lead the candidate's. */
  lemma ScopeMeaning(base: UrlText, url: UrlText)
    requires NewScope(base).Ok? && ParseUrl(url).Ok?
    ensures InScope(base, url) <==>
            var b, c := base.parsed.value, url.parsed.value;
            && b.scheme == c.scheme
            && CanonicalHost(b.host) == CanonicalHost(c.host)
            && PortOrKnownDefault(b) == PortOrKnownDefault(c)
            && Segments(b.path) <= Segments(c.path)
  {
    var b, c := base.parsed.value, url.parsed.value;
    EquivalentHostsShareCanonicalForm(b.host, c.host);
    EquivalentHostsShareCanonicalForm(CanonicalHost(b.host), c.host);
    PathIsUnderIsSegmentPrefix(b.path, c.path);
    LowerSchemes(b.scheme, c.scheme);
  }

  lemma LowerSchemes(a: string, b: string)
    requires a in ["http", "https"] && b in ["http", "https"]
    ensures Lower(a) == Lower(b) <==> a == b
  {
    assert |Lower(a)| == |a| && |Lower(b)| == |b|;
  }

  /** A usable base URL is inside its own boundary, so a crawl can always start. */
  lemma BaseIsInScope(base: UrlText)
    requires NewScope(base).Ok?
    ensures InScope(base, base)
  {
    ScopeMeaning(base, base);
  }

  /** A base whose segments lead another's admits everything the other admits. */
  lemma ScopeIsTransitive(outer: UrlText, inner: UrlText, url: UrlText)
    requires InScope(outer, inner) && InScope(inner, url)
    ensures InScope(outer, url)
  {
    ScopeMeaning(outer, inner);
    ScopeMeaning(inner, url);
    ScopeMeaning(outer, url);
  }
}
