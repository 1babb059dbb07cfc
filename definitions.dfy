/** The classification half of the CORS engine (cors/definitions.py): the fixed name
    sets, list and origin normalisation, same-origin, simple method, simple content
    type and the prohibited (non-simple) request headers. */
module Definitions {

  import opened Wrappers
  import opened Text
  import opened Http

  /** CORS response headers; they also serve as `CORS_RESPONSE_HEADERS`. */
  const CORS_HEADERS: set<string> := {
    "access-control-allow-origin",
    "access-control-allow-methods",
    "access-control-allow-headers",
    "access-control-allow-credentials",
    "access-control-expose-headers",
    "access-control-max-age"
  }

  const SIMPLE_METHODS: set<string> := {"GET", "HEAD", "POST"}

  /** Headers a user agent adds to a request on its own. */
  const SIMPLE_AGENT_HEADERS: set<string> := {"content-length", "host", "origin"}

  /** Headers an application may set without a preflight. */
  const SIMPLE_AUTHOR_HEADERS: set<string> := {"accept", "accept-language", "content-language"}

  const SIMPLE_RESPONSE_HEADERS: set<string> := {
    "cache-control",
    "content-language",
    "content-type",
    "expires",
    "last-modified",
    "pragma"
  }

  const SIMPLE_REQUEST_CONTENT_TYPES: set<string> := {
    "application/x-www-form-urlencoded",
    "multipart/form-data",
    "text/plain"
  }

  // ---------------------------------------------------------------- _normalize_list

  /** The argument of `_normalize_list`: a comma-separated string or a collection. */
  datatype ListArg = Joined(text: string) | Listed(items: seq<string>)

  function LowerAll(xs: seq<string>): (r: seq<string>)
    ensures |r| == |xs|
    ensures forall i :: 0 <= i < |xs| ==> r[i] == Lower(xs[i])
  {
    seq(|xs|, i requires 0 <= i < |xs| => Lower(xs[i]))
  }

  function StripAll(xs: seq<string>): (r: seq<string>)
    ensures |r| == |xs|
    ensures forall i :: 0 <= i < |xs| ==> r[i] == Strip(xs[i])
  {
    seq(|xs|, i requires 0 <= i < |xs| => Strip(xs[i]))
  }

  /** `_normalize_list`: a string is split on commas and each field trimmed; then every
      item is lower-cased. */
  function NormalizeList(arg: ListArg): (r: seq<string>)
    ensures forall i :: 0 <= i < |r| ==> Lower(r[i]) == r[i]
    ensures arg.Listed? ==>
      |r| == |arg.items| && forall i :: 0 <= i < |r| ==> r[i] == Lower(arg.items[i])
    ensures arg.Joined? ==>
      var fields := Split(arg.text, ',');
      |r| == |fields| && forall i :: 0 <= i < |r| ==> r[i] == Lower(Strip(fields[i]))
  {
    match arg
    case Joined(text) => LowerAll(StripAll(Split(text, ',')))
    case Listed(items) => LowerAll(items)
  }

  /** Normalising a normalised list changes nothing. */
  lemma NormalizeListIdempotent(arg: ListArg)
    ensures NormalizeList(Listed(NormalizeList(arg))) == NormalizeList(arg)
  {
  }

  /** A comma-joined string normalises like the list of its (trimmed) fields. */
  lemma {:induction false} NormalizeJoinedAsListed(xs: seq<string>)
    requires |xs| > 0
    requires forall i :: 0 <= i < |xs| ==> ',' !in xs[i]
    ensures NormalizeList(Joined(Join(xs, ','))) == NormalizeList(Listed(StripAll(xs)))
  {
    SplitJoin(xs, ',');
  }

  function ToSet(xs: seq<string>): (s: set<string>)
    ensures forall x :: x in s <==> x in xs
  {
    set x | x in xs
  }

  // ---------------------------------------------------------------- origins

  /** `urlparse.scheme_chars` */
  predicate IsSchemeChar(c: char) {
    IsUpperLetter(c) || IsLowerLetter(c) || IsDigit(c) || c == '+' || c == '-' || c == '.'
  }

  predicate IsPortNumber(s: string) {
    |s| > 0 && forall j :: 0 <= j < |s| ==> IsDigit(s[j])
  }

  /** The scheme and network location of a URL, as `urlparse` finds them. */
  datatype UrlParts = UrlParts(scheme: string, netloc: string)

  const NETLOC_END: set<char> := {'/', '?', '#'}

  /** The scheme part of `urlparse`: the text before the first ':' is the scheme when
      it is non-empty and made of scheme characters and the text after the ':' is not a
      bare port number (a literal "http" skips that last test); the scheme is
      lower-cased. Returns the scheme ("" if none) and the rest of the URL. */
  function SplitScheme(url: string): (string, string)
  {
    var i := IndexOfAny(url, {':'});
    if 0 < i < |url|
       && (forall j :: 0 <= j < i ==> IsSchemeChar(url[j]))
       && (url[..i] == "http" || !IsPortNumber(url[i + 1..]))
    then (Lower(url[..i]), url[i + 1..])
    else ("", url)
  }

  /** The network location part of `urlparse`: after a leading "//", up to the first
      '/', '?' or '#'; empty when there is no "//". */
  function SplitNetloc(rest: string): (netloc: string)
    ensures forall c :: c in netloc ==> c !in NETLOC_END
  {
    if |rest| >= 2 && rest[..2] == "//" then
      var tail := rest[2..];
      tail[..IndexOfAny(tail, NETLOC_END)]
    else ""
  }

  /** `urlparse(url)[:2]` */
  function ParseUrl(url: string): (p: UrlParts)
    ensures forall c :: c in p.netloc ==> c !in NETLOC_END
  {
    var (scheme, rest) := SplitScheme(url);
    UrlParts(scheme, SplitNetloc(rest))
  }

  /** `re.search(":\d+$", netloc)`: the location ends in ':' and digits, possibly
      followed by one final newline (which `$` also accepts). */
  predicate PortAtEnd(netloc: string) {
    EndsWithPort(netloc)
    || (|netloc| > 0 && netloc[|netloc| - 1] == '\n' && EndsWithPort(netloc[..|netloc| - 1]))
  }

  predicate EndsWithPort(s: string) {
    exists i :: 0 <= i < |s| && s[i] == ':' && IsPortNumber(s[i + 1..])
  }

  function DefaultPort(scheme: string): string {
    if scheme == "https" then ":443" else ":80"
  }

  /** `_normalize_origin_url`: "scheme://netloc", with the scheme's default port
      appended when the location does not end in one. */
  function NormalizeOriginUrl(url: string): string
  {
    var p := ParseUrl(url);
    p.scheme + "://" + p.netloc + (if PortAtEnd(p.netloc) then "" else DefaultPort(p.scheme))
  }

  /** Every normal form, whatever the URL, is the parsed scheme, "://" and a location
      that ends in a port. */
  lemma OriginHasPort(url: string)
    ensures var r, scheme := NormalizeOriginUrl(url), ParseUrl(url).scheme;
      |r| >= |scheme| + 3 && r[..|scheme| + 3] == scheme + "://" && PortAtEnd(r)
  {
    var p := ParseUrl(url);
    var netloc := p.netloc + (if PortAtEnd(p.netloc) then "" else DefaultPort(p.scheme));
    assert PortAtEnd(netloc) by {
      DefaultPortAtEnd(p.netloc, p.scheme);
      if PortAtEnd(p.netloc) {
        assert netloc == p.netloc;
      }
    }
    PortAtEndAfter(p.scheme + "://", netloc);
    assert NormalizeOriginUrl(url) == (p.scheme + "://") + netloc;
  }

  /** A location that ends in a port still does after a prefix. */
  lemma PortAtEndAfter(prefix: string, s: string)
    requires PortAtEnd(s)
    ensures PortAtEnd(prefix + s)
  {
    if EndsWithPort(s) {
      EndsWithPortAfter(prefix, s);
    } else {
      var t := s[..|s| - 1];
      EndsWithPortAfter(prefix, t);
      assert (prefix + s)[..|prefix + s| - 1] == prefix + t;
    }
  }

  lemma EndsWithPortAfter(prefix: string, s: string)
    requires EndsWithPort(s)
    ensures EndsWithPort(prefix + s)
  {
    var i :| 0 <= i < |s| && s[i] == ':' && IsPortNumber(s[i + 1..]);
    assert (prefix + s)[|prefix| + i + 1..] == s[i + 1..];
    assert (prefix + s)[|prefix| + i] == ':';
  }

  predicate IsScheme(s: string) {
    |s| > 0 && forall j :: 0 <= j < |s| ==> IsSchemeChar(s[j])
  }

  lemma IndexOfAnyAppend(a: string, b: string, cs: set<char>)
    requires forall c :: c in a ==> c !in cs
    ensures IndexOfAny(a + b, cs) == |a| + IndexOfAny(b, cs)
  {
    var k := IndexOfAny(b, cs);
    assert forall j :: 0 <= j < |a| ==> (a + b)[j] == a[j];
    assert forall j :: 0 <= j < |b| ==> (a + b)[|a| + j] == b[j];
    assert forall j :: 0 <= j < |a| + k ==> (a + b)[j] !in cs by {
      forall j | 0 <= j < |a| + k ensures (a + b)[j] !in cs {
        if j < |a| { assert (a + b)[j] == a[j]; } else { assert (a + b)[j] == b[j - |a|]; }
      }
    }
  }

  lemma SplitSchemeOf(scheme: string, rest: string)
    requires IsScheme(scheme)
    requires rest != [] && !IsDigit(rest[0])
    ensures SplitScheme(scheme + ":" + rest) == (Lower(scheme), rest)
  {
    var url := scheme + ":" + rest;
    assert forall c :: c in scheme ==> c !in {':'} by {
      forall c | c in scheme ensures c !in {':'} {
        var j :| 0 <= j < |scheme| && scheme[j] == c;
        assert IsSchemeChar(scheme[j]);
      }
    }
    IndexOfAnyAppend(scheme, ":" + rest, {':'});
    assert url == scheme + (":" + rest);
    assert IndexOfAny(":" + rest, {':'}) == 0;
    assert IndexOfAny(url, {':'}) == |scheme|;
    assert url[..|scheme|] == scheme;
    assert url[|scheme| + 1..] == rest;
    assert !IsPortNumber(rest) by { assert !IsDigit(rest[0]); }
    assert forall j :: 0 <= j < |scheme| ==> IsSchemeChar(url[j]) by {
      forall j | 0 <= j < |scheme| ensures IsSchemeChar(url[j]) {
        assert url[j] == scheme[j];
      }
    }
  }

  lemma SplitNetlocOf(netloc: string, tail: string)
    requires forall c :: c in netloc ==> c !in NETLOC_END
    requires tail == [] || tail[0] in NETLOC_END
    ensures SplitNetloc("//" + netloc + tail) == netloc
  {
    var rest := "//" + netloc + tail;
    assert rest[..2] == "//";
    assert rest[2..] == netloc + tail;
    IndexOfAnyAppend(netloc, tail, NETLOC_END);
    assert (netloc + tail)[..|netloc|] == netloc;
  }

  /** What the origin of "scheme://netloc" followed by a path, query or fragment is:
      the lower-cased scheme and the location, with the default port when the location
      names none; the path, query and fragment are dropped. */
  lemma OriginOfUrl(scheme: string, netloc: string, tail: string)
    requires IsScheme(scheme)
    requires forall c :: c in netloc ==> c !in NETLOC_END
    requires tail == [] || tail[0] in NETLOC_END
    ensures NormalizeOriginUrl(scheme + "://" + netloc + tail) ==
      Lower(scheme) + "://" + netloc + (if PortAtEnd(netloc) then "" else DefaultPort(Lower(scheme)))
  {
    var rest := "//" + netloc + tail;
    assert scheme + "://" + netloc + tail == scheme + ":" + rest;
    SplitSchemeOf(scheme, rest);
    SplitNetlocOf(netloc, tail);
  }

  lemma LowerScheme(s: string)
    requires IsScheme(s)
    ensures IsScheme(Lower(s)) && Lower(Lower(s)) == Lower(s)
  {
  }

  /** A location ending in a default port keeps it. */
  lemma DefaultPortAtEnd(netloc: string, scheme: string)
    ensures PortAtEnd(netloc + DefaultPort(scheme))
  {
    var s := netloc + DefaultPort(scheme);
    assert s[|netloc|] == ':';
    assert IsPortNumber(s[|netloc| + 1..]);
  }

  /** A scheme found by `urlparse` is made of scheme characters and is lower case. */
  lemma ParsedScheme(url: string)
    ensures var scheme := ParseUrl(url).scheme;
      scheme != "" ==> IsScheme(scheme) && Lower(scheme) == scheme
  {
    var (scheme, rest) := SplitScheme(url);
    if scheme != "" {
      var i := IndexOfAny(url, {':'});
      LowerScheme(url[..i]);
    }
  }

  /** The normalised origin of a URL with a scheme is "scheme://netloc" with a port at
      the end of the location. */
  lemma NormalizedForm(url: string) returns (scheme: string, netloc: string)
    requires ParseUrl(url).scheme != ""
    ensures IsScheme(scheme) && Lower(scheme) == scheme
    ensures PortAtEnd(netloc) && forall c :: c in netloc ==> c !in NETLOC_END
    ensures NormalizeOriginUrl(url) == scheme + "://" + netloc + ""
  {
    var p := ParseUrl(url);
    ParsedScheme(url);
    scheme := p.scheme;
    var port := if PortAtEnd(p.netloc) then "" else DefaultPort(p.scheme);
    netloc := p.netloc + port;
    if port != "" {
      DefaultPortAtEnd(p.netloc, p.scheme);
      NoNetlocEndInPort(p.netloc, port);
    } else {
      assert netloc == p.netloc;
    }
  }

  /** `_normalize_origin_url` is idempotent on URLs with a recognised scheme. */
  lemma NormalizeOriginUrlIdempotent(url: string)
    requires ParseUrl(url).scheme != ""
    ensures NormalizeOriginUrl(NormalizeOriginUrl(url)) == NormalizeOriginUrl(url)
  {
    var scheme, netloc := NormalizedForm(url);
    OriginOfUrl(scheme, netloc, "");
  }

  /** Writing out the default port does not change the origin:
      "http://h" and "http://h:80" are the same origin, as are "https://h" and
      "https://h:443". */
  lemma DefaultPortIsImplicit(scheme: string, host: string, tail: string)
    requires IsScheme(scheme)
    requires forall c :: c in host ==> c !in NETLOC_END
    requires !PortAtEnd(host)
    requires tail == [] || tail[0] in NETLOC_END
    ensures NormalizeOriginUrl(scheme + "://" + host + tail)
         == NormalizeOriginUrl(scheme + "://" + (host + DefaultPort(Lower(scheme))) + tail)
  {
    OriginOfUrl(scheme, host, tail);
    OriginWithDefaultPort(scheme, host, tail);
  }

  /** A location that ends in the default port keeps it as written. */
  lemma OriginWithDefaultPort(scheme: string, host: string, tail: string)
    requires IsScheme(scheme)
    requires forall c :: c in host ==> c !in NETLOC_END
    requires tail == [] || tail[0] in NETLOC_END
    ensures NormalizeOriginUrl(scheme + "://" + (host + DefaultPort(Lower(scheme))) + tail)
         == Lower(scheme) + "://" + host + DefaultPort(Lower(scheme))
  {
    var port := DefaultPort(Lower(scheme));
    NoNetlocEndInPort(host, port);
    DefaultPortAtEnd(host, Lower(scheme));
    OriginOfUrl(scheme, host + port, tail);
    assert Lower(scheme) + "://" + (host + port) + "" == Lower(scheme) + "://" + host + port;
  }

  lemma NoNetlocEndInPort(host: string, port: string)
    requires forall c :: c in host ==> c !in NETLOC_END
    requires port == ":80" || port == ":443"
    ensures forall c :: c in host + port ==> c !in NETLOC_END
  {
  }

  // ---------------------------------------------------------------- request classification

  /** The request carries an Origin header (any case). */
  predicate HasOrigin(req: Request) {
    Find(req.headers, "origin").Some?
  }

  /** `is_same_origin`: the request's URL and its Origin header name the same origin. */
  predicate IsSameOrigin(req: Request)
    requires HasOrigin(req)
  {
    NormalizeOriginUrl(req.url) == NormalizeOriginUrl(Find(req.headers, "origin").value)
  }

  /** `is_simple_content_type`: no Content-Type header, or one whose value is exactly one
      of the simple request content types. */
  predicate IsSimpleContentType(req: Request)
  {
    match Find(req.headers, "content-type")
    case None => true
    case Some(v) => v in SIMPLE_REQUEST_CONTENT_TYPES
  }

  /** `is_simple_method`: GET, HEAD or POST in any case, with a simple content type. */
  predicate IsSimpleMethod(req: Request)
  {
    Upper(req.verb) in SIMPLE_METHODS && IsSimpleContentType(req)
  }

  /** A URL and an Origin with the same scheme and host, the Origin spelling out the
      scheme's default port and the URL leaving it implicit, are the same origin,
      whatever path, query or fragment the URL has. */
  lemma SameOriginWithDefaultPort(req: Request, scheme: string, host: string, tail: string)
    requires HasOrigin(req)
    requires IsScheme(scheme)
    requires forall c :: c in host ==> c !in NETLOC_END
    requires !PortAtEnd(host)
    requires tail == [] || tail[0] in NETLOC_END
    requires req.url == scheme + "://" + host + tail
    requires Find(req.headers, "origin").value == scheme + "://" + (host + DefaultPort(Lower(scheme))) + ""
    ensures IsSameOrigin(req)
  {
    OriginOfUrl(scheme, host, tail);
    OriginOfUrl(scheme, host, "");
    DefaultPortIsImplicit(scheme, host, "");
  }

  /** Two URLs whose schemes differ up to case are never the same origin. */
  lemma CrossSchemeNotSameOrigin(req: Request, s1: string, n1: string, t1: string,
                                 s2: string, n2: string, t2: string)
    requires HasOrigin(req)
    requires IsScheme(s1) && IsScheme(s2) && Lower(s1) != Lower(s2)
    requires forall c :: c in n1 ==> c !in NETLOC_END
    requires forall c :: c in n2 ==> c !in NETLOC_END
    requires t1 == [] || t1[0] in NETLOC_END
    requires t2 == [] || t2[0] in NETLOC_END
    requires req.url == s1 + "://" + n1 + t1
    requires Find(req.headers, "origin").value == s2 + "://" + n2 + t2
    ensures !IsSameOrigin(req)
  {
    OriginOfUrl(s1, n1, t1);
    OriginOfUrl(s2, n2, t2);
    LowerScheme(s1);
    LowerScheme(s2);
    SchemesDiffer(Lower(s1), Lower(s2), n1, if PortAtEnd(n1) then "" else DefaultPort(Lower(s1)),
                  n2, if PortAtEnd(n2) then "" else DefaultPort(Lower(s2)));
  }

  /** The location of a normal form: the location with the scheme's default port
      appended when it does not end in a port. */
  function WithPort(netloc: string, scheme: string): string
  {
    if PortAtEnd(netloc) then netloc else netloc + DefaultPort(scheme)
  }

  /** `is_same_origin` for a URL and an Origin of the form "scheme://netloc" plus a
      path, query or fragment: the same origin exactly when the schemes are equal up to
      case and the locations are equal once the default port is written out. */
  lemma SameOriginIff(req: Request, s1: string, n1: string, t1: string,
                      s2: string, n2: string, t2: string)
    requires HasOrigin(req)
    requires IsScheme(s1) && IsScheme(s2)
    requires forall c :: c in n1 ==> c !in NETLOC_END
    requires forall c :: c in n2 ==> c !in NETLOC_END
    requires t1 == [] || t1[0] in NETLOC_END
    requires t2 == [] || t2[0] in NETLOC_END
    requires req.url == s1 + "://" + n1 + t1
    requires Find(req.headers, "origin").value == s2 + "://" + n2 + t2
    ensures IsSameOrigin(req) <==>
      Lower(s1) == Lower(s2) && WithPort(n1, Lower(s1)) == WithPort(n2, Lower(s2))
  {
    var x1, x2 := WithPort(n1, Lower(s1)), WithPort(n2, Lower(s2));
    var a, b := Lower(s1) + "://", Lower(s2) + "://";
    OriginOfUrl(s1, n1, t1);
    OriginOfUrl(s2, n2, t2);
    WithPortAfter(a, n1, Lower(s1));
    WithPortAfter(b, n2, Lower(s2));
    if Lower(s1) == Lower(s2) {
      assert a + x1 == a + x2 <==> x1 == x2 by {
        if a + x1 == a + x2 {
          assert (a + x1)[|a|..] == x1 && (a + x2)[|a|..] == x2;
        }
      }
    } else {
      LowerScheme(s1);
      LowerScheme(s2);
      SchemesDiffer(Lower(s1), Lower(s2), x1, "", x2, "");
      assert a + x1 + "" == a + x1 && b + x2 + "" == b + x2;
    }
  }

  /** Appending the port part after a prefix is appending `WithPort`. */
  lemma WithPortAfter(a: string, netloc: string, scheme: string)
    ensures a + netloc + (if PortAtEnd(netloc) then "" else DefaultPort(scheme)) == a + WithPort(netloc, scheme)
  {
    if PortAtEnd(netloc) {
      assert a + netloc + "" == a + netloc;
    } else {
      assert a + netloc + DefaultPort(scheme) == a + (netloc + DefaultPort(scheme));
    }
  }

  /** "a://…" and "b://…" differ when the schemes a and b do. */
  lemma SchemesDiffer(a: string, b: string, x: string, p: string, y: string, q: string)
    requires IsScheme(a) && IsScheme(b) && a != b
    ensures a + "://" + x + p != b + "://" + y + q
  {
    var u, v := a + "://" + x + p, b + "://" + y + q;
    if |a| == |b| {
      var i :| 0 <= i < |a| && a[i] != b[i];
      assert u[i] == a[i] && v[i] == b[i];
    } else if |a| < |b| {
      assert u[|a|] == ':' && v[|a|] == b[|a|];
    } else {
      assert v[|b|] == ':' && u[|b|] == a[|b|];
    }
  }

  /** The content type is found under any case of "content-type" and its value is
      compared exactly; a request without one has a simple content type. */
  lemma SimpleContentTypeOf(req: Request)
    ensures (forall k :: k in req.headers ==> Lower(k) != "content-type") ==> IsSimpleContentType(req)
    ensures forall k :: k in req.headers && Lower(k) == "content-type" ==>
      (IsSimpleContentType(req) <==> req.headers[k] in SIMPLE_REQUEST_CONTENT_TYPES)
  {
    assert Lower("content-type") == "content-type";
  }

  /** The method is compared in any case, and only GET, HEAD and POST with a simple
      content type are simple. */
  lemma SimpleMethodOf(req: Request, verb: string)
    requires Upper(verb) == Upper(req.verb)
    ensures IsSimpleMethod(req) ==> IsSimpleContentType(req)
    ensures IsSimpleMethod(req.(verb := verb)) <==> IsSimpleMethod(req)
    ensures IsSimpleContentType(req) ==> IsSimpleMethod(req.(verb := "get")) && IsSimpleMethod(req.(verb := "Post"))
    ensures !IsSimpleMethod(req.(verb := "PUT")) && !IsSimpleMethod(req.(verb := "options"))
  {
    assert Upper("get") == "GET" && Upper("Post") == "POST";
    assert Upper("PUT") == "PUT" && Upper("options") == "OPTIONS";
  }

  /** `get_prohibited_headers`: the lower-cased names of the request's headers that are
      neither set by the user agent, nor simple author headers, nor `allowed`. */
  function GetProhibitedHeaders(req: Request, allowed: ListArg): (r: set<string>)
    ensures r <= LowerNames(req.headers)
    ensures r !! SIMPLE_AGENT_HEADERS && r !! SIMPLE_AUTHOR_HEADERS
    ensures forall n :: n in r ==> n !in NormalizeList(allowed)
    ensures forall n ::
      (n in LowerNames(req.headers) && n !in SIMPLE_AGENT_HEADERS
       && n !in SIMPLE_AUTHOR_HEADERS && n !in NormalizeList(allowed)) ==> n in r
  {
    var requested := LowerNames(req.headers);
    var implicit := SIMPLE_AUTHOR_HEADERS + SIMPLE_AGENT_HEADERS;
    requested - implicit - ToSet(NormalizeList(allowed))
  }

  /** Allowing more names never prohibits more. */
  lemma ProhibitedAntitone(req: Request, a: ListArg, b: ListArg)
    requires forall n :: n in NormalizeList(a) ==> n in NormalizeList(b)
    ensures GetProhibitedHeaders(req, b) <= GetProhibitedHeaders(req, a)
  {
  }

  /** In particular, adding entries to an allowed list never prohibits more. */
  lemma ProhibitedShrinksWithAllowed(req: Request, xs: seq<string>, ys: seq<string>)
    ensures GetProhibitedHeaders(req, Listed(xs + ys)) <= GetProhibitedHeaders(req, Listed(xs))
  {
    forall n | n in NormalizeList(Listed(xs))
      ensures n in NormalizeList(Listed(xs + ys))
    {
      var i :| 0 <= i < |xs| && NormalizeList(Listed(xs))[i] == n;
      assert (xs + ys)[i] == xs[i];
      assert NormalizeList(Listed(xs + ys))[i] == n;
    }
    ProhibitedAntitone(req, Listed(xs), Listed(xs + ys));
  }

  /** A request's header named `name` in any case is prohibited exactly when its lower-cased
      name is in none of the three excluded groups. */
  lemma ProhibitedMembership(req: Request, allowed: ListArg, name: string)
    requires name in req.headers
    ensures Lower(name) in GetProhibitedHeaders(req, allowed) <==>
      Lower(name) !in SIMPLE_AGENT_HEADERS && Lower(name) !in SIMPLE_AUTHOR_HEADERS
      && Lower(name) !in NormalizeList(allowed)
  {
  }

  /** Prohibited names are lower case. */
  lemma ProhibitedAreLower(req: Request, allowed: ListArg)
    ensures forall h :: h in GetProhibitedHeaders(req, allowed) ==> Lower(h) == h
  {
    forall h | h in GetProhibitedHeaders(req, allowed)
      ensures Lower(h) == h
    {
      var k :| k in req.headers && Lower(k) == h;
      LowerIdempotent(k);
    }
  }

  /** A content type that is not simple is a Content-Type header, which no allowed list
      that omits it permits. */
  lemma ContentTypeProhibited(req: Request)
    requires !IsSimpleContentType(req)
    ensures "content-type" in GetProhibitedHeaders(req, Listed([]))
  {
    var k :| k in req.headers && Lower(k) == "content-type";
    assert "content-type" in LowerNames(req.headers);
    assert |"content-type"| == 12;
    assert "content-type" !in SIMPLE_AGENT_HEADERS + SIMPLE_AUTHOR_HEADERS;
    assert NormalizeList(Listed([])) == [];
  }
}
