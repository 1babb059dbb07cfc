/** The preflight engine (cors/preflight.py, without `send`): the three checks a
    response must pass, the three contributors that decide what a preflight request
    carries and which checks follow it, `prepare_preflight`, which merges them, and the
    two helpers a server uses to answer with permissive CORS headers. */
module Preflight {

  import opened Wrappers
  import opened Text
  import opened Ordering
  import opened Http
  import opened Definitions
  import opened Errors

  const ALLOW_ORIGIN := "Access-Control-Allow-Origin"
  const ALLOW_METHODS := "Access-Control-Allow-Methods"
  const ALLOW_HEADERS := "Access-Control-Allow-Headers"
  const EXPOSE_HEADERS := "Access-Control-Expose-Headers"
  const REQUEST_METHOD := "Access-Control-Request-Method"
  const REQUEST_HEADERS := "Access-Control-Request-Headers"

  /** `format_header_field`: each '-'-separated segment capitalized; only the case of
      letters changes. */
  function FormatHeaderField(header: string): (r: string)
    ensures |r| == |header| && Lower(r) == Lower(header)
  {
    HeaderCaseLength(header);
    HeaderCaseLower(header);
    HeaderCase(header)
  }

  /** `format_header_field` capitalizes each '-'-separated segment and keeps the
      segments apart. */
  lemma FormatHeaderFieldSegments(header: string)
    ensures Split(FormatHeaderField(header), '-') == CapitalizeAll(Split(header, '-'))
  {
    HeaderCaseFields(header);
  }

  // ---------------------------------------------------------------- checks

  /** The follow-up checks `prepare_preflight` hands back. */
  datatype Check = CheckOrigin | CheckMethod | CheckHeaders

  /** `check_origin`: a same-origin request always passes; otherwise the response must
      allow any origin ("*") or exactly the request's Origin value. */
  function CheckOriginOf(response: Response, req: Request): (r: Outcome<Error>)
    requires HasOrigin(req)
    ensures IsSameOrigin(req) ==> r == Pass
    ensures !IsSameOrigin(req) ==>
      var allowed := Find(response.headers, ALLOW_ORIGIN);
      (r.Pass? <==> allowed == Some("*") || allowed == Some(Find(req.headers, "origin").value))
    ensures r.Fail? ==> r.error == Denied(OriginNotAllowed(Find(req.headers, "origin").value), req)
  {
    if IsSameOrigin(req) then Pass
    else
      var origin := Find(req.headers, "origin").value;
      var allowed := Find(response.headers, ALLOW_ORIGIN);
      if allowed == Some("*") || allowed == Some(origin) then Pass
      else Fail(Denied(OriginNotAllowed(origin), req))
  }

  /** The methods a response allows: its Allow-Methods value ("" when absent) split on
      commas, each item trimmed and upper-cased. */
  function AllowedMethodList(response: Response): (r: seq<string>)
    ensures var fields := Split(FindOr(response.headers, ALLOW_METHODS, ""), ',');
      |r| == |fields| && forall i :: 0 <= i < |r| ==> r[i] == Upper(Strip(fields[i]))
  {
    var fields := Split(FindOr(response.headers, ALLOW_METHODS, ""), ',');
    seq(|fields|, i requires 0 <= i < |fields| => Upper(Strip(fields[i])))
  }

  /** The request's method needs the response's permission: it is not GET or HEAD, and
      not a POST with a simple content type. */
  predicate NeedsMethodPermission(req: Request) {
    Upper(req.verb) !in {"GET", "HEAD"} && !(Upper(req.verb) == "POST" && IsSimpleContentType(req))
  }

  /** A method is simple and not an irregular POST exactly when it needs no
      permission. */
  lemma SimpleIffNoPermission(req: Request)
    ensures var verb := Upper(req.verb);
      (verb in SIMPLE_METHODS && !(verb == "POST" && !IsSimpleContentType(req)))
      <==> !NeedsMethodPermission(req)
  {
    var verb := Upper(req.verb);
    assert verb in SIMPLE_METHODS <==> verb in {"GET", "HEAD"} || verb == "POST";
  }

  /** `check_method`: GET and HEAD always pass, POST passes unless it carries a
      non-simple content type; any other method must be listed in the response's
      Allow-Methods. */
  function CheckMethodOf(response: Response, req: Request): (r: Outcome<Error>)
    ensures !NeedsMethodPermission(req) ==> r == Pass
    ensures NeedsMethodPermission(req) ==> (r.Pass? <==> Upper(req.verb) in AllowedMethodList(response))
    ensures r.Fail? ==> r.error == Denied(MethodNotAllowed(req.verb), req)
  {
    var verb := Upper(req.verb);
    var simple := verb in SIMPLE_METHODS;
    var contentType := Find(req.headers, "content-type");
    var irregularPost := verb == "POST" && contentType.Some? && contentType.value !in SIMPLE_REQUEST_CONTENT_TYPES;
    SimpleIffNoPermission(req);
    if simple && !irregularPost then Pass
    else if verb in AllowedMethodList(response) then Pass
    else Fail(Denied(MethodNotAllowed(req.verb), req))
  }

  /** Without an Allow-Methods header the list of allowed methods is `[""]`, so a
      method that needs permission is refused, unless it is the empty string. */
  lemma CheckMethodWithoutAllowMethods(response: Response, req: Request)
    requires Find(response.headers, ALLOW_METHODS).None?
    requires NeedsMethodPermission(req)
    ensures CheckMethodOf(response, req).Pass? <==> req.verb == ""
  {
    assert Split("", ',') == [""];
    assert Strip("") == "";
    assert AllowedMethodList(response) == [""];
    if Upper(req.verb) == "" {
      assert |req.verb| == 0;
    }
  }

  /** `check_headers`: every header of the request that is neither set by the user agent,
      nor a simple author header, nor listed in the response's Allow-Headers must be a
      Content-Type carrying a simple content type. */
  function CheckHeadersOf(response: Response, req: Request): (r: Outcome<Error>)
    ensures var allowed := NormalizeList(Joined(FindOr(response.headers, ALLOW_HEADERS, "")));
      r.Pass? <==> forall n ::
        (n in LowerNames(req.headers) && n !in SIMPLE_AGENT_HEADERS && n !in SIMPLE_AUTHOR_HEADERS && n !in allowed)
        ==> n == "content-type" && IsSimpleContentType(req)
    ensures r.Fail? ==>
      r.error == Denied(HeadersNotAllowed(GetProhibitedHeaders(req, Joined(FindOr(response.headers, ALLOW_HEADERS, "")))), req)
  {
    var allowed := FindOr(response.headers, ALLOW_HEADERS, "");
    var prohibited := GetProhibitedHeaders(req, Joined(allowed));
    if |prohibited| == 0 then Pass
    else if prohibited == {"content-type"} && IsSimpleContentType(req) then Pass
    else
      Fail(Denied(HeadersNotAllowed(prohibited), req))
  }

  /** Runs one follow-up check against a response. */
  function RunCheck(check: Check, response: Response, req: Request): Outcome<Error>
    requires check == CheckOrigin ==> HasOrigin(req)
  {
    match check
    case CheckOrigin => CheckOriginOf(response, req)
    case CheckMethod => CheckMethodOf(response, req)
    case CheckHeaders => CheckHeadersOf(response, req)
  }

  // ---------------------------------------------------------------- contributors

  /** What one contributor adds to a preflight: request headers and follow-up checks. */
  datatype Contribution = Contribution(headers: Headers, checks: seq<Check>)

  /** `prepare_preflight_allowed_origin`: only a cross-origin request needs the origin
      check, and it adds no header. */
  function AllowedOrigin(req: Request): (c: Contribution)
    requires HasOrigin(req)
    ensures c.headers == map[]
    ensures CheckOrigin in c.checks <==> !IsSameOrigin(req)
    ensures forall i :: 0 <= i < |c.checks| ==> c.checks[i] == CheckOrigin
    ensures |c.checks| <= 1 && (c.checks == [] <==> IsSameOrigin(req))
  {
    if IsSameOrigin(req) then Contribution(map[], []) else Contribution(map[], [CheckOrigin])
  }

  /** The header names a preflight must ask for: the prohibited names (nothing allowed
      yet) in header case, and "Content-Type" when the content type is not simple. */
  function NeededHeaders(req: Request): (r: set<string>)
    ensures forall h :: h in GetProhibitedHeaders(req, Listed([])) ==> FormatHeaderField(h) in r
    ensures !IsSimpleContentType(req) ==> "Content-Type" in r
  {
    var prohibited := GetProhibitedHeaders(req, Listed([]));
    var needed := set h | h in prohibited :: FormatHeaderField(h);
    if IsSimpleContentType(req) then needed else needed + {"Content-Type"}
  }

  /** Every needed name is a prohibited name in header case, or "Content-Type" for a
      content type that is not simple. */
  lemma NeededHeaderOrigin(req: Request, x: string)
    requires x in NeededHeaders(req)
    ensures (exists h :: h in GetProhibitedHeaders(req, Listed([])) && x == FormatHeaderField(h))
      || (x == "Content-Type" && !IsSimpleContentType(req))
  {
  }

  /** No header is needed exactly when no header is prohibited. */
  lemma NeededHeadersEmpty(req: Request)
    ensures NeededHeaders(req) == {} <==> GetProhibitedHeaders(req, Listed([])) == {}
  {
    var prohibited := GetProhibitedHeaders(req, Listed([]));
    var needed := NeededHeaders(req);
    if prohibited != {} {
      var h :| h in prohibited;
      assert FormatHeaderField(h) in needed;
    } else if needed != {} {
      var x :| x in needed;
      NeededHeaderOrigin(req, x);
      ContentTypeProhibited(req);
    }
  }

  /** `prepare_preflight_allowed_headers`: nothing when no header is needed; otherwise
      one Access-Control-Request-Headers entry joining the needed names, and the headers
      check. */
  function AllowedHeaders(req: Request): (c: Contribution)
    ensures NeededHeaders(req) == {} ==> c.headers == map[] && c.checks == []
    ensures NeededHeaders(req) != {} ==>
      c.checks == [CheckHeaders] && c.headers.Keys == {REQUEST_HEADERS}
      && c.headers[REQUEST_HEADERS] == JoinSet(NeededHeaders(req), ',')
  {
    var needed := NeededHeaders(req);
    if |needed| == 0 then Contribution(map[], [])
    else Contribution(map[REQUEST_HEADERS := JoinSet(needed, ',')], [CheckHeaders])
  }

  /** When no request header name contains a comma, the comma-separated items of the
      requested headers are exactly the needed names. */
  lemma AllowedHeadersItems(req: Request)
    requires forall k :: k in req.headers ==> ',' !in k
    requires NeededHeaders(req) != {}
    ensures forall x :: x in Split(AllowedHeaders(req).headers[REQUEST_HEADERS], ',') <==> x in NeededHeaders(req)
  {
    NeededHeadersNoComma(req);
    JoinSetItems(NeededHeaders(req), ',');
  }

  lemma NeededHeadersNoComma(req: Request)
    requires forall k :: k in req.headers ==> ',' !in k
    ensures forall x :: x in NeededHeaders(req) ==> ',' !in x
  {
    forall x | x in NeededHeaders(req)
      ensures ',' !in x
    {
      NeededHeaderNoComma(req, x);
    }
  }

  lemma NeededHeaderNoComma(req: Request, x: string)
    requires forall k :: k in req.headers ==> ',' !in k
    requires x in NeededHeaders(req)
    ensures ',' !in x
  {
    NeededHeaderOrigin(req, x);
    if x != "Content-Type" {
      var h :| h in GetProhibitedHeaders(req, Listed([])) && x == FormatHeaderField(h);
      ProhibitedNoComma(req, h);
      FormatHeaderFieldNoComma(h);
    }
  }

  lemma FormatHeaderFieldNoComma(h: string)
    requires ',' !in h
    ensures ',' !in FormatHeaderField(h)
  {
    LowerHasChar(h, ',');
    LowerHasChar(FormatHeaderField(h), ',');
  }

  lemma ProhibitedNoComma(req: Request, h: string)
    requires forall k :: k in req.headers ==> ',' !in k
    requires h in GetProhibitedHeaders(req, Listed([]))
    ensures ',' !in h
  {
    assert h in LowerNames(req.headers);
    var k :| k in req.headers && Lower(k) == h;
    LowerHasChar(k, ',');
  }

  /** `prepare_preflight_allowed_methods`: a method that is not simple asks for the
      method and adds the method check; a content type that is not simple (a missing one
      counts as text/plain) asks for the Content-Type header and adds the headers check. */
  function AllowedMethods(req: Request): (c: Contribution)
    ensures REQUEST_METHOD in c.headers <==> !IsSimpleMethod(req)
    ensures REQUEST_METHOD in c.headers ==> c.headers[REQUEST_METHOD] == req.verb
    ensures REQUEST_HEADERS in c.headers <==> !IsSimpleContentType(req)
    ensures REQUEST_HEADERS in c.headers ==> c.headers[REQUEST_HEADERS] == "Content-Type"
    ensures c.headers.Keys <= {REQUEST_METHOD, REQUEST_HEADERS}
    ensures CheckMethod in c.checks <==> !IsSimpleMethod(req)
    ensures CheckHeaders in c.checks <==> !IsSimpleContentType(req)
    ensures CheckOrigin !in c.checks && |c.checks| == |c.headers|
    ensures c.checks == [] <==> IsSimpleMethod(req)
    ensures |c.checks| == 2 ==> c.checks == [CheckMethod, CheckHeaders]
  {
    var byMethod :=
      if IsSimpleMethod(req) then Contribution(map[], [])
      else Contribution(map[REQUEST_METHOD := req.verb], [CheckMethod]);
    var contentType := FindOr(req.headers, "content-type", "text/plain");
    if contentType !in SIMPLE_REQUEST_CONTENT_TYPES then
      Contribution(byMethod.headers[REQUEST_HEADERS := "Content-Type"], byMethod.checks + [CheckHeaders])
    else byMethod
  }

  // ---------------------------------------------------------------- prepare_preflight

  /** The contributors `prepare_preflight` consults, in the order it consults them. */
  datatype Contributor = OriginContributor | HeadersContributor | MethodsContributor

  const CONTRIBUTORS: seq<Contributor> := [OriginContributor, HeadersContributor, MethodsContributor]

  function Contribute(p: Contributor, req: Request): (c: Contribution)
    requires p == OriginContributor ==> HasOrigin(req)
    ensures c.headers.Keys <= {REQUEST_METHOD, REQUEST_HEADERS}
  {
    match p
    case OriginContributor => AllowedOrigin(req)
    case HeadersContributor => AllowedHeaders(req)
    case MethodsContributor => AllowedMethods(req)
  }

  /** What the contributors say about `req`, in the order they are consulted. */
  function Contributions(req: Request): seq<Contribution>
    requires HasOrigin(req)
  {
    [AllowedOrigin(req), AllowedHeaders(req), AllowedMethods(req)]
  }

  /** `Contributions` lists what each contributor says, in the order they are
      consulted. */
  lemma ContributionsInOrder(req: Request)
    requires HasOrigin(req)
    ensures |Contributions(req)| == |CONTRIBUTORS|
    ensures forall i :: 0 <= i < |CONTRIBUTORS| ==> Contributions(req)[i] == Contribute(CONTRIBUTORS[i], req)
  {
    forall i | 0 <= i < |CONTRIBUTORS|
      ensures Contributions(req)[i] == Contribute(CONTRIBUTORS[i], req)
    {
      ContributeAt(req, i);
    }
  }

  lemma ContributeAt(req: Request, i: nat)
    requires HasOrigin(req) && i < |CONTRIBUTORS|
    ensures Contribute(CONTRIBUTORS[i], req) == Contributions(req)[i]
  {
    if i == 0 {
      assert CONTRIBUTORS[i] == OriginContributor;
    } else if i == 1 {
      assert CONTRIBUTORS[i] == HeadersContributor;
    } else {
      assert CONTRIBUTORS[i] == MethodsContributor;
    }
  }

  /** Contributions merged in order, as `dict.update` and `list.extend` merge them: a
      later header overwrites an earlier one, checks are appended and duplicates are
      kept. */
  function Merge(cs: seq<Contribution>): Contribution
    decreases |cs|
  {
    if cs == [] then Contribution(map[], [])
    else
      var init := Merge(cs[..|cs| - 1]);
      var last := cs[|cs| - 1];
      Contribution(init.headers + last.headers, init.checks + last.checks)
  }

  /** Merging three contributions: the later header wins, checks are concatenated. */
  lemma MergeThree(x: Contribution, y: Contribution, z: Contribution)
    ensures Merge([x, y, z]) == Contribution(x.headers + y.headers + z.headers, x.checks + y.checks + z.checks)
  {
    assert Merge([x]) == x by {
      assert [x][..0] == [];
      assert map[] + x.headers == x.headers;
      assert [] + x.checks == x.checks;
    }
    assert Merge([x, y]) == Contribution(x.headers + y.headers, x.checks + y.checks) by {
      assert [x, y][..1] == [x];
    }
    assert [x, y, z][..2] == [x, y];
  }

  /** The three contributions merged: origin, then headers, then methods. */
  lemma MergedContributions(req: Request)
    requires HasOrigin(req)
    ensures var o, h, m := AllowedOrigin(req), AllowedHeaders(req), AllowedMethods(req);
      Merge(Contributions(req)) == Contribution(o.headers + h.headers + m.headers, o.checks + h.checks + m.checks)
    ensures Merge(Contributions(req)).headers.Keys <= {REQUEST_METHOD, REQUEST_HEADERS}
  {
    MergeThree(AllowedOrigin(req), AllowedHeaders(req), AllowedMethods(req));
  }

  /** The three header names a preflight request can carry differ in length, so no two
      of them are equal up to case. */
  lemma PreflightNamesDistinct(h: Headers)
    requires h.Keys <= {REQUEST_METHOD, REQUEST_HEADERS, "Host"}
    ensures CaseDistinct(h)
  {
    forall a, b | a in h && b in h && Lower(a) == Lower(b)
      ensures a == b
    {
      assert |Lower(a)| == |a| && |Lower(b)| == |b|;
    }
  }

  /** The merged headers plus the request's Host header (found in any case), when it
      has one. */
  function WithHost(headers: Headers, req: Request): (r: CiHeaders)
    requires headers.Keys <= {REQUEST_METHOD, REQUEST_HEADERS}
    ensures Find(req.headers, "host").Some? ==> r == headers["Host" := Find(req.headers, "host").value]
    ensures Find(req.headers, "host").None? ==> r == headers
  {
    var r := match Find(req.headers, "host")
      case Some(host) => headers["Host" := host]
      case None => headers;
    PreflightNamesDistinct(r);
    r
  }

  /** What `prepare_preflight` returns: nothing for an OPTIONS request or when no
      contributor added a header or a check; otherwise an OPTIONS request to the same
      URL carrying the merged headers and Host, and the merged checks. */
  function Preflight(req: Request): (r: (Option<Request>, seq<Check>))
    requires req.verb != "OPTIONS" ==> HasOrigin(req)
    ensures req.verb == "OPTIONS" ==> r == (None, [])
    ensures r.0.None? ==> r.1 == []
    ensures r.0.Some? ==>
      r.0.value.verb == "OPTIONS" && r.0.value.url == req.url && r.0.value.kwargs == map[]
  {
    if req.verb == "OPTIONS" then (None, [])
    else
      var c := Merge(Contributions(req));
      MergedContributions(req);
      if |c.headers| == 0 && |c.checks| == 0 then (None, [])
      else (Some(Request("OPTIONS", req.url, WithHost(c.headers, req), map[])), c.checks)
  }

  /** The loop of `prepare_preflight`: each contributor is consulted in turn, its
      headers merged into `headers` and its checks appended to `checks`. */
  method ConsultContributors(req: Request) returns (headers: Headers, checks: seq<Check>)
    requires HasOrigin(req)
    ensures Contribution(headers, checks) == Merge(Contributions(req))
  {
    headers := map[];
    checks := [];
    for i := 0 to |CONTRIBUTORS|
      invariant Merge(Consulted(req, i)) == Contribution(headers, checks)
    {
      MergeConsulted(req, i);
      var contribution := Contribute(CONTRIBUTORS[i], req);
      headers := headers + contribution.headers;
      checks := checks + contribution.checks;
    }
    ConsultedAll(req);
  }

  /** What the first `n` contributors say about `req`. */
  ghost function Consulted(req: Request, n: nat): (cs: seq<Contribution>)
    requires HasOrigin(req) && n <= |CONTRIBUTORS|
    ensures |cs| == n
  {
    seq(n, j requires 0 <= j < n => Contribute(CONTRIBUTORS[j], req))
  }

  /** Consulting one more contributor merges its contribution after the others. */
  lemma MergeConsulted(req: Request, i: nat)
    requires HasOrigin(req) && i < |CONTRIBUTORS|
    ensures Merge(Consulted(req, i + 1)) ==
      Contribution(Merge(Consulted(req, i)).headers + Contribute(CONTRIBUTORS[i], req).headers,
                   Merge(Consulted(req, i)).checks + Contribute(CONTRIBUTORS[i], req).checks)
  {
    assert Consulted(req, i + 1)[..i] == Consulted(req, i);
  }

  /** Consulting every contributor gives `Contributions`. */
  lemma ConsultedAll(req: Request)
    requires HasOrigin(req)
    ensures Consulted(req, |CONTRIBUTORS|) == Contributions(req)
  {
    ContributionsInOrder(req);
  }

  /** `prepare_preflight` */
  method PreparePreflight(req: Request) returns (preflight: Option<Request>, checks: seq<Check>)
    requires req.verb != "OPTIONS" ==> HasOrigin(req)
    ensures (preflight, checks) == Preflight(req)
  {
    if req.verb == "OPTIONS" {
      return None, [];
    }
    var headers;
    headers, checks := ConsultContributors(req);
    MergedContributions(req);
    if |headers| == 0 && |checks| == 0 {
      return None, [];
    }
    preflight := Some(Request("OPTIONS", req.url, WithHost(headers, req), map[]));
  }

  /** An OPTIONS request gets no preflight. */
  lemma PreflightOfOptions(req: Request)
    requires req.verb == "OPTIONS"
    ensures Preflight(req) == (None, [])
  {
  }

  /** For a request other than OPTIONS, a preflight is sent exactly when some
      contributor added a check; it carries the merged headers, and the merged checks
      follow it. */
  lemma PreflightOfMerged(req: Request)
    requires req.verb != "OPTIONS" && HasOrigin(req)
    ensures Merge(Contributions(req)).headers.Keys <= {REQUEST_METHOD, REQUEST_HEADERS}
    ensures var c := Merge(Contributions(req));
      && (Preflight(req).0.None? <==> c.checks == [])
      && Preflight(req).1 == c.checks
      && (Preflight(req).0.Some? ==> Preflight(req).0.value == Request("OPTIONS", req.url, WithHost(c.headers, req), map[]))
  {
    MergedContributions(req);
    var o, h, m := AllowedOrigin(req), AllowedHeaders(req), AllowedMethods(req);
    var c := Merge(Contributions(req));
    if c.checks == [] {
      assert o.checks == [] && h.checks == [] && m.checks == [];
      assert h.headers == map[] && m.headers == map[];
      assert c.headers == map[];
    }
  }

  /** The merged request headers: the method is asked for exactly when it is not simple;
      headers are asked for when one is needed or the content type is not simple, and for
      a content type that is not simple the methods contributor's "Content-Type"
      overwrites the list the headers contributor asked for. */
  lemma MergedHeaders(req: Request)
    requires HasOrigin(req)
    ensures var headers := Merge(Contributions(req)).headers;
      && (REQUEST_METHOD in headers <==> !IsSimpleMethod(req))
      && (REQUEST_METHOD in headers ==> headers[REQUEST_METHOD] == req.verb)
      && (REQUEST_HEADERS in headers <==> NeededHeaders(req) != {} || !IsSimpleContentType(req))
      && (!IsSimpleContentType(req) ==> headers[REQUEST_HEADERS] == "Content-Type")
      && (IsSimpleContentType(req) && NeededHeaders(req) != {} ==>
            headers[REQUEST_HEADERS] == JoinSet(NeededHeaders(req), ','))
  {
    MergedContributions(req);
    var o, h, m := AllowedOrigin(req), AllowedHeaders(req), AllowedMethods(req);
    assert REQUEST_METHOD !in h.headers;
  }

  /** Any other request gets a preflight unless it is same-origin, its method is simple
      and it has no prohibited header; without a preflight there are no checks. */
  lemma PreflightNeeded(req: Request)
    requires req.verb != "OPTIONS" && HasOrigin(req)
    ensures Preflight(req).0.None? <==>
      IsSameOrigin(req) && IsSimpleMethod(req) && GetProhibitedHeaders(req, Listed([])) == {}
    ensures Preflight(req).0.None? ==> Preflight(req).1 == []
  {
    PreflightOfMerged(req);
    MergedContributions(req);
    NeededHeadersEmpty(req);
  }

  /** The checks that follow a preflight: the origin check exactly for a cross-origin
      request, the method check exactly for a method that is not simple, and the headers
      check when a header is needed or the content type is not simple, in origin,
      headers, methods order. */
  lemma PreflightChecks(req: Request)
    requires req.verb != "OPTIONS" && HasOrigin(req)
    ensures var checks := Preflight(req).1;
      && checks == AllowedOrigin(req).checks + AllowedHeaders(req).checks + AllowedMethods(req).checks
      && (CheckOrigin in checks <==> !IsSameOrigin(req))
      && (CheckMethod in checks <==> !IsSimpleMethod(req))
      && (CheckHeaders in checks <==> NeededHeaders(req) != {} || !IsSimpleContentType(req))
  {
    PreflightOfMerged(req);
    MergedContributions(req);
    var o, h, m := AllowedOrigin(req), AllowedHeaders(req), AllowedMethods(req);
    assert CheckOrigin !in h.checks;
    assert CheckMethod !in o.checks && CheckMethod !in h.checks;
    assert CheckHeaders !in o.checks;
  }

  /** A content type that is not simple makes both the headers and the methods
      contributor add the headers check, and both are kept. */
  lemma HeadersCheckTwice(req: Request)
    requires req.verb != "OPTIONS" && HasOrigin(req)
    requires !IsSimpleContentType(req)
    ensures Preflight(req).0.Some?
    ensures multiset(Preflight(req).1)[CheckHeaders] == 2
  {
    PreflightChecks(req);
    PreflightOfMerged(req);
    ContentTypeChecks(req);
    var o := AllowedOrigin(req).checks;
    assert Preflight(req).1 == o + [CheckHeaders] + [CheckMethod, CheckHeaders];
    assert multiset(o)[CheckHeaders] == 0;
  }

  /** What each contributor adds for a content type that is not simple. */
  lemma ContentTypeChecks(req: Request)
    requires HasOrigin(req) && !IsSimpleContentType(req)
    ensures CheckHeaders !in AllowedOrigin(req).checks
    ensures AllowedHeaders(req).checks == [CheckHeaders]
    ensures AllowedMethods(req).checks == [CheckMethod, CheckHeaders]
  {
    assert "Content-Type" in NeededHeaders(req);
  }

  /** The preflight request: OPTIONS to the same URL with no transport options,
      carrying the merged headers and the request's Host header when it has one. */
  lemma PreflightRequest(req: Request)
    requires req.verb != "OPTIONS" && HasOrigin(req)
    requires Preflight(req).0.Some?
    ensures var p := Preflight(req).0.value;
      && p.verb == "OPTIONS" && p.url == req.url && p.kwargs == map[]
      && ("Host" in p.headers <==> Find(req.headers, "host").Some?)
      && ("Host" in p.headers ==> p.headers["Host"] == Find(req.headers, "host").value)
      && p.headers.Keys <= {REQUEST_METHOD, REQUEST_HEADERS, "Host"}
      && forall k :: k != "Host" ==>
           (k in p.headers <==> k in Merge(Contributions(req)).headers)
           && (k in p.headers ==> p.headers[k] == Merge(Contributions(req)).headers[k])
  {
    PreflightOfMerged(req);
    var headers := Merge(Contributions(req)).headers;
    WithHostKeeps(headers, req);
  }

  lemma WithHostKeeps(headers: Headers, req: Request)
    requires headers.Keys <= {REQUEST_METHOD, REQUEST_HEADERS}
    ensures var r := WithHost(headers, req);
      && ("Host" in r <==> Find(req.headers, "host").Some?)
      && ("Host" in r ==> r["Host"] == Find(req.headers, "host").value)
      && r.Keys <= {REQUEST_METHOD, REQUEST_HEADERS, "Host"}
      && forall k :: k != "Host" ==> (k in r <==> k in headers) && (k in r ==> r[k] == headers[k])
  {
    assert "Host" !in headers;
  }

  /** The headers a preflight asks with: the method exactly when it is not simple;
      headers when one is needed or the content type is not simple, and for a content
      type that is not simple only "Content-Type", since the methods contributor
      overwrites the list the headers contributor asked for. */
  lemma PreflightRequestHeaders(req: Request)
    requires req.verb != "OPTIONS" && HasOrigin(req)
    requires Preflight(req).0.Some?
    ensures var p := Preflight(req).0.value;
      && (REQUEST_METHOD in p.headers <==> !IsSimpleMethod(req))
      && (REQUEST_METHOD in p.headers ==> p.headers[REQUEST_METHOD] == req.verb)
      && (REQUEST_HEADERS in p.headers <==> NeededHeaders(req) != {} || !IsSimpleContentType(req))
      && (!IsSimpleContentType(req) ==> p.headers[REQUEST_HEADERS] == "Content-Type")
      && (IsSimpleContentType(req) && NeededHeaders(req) != {} ==>
            p.headers[REQUEST_HEADERS] == JoinSet(NeededHeaders(req), ','))
  {
    PreflightRequest(req);
    MergedHeaders(req);
  }

  // ---------------------------------------------------------------- server side

  /** `generate_acceptable_preflight_response_headers`: allow any origin, and echo the
      requested method and headers as the allowed ones. */
  function GeneratePreflightResponseHeaders(requested: Headers): (r: Headers)
    ensures r.Keys == {ALLOW_ORIGIN}
      + (if REQUEST_METHOD in requested then {ALLOW_METHODS} else {})
      + (if REQUEST_HEADERS in requested then {ALLOW_HEADERS} else {})
    ensures r[ALLOW_ORIGIN] == "*"
    ensures REQUEST_METHOD in requested ==> r[ALLOW_METHODS] == requested[REQUEST_METHOD]
    ensures REQUEST_HEADERS in requested ==> r[ALLOW_HEADERS] == requested[REQUEST_HEADERS]
  {
    assert ALLOW_METHODS[21] != ALLOW_HEADERS[21];
    var response := map[ALLOW_ORIGIN := "*"];
    var response := if REQUEST_METHOD in requested then response[ALLOW_METHODS := requested[REQUEST_METHOD]] else response;
    if REQUEST_HEADERS in requested then response[ALLOW_HEADERS := requested[REQUEST_HEADERS]] else response
  }

  /** `"-".join(p.capitalize() for p in h.split("_"))`: the exposed-name spelling, which
      splits on '_' (not on '-') and joins with '-'. */
  function UnderscoreCase(h: string): (r: string)
    ensures ',' in r ==> ',' in h
  {
    UnderscoreCaseKeepsComma(h);
    Join(CapitalizeAll(Split(h, '_')), '-')
  }

  lemma UnderscoreCaseKeepsComma(h: string)
    ensures ',' in Join(CapitalizeAll(Split(h, '_')), '-') ==> ',' in h
  {
    var parts := Split(h, '_');
    if ',' in Join(CapitalizeAll(parts), '-') {
      JoinHasChar(CapitalizeAll(parts), '-', ',');
      var i :| 0 <= i < |parts| && ',' in CapitalizeAll(parts)[i];
      CapitalizeHasSep(parts[i], ',');
      SplitHasChar(h, '_', i, ',');
    }
  }

  /** Character `i` of the exposed-name spelling: '_' becomes '-'; any other character
      is upper-cased at the start and after '_', and lower-cased elsewhere, even after a
      '-'. The length is kept. */
  lemma UnderscoreCaseAt(h: string, i: nat)
    requires i < |h|
    ensures |UnderscoreCase(h)| == |h|
    ensures UnderscoreCase(h)[i] ==
      (if h[i] == '_' then '-'
       else if i == 0 || h[i - 1] == '_' then UpperChar(h[i])
       else LowerChar(h[i]))
  {
    CapitalizePartsIsRecase(h, '_');
    RecaseAt(h, true, '_', i);
  }

  /** A name without '_' is spelled as `capitalize` spells it: only its first character
      is upper-cased, so "x-auth" becomes "X-auth". */
  lemma UnderscoreCaseWithoutUnderscore(h: string)
    requires '_' !in h
    ensures UnderscoreCase(h) == Capitalize(h)
  {
    SplitNoSep(h, '_');
    assert CapitalizeAll([h]) == [Capitalize(h)];
  }

  /** "a_1" and "a-1" are spelled alike, as "A-1". */
  lemma UnderscoreSpellingsMeet()
    ensures UnderscoreCase("a_1") == "A-1" && UnderscoreCase("a-1") == "A-1"
  {
    assert Split("a_1", '_') == ["a", "1"] by {
      assert "a_1" == "a" + ['_'] + "1";
      SplitField("a", "1", '_');
      SplitNoSep("1", '_');
    }
    assert Capitalize("a") == "A" && Capitalize("1") == "1";
    assert CapitalizeAll(["a", "1"]) == ["A", "1"];
    assert Join(["A", "1"], '-') == "A-1" by {
      JoinCons("A", ["1"], '-');
    }
    UnderscoreCaseWithoutUnderscore("a-1");
    assert Lower("-1") == "-1";
    assert Capitalize("a-1") == "A-1";
  }

  /** `unicode(h).lower().strip()` on a name that decodes: lower-cased, then trimmed of
      Unicode white space. */
  function Clean(h: string): (r: string)
    ensures |r| <= |h|
    ensures Lower(r) == r
    ensures r == [] || (!IsUnicodeSpace(r[0]) && !IsUnicodeSpace(r[|r| - 1]))
  {
    UnicodeStripLower(h);
    UnicodeStrip(Lower(h))
  }

  /** A cleaned name is the lower-cased name with only Unicode white space removed
      around it. */
  lemma CleanOf(h: string)
    ensures exists a, b ::
      (0 <= a <= b <= |h| && Clean(h) == Lower(h)[a..b]
       && (forall i :: 0 <= i < a ==> IsUnicodeSpace(Lower(h)[i]))
       && (forall i :: b <= i < |h| ==> IsUnicodeSpace(Lower(h)[i])))
  {
    UnicodeStripSlice(Lower(h));
  }

  /** Cleaning a cleaned name changes nothing. */
  lemma CleanIdempotent(h: string)
    ensures Clean(Clean(h)) == Clean(h)
  {
    UnicodeStripStripped(Clean(h));
  }

  /** The comma-separated items of `v`, each lower-cased and trimmed. */
  function CleanItems(v: string): set<string> {
    set f | f in Split(v, ',') :: Clean(f)
  }

  /** The Expose-Headers items of a response, each lower-cased and trimmed. */
  function ListedNames(response: Headers): set<string> {
    CleanItems(GetOr(response, EXPOSE_HEADERS, ""))
  }

  /** The response's own header names, each lower-cased and trimmed. */
  function ReceivedNames(response: Headers): set<string> {
    set k | k in response :: Clean(k)
  }

  /** The set `exposed` is built as: the listed names and the received names that are
      neither simple nor CORS response headers. */
  function ExposedSet(response: Headers): set<string> {
    ListedNames(response) + (ReceivedNames(response) - SIMPLE_RESPONSE_HEADERS - CORS_HEADERS)
  }

  /** The list comprehension over `exposed`: one spelled name per member of the set, in
      the set's iteration order, so two members spelled alike both stay. */
  function ExposedNames(response: Headers): seq<string>
  {
    SpelledList(ExposedSet(response))
  }

  /** `[UnderscoreCase(h) for h in s]` for a set `s`, iterated in the order fixed by
      `SortedList`. */
  function SpelledList(s: set<string>): (r: seq<string>)
    ensures |r| == |s|
  {
    var names := SortedList(s);
    seq(|names|, i requires 0 <= i < |names| => UnderscoreCase(names[i]))
  }

  /** Entry `i` of the list spells a member of the set, and every member is spelled at
      some index. */
  lemma SpelledListAt(s: set<string>, i: nat)
    requires i < |s|
    ensures SortedList(s)[i] in s && SpelledList(s)[i] == UnderscoreCase(SortedList(s)[i])
  {
  }

  lemma SpelledListHas(s: set<string>, h: string)
    requires h in s
    ensures exists i :: 0 <= i < |s| && SortedList(s)[i] == h && SpelledList(s)[i] == UnderscoreCase(h)
  {
    var names := SortedList(s);
    var i :| 0 <= i < |names| && names[i] == h;
    SpelledListAt(s, i);
  }

  /** The spelled list holds the spelling of every member of the set and nothing else. */
  lemma SpelledListMembers(s: set<string>)
    ensures forall h :: h in s ==> UnderscoreCase(h) in SpelledList(s)
    ensures forall x :: x in SpelledList(s) ==> exists h :: h in s && x == UnderscoreCase(h)
  {
    var r := SpelledList(s);
    forall h | h in s ensures UnderscoreCase(h) in r {
      SpelledListHas(s, h);
    }
    forall x | x in r ensures exists h :: h in s && x == UnderscoreCase(h) {
      var i :| 0 <= i < |r| && r[i] == x;
      SpelledListAt(s, i);
    }
  }

  /** Every Expose-Headers item and every received name that is neither simple nor a
      CORS response header is exposed, and nothing else is. */
  lemma ExposedNamesMembers(response: Headers)
    ensures forall f :: f in Split(GetOr(response, EXPOSE_HEADERS, ""), ',') ==>
      UnderscoreCase(Clean(f)) in ExposedNames(response)
    ensures forall k :: k in response && Clean(k) !in SIMPLE_RESPONSE_HEADERS && Clean(k) !in CORS_HEADERS ==>
      UnderscoreCase(Clean(k)) in ExposedNames(response)
    ensures forall x :: x in ExposedNames(response) ==>
      (exists f :: f in Split(GetOr(response, EXPOSE_HEADERS, ""), ',') && x == UnderscoreCase(Clean(f)))
      || (exists k :: k in response && Clean(k) !in SIMPLE_RESPONSE_HEADERS && Clean(k) !in CORS_HEADERS
            && x == UnderscoreCase(Clean(k)))
  {
    SpelledListMembers(ExposedSet(response));
    var fields := Split(GetOr(response, EXPOSE_HEADERS, ""), ',');
    forall f | f in fields ensures UnderscoreCase(Clean(f)) in ExposedNames(response) {
      assert Clean(f) in ListedNames(response);
    }
    forall k | k in response && Clean(k) !in SIMPLE_RESPONSE_HEADERS && Clean(k) !in CORS_HEADERS
      ensures UnderscoreCase(Clean(k)) in ExposedNames(response)
    {
      assert Clean(k) in ReceivedNames(response);
    }
  }

  /** Two members of a set spelled alike give the same name twice: the list keeps
      both. */
  lemma SpelledListKeepsDuplicates(s: set<string>, a: string, b: string)
    requires a in s && b in s && a != b
    requires UnderscoreCase(a) == UnderscoreCase(b)
    ensures exists i, j ::
      (0 <= i < |SpelledList(s)| && 0 <= j < |SpelledList(s)| && i != j
       && SpelledList(s)[i] == UnderscoreCase(a) && SpelledList(s)[j] == UnderscoreCase(a))
  {
    SpelledListHas(s, a);
    SpelledListHas(s, b);
    var i :| 0 <= i < |s| && SortedList(s)[i] == a && SpelledList(s)[i] == UnderscoreCase(a);
    var j :| 0 <= j < |s| && SortedList(s)[j] == b && SpelledList(s)[j] == UnderscoreCase(b);
    assert i != j;
  }

  /** Two members of `exposed` spelled alike, such as "a_1" and "a-1", both appear in
      Expose-Headers under the same name. */
  lemma ExposedKeepsDuplicates(response: Headers, a: string, b: string)
    requires a in ExposedSet(response) && b in ExposedSet(response) && a != b
    requires UnderscoreCase(a) == UnderscoreCase(b)
    ensures exists i, j ::
      (0 <= i < |ExposedNames(response)| && 0 <= j < |ExposedNames(response)| && i != j
       && ExposedNames(response)[i] == UnderscoreCase(a) && ExposedNames(response)[j] == UnderscoreCase(a))
  {
    var e := ExposedSet(response);
    SpelledListKeepsDuplicates(e, a, b);
    assert ExposedNames(response) == SpelledList(e);
  }

  /** The Allow-Origin value is kept when it equals `origin` (a missing one counts as
      ""); with no origin given it never is. */
  predicate KeepsAllowOrigin(response: Headers, origin: Option<string>) {
    origin == Some(GetOr(response, ALLOW_ORIGIN, ""))
  }

  /** `unicode()` raises on the Expose-Headers value or on a header name that is not
      ASCII. */
  predicate DecodeFails(response: Headers) {
    !IsAscii(GetOr(response, EXPOSE_HEADERS, "")) || exists k :: k in response && !IsAscii(k)
  }

  /** `generate_acceptable_actual_response_headers`: a new header map in which
      Allow-Origin becomes "*" unless it equals `origin`, and Expose-Headers lists the
      exposed names; every other header is kept. Decoding a name that is not ASCII
      raises UnicodeDecodeError instead. */
  function GenerateActualResponseHeaders(response: Headers, origin: Option<string>): (r: Result<Headers, Error>)
    ensures r.Failure? <==> DecodeFails(response)
    ensures r.Failure? ==> r.error == UnicodeDecodeError
    ensures r.Success? ==> r.value == ActualResponseHeaders(response, origin)
  {
    if DecodeFails(response) then Failure(UnicodeDecodeError)
    else Success(ActualResponseHeaders(response, origin))
  }

  /** The header map `generate_acceptable_actual_response_headers` returns when every
      name decodes. */
  function ActualResponseHeaders(response: Headers, origin: Option<string>): (r: Headers)
    ensures KeepsAllowOrigin(response, origin) ==>
      (ALLOW_ORIGIN in r <==> ALLOW_ORIGIN in response)
      && (ALLOW_ORIGIN in response ==> r[ALLOW_ORIGIN] == response[ALLOW_ORIGIN])
    ensures !KeepsAllowOrigin(response, origin) ==> ALLOW_ORIGIN in r && r[ALLOW_ORIGIN] == "*"
    ensures EXPOSE_HEADERS in r && r[EXPOSE_HEADERS] == Join(ExposedNames(response), ',')
    ensures forall k :: k in response && k != ALLOW_ORIGIN && k != EXPOSE_HEADERS ==> k in r && r[k] == response[k]
    ensures forall k :: k in r <==> k in response || k == EXPOSE_HEADERS || (k == ALLOW_ORIGIN && !KeepsAllowOrigin(response, origin))
  {
    var copy := AllowOriginCopy(response, origin);
    var exposed := Join(ExposedNames(copy), ',');
    assert exposed == Join(ExposedNames(response), ',') by {
      AllowOriginKeepsExposed(response, "*");
    }
    WithExposed(response, origin, exposed)
  }

  /** `response.copy()` with Allow-Origin set to "*" unless it equals `origin`. */
  function AllowOriginCopy(response: Headers, origin: Option<string>): (copy: Headers)
    ensures copy == response || copy == response[ALLOW_ORIGIN := "*"]
  {
    if KeepsAllowOrigin(response, origin) then response else response[ALLOW_ORIGIN := "*"]
  }

  /** That copy with Expose-Headers set to `exposed`. */
  function WithExposed(response: Headers, origin: Option<string>, exposed: string): (r: Headers)
    ensures KeepsAllowOrigin(response, origin) ==>
      (ALLOW_ORIGIN in r <==> ALLOW_ORIGIN in response)
      && (ALLOW_ORIGIN in response ==> r[ALLOW_ORIGIN] == response[ALLOW_ORIGIN])
    ensures !KeepsAllowOrigin(response, origin) ==> ALLOW_ORIGIN in r && r[ALLOW_ORIGIN] == "*"
    ensures EXPOSE_HEADERS in r && r[EXPOSE_HEADERS] == exposed
    ensures forall k :: k in response && k != ALLOW_ORIGIN && k != EXPOSE_HEADERS ==> k in r && r[k] == response[k]
    ensures forall k :: k in r <==> k in response || k == EXPOSE_HEADERS || (k == ALLOW_ORIGIN && !KeepsAllowOrigin(response, origin))
  {
    AllowOriginCopy(response, origin)[EXPOSE_HEADERS := exposed]
  }

  lemma LowerAllowOrigin()
    ensures Lower(ALLOW_ORIGIN) == "access-control-allow-origin"
  {
    var a, b := "Access-Control", "-Allow-Origin";
    assert ALLOW_ORIGIN == a + b;
    LowerAppend(a, b);
    assert Lower(a) == "access-control" by { LowerPrefix(); }
    assert Lower(b) == "-allow-origin" by { LowerSuffix(); }
  }

  lemma LowerPrefix()
    ensures Lower("Access-Control") == "access-control"
  {
  }

  lemma LowerSuffix()
    ensures Lower("-Allow-Origin") == "-allow-origin"
  {
  }

  /** The Allow-Origin name, cleaned, is a CORS response header. */
  lemma CleanAllowOrigin()
    ensures Clean(ALLOW_ORIGIN) == "access-control-allow-origin"
  {
    var s := "access-control-allow-origin";
    LowerAllowOrigin();
    assert s[0] == 'a' && s[|s| - 1] == 'n';
    UnicodeStripStripped(s);
  }

  /** Setting a CORS response header other than Expose-Headers leaves `exposed` as it
      is. */
  lemma ExposedSetIgnoresCorsHeader(response: Headers, key: string, value: string)
    requires key != EXPOSE_HEADERS && Clean(key) in CORS_HEADERS
    ensures ExposedSet(response[key := value]) == ExposedSet(response)
  {
    var copy := response[key := value];
    ListedNamesIgnoreOther(response, key, value);
    ReceivedNamesAfterSet(response, key, value);
    assert ReceivedNames(copy) - SIMPLE_RESPONSE_HEADERS - CORS_HEADERS
        == ReceivedNames(response) - SIMPLE_RESPONSE_HEADERS - CORS_HEADERS;
  }

  /** Setting a header other than Expose-Headers changes no listed name. */
  lemma ListedNamesIgnoreOther(response: Headers, key: string, value: string)
    requires key != EXPOSE_HEADERS
    ensures ListedNames(response[key := value]) == ListedNames(response)
  {
    assert GetOr(response[key := value], EXPOSE_HEADERS, "") == GetOr(response, EXPOSE_HEADERS, "");
  }

  /** Setting a header adds its cleaned name to the received names. */
  lemma ReceivedNamesAfterSet(response: Headers, key: string, value: string)
    ensures ReceivedNames(response[key := value]) == ReceivedNames(response) + {Clean(key)}
  {
  }

  /** Setting Allow-Origin changes no exposed name. */
  lemma AllowOriginKeepsExposed(response: Headers, value: string)
    ensures ExposedNames(response[ALLOW_ORIGIN := value]) == ExposedNames(response)
  {
    CleanAllowOrigin();
    assert "access-control-allow-origin" in CORS_HEADERS;
    ExposedSetIgnoresCorsHeader(response, ALLOW_ORIGIN, value);
  }

  /** With no Expose-Headers to start from, the empty item "" is among the exposed
      names. */
  lemma EmptyExposedItem(response: Headers)
    requires EXPOSE_HEADERS !in response
    ensures "" in ExposedNames(response)
  {
    assert Split("", ',') == [""];
    assert Clean("") == "";
    assert "" in ExposedSet(response);
    assert Split("", '_') == [""];
    assert UnderscoreCase("") == "";
    SpelledListMembers(ExposedSet(response));
  }

  /** No cleaned item contains a comma, and there is at least one. */
  lemma CleanItemsNoComma(v: string)
    ensures CleanItems(v) != {}
    ensures forall h :: h in CleanItems(v) ==> ',' !in h
  {
    var fields := Split(v, ',');
    assert Clean(fields[0]) in CleanItems(v);
    forall h | h in CleanItems(v) ensures ',' !in h {
      var f :| f in fields && h == Clean(f);
      NoCommaClean(f);
    }
  }

  lemma ReceivedNamesNoComma(response: Headers)
    requires forall k :: k in response ==> ',' !in k
    ensures forall h :: h in ReceivedNames(response) ==> ',' !in h
  {
    forall h | h in ReceivedNames(response) ensures ',' !in h {
      var k :| k in response && h == Clean(k);
      NoCommaClean(k);
    }
  }

  /** When no header name contains a comma, there is an exposed name and none contains a
      comma. */
  lemma ExposedNamesNoComma(response: Headers)
    requires forall k :: k in response ==> ',' !in k
    ensures |ExposedNames(response)| > 0
    ensures forall i :: 0 <= i < |ExposedNames(response)| ==> ',' !in ExposedNames(response)[i]
  {
    var e := ExposedSet(response);
    CleanItemsNoComma(GetOr(response, EXPOSE_HEADERS, ""));
    ReceivedNamesNoComma(response);
    assert forall h :: h in e ==> ',' !in h;
    var h :| h in ListedNames(response);
    assert h in e;
    forall i | 0 <= i < |e| ensures ',' !in SpelledList(e)[i] {
      SpelledListAt(e, i);
    }
  }

  /** When no header name contains a comma, the comma-separated items of the generated
      Expose-Headers are exactly the exposed names, in order and with repeats. */
  lemma ExposeHeadersItems(response: Headers, origin: Option<string>)
    requires forall k :: k in response ==> ',' !in k
    ensures Split(ActualResponseHeaders(response, origin)[EXPOSE_HEADERS], ',') == ExposedNames(response)
  {
    ExposedNamesNoComma(response);
    SplitJoin(ExposedNames(response), ',');
  }

  lemma NoCommaClean(h: string)
    requires ',' !in h
    ensures ',' !in Clean(h)
  {
    LowerHasChar(h, ',');
    UnicodeStripHasChar(Lower(h), ',');
  }
}
