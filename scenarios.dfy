/** A preflight exchange end to end: the client prepares a preflight, a server answers
    it with `generate_acceptable_preflight_response_headers`, and the client runs the
    checks `prepare_preflight` handed back against that answer. */
module Scenarios {

  import opened Wrappers
  import opened Text
  import opened Ordering
  import opened Http
  import opened Definitions
  import opened Errors
  import opened Preflight

  /** The three names a permissive preflight answer can carry differ up to case: Origin
      is shorter than the other two, and Methods and Headers differ at index 21. */
  lemma AnswerNamesDistinct(h: Headers)
    requires h.Keys <= {ALLOW_ORIGIN, ALLOW_METHODS, ALLOW_HEADERS}
    ensures CaseDistinct(h)
  {
    forall a, b | a in h && b in h && a != b
      ensures Lower(a) != Lower(b)
    {
      assert |Lower(a)| == |a| && |Lower(b)| == |b|;
      if |a| == |b| {
        assert Lower(a)[21] != Lower(b)[21];
      }
    }
  }

  /** The response a server gives when it answers a preflight with
      `generate_acceptable_preflight_response_headers`. */
  function EchoAnswer(preflight: Request): (r: Response)
    ensures r.headers == GeneratePreflightResponseHeaders(preflight.headers)
  {
    var headers := GeneratePreflightResponseHeaders(preflight.headers);
    AnswerNamesDistinct(headers);
    Response(headers)
  }

  /** The answer names the header it was built under, in any case. */
  lemma EchoAnswerFinds(preflight: Request, name: string)
    requires name in EchoAnswer(preflight).headers
    ensures Find(EchoAnswer(preflight).headers, name) == Some(EchoAnswer(preflight).headers[name])
  {
  }

  /** Normalising the single item "Content-Type" gives "content-type". */
  lemma NormalizeContentType()
    ensures NormalizeList(Joined("Content-Type")) == ["content-type"]
  {
    var s := "Content-Type";
    SplitContentType();
    StripContentType();
    LowerContentType();
    var r := NormalizeList(Joined(s));
    assert |r| == 1 && r[0] == Lower(Strip(s));
  }

  lemma SplitContentType()
    ensures Split("Content-Type", ',') == ["Content-Type"]
  {
    var s := "Content-Type";
    assert ',' !in s;
    SplitNoSep(s, ',');
  }

  lemma StripContentType()
    ensures Strip("Content-Type") == "Content-Type"
  {
    var s := "Content-Type";
    assert IsStripped(s) by {
      assert s[0] == 'C' && s[|s| - 1] == 'e';
    }
    StripStripped(s);
  }

  lemma LowerContentType()
    ensures Lower("Content-Type") == "content-type"
  {
  }

  /** The overwrite `prepare_preflight` keeps has a visible cost: for a request whose
      content type is not simple and that carries another custom header, the preflight
      asks only for "Content-Type", so even a server that allows everything it is asked
      for answers with an Allow-Headers that omits the custom header, and the headers
      check fails. */
  lemma EchoRejectsOverwrittenHeaders(req: Request, n: string)
    requires req.verb != "OPTIONS" && HasOrigin(req)
    requires !IsSimpleContentType(req)
    requires n in GetProhibitedHeaders(req, Listed([])) && n != "content-type"
    ensures Preflight.Preflight(req).0.Some?
    ensures CheckHeadersOf(EchoAnswer(Preflight.Preflight(req).0.value), req).Fail?
  {
    HeadersCheckTwice(req);
    PreflightRequestHeaders(req);
    var answer := EchoAnswer(Preflight.Preflight(req).0.value);
    EchoAnswerFinds(Preflight.Preflight(req).0.value, ALLOW_HEADERS);
    assert FindOr(answer.headers, ALLOW_HEADERS, "") == "Content-Type";
    NormalizeContentType();
    assert n !in NormalizeList(Joined("Content-Type"));
  }

  // ---------------------------------------------------------------- an answer that echoes

  /** The preflight a request gets, when it gets one. */
  function PreflightOf(req: Request): (p: Request)
    requires req.verb != "OPTIONS" && HasOrigin(req)
    requires Preflight.Preflight(req).0.Some?
    ensures p.verb == "OPTIONS" && p.url == req.url
  {
    PreflightRequest(req);
    Preflight.Preflight(req).0.value
  }

  /** The echoing answer allows any origin, so the origin check passes. */
  lemma EchoPassesOrigin(req: Request)
    requires req.verb != "OPTIONS" && HasOrigin(req)
    requires Preflight.Preflight(req).0.Some?
    ensures CheckOriginOf(EchoAnswer(PreflightOf(req)), req) == Pass
  {
    var p := PreflightOf(req);
    EchoAnswerFinds(p, ALLOW_ORIGIN);
  }

  /** A method that needs permission is echoed as the allowed method. */
  lemma EchoAnswerMethod(req: Request)
    requires req.verb != "OPTIONS" && HasOrigin(req)
    requires Preflight.Preflight(req).0.Some?
    requires !IsSimpleMethod(req)
    ensures FindOr(EchoAnswer(PreflightOf(req)).headers, ALLOW_METHODS, "") == req.verb
  {
    var p := PreflightOf(req);
    PreflightRequestHeaders(req);
    assert p.headers[REQUEST_METHOD] == req.verb;
    EchoAnswerFinds(p, ALLOW_METHODS);
  }

  /** An Allow-Methods value that is one method without commas or surrounding spaces
      allows exactly that method. */
  lemma SingleAllowedMethod(response: Response, verb: string)
    requires FindOr(response.headers, ALLOW_METHODS, "") == verb
    requires ',' !in verb && IsStripped(verb)
    ensures Upper(verb) in AllowedMethodList(response)
  {
    var fields := Split(FindOr(response.headers, ALLOW_METHODS, ""), ',');
    assert fields == [verb] by {
      SplitNoSep(verb, ',');
    }
    assert Strip(verb) == verb by {
      StripStripped(verb);
    }
    assert AllowedMethodList(response)[0] == Upper(Strip(fields[0]));
  }

  /** The echoing answer allows the method the preflight asked for; a method without
      commas or surrounding spaces is found again in the allowed list, so the method
      check passes. */
  lemma EchoPassesMethod(req: Request)
    requires req.verb != "OPTIONS" && HasOrigin(req)
    requires Preflight.Preflight(req).0.Some?
    requires ',' !in req.verb && IsStripped(req.verb)
    ensures CheckMethodOf(EchoAnswer(PreflightOf(req)), req) == Pass
  {
    if NeedsMethodPermission(req) {
      SimpleIffNoPermission(req);
      EchoAnswerMethod(req);
      SingleAllowedMethod(EchoAnswer(PreflightOf(req)), req.verb);
    }
  }

  /** With a simple content type, the echoing answer allows the needed names, joined. */
  lemma EchoAnswerHeaders(req: Request)
    requires req.verb != "OPTIONS" && HasOrigin(req)
    requires Preflight.Preflight(req).0.Some?
    requires IsSimpleContentType(req) && NeededHeaders(req) != {}
    ensures FindOr(EchoAnswer(PreflightOf(req)).headers, ALLOW_HEADERS, "") == JoinSet(NeededHeaders(req), ',')
  {
    var p := PreflightOf(req);
    PreflightRequestHeaders(req);
    assert p.headers[REQUEST_HEADERS] == JoinSet(NeededHeaders(req), ',');
    EchoAnswerFinds(p, ALLOW_HEADERS);
  }

  /** A trimmed comma-separated item of `text` is found, lower-cased, in its normal form. */
  lemma NormalizedItem(text: string, x: string)
    requires x in Split(text, ',') && IsStripped(x)
    ensures Lower(x) in NormalizeList(Joined(text))
  {
    var fields := Split(text, ',');
    var i :| 0 <= i < |fields| && fields[i] == x;
    StripStripped(x);
    assert NormalizeList(Joined(text))[i] == Lower(x);
  }

  /** A prohibited name of a request whose header names are trimmed is, in header case,
      trimmed and lower-cases back to itself. */
  lemma FormattedNameStripped(req: Request, n: string)
    requires forall k :: k in req.headers ==> IsStripped(k)
    requires n in GetProhibitedHeaders(req, Listed([]))
    ensures IsStripped(FormatHeaderField(n)) && Lower(FormatHeaderField(n)) == n
  {
    var k :| k in req.headers && Lower(k) == n;
    LowerIdempotent(k);
    StrippedUpToCase(k, FormatHeaderField(n));
  }

  /** A name the headers check looks at is among the names the echoing answer allows. */
  lemma EchoAllowsName(req: Request, n: string)
    requires req.verb != "OPTIONS" && HasOrigin(req)
    requires Preflight.Preflight(req).0.Some?
    requires IsSimpleContentType(req)
    requires forall k :: k in req.headers ==> ',' !in k && IsStripped(k)
    requires n in GetProhibitedHeaders(req, Listed([]))
    ensures n in NormalizeList(Joined(FindOr(EchoAnswer(PreflightOf(req)).headers, ALLOW_HEADERS, "")))
  {
    var needed := NeededHeaders(req);
    var x := FormatHeaderField(n);
    assert x in needed;
    EchoAnswerHeaders(req);
    NeededHeadersNoComma(req);
    JoinSetItems(needed, ',');
    FormattedNameStripped(req, n);
    NormalizedItem(JoinSet(needed, ','), x);
  }

  /** Every name the headers check looks at is allowed by the echoing answer, so the
      headers check passes. */
  lemma EchoPassesHeaders(req: Request)
    requires req.verb != "OPTIONS" && HasOrigin(req)
    requires Preflight.Preflight(req).0.Some?
    requires IsSimpleContentType(req)
    requires forall k :: k in req.headers ==> ',' !in k && IsStripped(k)
    ensures CheckHeadersOf(EchoAnswer(PreflightOf(req)), req) == Pass
  {
    var answer := EchoAnswer(PreflightOf(req));
    var allowed := NormalizeList(Joined(FindOr(answer.headers, ALLOW_HEADERS, "")));
    assert NormalizeList(Listed([])) == [];
    forall n | n in LowerNames(req.headers) && n !in SIMPLE_AGENT_HEADERS && n !in SIMPLE_AUTHOR_HEADERS
      ensures n in allowed
    {
      EchoAllowsName(req, n);
    }
  }

  /** A server that answers a preflight with `generate_acceptable_preflight_response_headers`
      lets every check `prepare_preflight` handed back pass, for a request with a simple
      content type whose method and header names carry no comma and no surrounding
      spaces. */
  lemma EchoPassesAll(req: Request)
    requires req.verb != "OPTIONS" && HasOrigin(req)
    requires Preflight.Preflight(req).0.Some?
    requires IsSimpleContentType(req)
    requires ',' !in req.verb && IsStripped(req.verb)
    requires forall k :: k in req.headers ==> ',' !in k && IsStripped(k)
    ensures forall c :: c in Preflight.Preflight(req).1 ==> RunCheck(c, EchoAnswer(PreflightOf(req)), req) == Pass
  {
    EchoPassesOrigin(req);
    EchoPassesMethod(req);
    EchoPassesHeaders(req);
  }
}
