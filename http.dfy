/** The transport-independent request and response values the CORS engine reads, and
    the case-insensitive header mapping they carry. */
module Http {

  import opened Wrappers
  import opened Text

  /** A Python dict of header names to values; names compare exactly. */
  type Headers = map<string, string>

  /** No two names of `h` differ only in case: what a case-insensitive header mapping
      (such as the one an HTTP client library keeps) guarantees. */
  predicate CaseDistinct(h: Headers) {
    forall a, b :: a in h && b in h && Lower(a) == Lower(b) ==> a == b
  }

  /** A case-insensitive header mapping: the names as they were set, distinct up to case. */
  type CiHeaders = h: Headers | CaseDistinct(h) witness map[]

  /** `set(map(str.lower, h.keys()))` */
  function LowerNames(h: Headers): set<string>
  {
    set k | k in h :: Lower(k)
  }

  /** The mapping keyed by lower-cased name, as a case-insensitive dictionary keeps it. */
  function LowerKeyed(h: CiHeaders): (m: map<string, string>)
    ensures m.Keys == LowerNames(h)
    ensures forall k :: k in h ==> m[Lower(k)] == h[k]
  {
    map k | k in h :: Lower(k) := h[k]
  }

  /** `h.get(name)` on a case-insensitive mapping: the value stored under the name that
      equals `name` up to case, if there is one. */
  function Find(h: CiHeaders, name: string): (r: Option<string>)
    ensures r.Some? <==> Lower(name) in LowerNames(h)
    ensures forall k :: k in h && Lower(k) == Lower(name) ==> r == Some(h[k])
  {
    var m := LowerKeyed(h);
    if Lower(name) in m then Some(m[Lower(name)]) else None
  }

  /** `h.get(name, default)` on a case-insensitive mapping. */
  function FindOr(h: CiHeaders, name: string, default: string): (r: string)
    ensures Find(h, name).Some? ==> r == Find(h, name).value
    ensures Find(h, name).None? ==> r == default
  {
    match Find(h, name)
    case Some(v) => v
    case None => default
  }

  /** A lookup with a default ignores case: it returns the value of any name equal to
      `name` up to case, and the default when there is none. */
  lemma FindOrCaseInsensitive(h: CiHeaders, name: string, default: string)
    ensures forall k :: k in h && Lower(k) == Lower(name) ==> FindOr(h, name, default) == h[k]
    ensures (forall k :: k in h ==> Lower(k) != Lower(name)) ==> FindOr(h, name, default) == default
  {
    if forall k :: k in h ==> Lower(k) != Lower(name) {
      assert Lower(name) !in LowerNames(h);
    }
  }

  /** `d.get(key, default)` on a plain dict: an exact-key lookup. */
  function GetOr(d: Headers, key: string, default: string): (r: string)
    ensures key in d ==> r == d[key]
    ensures key !in d ==> r == default
  {
    if key in d then d[key] else default
  }

  /** A request as the engine sees it (`verb` is the HTTP method). `kwargs` is the bag of transport options that is
      passed through untouched; its values are modelled as strings. */
  datatype Request = Request(verb: string, url: string, headers: CiHeaders, kwargs: map<string, string>)

  /** The part of a response the engine reads. */
  datatype Response = Response(headers: CiHeaders)

  /** `Request(verb, url, headers=None, **kwargs)`: everything stored as given, except
      that a missing header mapping becomes the empty one. */
  function NewRequest(verb: string, url: string, headers: Option<CiHeaders>, kwargs: map<string, string>): (r: Request)
    ensures r.verb == verb && r.url == url && r.kwargs == kwargs
    ensures headers.Some? ==> r.headers == headers.value
    ensures headers.None? ==> r.headers == map[]
  {
    Request(verb, url, if headers.Some? then headers.value else map[], kwargs)
  }
}
