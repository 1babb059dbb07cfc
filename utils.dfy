/** The header containers of the CORS engine (cors/utils.py): a dictionary that files
    its keys under Capitalized-Header-Case, and the read guard that wraps a cross-origin
    response's headers so that only simple, CORS and exposed headers can be read. */
module Utils {

  import opened Wrappers
  import opened Text
  import opened Definitions
  import opened Errors

  /** `HeadersDict`: a dictionary whose `[]`, assignment, deletion and `in` file the
      key under its header case. The constructor and the inherited `get` leave keys
      as they are. */
  class HeadersDict {
    var items: map<string, string>

    /** `HeadersDict(initial)`: the initial entries are copied verbatim. */
    constructor (initial: map<string, string>)
      ensures items == initial
    {
      items := initial;
    }

    /** `normalize`: every '-'-separated segment capitalized. */
    static function Normalize(key: string): (r: string)
      ensures |r| == |key|
      ensures Lower(r) == Lower(key)
      ensures forall i :: 0 <= i < |key| ==>
        r[i] == (if i == 0 || key[i - 1] == '-' then UpperChar(key[i]) else LowerChar(key[i]))
    {
      HeaderCaseLength(key);
      HeaderCaseLower(key);
      forall i | 0 <= i < |key|
        ensures HeaderCase(key)[i] ==
          (if i == 0 || key[i - 1] == '-' then UpperChar(key[i]) else LowerChar(key[i]))
      {
        HeaderCaseAt(key, i);
      }
      HeaderCase(key)
    }

    /** `h[key]`: the entry filed under the key's header case, or a KeyError naming it. */
    function Get(key: string): (r: Result<string, Error>)
      reads this
      ensures r.Success? <==> Normalize(key) in items
      ensures r.Success? ==> r.value == items[Normalize(key)]
      ensures r.Failure? ==> r.error == KeyError(Normalize(key))
    {
      var k := Normalize(key);
      if k in items then Success(items[k]) else Failure(KeyError(k))
    }

    /** `key in h` */
    predicate Contains(key: string)
      reads this
    {
      Normalize(key) in items
    }

    /** The inherited `h.get(key, default)`: an exact-key lookup, without normalising. */
    function RawGet(key: string, default: Option<string>): (r: Option<string>)
      reads this
      ensures key in items ==> r == Some(items[key])
      ensures key !in items ==> r == default
    {
      if key in items then Some(items[key]) else default
    }

    /** `h[key] = value`: the value is filed under the key's header case, so that every
        key with the same header case finds it; no other entry changes. */
    method Set(key: string, value: string)
      modifies this
      ensures items == old(items)[Normalize(key) := value]
      ensures forall k :: Normalize(k) == Normalize(key) ==> Get(k) == Success(value) && Contains(k)
      ensures forall k :: k != Normalize(key) ==>
        (k in items <==> k in old(items)) && (k in items ==> items[k] == old(items)[k])
    {
      items := items[Normalize(key) := value];
    }

    /** `del h[key]`: removes the entry filed under the key's header case, or raises
        KeyError and changes nothing when there is none. */
    method Delete(key: string) returns (r: Outcome<Error>)
      modifies this
      ensures Normalize(key) in old(items) ==> r == Pass && items == old(items) - {Normalize(key)}
      ensures Normalize(key) !in old(items) ==> r == Fail(KeyError(Normalize(key))) && items == old(items)
      ensures forall k :: Normalize(k) == Normalize(key) ==> !Contains(k)
      ensures forall k :: k != Normalize(key) ==>
        (k in items <==> k in old(items)) && (k in items ==> items[k] == old(items)[k])
    {
      var k := Normalize(key);
      if k in items {
        items := items - {k};
        r := Pass;
      } else {
        r := Fail(KeyError(k));
      }
    }
  }

  /** Two keys are filed together exactly when they are equal up to case. */
  lemma NormalizeSameIffSameLower(a: string, b: string)
    ensures HeadersDict.Normalize(a) == HeadersDict.Normalize(b) <==> Lower(a) == Lower(b)
  {
    if Lower(a) == Lower(b) {
      HeaderCaseIgnoresCase(a, b);
    }
  }

  /** `normalize` is idempotent. */
  lemma NormalizeIdempotent(key: string)
    ensures HeadersDict.Normalize(HeadersDict.Normalize(key)) == HeadersDict.Normalize(key)
  {
    HeaderCaseIdempotent(key);
  }

  /** `key in h` holds exactly when `h[key]` succeeds. */
  lemma ContainsAgreesWithGet(h: HeadersDict, key: string)
    ensures h.Contains(key) <==> h.Get(key).Success?
  {
  }

  /** `h[key]` is the inherited `get` applied to the key's header case: both find the
      same entry or neither finds one. */
  lemma GetAgreesWithRawGet(h: HeadersDict, key: string)
    ensures h.Get(key).Success? <==> h.RawGet(HeadersDict.Normalize(key), None).Some?
    ensures h.Get(key).Success? ==> h.Get(key).value == h.RawGet(HeadersDict.Normalize(key), None).value
  {
  }

  /** An entry the constructor stored under a key that is not in header case, with
      nothing filed under the key's header case, cannot be reached by `[]` or `in`, not
      even with that very key; the inherited `get` still finds it. */
  lemma VerbatimKeyUnreachable(h: HeadersDict, key: string)
    requires key in h.items && HeadersDict.Normalize(key) != key
    requires HeadersDict.Normalize(key) !in h.items
    ensures !h.Contains(key) && h.Get(key).Failure?
    ensures h.RawGet(key, None) == Some(h.items[key])
  {
  }

  /** `ProtectedHTTPHeaders`: a header dictionary whose reads are guarded. The dictionary
      it extends is held in `dict`; writing and deleting go to `dict` unguarded. */
  class ProtectedHeaders {
    const dict: HeadersDict
    var exposed: seq<string>

    /** `ProtectedHTTPHeaders(exposed_headers, initial)`: the exposed names are normalised
        (a string is split on commas and trimmed; all names are lower-cased). */
    constructor (exposedHeaders: ListArg, initial: map<string, string>)
      ensures fresh(dict)
      ensures dict.items == initial
      ensures exposed == NormalizeList(exposedHeaders)
    {
      dict := new HeadersDict(initial);
      exposed := NormalizeList(exposedHeaders);
    }

    /** A header may be read when its lower-cased name is a simple or a CORS response
        header, or one of the exposed names. */
    predicate Accessible(name: string)
      reads this
    {
      Lower(name) in SIMPLE_RESPONSE_HEADERS + CORS_HEADERS || Lower(name) in exposed
    }

    /** `check_header_accessible` */
    function CheckAccessible(name: string): (r: Outcome<Error>)
      reads this
      ensures r.Pass? <==> Accessible(name)
      ensures r.Fail? ==> r.error == AccessControlError(HeaderNotAccessible(name), None, None, None)
    {
      if Lower(name) in SIMPLE_RESPONSE_HEADERS + CORS_HEADERS then Pass
      else if Lower(name) !in exposed then Fail(AccessControlError(HeaderNotAccessible(name), None, None, None))
      else Pass
    }

    /** `p[name]`: the guard first, then the normalised lookup. */
    function GetItem(name: string): (r: Result<string, Error>)
      reads this, dict
      ensures !Accessible(name) ==> r == Failure(AccessControlError(HeaderNotAccessible(name), None, None, None))
      ensures Accessible(name) ==> r == dict.Get(name)
      ensures r.Success? <==> Accessible(name) && HeadersDict.Normalize(name) in dict.items
      ensures r.Success? ==> r.value == dict.items[HeadersDict.Normalize(name)]
    {
      match CheckAccessible(name)
      case Fail(e) => Failure(e)
      case Pass => dict.Get(name)
    }

    /** `p.get(name, default)`: the guard first, then the inherited exact-key lookup. */
    function Get(name: string, default: Option<string>): (r: Result<Option<string>, Error>)
      reads this, dict
      ensures !Accessible(name) ==> r == Failure(AccessControlError(HeaderNotAccessible(name), None, None, None))
      ensures Accessible(name) ==> r.Success?
      ensures Accessible(name) && name in dict.items ==> r.value == Some(dict.items[name])
      ensures Accessible(name) && name !in dict.items ==> r.value == default
    {
      match CheckAccessible(name)
      case Fail(e) => Failure(e)
      case Pass => Success(dict.RawGet(name, default))
    }
  }

  /** Whether a header may be read depends on its name only up to case. */
  lemma AccessibleIgnoresCase(p: ProtectedHeaders, a: string, b: string)
    requires Lower(a) == Lower(b)
    ensures p.Accessible(a) <==> p.Accessible(b)
  {
  }

  /** Simple and CORS response headers may always be read; any other header exactly when
      it is exposed. */
  lemma AccessibleIff(p: ProtectedHeaders, name: string)
    ensures Lower(name) in SIMPLE_RESPONSE_HEADERS ==> p.Accessible(name)
    ensures Lower(name) in CORS_HEADERS ==> p.Accessible(name)
    ensures Lower(name) !in SIMPLE_RESPONSE_HEADERS && Lower(name) !in CORS_HEADERS ==>
      (p.Accessible(name) <==> Lower(name) in p.exposed)
  {
  }

  /** Reading an unexposed header that is neither simple nor a CORS header fails whether
      or not the header is present. */
  lemma UnexposedRaises(p: ProtectedHeaders, name: string, default: Option<string>)
    requires Lower(name) !in SIMPLE_RESPONSE_HEADERS + CORS_HEADERS
    requires Lower(name) !in p.exposed
    ensures p.GetItem(name).Failure? && p.GetItem(name).error.AccessControlError?
    ensures p.Get(name, default).Failure? && p.Get(name, default).error.AccessControlError?
  {
  }

  /** `get` on an exposed header that is absent returns the default. */
  lemma ExposedAbsentGivesDefault(p: ProtectedHeaders, name: string, default: Option<string>)
    requires Lower(name) in p.exposed
    requires name !in p.dict.items
    ensures p.Get(name, default) == Success(default)
  {
  }
}
