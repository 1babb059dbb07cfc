# python-cors: a Dafny model of the CORS decision engine

This project models the client-side CORS engine of the `cors` Python package. It also proves properties of that model. The engine does five things:

- It classifies a request: same origin or not, simple method or not, simple content type or not, and which header names are prohibited.
- It decides whether a request needs a preflight.
- It builds the preflight request and the list of follow-up checks.
- It checks a response's `Access-Control-*` headers against the request.
- It guards which response headers a caller may read.

The model also covers the two helpers a server uses to answer with permissive CORS headers.

The modules follow the package's files:

| module | file | form |
|---|---|---|
| `Definitions` (definitions.dfy) | `cors/definitions.py` | The constant name sets, `_normalize_list`, `_normalize_origin_url` and the classification predicates, as functions and lemmas. |
| `Preflight` (preflight.dfy) | `cors/preflight.py`, except `send` | See the list below. |
| `Utils` (utils.dfy) | `cors/utils.py` | `HeadersDict` and `ProtectedHTTPHeaders` are classes over a `map` field; `Set` and `Delete` are methods that change it in place. The `Request` record is `Http.Request`; `Http.NewRequest` stores a missing header mapping as the empty one. |

The `Preflight` module contains:

- the three `check_*` validators;
- the three `prepare_preflight_*` contributors;
- `prepare_preflight`, both as a function `Preflight` and as a method `PreparePreflight`, whose loop over the contributors is `ConsultContributors`;
- the two `generate_acceptable_*` header generators.

Supporting modules:

- `Wrappers`: `Option`, `Result` and `Outcome`. A Python `raise` becomes a `Fail`/`Failure` value.
- `Errors`: `AccessControlError` carries a reason tag plus url, method and headers. The message text is not modelled. `KeyError` is what a missing dictionary key raises.
- `Http`: request and response values, and the case-insensitive header lookup.
- `Text`: `lower`, `upper`, `capitalize`, `strip`, `split` and `join` on strings, and header case.
- `Ordering`: a fixed iteration order for `",".join(some_set)`.
- `Scenarios`: a preflight followed end to end. A server answers it with `generate_acceptable_preflight_response_headers`, and the client runs the checks against that answer.

Modelling decisions:

- **Headers of a prepared request or response.** These are case-insensitive mappings: `Http.CiHeaders`, a `map` whose names are distinct up to case.
  - Every lookup on them is a lookup by lower-cased name (`Http.Find`). This covers `headers["origin"]`, `"content-type" in request.headers`, `request.headers.get("Content-Type", ...)` and `response.headers.get(...)`.
  - `CaseInsensitiveDict` is not defined in `cors/utils.py`, although `cors/preflight.py:13` imports it. It is modelled as exactly this lower-cased lookup.
- **Server-side helpers.** They work on plain dictionaries, so they use plain maps with exact-key lookups (`Http.GetOr`).
- **`CORS_RESPONSE_HEADERS`.** It is imported from `cors/definitions.py` but not defined there. It is modelled as `CORS_HEADERS`.
- **`urlparse`.** It is replaced by a small splitter that follows Python 2's `urlsplit`:
  - the scheme is the text before the first `:` when that text is made of scheme characters and is not followed by a bare port number (a literal `http` skips that last test);
  - the scheme is lower-cased;
  - the network location runs from `//` to the first `/`, `?` or `#`.
- **`re.search(":\d+$", netloc)`** is `PortAtEnd`. Like `$`, it accepts one final newline.
- **Iteration order of a set.** `",".join(set)` iterates a set in an unspecified order. The model fixes lexicographic order (`Ordering.SortedList`, `Ordering.JoinSet`). The contracts of `Preflight.AllowedHeaders`, `Preflight.MergedHeaders`, `Preflight.PreflightRequestHeaders`, `Preflight.ActualResponseHeaders` and `Scenarios.EchoAnswerHeaders` therefore pin that one order, which the source does not promise. Only the `*Items` lemmas (`Ordering.JoinSetItems`, `Preflight.AllowedHeadersItems`, `Preflight.ExposeHeadersItems`) hold whatever the order: they speak about the items alone.
- **`prepare_preflight` merging.** Contributions are merged as `dict.update` and `list.extend` merge them. When the content type is not simple, the methods contributor therefore overwrites the `Access-Control-Request-Headers` list that the headers contributor asked for with just `Content-Type`. The model keeps this behaviour. `Scenarios.EchoRejectsOverwrittenHeaders` shows what it costs.
- **Exposed-header spelling.** `generate_acceptable_actual_response_headers` splits on `_` (not `-`) when it re-capitalizes exposed names. A missing or empty Expose-Headers value contributes an empty item. The list is built from the set of cleaned names, so two names that are spelled alike after re-capitalizing (`a_1` and `a-1` both give `A-1`) both appear in it. All three are kept as written (`UnderscoreCase`, `EmptyExposedItem`, `ExposedKeepsDuplicates`).
- **`unicode(h).lower().strip()`.** Names and values are Python 2 byte strings. `unicode()` decodes them as ASCII and raises UnicodeDecodeError on any other byte, so `GenerateActualResponseHeaders` fails with that error when the Expose-Headers value or a header name is not ASCII. On names that decode, ASCII lower-casing is exact, and `Clean` trims the white space of `unicode.strip` (`Text.IsUnicodeSpace`, which includes U+001C to U+001F).

## Model

| member | source | states |
|---|---|---|
| Definitions.NormalizeList | cors/definitions.py:47-50 | Every result item is lower case. A list gives one item per element, lower-cased. A string gives one item per comma-separated field, trimmed and then lower-cased. |
| Definitions.NormalizeListIdempotent | cors/definitions.py:47-50 | Normalising a normalised list again returns the same list. |
| Definitions.NormalizeJoinedAsListed | cors/definitions.py:47-50 | A comma-joined string normalises to the same list as the list of its trimmed fields. So `"a, b"` and `("a", "b")` give the same list. |
| Definitions.ParseUrl | cors/definitions.py:53-54 | The network location `urlparse` finds contains no `/`, `?` or `#`. |
| Definitions.ParsedScheme | cors/definitions.py:53-54 | A scheme `urlparse` finds is made of scheme characters and is lower case. |
| Definitions.OriginOfUrl | cors/definitions.py:52-57 | For `scheme://netloc` followed by a path, query or fragment, `_normalize_origin_url` gives the lower-cased scheme, `://` and the location. It drops path, query and fragment. It appends `:443` for https and `:80` otherwise, exactly when the location does not end in `:<digits>`. |
| Definitions.OriginHasPort | cors/definitions.py:52-57 | For every URL, the normal form is the parsed scheme, `://`, and a location that ends in `:` and digits. |
| Definitions.NormalizedForm | cors/definitions.py:52-57 | For a URL with a scheme, the normal form is `scheme://netloc`: a lower-case scheme and a location that ends in a port. |
| Definitions.NormalizeOriginUrlIdempotent | cors/definitions.py:52-57 | Normalising the normal form of a URL with a scheme changes nothing. |
| Definitions.OriginWithDefaultPort | cors/definitions.py:52-57 | A location that already ends in the scheme's default port is kept as written. |
| Definitions.DefaultPortIsImplicit | cors/definitions.py:52-67 | `scheme://host` and `scheme://host:<default port>` have the same normal form. So `http://h` and `http://h:80` are the same origin for `is_same_origin`. |
| Definitions.SameOriginWithDefaultPort | cors/definitions.py:59-67 | A URL `scheme://host` with any path, query or fragment and an Origin `scheme://host:<default port>` are the same origin. |
| Definitions.SameOriginIff | cors/definitions.py:59-67 | For a URL and an Origin of the form `scheme://location` followed by a path, query or fragment: same origin iff the schemes are equal up to case and the locations are equal once the scheme's default port is written out where no port ends them. |
| Definitions.CrossSchemeNotSameOrigin | cors/definitions.py:59-67 | A URL and an Origin whose schemes differ up to case are never the same origin. |
| Definitions.SimpleContentTypeOf | cors/definitions.py:75-79 | A request without a content-type header in any case has a simple content type. With one, the content type is simple iff its value is exactly one of the three simple types. |
| Definitions.SimpleMethodOf | cors/definitions.py:69-73 | A simple method needs a simple content type. The method is compared up to case: `get` and `Post` are simple when the content type is, `PUT` and `options` never are. |
| Definitions.GetProhibitedHeaders | cors/definitions.py:81-85 | The result contains only lower-cased request names. It is disjoint from the agent and author sets and from the normalised allowed list. It contains every lower-cased request name outside all three. |
| Definitions.ProhibitedMembership | cors/definitions.py:81-85 | A request header, in any case, is prohibited iff its lower-cased name is in none of the three excluded groups. |
| Definitions.ProhibitedAntitone | cors/definitions.py:81-85 | A larger normalised allowed list never prohibits more. |
| Definitions.ProhibitedShrinksWithAllowed | cors/definitions.py:81-85 | Adding entries to an allowed list never enlarges the prohibited set. |
| Definitions.ProhibitedAreLower | cors/definitions.py:81-85 | Every prohibited name is lower case. |
| Definitions.ContentTypeProhibited | cors/definitions.py:75-85 | A content type that is not simple means a Content-Type header exists. With nothing allowed, that header is prohibited. |
| Http.Find | cors/definitions.py:64 | A lookup by lower-cased name finds a value iff some name equals the key up to case. When it does, it returns that name's value. |
| Http.FindOrCaseInsensitive | cors/preflight.py:147-148 | `get` with a default on a case-insensitive mapping returns the value stored under any name equal to the key up to case, and the default when there is none. |
| Preflight.FormatHeaderField | cors/preflight.py:18-19 | Keeps the length. Lower-cases to the same string as its input, so only the case of letters changes. |
| Preflight.FormatHeaderFieldSegments | cors/preflight.py:18-19 | The `-`-separated segments of the result are the input's segments, each capitalized. So the segment count is kept. |
| Text.HeaderCaseAt | cors/preflight.py:18-19 | Header case keeps the length. Character `i` is upper-cased when it starts the string or follows a `-`, and lower-cased otherwise. |
| Text.HeaderCaseIgnoresCase | cors/preflight.py:18-19 | Two inputs equal up to case give the same header case. |
| Text.HeaderCaseIdempotent | cors/preflight.py:18-19 | Header case applied twice equals header case applied once. |
| Preflight.CheckOriginOf | cors/preflight.py:21-37 | A same-origin request passes. A cross-origin request passes iff the response's Allow-Origin is `*` or exactly the request's Origin value. A failure carries OriginNotAllowed with that origin and the request. |
| Preflight.AllowedMethodList | cors/preflight.py:55-59 | One entry per comma-separated field of Allow-Methods (`""` when absent), trimmed and upper-cased. |
| Preflight.SimpleIffNoPermission | cors/preflight.py:45-52 | A method is simple and not an irregular POST iff it needs no permission: it is GET or HEAD, or a POST with a simple content type. |
| Preflight.CheckMethodOf | cors/preflight.py:39-66 | GET, HEAD and a POST with a simple content type pass. Any other method passes iff its upper-cased name is in the allowed list. A failure carries MethodNotAllowed with the method. |
| Preflight.CheckMethodWithoutAllowMethods | cors/preflight.py:55-66 | Without Allow-Methods the list is `[""]`. A method that needs permission then fails, unless it is the empty string. |
| Preflight.CheckHeadersOf | cors/preflight.py:68-87 | Passes iff every request name outside the agent set, the author set and the response's Allow-Headers is `content-type` with a simple content type. That is: the prohibited set is empty, or it is `{"content-type"}` with a simple content type. A failure carries the prohibited set. |
| Preflight.AllowedOrigin | cors/preflight.py:89-92 | Adds no header. Adds the origin check iff the request is not same-origin, and at most once. |
| Preflight.AllowedMethods | cors/preflight.py:94-106 | Request-Method is set to the method, with the method check, iff the method is not simple. Request-Headers is set to `Content-Type`, with the headers check, iff the content type (missing counts as text/plain) is not simple. No other key is set. The checks come in method, headers order. |
| Preflight.NeededHeaders | cors/preflight.py:108-113 | Every prohibited name (nothing allowed) is needed in header case. `Content-Type` is needed when the content type is not simple. |
| Preflight.NeededHeaderOrigin | cors/preflight.py:108-113 | Conversely, every needed name is a prohibited name in header case, or `Content-Type` for a content type that is not simple. |
| Preflight.NeededHeadersEmpty | cors/preflight.py:108-116 | No header is needed iff no header is prohibited. |
| Preflight.NeededHeadersNoComma | cors/preflight.py:108-113 | When no request header name has a comma, no needed name has one. |
| Preflight.AllowedHeaders | cors/preflight.py:108-121 | Contributes nothing when no header is needed. Otherwise it contributes exactly one Request-Headers entry, the join of the needed names, and `[check_headers]`. |
| Preflight.AllowedHeadersItems | cors/preflight.py:118-121 | When no request header name has a comma, the comma-separated items of the Request-Headers entry are exactly the needed names. |
| Ordering.JoinSetItems | cors/preflight.py:119 | Splitting the join of a non-empty set, whose members have no separator, gives back exactly its members. |
| Preflight.Contribute | cors/preflight.py:134-138 | Each contributor sets at most Request-Method and Request-Headers. |
| Preflight.MergeThree | cors/preflight.py:139-140 | Merging three contributions gives the headers updated left to right (a later key wins) and the checks concatenated. |
| Preflight.MergedContributions | cors/preflight.py:134-140 | The merged contribution is the origin, headers and methods contributions merged in that order. Its keys are at most Request-Method and Request-Headers. |
| Preflight.ConsultContributors | cors/preflight.py:128-140 | The loop over the contributors ends with the headers and checks of the in-order merge. |
| Preflight.Preflight | cors/preflight.py:123-154 | OPTIONS gives no preflight and no checks. Without a preflight there are no checks. A preflight is an OPTIONS request to the same URL with no transport options. |
| Preflight.PreparePreflight | cors/preflight.py:123-154 | The method returns exactly what the function `Preflight` specifies. |
| Preflight.PreflightOfOptions | cors/preflight.py:131-132 | A method equal to `OPTIONS` gives `(None, [])`. |
| Preflight.PreflightOfMerged | cors/preflight.py:144-154 | For any other method: no preflight iff no check was added (no header without a check). The checks are the merged checks. The preflight is an OPTIONS request to the same URL with the merged headers plus Host. |
| Preflight.PreflightNeeded | cors/preflight.py:123-154 | A request other than OPTIONS gets no preflight iff it is same-origin, its method is simple and no header is prohibited. Without a preflight there are no checks. |
| Preflight.PreflightChecks | cors/preflight.py:134-140 | The checks are origin's, then headers', then methods'. The origin check is present iff the request is cross-origin. The method check is present iff the method is not simple. The headers check is present iff a header is needed or the content type is not simple. |
| Preflight.HeadersCheckTwice | cors/preflight.py:134-140 | For a content type that is not simple, the headers check is listed twice. Duplicates are kept. |
| Preflight.ContentTypeChecks | cors/preflight.py:89-121 | For a content type that is not simple, the origin contributor adds no headers check, the headers contributor adds exactly one, and the methods contributor adds the method check then the headers check. |
| Preflight.MergedHeaders | cors/preflight.py:134-140 | Request-Method is set to the method iff the method is not simple. Request-Headers is present iff a header is needed or the content type is not simple. Its value is `Content-Type` alone when the content type is not simple (the overwrite). Otherwise it is the join of the needed names. |
| Preflight.WithHost | cors/preflight.py:147-148 | The merged headers plus `Host`, set to the request's host header found in any case, when there is one. |
| Preflight.PreflightRequest | cors/preflight.py:147-154 | The preflight is OPTIONS, to the same URL, with no transport options. It carries Host iff the request has a host header, with that value. Every other key and value is the merged one. |
| Preflight.PreflightRequestHeaders | cors/preflight.py:134-152 | The Request-Method and Request-Headers entries of the preflight request itself, as in MergedHeaders. |
| Preflight.GeneratePreflightResponseHeaders | cors/preflight.py:156-171 | Always `Allow-Origin: *`. Allow-Methods and Allow-Headers are present exactly when the matching Request- key is, echoing its value. No other key is set. |
| Preflight.UnderscoreCase | cors/preflight.py:190-193 | Re-capitalizing a name by its `_`-separated parts adds no comma. |
| Preflight.UnderscoreCaseAt | cors/preflight.py:190-191 | Re-capitalizing keeps the length. Each `_` becomes `-`. Any other character is upper-cased at the start or after `_`, and lower-cased elsewhere. |
| Preflight.UnderscoreCaseWithoutUnderscore | cors/preflight.py:190-191 | A name without `_` is simply capitalized: a `-` inside it starts no new capital. |
| Preflight.UnderscoreSpellingsMeet | cors/preflight.py:190-191 | `a_1` and `a-1` are both spelled `A-1`. |
| Preflight.Clean | cors/preflight.py:184-186 | A cleaned name is no longer than the name, is lower case, and neither starts nor ends with Unicode white space. |
| Preflight.CleanOf | cors/preflight.py:184-186 | A cleaned name is a slice of the lower-cased name, and everything cut off on either side is Unicode white space. |
| Preflight.CleanIdempotent | cors/preflight.py:184-186 | Cleaning a cleaned name changes nothing. |
| Preflight.ExposedKeepsDuplicates | cors/preflight.py:189-193 | Two different exposed names spelled alike both appear in the list, at two different positions. |
| Preflight.ExposedNamesMembers | cors/preflight.py:182-193 | Every Expose-Headers item and every received name outside the simple and CORS response sets is exposed, each lower-cased, trimmed and re-capitalized. Nothing else is exposed. |
| Preflight.EmptyExposedItem | cors/preflight.py:182-184 | With no Expose-Headers to start from, the empty item is exposed. |
| Preflight.AllowOriginKeepsExposed | cors/preflight.py:178-189 | Rewriting Allow-Origin changes no exposed name, because it is a CORS response header. |
| Preflight.GenerateActualResponseHeaders | cors/preflight.py:173-196 | Fails with UnicodeDecodeError iff the Expose-Headers value or some header name is not ASCII. Otherwise it returns the header map of `ActualResponseHeaders`. |
| Preflight.ActualResponseHeaders | cors/preflight.py:178-195 | Allow-Origin is kept iff it equals `origin` (a missing one counts as `""`). Otherwise it becomes `*`. Expose-Headers is the join of the exposed names. Every other key is kept with its value. No other key is added. The argument is not changed. |
| Preflight.ExposedNamesNoComma | cors/preflight.py:182-193 | When no name has a comma, the exposed names are non-empty and none has a comma. |
| Preflight.ExposeHeadersItems | cors/preflight.py:189-195 | When no name has a comma, the items of the generated Expose-Headers are exactly the exposed names. |
| Utils.HeadersDict.constructor | cors/utils.py:13-14 | The initial entries are stored verbatim. |
| Utils.HeadersDict.Normalize | cors/utils.py:16-18 | Keeps the length and lower-cases like its input. Each character is upper-cased at the start of a segment and lower-cased elsewhere. |
| Utils.NormalizeSameIffSameLower | cors/utils.py:16-18 | Two keys normalise alike iff they are equal up to case. So a key and its lower-cased form normalise alike. |
| Utils.NormalizeIdempotent | cors/utils.py:16-18 | `normalize` is idempotent. |
| Utils.ContainsAgreesWithGet | cors/utils.py:20-30 | `key in h` holds iff `h[key]` succeeds. |
| Utils.HeadersDict.Get | cors/utils.py:20-21 | `h[key]` succeeds iff the normalised key is stored, and returns its value. Otherwise it is a KeyError. |
| Utils.HeadersDict.Set | cors/utils.py:23-24 | The value is stored under the normalised key. Every key with the same normal form then reads it and is contained. No other entry changes. |
| Utils.HeadersDict.Delete | cors/utils.py:26-27 | Removes the entry under the normalised key, or raises KeyError and changes nothing. Afterwards no key with that normal form is contained. No other entry changes. |
| Utils.GetAgreesWithRawGet | cors/utils.py:20-21 | `h[key]` finds an entry iff the inherited `get` finds one under the key's header case, and both give the same value. |
| Utils.VerbatimKeyUnreachable | cors/utils.py:13-30 | An entry the constructor stored under a key not in header case, with nothing stored under the key's header case, is unreachable by `[]` and `in`, even with that very key. The inherited `get` still finds it. |
| Utils.ProtectedHeaders.constructor | cors/utils.py:38-44 | The exposed list is the normalised argument. The entries are stored verbatim. |
| Utils.ProtectedHeaders.CheckAccessible | cors/utils.py:46-50 | Passes iff the lower-cased name is a simple or CORS response header, or is exposed. Otherwise it fails with HeaderNotAccessible. |
| Utils.AccessibleIgnoresCase | cors/utils.py:46-50 | Readability depends on the name only up to case. |
| Utils.AccessibleIff | cors/utils.py:46-50 | Simple and CORS response headers are always readable. Any other header is readable iff its lower-cased name is exposed. |
| Utils.ProtectedHeaders.GetItem | cors/utils.py:52-54 | The guard runs first. An unreadable name fails whether or not it is stored. A readable one is looked up by normalised key. |
| Utils.ProtectedHeaders.Get | cors/utils.py:56-58 | The guard runs first. A readable name is looked up by exact key, with the default when it is absent. |
| Utils.UnexposedRaises | cors/utils.py:46-58 | Reading an unexposed header that is neither simple nor CORS fails with an access-control error, through `[]` and through `get`. |
| Utils.ExposedAbsentGivesDefault | cors/utils.py:56-58 | `get` on an exposed name that is absent returns the default and does not raise. |
| Scenarios.EchoPassesOrigin | cors/preflight.py:21-37 | Against the echoing answer to a preflight, the origin check passes. |
| Scenarios.EchoPassesMethod | cors/preflight.py:39-66 | Against the echoing answer, the method check passes for a method with no comma and no surrounding spaces. |
| Scenarios.EchoPassesHeaders | cors/preflight.py:68-87 | Against the echoing answer, the headers check passes for a request with a simple content type whose header names have no comma and no surrounding spaces. |
| Scenarios.EchoPassesAll | cors/preflight.py:123-171 | With those conditions, every check `prepare_preflight` returns passes against the echoing answer. |
| Scenarios.EchoRejectsOverwrittenHeaders | cors/preflight.py:94-140 | Take a request whose content type is not simple and that carries another prohibited header. Its preflight asks only for `Content-Type`, so even the echoing answer fails the headers check. |

## Left out

- `send` (cors/preflight.py:198-241) and the `requests` and `tornado` clients are not part of this model. They are transport: sessions, coroutines, callbacks and status-code tests around the engine.
- `urlparse` raises ValueError on a malformed IPv6 location; the splitter does not model that error.
- Host: when the request has no host header, `prepare_preflight` stores `Host: None`. The model leaves the Host entry out in that case, because header values are strings.
- Transport options (`**kwargs`) are modelled as a map from names to strings.
- The `%r`-formatted text of each AccessControlError is not modelled. The reason tag carries the origin, method, prohibited set or header name that the message reports.
- `basestring` and `map` returning a list are Python 2 details. The string-or-list argument of `_normalize_list` and of `ProtectedHTTPHeaders` is the `ListArg` datatype.
- Definitions.NormalizeOriginUrlIdempotent: holds only for URLs in which `urlparse` finds a scheme. For `//h`, the normal form `://h:80` normalises to `://:80`.
- The order in which `",".join(set)` and the Expose-Headers list comprehension list names is fixed to lexicographic order. The contracts of Preflight.AllowedHeaders, Preflight.MergedHeaders, Preflight.PreflightRequestHeaders, Preflight.ActualResponseHeaders and Scenarios.EchoAnswerHeaders state that one order, which the source leaves to the set's iteration order. Only the `*Items` lemmas are independent of it.
- Definitions.IsSameOrigin: requires an Origin header (`HasOrigin`). Without one, `is_same_origin` raises KeyError (cors/definitions.py:64-66), and the model does not represent that error.
- Preflight.CheckOriginOf: requires an Origin header, for the same reason; the KeyError of `is_same_origin` is not modelled.
- Preflight.AllowedOrigin: requires an Origin header, for the same reason.
- Preflight.Preflight: requires an Origin header for a method other than OPTIONS, for the same reason.
- Preflight.PreparePreflight: requires an Origin header for a method other than OPTIONS, for the same reason.
- Text.Lower: lower-cases ASCII letters only. That is exact for the byte strings the engine handles and for every name `unicode()` accepts; the lower-casing of non-ASCII characters is never reached, because `unicode()` raises first.
- Scenarios.EchoPassesMethod and Scenarios.EchoPassesHeaders: they require method and header names with no comma and no surrounding spaces. Without that, splitting the echoed value on commas and trimming the items does not give back the names.
- `CORS_RESPONSE_HEADERS` and `CaseInsensitiveDict` are imported but not defined in the files this model covers. They are `CORS_HEADERS` and the lower-cased lookup `Http.Find`.
