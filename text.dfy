/** The string operations of Python 2 byte strings that the CORS code relies on:
    lower/upper/capitalize (ASCII only), strip, split on one character and join,
    and the Capitalized-Header-Case rewriting built from them. */
module Text {

  // ---------------------------------------------------------------- characters

  predicate IsUpperLetter(c: char) { 'A' <= c <= 'Z' }

  predicate IsLowerLetter(c: char) { 'a' <= c <= 'z' }

  predicate IsDigit(c: char) { '0' <= c <= '9' }

  /** The characters Python's `str.strip()` removes. */
  predicate IsSpace(c: char) {
    c == ' ' || c == '\t' || c == '\n' || c == '\r' || c as int == 11 || c as int == 12
  }

  function LowerChar(c: char): (r: char)
    ensures !IsUpperLetter(r)
    ensures r == c || IsUpperLetter(c)
  {
    if IsUpperLetter(c) then (c as int + 32) as char else c
  }

  function UpperChar(c: char): (r: char)
    ensures !IsLowerLetter(r)
    ensures r == c || IsLowerLetter(c)
  {
    if IsLowerLetter(c) then (c as int - 32) as char else c
  }

  // ---------------------------------------------------------------- case

  /** `s.lower()` */
  function Lower(s: string): (r: string)
    ensures |r| == |s|
  {
    seq(|s|, i requires 0 <= i < |s| => LowerChar(s[i]))
  }

  /** `s.upper()` */
  function Upper(s: string): (r: string)
    ensures |r| == |s|
  {
    seq(|s|, i requires 0 <= i < |s| => UpperChar(s[i]))
  }

  /** `s.capitalize()`: the first character upper-cased, the rest lower-cased. */
  function Capitalize(s: string): (r: string)
    ensures |r| == |s|
  {
    if |s| == 0 then "" else [UpperChar(s[0])] + Lower(s[1..])
  }

  lemma LowerIdempotent(s: string)
    ensures Lower(Lower(s)) == Lower(s)
  {
  }

  /** A string without upper-case letters is its own lower case. */
  lemma NoUpperIsLower(s: string)
    requires forall i :: 0 <= i < |s| ==> !IsUpperLetter(s[i])
    ensures Lower(s) == s
  {
  }

  lemma LowerAppend(a: string, b: string)
    ensures Lower(a + b) == Lower(a) + Lower(b)
  {
  }

  // ---------------------------------------------------------------- strip

  /** `s.lstrip()` */
  function TrimLeft(s: string): (r: string)
    ensures |r| <= |s| && r == s[|s| - |r|..]
    ensures r == [] || !IsSpace(r[0])
    ensures forall i :: 0 <= i < |s| - |r| ==> IsSpace(s[i])
    decreases |s|
  {
    if |s| > 0 && IsSpace(s[0]) then TrimLeft(s[1..]) else s
  }

  /** `s.rstrip()` */
  function TrimRight(s: string): (r: string)
    ensures |r| <= |s| && r == s[..|r|]
    ensures r == [] || !IsSpace(r[|r| - 1])
    ensures forall i :: |r| <= i < |s| ==> IsSpace(s[i])
    decreases |s|
  {
    if |s| > 0 && IsSpace(s[|s| - 1]) then TrimRight(s[..|s| - 1]) else s
  }

  /** `s.strip()` */
  function Strip(s: string): (r: string)
    ensures |r| <= |s|
    ensures r == [] || (!IsSpace(r[0]) && !IsSpace(r[|r| - 1]))
  {
    TrimRight(TrimLeft(s))
  }

  /** True of a string that `strip()` leaves as it is. */
  predicate IsStripped(s: string) {
    s == [] || (!IsSpace(s[0]) && !IsSpace(s[|s| - 1]))
  }

  lemma StripStripped(s: string)
    requires IsStripped(s)
    ensures Strip(s) == s
  {
  }

  /** The characters `unicode.strip()` removes in Python 2.7 (`unicode.isspace`): those
      of `str.strip()`, the separators U+001C to U+001F, and the Unicode spaces. */
  predicate IsUnicodeSpace(c: char) {
    IsSpace(c) || 0x1C <= c as int <= 0x1F || c as int == 0x85 || c as int == 0xA0
    || c as int == 0x1680 || c as int == 0x180E || 0x2000 <= c as int <= 0x200A
    || c as int == 0x2028 || c as int == 0x2029 || c as int == 0x202F
    || c as int == 0x205F || c as int == 0x3000
  }

  /** `u.lstrip()` on a unicode string */
  function UnicodeTrimLeft(s: string): (r: string)
    ensures |r| <= |s| && r == s[|s| - |r|..]
    ensures r == [] || !IsUnicodeSpace(r[0])
    ensures forall i :: 0 <= i < |s| - |r| ==> IsUnicodeSpace(s[i])
    decreases |s|
  {
    if |s| > 0 && IsUnicodeSpace(s[0]) then UnicodeTrimLeft(s[1..]) else s
  }

  /** `u.rstrip()` on a unicode string */
  function UnicodeTrimRight(s: string): (r: string)
    ensures |r| <= |s| && r == s[..|r|]
    ensures r == [] || !IsUnicodeSpace(r[|r| - 1])
    ensures forall i :: |r| <= i < |s| ==> IsUnicodeSpace(s[i])
    decreases |s|
  {
    if |s| > 0 && IsUnicodeSpace(s[|s| - 1]) then UnicodeTrimRight(s[..|s| - 1]) else s
  }

  /** `u.strip()` on a unicode string */
  function UnicodeStrip(s: string): (r: string)
    ensures |r| <= |s|
    ensures r == [] || (!IsUnicodeSpace(r[0]) && !IsUnicodeSpace(r[|r| - 1]))
  {
    UnicodeTrimRight(UnicodeTrimLeft(s))
  }

  /** Unicode stripping keeps one slice of the string and removes only Unicode spaces
      around it. */
  lemma UnicodeStripSlice(s: string)
    ensures exists a, b ::
      (0 <= a <= b <= |s| && UnicodeStrip(s) == s[a..b]
       && (forall i :: 0 <= i < a ==> IsUnicodeSpace(s[i]))
       && (forall i :: b <= i < |s| ==> IsUnicodeSpace(s[i])))
  {
    var l := UnicodeTrimLeft(s);
    var r := UnicodeTrimRight(l);
    var a := |s| - |l|;
    var b := a + |r|;
    forall i | b <= i < |s|
      ensures IsUnicodeSpace(s[i])
    {
      assert s[i] == l[i - a];
    }
    assert r == s[a..b];
  }

  /** A string that neither starts nor ends with a Unicode space is left as it is. */
  lemma UnicodeStripStripped(s: string)
    requires s == [] || (!IsUnicodeSpace(s[0]) && !IsUnicodeSpace(s[|s| - 1]))
    ensures UnicodeStrip(s) == s
  {
  }

  /** Unicode stripping only removes characters. */
  lemma UnicodeStripHasChar(s: string, c: char)
    ensures c in UnicodeStrip(s) ==> c in s
  {
    var l := UnicodeTrimLeft(s);
    var r := UnicodeTrimRight(l);
    if c in r {
      var i :| 0 <= i < |r| && r[i] == c;
      assert l[i] == c;
      assert s[|s| - |l| + i] == c;
    }
  }

  /** Stripping a lower-cased string leaves it lower case. */
  lemma UnicodeStripLower(s: string)
    ensures Lower(UnicodeStrip(Lower(s))) == UnicodeStrip(Lower(s))
  {
    var r := UnicodeStrip(Lower(s));
    forall i | 0 <= i < |r|
      ensures !IsUpperLetter(r[i])
    {
      UnicodeStripHasChar(Lower(s), r[i]);
    }
    NoUpperIsLower(r);
  }

  /** `unicode(s)` on a Python 2 byte string decodes it as ASCII. */
  predicate IsAscii(s: string) {
    forall i :: 0 <= i < |s| ==> s[i] as int < 128
  }

  // ---------------------------------------------------------------- split and join

  /** `s.split(sep)`: the fields between occurrences of `sep`; never empty, and
      `"".split(sep) == [""]`. */
  function Split(s: string, sep: char): (r: seq<string>)
    ensures |r| > 0
    ensures forall i :: 0 <= i < |r| ==> sep !in r[i]
    decreases |s|
  {
    if |s| == 0 then [""]
    else
      var rest := Split(s[1..], sep);
      if s[0] == sep then [""] + rest else [[s[0]] + rest[0]] + rest[1..]
  }

  /** `sep.join(xs)` */
  function Join(xs: seq<string>, sep: char): string
  {
    if |xs| == 0 then ""
    else if |xs| == 1 then xs[0]
    else xs[0] + [sep] + Join(xs[1..], sep)
  }

  lemma JoinCons(x: string, xs: seq<string>, sep: char)
    requires |xs| > 0
    ensures Join([x] + xs, sep) == x + [sep] + Join(xs, sep)
  {
    assert ([x] + xs)[1..] == xs;
  }

  /** Splitting and joining on the same character gives the string back. */
  lemma {:induction false} JoinSplit(s: string, sep: char)
    ensures Join(Split(s, sep), sep) == s
    decreases |s|
  {
    if |s| > 0 {
      var rest := Split(s[1..], sep);
      JoinSplit(s[1..], sep);
      if s[0] == sep {
        JoinCons("", rest, sep);
      } else if |rest| == 1 {
        assert Split(s, sep) == [[s[0]] + rest[0]];
      } else {
        assert Split(s, sep) == [[s[0]] + rest[0]] + rest[1..];
        JoinCons(rest[0], rest[1..], sep);
        JoinCons([s[0]] + rest[0], rest[1..], sep);
        assert [rest[0]] + rest[1..] == rest;
      }
    }
  }

  /** A string without the separator is a single field. */
  lemma {:induction false} SplitNoSep(s: string, sep: char)
    requires sep !in s
    ensures Split(s, sep) == [s]
    decreases |s|
  {
    if |s| > 0 {
      SplitNoSep(s[1..], sep);
      assert [s[0]] + s[1..] == s;
    }
  }

  /** A field followed by the separator splits off as the first field. */
  lemma {:induction false} SplitField(a: string, t: string, sep: char)
    requires sep !in a
    ensures Split(a + [sep] + t, sep) == [a] + Split(t, sep)
    decreases |a|
  {
    if |a| == 0 {
      assert a + [sep] + t == [sep] + t;
      assert ([sep] + t)[1..] == t;
    } else {
      SplitField(a[1..], t, sep);
      assert (a + [sep] + t)[1..] == a[1..] + [sep] + t;
      assert [a[0]] + a[1..] == a;
    }
  }

  /** Joining fields that do not contain the separator and splitting again gives the
      fields back. */
  lemma {:induction false} SplitJoin(xs: seq<string>, sep: char)
    requires |xs| > 0
    requires forall i :: 0 <= i < |xs| ==> sep !in xs[i]
    ensures Split(Join(xs, sep), sep) == xs
    decreases |xs|
  {
    if |xs| == 1 {
      SplitNoSep(xs[0], sep);
    } else {
      SplitJoin(xs[1..], sep);
      SplitField(xs[0], Join(xs[1..], sep), sep);
      assert [xs[0]] + xs[1..] == xs;
    }
  }

  // ---------------------------------------------------------------- search

  /** Index of the first character of `s` in `cs`, or `|s|` if there is none. */
  function IndexOfAny(s: string, cs: set<char>): (i: nat)
    ensures i <= |s|
    ensures i < |s| ==> s[i] in cs
    ensures forall j :: 0 <= j < i ==> s[j] !in cs
    decreases |s|
  {
    if |s| == 0 then 0
    else if s[0] in cs then 0
    else 1 + IndexOfAny(s[1..], cs)
  }

  // ---------------------------------------------------------------- header case

  function CapitalizeAll(xs: seq<string>): (r: seq<string>)
    ensures |r| == |xs|
    ensures forall i :: 0 <= i < |xs| ==> r[i] == Capitalize(xs[i])
  {
    seq(|xs|, i requires 0 <= i < |xs| => Capitalize(xs[i]))
  }

  /** `"-".join(map(str.capitalize, s.split("-")))`: the rewriting into
      Capitalized-Header-Case used both by `format_header_field` and by
      `HeadersDict.normalize`. */
  function HeaderCase(s: string): string
  {
    Join(CapitalizeAll(Split(s, '-')), '-')
  }

  /** Reference definition of `"-".join(map(str.capitalize, s.split(sep)))`, one
      character at a time: `sep` becomes '-', and any other character is upper-cased
      when it starts the string (and `up` holds) or follows `sep`, and lower-cased
      otherwise. */
  function Recase(s: string, up: bool, sep: char): (r: string)
    ensures |r| == |s|
    decreases |s|
  {
    if |s| == 0 then ""
    else
      [if s[0] == sep then '-' else if up then UpperChar(s[0]) else LowerChar(s[0])]
      + Recase(s[1..], s[0] == sep, sep)
  }

  /** Character `i` of `Recase(s, up, sep)`. */
  lemma {:induction false} RecaseAt(s: string, up: bool, sep: char, i: nat)
    requires i < |s|
    ensures Recase(s, up, sep)[i] ==
      (if s[i] == sep then '-'
       else if (if i == 0 then up else s[i - 1] == sep) then UpperChar(s[i])
       else LowerChar(s[i]))
    decreases |s|
  {
    if i > 0 {
      RecaseAt(s[1..], s[0] == sep, sep, i - 1);
    }
  }

  /** Fields rejoined by '-': the first cased by `up`, every later one capitalized. */
  function FieldsCase(fs: seq<string>, up: bool): string
    requires |fs| > 0
  {
    (if up then Capitalize(fs[0]) else Lower(fs[0]))
    + (if |fs| == 1 then "" else "-" + Join(CapitalizeAll(fs[1..]), '-'))
  }

  /** The split-capitalize-join form of `Recase`. */
  predicate RecaseSplits(s: string, up: bool, sep: char) {
    Recase(s, up, sep) == FieldsCase(Split(s, sep), up)
  }

  /** The split-capitalize-join form agrees with the character-wise one, first field
      by first field. */
  lemma {:induction false} RecaseFields(s: string, up: bool, sep: char)
    ensures RecaseSplits(s, up, sep)
    decreases |s|
  {
    if |s| > 0 {
      RecaseFields(s[1..], s[0] == sep, sep);
      if s[0] == sep {
        RecaseStepSep(s, up, sep);
      } else {
        RecaseStepChar(s, up, sep);
      }
    }
  }

  lemma RecaseStepSep(s: string, up: bool, sep: char)
    requires |s| > 0 && s[0] == sep
    requires RecaseSplits(s[1..], true, sep)
    ensures RecaseSplits(s, up, sep)
  {
    var rest := Split(s[1..], sep);
    assert Split(s, sep) == [""] + rest;
    FieldsCaseSep(rest, up);
    assert Recase(s, up, sep) == "-" + Recase(s[1..], true, sep);
  }

  lemma RecaseStepChar(s: string, up: bool, sep: char)
    requires |s| > 0 && s[0] != sep
    requires RecaseSplits(s[1..], false, sep)
    ensures RecaseSplits(s, up, sep)
  {
    var rest := Split(s[1..], sep);
    assert Split(s, sep) == [[s[0]] + rest[0]] + rest[1..];
    FieldsCaseChar(s[0], rest, up);
    assert Recase(s, up, sep) == [if up then UpperChar(s[0]) else LowerChar(s[0])] + Recase(s[1..], false, sep);
  }

  /** An empty first field: the rejoined form is '-' and the rest, all capitalized. */
  lemma FieldsCaseSep(rest: seq<string>, up: bool)
    requires |rest| > 0
    ensures FieldsCase([""] + rest, up) == "-" + FieldsCase(rest, true)
  {
    var fs := [""] + rest;
    assert fs[0] == "" && fs[1..] == rest;
    JoinCapitalizeAll(rest);
    assert (if up then Capitalize(fs[0]) else Lower(fs[0])) == "";
  }

  /** A first field opened by `c`: the rejoined form is `c`, cased by `up`, then the
      rest with its first field lower-cased. */
  lemma FieldsCaseChar(c: char, rest: seq<string>, up: bool)
    requires |rest| > 0
    ensures FieldsCase([[c] + rest[0]] + rest[1..], up)
      == [if up then UpperChar(c) else LowerChar(c)] + FieldsCase(rest, false)
  {
    var fs := [[c] + rest[0]] + rest[1..];
    assert fs[0] == [c] + rest[0] && fs[1..] == rest[1..];
    CaseFirstField(c, rest[0], up);
  }

  /** Capitalizing or lower-casing a field decides only its first character's case. */
  lemma CaseFirstField(c: char, x: string, up: bool)
    ensures (if up then Capitalize([c] + x) else Lower([c] + x))
      == [if up then UpperChar(c) else LowerChar(c)] + Lower(x)
  {
    var f := [c] + x;
    assert f[1..] == x;
    assert Lower(f) == [LowerChar(c)] + Lower(x);
  }

  /** Joining capitalized fields: the first field, then '-' and the rest when there is
      more than one. */
  lemma JoinCapitalizeAll(xs: seq<string>)
    requires |xs| > 0
    ensures Join(CapitalizeAll(xs), '-') ==
      Capitalize(xs[0]) + (if |xs| == 1 then "" else "-" + Join(CapitalizeAll(xs[1..]), '-'))
  {
    var caps := CapitalizeAll(xs);
    if |xs| == 1 {
      assert Join(caps, '-') == caps[0];
      assert Capitalize(xs[0]) + "" == Capitalize(xs[0]);
    } else {
      assert caps[1..] == CapitalizeAll(xs[1..]);
      assert Join(caps, '-') == caps[0] + ['-'] + Join(caps[1..], '-');
    }
  }

  /** Splitting on `sep`, capitalizing every part and joining with '-' is `Recase`. */
  lemma CapitalizePartsIsRecase(s: string, sep: char)
    ensures Join(CapitalizeAll(Split(s, sep)), '-') == Recase(s, true, sep)
  {
    var fs := Split(s, sep);
    RecaseFields(s, true, sep);
    JoinCapitalizeAll(fs);
    assert FieldsCase(fs, true) == Join(CapitalizeAll(fs), '-');
  }

  /** Character `i` of `HeaderCase(s)`: upper-cased at the start and after each '-',
      lower-cased elsewhere; the length is that of `s`. */
  lemma HeaderCaseAt(s: string, i: nat)
    requires i < |s|
    ensures |HeaderCase(s)| == |s|
    ensures HeaderCase(s)[i] ==
      (if i == 0 || s[i - 1] == '-' then UpperChar(s[i]) else LowerChar(s[i]))
  {
    CapitalizePartsIsRecase(s, '-');
    RecaseAt(s, true, '-', i);
  }

  lemma HeaderCaseLength(s: string)
    ensures |HeaderCase(s)| == |s|
  {
    CapitalizePartsIsRecase(s, '-');
  }

  /** Header case depends only on the lower-cased string. */
  lemma HeaderCaseIgnoresCase(a: string, b: string)
    requires Lower(a) == Lower(b)
    ensures HeaderCase(a) == HeaderCase(b)
  {
    HeaderCaseLength(a);
    HeaderCaseLength(b);
    forall i | 0 <= i < |a|
      ensures HeaderCase(a)[i] == HeaderCase(b)[i]
    {
      HeaderCaseAt(a, i);
      HeaderCaseAt(b, i);
      assert Lower(a)[i] == Lower(b)[i];
      assert LowerChar(a[i]) == LowerChar(b[i]);
      if i > 0 {
        assert Lower(a)[i - 1] == Lower(b)[i - 1];
        assert LowerChar(a[i - 1]) == LowerChar(b[i - 1]);
      }
    }
  }

  /** Header case only changes the case of letters. */
  lemma HeaderCaseLower(s: string)
    ensures Lower(HeaderCase(s)) == Lower(s)
  {
    HeaderCaseLength(s);
    forall i | 0 <= i < |s|
      ensures Lower(HeaderCase(s))[i] == Lower(s)[i]
    {
      HeaderCaseAt(s, i);
    }
  }

  /** Header case is idempotent. */
  lemma HeaderCaseIdempotent(s: string)
    ensures HeaderCase(HeaderCase(s)) == HeaderCase(s)
  {
    var h := HeaderCase(s);
    HeaderCaseLength(s);
    HeaderCaseLength(h);
    forall i | 0 <= i < |s|
      ensures HeaderCase(h)[i] == h[i]
    {
      HeaderCaseAt(s, i);
      HeaderCaseAt(h, i);
      if i > 0 {
        HeaderCaseAt(s, i - 1);
      }
    }
  }

  lemma CapitalizeHasSep(x: string, c: char)
    requires !IsUpperLetter(c) && !IsLowerLetter(c)
    ensures c in Capitalize(x) <==> c in x
  {
    if c in x {
      var i :| 0 <= i < |x| && x[i] == c;
      CapitalizeAt(x, i);
    }
    if c in Capitalize(x) {
      var i :| 0 <= i < |x| && Capitalize(x)[i] == c;
      CapitalizeAt(x, i);
    }
  }

  lemma CapitalizeAt(x: string, i: nat)
    requires i < |x|
    ensures Capitalize(x)[i] == if i == 0 then UpperChar(x[0]) else LowerChar(x[i])
  {
    if i > 0 {
      var t := x[1..];
      assert Capitalize(x) == [UpperChar(x[0])] + Lower(t);
      assert t[i - 1] == x[i];
    }
  }

  /** Header case keeps the '-'-separated fields: it capitalizes each of them and
      neither adds nor removes a separator. */
  lemma HeaderCaseFields(s: string)
    ensures Split(HeaderCase(s), '-') == CapitalizeAll(Split(s, '-'))
    ensures |Split(HeaderCase(s), '-')| == |Split(s, '-')|
  {
    var fs := Split(s, '-');
    forall i | 0 <= i < |fs|
      ensures '-' !in CapitalizeAll(fs)[i]
    {
      CapitalizeHasSep(fs[i], '-');
    }
    SplitJoin(CapitalizeAll(fs), '-');
  }

  // ---------------------------------------------------------------- characters kept

  /** Lower-casing neither adds nor removes a character that is not a letter. */
  lemma LowerHasChar(s: string, c: char)
    requires !IsUpperLetter(c) && !IsLowerLetter(c)
    ensures c in Lower(s) <==> c in s
  {
    if c in s {
      var i :| 0 <= i < |s| && s[i] == c;
      assert Lower(s)[i] == c;
    }
    if c in Lower(s) {
      var i :| 0 <= i < |s| && Lower(s)[i] == c;
      assert s[i] == c;
    }
  }

  /** Stripping only removes characters. */
  lemma StripHasChar(s: string, c: char)
    ensures c in Strip(s) ==> c in s
  {
    var l := TrimLeft(s);
    var r := TrimRight(l);
    if c in r {
      var i :| 0 <= i < |r| && r[i] == c;
      assert l[i] == c;
      assert s[|s| - |l| + i] == c;
    }
  }

  /** Every character of a field of `Split(s, sep)` is a character of `s`. */
  lemma {:induction false} SplitHasChar(s: string, sep: char, i: nat, c: char)
    requires i < |Split(s, sep)|
    requires c in Split(s, sep)[i]
    ensures c in s
    decreases |s|
  {
    if |s| > 0 {
      var rest := Split(s[1..], sep);
      if s[0] == sep {
        SplitHasChar(s[1..], sep, i - 1, c);
      } else if i == 0 {
        if c != s[0] {
          assert c in rest[0];
          SplitHasChar(s[1..], sep, 0, c);
        }
      } else {
        SplitHasChar(s[1..], sep, i, c);
      }
    }
  }

  /** A character of `Join(xs, sep)` is the separator or a character of some item. */
  lemma {:induction false} JoinHasChar(xs: seq<string>, sep: char, c: char)
    requires c in Join(xs, sep)
    ensures c == sep || exists i :: 0 <= i < |xs| && c in xs[i]
    decreases |xs|
  {
    if |xs| > 1 {
      if c !in xs[0] && c != sep {
        assert c in Join(xs[1..], sep);
        JoinHasChar(xs[1..], sep, c);
        var i :| 0 <= i < |xs[1..]| && c in xs[1..][i];
        assert c in xs[i + 1];
      }
    }
  }

  /** Two strings equal up to case have their white space in the same places, so one
      is stripped exactly when the other is. */
  lemma StrippedUpToCase(r: string, s: string)
    requires Lower(r) == Lower(s)
    ensures IsStripped(r) <==> IsStripped(s)
  {
    assert |r| == |s|;
    forall i | 0 <= i < |s|
      ensures IsSpace(r[i]) <==> IsSpace(s[i])
    {
      assert Lower(r)[i] == Lower(s)[i];
    }
  }
}
