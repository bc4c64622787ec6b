/** The JavaScript string and number primitives the ledger relies on:
    `trim`, `split` and `join` with a non-empty separator, the rendering
    of an integer Number in a template literal, and `parseInt` with no
    radix argument. */
module JsText {

  /** A JavaScript Number as the ledger meets it: an integer or NaN.
      Fractions, infinities and the sign of zero are not part of this
      model (`-0` behaves as `0` under `==` and in template literals). */
  datatype Num = Int(i: int) | NaN

  const CRLF: string := "\r\n"
  const FieldSep: string := " | "

  /** WhiteSpace and LineTerminator code points of ECMAScript, the set
      that `trim` removes and `parseInt` skips. */
  predicate IsJsSpace(c: char) {
    || c == '\t' || c == '\n' || c == '\U{000B}' || c == '\U{000C}' || c == '\r'
    || c == ' ' || c == '\U{00A0}' || c == '\U{1680}'
    || ('\U{2000}' <= c <= '\U{200A}')
    || c == '\U{2028}' || c == '\U{2029}' || c == '\U{202F}' || c == '\U{205F}'
    || c == '\U{3000}' || c == '\U{FEFF}'
  }

  /** `s` with its leading white space removed. */
  function TrimStart(s: string): (r: string)
    ensures |r| <= |s| && r == s[|s| - |r|..]
    ensures forall i :: 0 <= i < |s| - |r| ==> IsJsSpace(s[i])
    ensures r != [] ==> !IsJsSpace(r[0])
    decreases |s|
  {
    if |s| > 0 && IsJsSpace(s[0]) then TrimStart(s[1..]) else s
  }

  /** `s` with its trailing white space removed. */
  function TrimEnd(s: string): (r: string)
    ensures |r| <= |s| && r == s[..|r|]
    ensures forall i :: |r| <= i < |s| ==> IsJsSpace(s[i])
    ensures r != [] ==> !IsJsSpace(r[|r| - 1])
    decreases |s|
  {
    if |s| > 0 && IsJsSpace(s[|s| - 1]) then
      var r := TrimEnd(s[..|s| - 1]);
      assert s[..|s| - 1][..|r|] == s[..|r|];
      r
    else s
  }

  /** String.prototype.trim: the result neither starts nor ends with
      white space, and a string that neither starts nor ends with white
      space is its own trim. */
  function Trim(s: string): (r: string)
    ensures |r| <= |s|
    ensures r != [] ==> !IsJsSpace(r[0]) && !IsJsSpace(r[|r| - 1])
    ensures (s != [] ==> !IsJsSpace(s[0]) && !IsJsSpace(s[|s| - 1])) ==> r == s
  {
    var t := TrimStart(s);
    var r := TrimEnd(t);
    assert r != [] ==> r[0] == t[0];
    r
  }

  /** `sep` occurs in `s` starting at position `j`. */
  predicate OccursAt(s: string, sep: string, j: nat) {
    j + |sep| <= |s| && forall m :: 0 <= m < |sep| ==> s[j + m] == sep[m]
  }

  /** String.prototype.indexOf: the first position at which `sep` occurs
      in `s`, searching from the left; `IndexOfFirst` states it. */
  function IndexOf(s: string, sep: string): (r: Option<nat>)
    requires |sep| > 0
    ensures r.Some? ==> r.value + |sep| <= |s|
    decreases |s|
  {
    if |s| < |sep| then None
    else if OccursAt(s, sep, 0) then Some(0)
    else
      match IndexOf(s[1..], sep)
      case None => None
      case Some(i) => Some(i + 1)
  }

  /** Past its first character, `s` holds `sep` where `s[1..]` does, one
      position on. */
  lemma OccursShifted(s: string, sep: string, j: nat)
    requires |s| > 0 && 1 <= j
    ensures OccursAt(s, sep, j) <==> OccursAt(s[1..], sep, j - 1)
  {
    assert forall m :: 0 <= m < |s| - 1 ==> s[1..][m] == s[m + 1];
  }

  /** `IndexOf` finds an occurrence, and no earlier one exists; None means
      `sep` occurs nowhere. */
  lemma {:induction false} IndexOfFirst(s: string, sep: string)
    requires |sep| > 0
    ensures IndexOf(s, sep).None? ==> forall j: nat :: !OccursAt(s, sep, j)
    ensures IndexOf(s, sep).Some? ==> OccursAt(s, sep, IndexOf(s, sep).value)
    ensures IndexOf(s, sep).Some? ==> forall j: nat :: j < IndexOf(s, sep).value ==> !OccursAt(s, sep, j)
    decreases |s|
  {
    if |s| >= |sep| && !OccursAt(s, sep, 0) {
      IndexOfFirst(s[1..], sep);
      forall j: nat | 1 <= j ensures OccursAt(s, sep, j) <==> OccursAt(s[1..], sep, j - 1) {
        OccursShifted(s, sep, j);
      }
    }
  }

  datatype Option<T> = None | Some(value: T)

  /** String.prototype.split with a non-empty string separator and no limit. */
  function Split(s: string, sep: string): (r: seq<string>)
    requires |sep| > 0
    ensures |r| > 0
    ensures Join(r, sep) == s
    decreases |s|
  {
    match IndexOf(s, sep)
    case None => [s]
    case Some(j) =>
      var rest := Split(s[j + |sep|..], sep);
      IndexOfFirst(s, sep);
      OccurrenceSplits(s, sep, j);
      JoinCons(s[..j], rest, sep);
      [s[..j]] + rest
  }

  /** An occurrence of `sep` at `j` cuts `s` into the text before it,
      `sep` and the text after it. */
  lemma OccurrenceSplits(s: string, sep: string, j: nat)
    requires OccursAt(s, sep, j)
    ensures s == s[..j] + sep + s[j + |sep|..]
  {
    assert s[j..j + |sep|] == sep;
    assert s == s[..j] + s[j..j + |sep|] + s[j + |sep|..];
  }

  /** Array.prototype.join over strings. */
  function Join(parts: seq<string>, sep: string): string
    decreases |parts|
  {
    if |parts| == 0 then ""
    else if |parts| == 1 then parts[0]
    else parts[0] + sep + Join(parts[1..], sep)
  }

  /** A join starts with the first part and ends with the last. */
  lemma {:induction false} JoinEnds(parts: seq<string>, sep: string)
    requires |parts| > 0
    ensures parts[0] <= Join(parts, sep)
    ensures var r := Join(parts, sep); var last := parts[|parts| - 1];
      |last| <= |r| && r[|r| - |last|..] == last
    decreases |parts|
  {
    if |parts| > 1 {
      JoinEnds(parts[1..], sep);
      assert parts[1..][|parts| - 2] == parts[|parts| - 1];
    }
  }

  /** Joining a first part onto at least one more. */
  lemma JoinCons(first: string, rest: seq<string>, sep: string)
    requires |rest| > 0
    ensures Join([first] + rest, sep) == first + sep + Join(rest, sep)
  {
    assert ([first] + rest)[1..] == rest;
  }

  /** `sep[k]` occurs in `sep` at position `k` only: every occurrence of
      `sep` in a joined string whose parts avoid that character lines up
      with one of the separators. */
  predicate Marker(sep: string, k: nat) {
    k < |sep| && forall m :: 0 <= m < |sep| && m != k ==> sep[m] != sep[k]
  }

  /** An occurrence of `sep` puts its marker character into `s`. */
  lemma OccurrenceHasMarker(s: string, sep: string, k: nat, j: nat)
    requires Marker(sep, k) && OccursAt(s, sep, j)
    ensures s[j + k] == sep[k]
  {
  }

  lemma IndexOfAbsent(p: string, sep: string, k: nat)
    requires |sep| > 0 && Marker(sep, k) && sep[k] !in p
    ensures IndexOf(p, sep) == None
  {
    IndexOfFirst(p, sep);
    if IndexOf(p, sep).Some? {
      OccurrenceHasMarker(p, sep, k, IndexOf(p, sep).value);
    }
  }

  lemma IndexOfFirstSeparator(p: string, sep: string, x: string, k: nat)
    requires |sep| > 0 && Marker(sep, k) && sep[k] !in p
    ensures IndexOf(p + sep + x, sep) == Some(|p|)
  {
    var s := p + sep + x;
    assert OccursAt(s, sep, |p|);
    forall j: nat | j < |p| ensures !OccursAt(s, sep, j) {
      if OccursAt(s, sep, j) {
        OccurrenceHasMarker(s, sep, k, j);
      }
    }
    IndexOfFirst(s, sep);
  }

  lemma SplitAtFirst(s: string, sep: string, j: nat)
    requires |sep| > 0 && IndexOf(s, sep) == Some(j)
    ensures j + |sep| <= |s| && Split(s, sep) == [s[..j]] + Split(s[j + |sep|..], sep)
  {
  }

  /** Splitting a join gives back the parts when no part holds the
      separator's marker character. */
  lemma {:induction false} SplitJoin(parts: seq<string>, sep: string, k: nat)
    requires |parts| > 0 && |sep| > 0 && Marker(sep, k)
    requires forall i :: 0 <= i < |parts| ==> sep[k] !in parts[i]
    ensures Split(Join(parts, sep), sep) == parts
    decreases |parts|
  {
    if |parts| == 1 {
      IndexOfAbsent(parts[0], sep, k);
    } else {
      var first := parts[0];
      var tail := parts[1..];
      var rest := Join(tail, sep);
      var s := first + sep + rest;
      assert Join(parts, sep) == s;
      IndexOfFirstSeparator(first, sep, rest, k);
      SplitAtFirst(s, sep, |first|);
      assert s[..|first|] == first;
      assert s[|first| + |sep|..] == rest;
      assert forall i :: 0 <= i < |tail| ==> tail[i] == parts[i + 1];
      SplitJoin(tail, sep, k);
      assert parts == [first] + tail;
    }
  }

  lemma CRLFMarker()
    ensures Marker(CRLF, 0)
  {
  }

  lemma FieldSepMarker()
    ensures Marker(FieldSep, 1)
  {
  }

  function DigitChar(d: nat): (c: char)
    requires d < 10
    ensures '0' <= c <= '9'
  {
    "0123456789"[d]
  }

  /** The value of a character as a digit in radix 36; 36 for a character
      that is a digit in no radix. */
  function DigitValue(c: char): (v: nat)
    ensures v <= 36
    ensures v < 10 <==> '0' <= c <= '9'
  {
    if '0' <= c <= '9' then (c as int) - ('0' as int)
    else if 'a' <= c <= 'z' then (c as int) - ('a' as int) + 10
    else if 'A' <= c <= 'Z' then (c as int) - ('A' as int) + 10
    else 36
  }

  lemma DigitCharValue(d: nat)
    requires d < 10
    ensures DigitValue(DigitChar(d)) == d
  {
    assert "0123456789"[d] as int == '0' as int + d by {
      assert d == 0 || d == 1 || d == 2 || d == 3 || d == 4 || d == 5 || d == 6 || d == 7 || d == 8 || d == 9;
    }
  }

  /** The decimal numeral of `n`, as Number::toString writes an integer. */
  function Decimal(n: nat): (r: string)
    ensures |r| > 0
    ensures forall i :: 0 <= i < |r| ==> '0' <= r[i] <= '9'
    ensures |r| > 1 ==> r[0] != '0'
  {
    if n < 10 then [DigitChar(n)] else Decimal(n / 10) + [DigitChar(n % 10)]
  }

  /** An integer Number rendered in a template literal. */
  function RenderInt(i: int): (r: string)
    ensures |r| > 0 && (r[0] == '-' || '0' <= r[0] <= '9')
  {
    if i < 0 then "-" + Decimal(-i) else Decimal(i)
  }

  /** `${n}` for a Number of this model. */
  function RenderNum(n: Num): (r: string)
    ensures |r| > 0 && !IsJsSpace(r[0]) && '|' !in r && '\r' !in r
  {
    match n
    case Int(i) => RenderInt(i)
    case NaN => "NaN"
  }

  /** The longest prefix of `s` made of digits of the given radix. */
  function LeadingDigits(s: string, radix: nat): (r: string)
    ensures |r| <= |s| && r == s[..|r|]
    ensures forall i :: 0 <= i < |r| ==> DigitValue(r[i]) < radix
    ensures |r| < |s| ==> DigitValue(s[|r|]) >= radix
  {
    if |s| > 0 && DigitValue(s[0]) < radix then [s[0]] + LeadingDigits(s[1..], radix) else []
  }

  /** The value of a run of digits, most significant first. */
  function DigitsValue(ds: string, radix: nat): nat
    decreases |ds|
  {
    if ds == [] then 0
    else DigitsValue(ds[..|ds| - 1], radix) * radix + DigitValue(ds[|ds| - 1])
  }

  /** The digits part of `parseInt` after the sign: a `0x`/`0X` prefix
      selects radix 16, then the longest run of digits is read; no digits
      at all is NaN. */
  function ParseMagnitude(u: string): (r: Option<nat>)
    ensures r.Some? ==> |u| > 0 && '0' <= u[0] <= '9'
  {
    var hex := |u| >= 2 && u[0] == '0' && (u[1] == 'x' || u[1] == 'X');
    var radix := if hex then 16 else 10;
    var digits := LeadingDigits(if hex then u[2..] else u, radix);
    if digits == [] then None else Some(DigitsValue(digits, radix))
  }

  /** The global `parseInt(s)` with no radix: skip leading white space,
      read an optional sign, then the magnitude. Rounding of values beyond
      2^53 is not part of this model. */
  function ParseInt(s: string): (r: Num)
    ensures r.Int? ==> var u := Unsigned(TrimStart(s)); |u| > 0 && '0' <= u[0] <= '9'
    ensures r.Int? && r.i < 0 ==> |TrimStart(s)| > 0 && TrimStart(s)[0] == '-'
  {
    var t := TrimStart(s);
    var sign: int := if |t| > 0 && t[0] == '-' then -1 else 1;
    match ParseMagnitude(Unsigned(t))
    case None => NaN
    case Some(m) => Int(sign * m)
  }

  /** The text after an optional leading sign. */
  function Unsigned(t: string): (u: string)
    ensures |u| <= |t| && u == t[|t| - |u|..]
  {
    if |t| > 0 && (t[0] == '-' || t[0] == '+') then t[1..] else t
  }

  /** A string with no decimal digit in it has no number in it. A `0x`
      prefix needs a `0`, so hexadecimal digits alone are not read. */
  lemma ParseNoDigits(s: string)
    requires forall i :: 0 <= i < |s| ==> !('0' <= s[i] <= '9')
    ensures ParseInt(s) == NaN
  {
    var u := Unsigned(TrimStart(s));
    assert |u| > 0 ==> u[0] == s[|s| - |u|];
  }

  lemma {:induction false} AllDigitsLeading(s: string, radix: nat)
    requires forall i :: 0 <= i < |s| ==> DigitValue(s[i]) < radix
    ensures LeadingDigits(s, radix) == s
    decreases |s|
  {
    if |s| > 0 {
      AllDigitsLeading(s[1..], radix);
    }
  }

  lemma {:induction false} DecimalValue(n: nat)
    ensures DigitsValue(Decimal(n), 10) == n
  {
    if n < 10 {
      DigitCharValue(n);
      assert [DigitChar(n)][..0] == [];
    } else {
      var d := Decimal(n);
      assert d[..|d| - 1] == Decimal(n / 10);
      DecimalValue(n / 10);
      DigitCharValue(n % 10);
    }
  }

  lemma DecimalMagnitude(n: nat)
    ensures ParseMagnitude(Decimal(n)) == Some(n)
  {
    var d := Decimal(n);
    forall i | 0 <= i < |d| ensures DigitValue(d[i]) < 10 {
    }
    AllDigitsLeading(d, 10);
    DecimalValue(n);
  }

  /** A numeral that starts with a digit is read by `parseInt` through
      its magnitude alone. */
  lemma ParseUnsigned(s: string)
    requires |s| > 0 && '0' <= s[0] <= '9'
    ensures ParseInt(s).Int? <==> ParseMagnitude(s).Some?
    ensures ParseMagnitude(s).Some? ==> ParseInt(s) == Int(ParseMagnitude(s).value)
  {
    assert !IsJsSpace(s[0]);
    assert TrimStart(s) == s;
  }

  lemma ParseNegative(d: string, m: nat)
    requires |d| > 0 && '0' <= d[0] <= '9' && ParseMagnitude(d) == Some(m)
    ensures ParseInt("-" + d) == Int(-(m as int))
  {
    var s := "-" + d;
    assert !IsJsSpace(s[0]);
    assert TrimStart(s) == s;
    assert s[1..] == d;
  }

  lemma ParseRenderedNonNegative(i: int)
    requires i >= 0
    ensures ParseInt(RenderInt(i)) == Int(i)
  {
    var d := Decimal(i);
    assert RenderInt(i) == d;
    DecimalMagnitude(i);
    ParseUnsigned(d);
  }

  lemma ParseNegatedDecimal(n: nat)
    ensures ParseInt("-" + Decimal(n)) == Int(-(n as int))
  {
    var d := Decimal(n);
    DecimalMagnitude(n);
    ParseNegative(d, n);
  }

  lemma ParseRenderedInt(i: int)
    ensures ParseInt(RenderInt(i)) == Int(i)
  {
    if i < 0 {
      var n: nat := -i;
      assert RenderInt(i) == "-" + Decimal(n);
      ParseNegatedDecimal(n);
    } else {
      ParseRenderedNonNegative(i);
    }
  }

  /** `parseInt` reads back every Number of this model as a template
      literal writes it, NaN included: an exported block index is read
      back as the same index. */
  lemma ParseRendered(n: Num)
    ensures ParseInt(RenderNum(n)) == n
  {
    match n
    case Int(i) => ParseRenderedInt(i);
    case NaN =>
      assert TrimStart("NaN") == "NaN";
      assert LeadingDigits("NaN", 10) == [];
  }
}
