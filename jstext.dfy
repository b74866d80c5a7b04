/**
  The handful of JavaScript string and number primitives that the upload
  pipeline and the dashboard aggregations rely on, with their ECMAScript
  semantics written out over exact arithmetic: white space as `trim` and the
  regular-expression class `\s` see it, ASCII case folding as the `/i` flag
  sees it, `parseInt`, `parseFloat`, `Math.round`, `Number.prototype.toFixed(1)`
  and the decimal rendering of an integer in a template string.
*/
module JsText {
  import opened Wrappers

  // ---------------------------------------------------------------------------
  // Character classes
  // ---------------------------------------------------------------------------

  /** WhiteSpace and LineTerminator of ECMAScript: what `trim`, `parseInt`, `parseFloat` and `\s` skip. */
  predicate IsSpace(c: char) {
    c == ' ' || c == '\t' || c == '\n' || c == '\r' || c == '\U{000B}' || c == '\U{000C}'
    || c == '\U{00A0}' || c == '\U{1680}' || ('\U{2000}' <= c <= '\U{200A}')
    || c == '\U{2028}' || c == '\U{2029}' || c == '\U{202F}' || c == '\U{205F}'
    || c == '\U{3000}' || c == '\U{FEFF}'
  }

  /** The regular-expression class `\d`. */
  predicate IsDigit(c: char) { '0' <= c <= '9' }

  predicate IsAsciiLetter(c: char) { 'a' <= c <= 'z' || 'A' <= c <= 'Z' }

  /** The regular-expression class `\w` (no `u` flag): ASCII letters, digits and `_`. */
  predicate IsWordChar(c: char) { IsAsciiLetter(c) || IsDigit(c) || c == '_' }

  predicate AllDigits(s: string) { forall i :: 0 <= i < |s| ==> IsDigit(s[i]) }

  predicate IsBlank(s: string) { forall i :: 0 <= i < |s| ==> IsSpace(s[i]) }

  /** ASCII lower-casing, the case folding the `/i` flag applies to the source's ASCII patterns. */
  function LowerChar(c: char): (r: char)
    ensures IsAsciiLetter(c) <==> IsAsciiLetter(r)
    ensures !IsAsciiLetter(c) ==> r == c
    ensures 'A' <= c <= 'Z' ==> 'a' <= r <= 'z'
  {
    if 'A' <= c <= 'Z' then (c as int + 32) as char else c
  }

  function Lower(s: string): (r: string)
    ensures |r| == |s|
    ensures forall i :: 0 <= i < |s| ==> r[i] == LowerChar(s[i])
  {
    if s == [] then [] else [LowerChar(s[0])] + Lower(s[1..])
  }

  // ---------------------------------------------------------------------------
  // Trimming and simple searches
  // ---------------------------------------------------------------------------

  /** `trimStart`: drops the leading white space and nothing else. */
  function TrimStart(s: string): (r: string)
    ensures |r| <= |s| && r == s[|s| - |r|..]
    ensures r == [] || !IsSpace(r[0])
    ensures IsBlank(s[..|s| - |r|])
  {
    if |s| > 0 && IsSpace(s[0]) then TrimStart(s[1..]) else s
  }

  /** `trimEnd`: drops the trailing white space and nothing else. */
  function TrimEnd(s: string): (r: string)
    ensures |r| <= |s| && r == s[..|r|]
    ensures r == [] || !IsSpace(r[|r| - 1])
    ensures IsBlank(s[|r|..])
  {
    if |s| > 0 && IsSpace(s[|s| - 1]) then
      var r := TrimEnd(s[..|s| - 1]);
      assert s[|r|..] == s[..|s| - 1][|r|..] + [s[|s| - 1]];
      r
    else s
  }

  /** `String.prototype.trim`. */
  function Trim(s: string): string {
    TrimEnd(TrimStart(s))
  }

  /** A string trims to nothing exactly when it is all white space. */
  lemma TrimEmptyIffBlank(s: string)
    ensures Trim(s) == [] <==> IsBlank(s)
  {
    var t := TrimStart(s);
    var r := TrimEnd(t);
    assert IsBlank(s[..|s| - |t|]);
    assert t == [] ==> s[..|s| - |t|] == s;
    assert IsBlank(t[|r|..]);
    assert r == [] ==> t[|r|..] == t;
    assert t != [] ==> !IsSpace(s[|s| - |t|]) && s[|s| - |t|] == t[0];
  }

  /** The trimmed string has no white space at either end. */
  lemma TrimHasNoOuterSpace(s: string)
    ensures Trim(s) == [] || (!IsSpace(Trim(s)[0]) && !IsSpace(Trim(s)[|Trim(s)| - 1]))
  {
    var t := TrimStart(s);
    var r := TrimEnd(t);
    if r != [] {
      assert r == t[..|r|];
      assert r[0] == t[0];
    }
  }

  /** `s.includes(c)` for one character. */
  predicate Has(s: string, c: char) { c in s }

  /** `s.lastIndexOf(c)`, -1 when absent. */
  function LastIndexOf(s: string, c: char): (r: int)
    ensures -1 <= r < |s|
    ensures r >= 0 ==> s[r] == c
    ensures forall i :: r < i < |s| ==> s[i] != c
    ensures r == -1 <==> c !in s
  {
    if s == [] then -1
    else if s[|s| - 1] == c then |s| - 1
    else LastIndexOf(s[..|s| - 1], c)
  }

  /** The characters of `s` that satisfy `keep`, in order (`replace(/[^…]/g, '')`). */
  function FilterChars(s: string, keep: char -> bool): (r: string)
    ensures |r| <= |s|
    ensures forall i :: 0 <= i < |r| ==> keep(r[i])
    ensures forall c :: c in r <==> c in s && keep(c)
  {
    if s == [] then [] else (if keep(s[0]) then [s[0]] else []) + FilterChars(s[1..], keep)
  }

  /** The digits of `s` in order: `replace(/[.,]/g, '')` on a string of digits, dots and commas. */
  function DigitsOf(s: string): (r: string)
    ensures AllDigits(r)
    ensures AllDigits(s) ==> r == s
  {
    if s == [] then [] else (if IsDigit(s[0]) then [s[0]] else []) + DigitsOf(s[1..])
  }

  lemma {:induction false} DigitsOfConcat(a: string, b: string)
    ensures DigitsOf(a + b) == DigitsOf(a) + DigitsOf(b)
  {
    if a == [] {
      assert a + b == b;
    } else {
      var h := if IsDigit(a[0]) then [a[0]] else [];
      assert (a + b)[0] == a[0] && (a + b)[1..] == a[1..] + b;
      assert DigitsOf(a + b) == h + DigitsOf(a[1..] + b);
      DigitsOfConcat(a[1..], b);
      assert h + (DigitsOf(a[1..]) + DigitsOf(b)) == (h + DigitsOf(a[1..])) + DigitsOf(b);
    }
  }

  /** `s.split(c)[0]`: the text before the first `c` (all of `s` when there is none). */
  function BeforeFirst(s: string, c: char): (r: string)
    ensures |r| <= |s| && r == s[..|r|]
    ensures c !in r
    ensures |r| < |s| ==> s[|r|] == c
  {
    if s == [] || s[0] == c then [] else [s[0]] + BeforeFirst(s[1..], c)
  }

  /** The text after the first `c` (empty when there is none). */
  function AfterFirst(s: string, c: char): (r: string)
    ensures |r| <= |s|
    ensures c in s ==> s == BeforeFirst(s, c) + [c] + r
    ensures c !in s ==> r == []
  {
    if s == [] then []
    else if s[0] == c then s[1..]
    else
      var r := AfterFirst(s[1..], c);
      ConsAfterFirst(s, c, r);
      r
  }

  /** A character other than `c` in front of the text: the split at the first `c` keeps it in front. */
  lemma ConsAfterFirst(s: string, c: char, r: string)
    requires s != [] && s[0] != c
    requires c in s[1..] ==> s[1..] == BeforeFirst(s[1..], c) + [c] + r
    ensures c in s ==> s == BeforeFirst(s, c) + [c] + r
  {
    if c in s {
      assert c in s[1..] by { assert s == [s[0]] + s[1..]; }
      var b := BeforeFirst(s[1..], c);
      assert BeforeFirst(s, c) == [s[0]] + b;
      assert s == [s[0]] + s[1..];
      assert [s[0]] + (b + [c] + r) == [s[0]] + b + [c] + r;
    }
  }

  /** `s.split(c).pop()`: the text after the last `c` (all of `s` when there is none). */
  function AfterLast(s: string, c: char): (r: string)
    ensures |r| <= |s| && r == s[|s| - |r|..]
    ensures c !in r
    ensures |r| < |s| ==> s[|s| - |r| - 1] == c
  {
    if s == [] || s[|s| - 1] == c then [] else AfterLast(s[..|s| - 1], c) + [s[|s| - 1]]
  }

  /** Splitting `x c rest` at its first `c`, when `x` has none, gives back `x` and `rest`. */
  lemma {:induction false} SplitAtFirst(x: string, c: char, rest: string)
    requires c !in x
    ensures BeforeFirst(x + [c] + rest, c) == x
    ensures AfterFirst(x + [c] + rest, c) == rest
  {
    if x == [] {
      assert x + [c] + rest == [c] + rest;
    } else {
      assert (x + [c] + rest)[1..] == x[1..] + [c] + rest;
      SplitAtFirst(x[1..], c, rest);
    }
  }

  /** The text after the last `c` of `x c tail`, when `tail` has none, is `tail`. */
  lemma {:induction false} SplitAtLast(x: string, c: char, tail: string)
    requires c !in tail
    ensures AfterLast(x + [c] + tail, c) == tail
    decreases |tail|
  {
    var s := x + [c] + tail;
    if tail == [] {
      assert s[|s| - 1] == c;
    } else {
      assert s[..|s| - 1] == x + [c] + tail[..|tail| - 1];
      assert s[|s| - 1] == tail[|tail| - 1];
      SplitAtLast(x, c, tail[..|tail| - 1]);
      assert tail == tail[..|tail| - 1] + [tail[|tail| - 1]];
    }
  }

  /** `s.replace(new RegExp(c, 'g'), '')` for one character. */
  function RemoveChar(s: string, c: char): (r: string)
    ensures c !in r
    ensures forall d :: d != c ==> (d in r <==> d in s)
  {
    if s == [] then [] else (if s[0] == c then [] else [s[0]]) + RemoveChar(s[1..], c)
  }

  lemma {:induction false} FilterCharsConcat(a: string, b: string, keep: char -> bool)
    ensures FilterChars(a + b, keep) == FilterChars(a, keep) + FilterChars(b, keep)
  {
    if a == [] {
      assert a + b == b;
    } else {
      assert (a + b)[1..] == a[1..] + b;
      FilterCharsConcat(a[1..], b, keep);
    }
  }

  /** A filter that drops white space does not see the trimming. */
  lemma FilterCharsOfTrim(s: string, keep: char -> bool)
    requires forall c :: IsSpace(c) ==> !keep(c)
    ensures FilterChars(Trim(s), keep) == FilterChars(s, keep)
  {
    FilterCharsOfTrimStart(s, keep);
    FilterCharsOfTrimEnd(TrimStart(s), keep);
  }

  lemma FilterCharsOfTrimStart(s: string, keep: char -> bool)
    requires forall c :: IsSpace(c) ==> !keep(c)
    ensures FilterChars(TrimStart(s), keep) == FilterChars(s, keep)
  {
    var t := TrimStart(s);
    var pre := s[..|s| - |t|];
    assert s == pre + t;
    FilterCharsConcat(pre, t, keep);
    FilterCharsOfBlank(pre, keep);
  }

  lemma FilterCharsOfTrimEnd(t: string, keep: char -> bool)
    requires forall c :: IsSpace(c) ==> !keep(c)
    ensures FilterChars(TrimEnd(t), keep) == FilterChars(t, keep)
  {
    var r := TrimEnd(t);
    var post := t[|r|..];
    assert t == r + post;
    FilterCharsConcat(r, post, keep);
    FilterCharsOfBlank(post, keep);
  }

  lemma {:induction false} FilterCharsOfBlank(s: string, keep: char -> bool)
    requires forall c :: IsSpace(c) ==> !keep(c)
    requires IsBlank(s)
    ensures FilterChars(s, keep) == []
  {
    if s != [] { FilterCharsOfBlank(s[1..], keep); }
  }

  /** Removing a character before or after a filter that keeps it gives the same text. */
  lemma {:induction false} RemoveCharFilterChars(s: string, c: char, keep: char -> bool)
    ensures FilterChars(RemoveChar(s, c), keep) == RemoveChar(FilterChars(s, keep), c)
  {
    if s != [] {
      var head := if s[0] == c then [] else [s[0]];
      assert RemoveChar(s, c) == head + RemoveChar(s[1..], c);
      FilterCharsConcat(head, RemoveChar(s[1..], c), keep);
      var kept := if keep(s[0]) then [s[0]] else [];
      assert FilterChars(s, keep) == kept + FilterChars(s[1..], keep);
      RemoveCharConcat(kept, FilterChars(s[1..], keep), c);
      RemoveCharFilterChars(s[1..], c, keep);
    }
  }

  lemma {:induction false} RemoveCharConcat(a: string, b: string, c: char)
    ensures RemoveChar(a + b, c) == RemoveChar(a, c) + RemoveChar(b, c)
  {
    if a == [] {
      assert a + b == b;
    } else {
      assert (a + b)[1..] == a[1..] + b;
      RemoveCharConcat(a[1..], b, c);
    }
  }

  /** Removing a character that is not there changes nothing. */
  lemma {:induction false} RemoveAbsentChar(s: string, c: char)
    requires c !in s
    ensures RemoveChar(s, c) == s
  {
    if s != [] {
      assert s == [s[0]] + s[1..];
      RemoveAbsentChar(s[1..], c);
    }
  }

  /** A filter that keeps every character of `s` returns `s`. */
  lemma {:induction false} FilterCharsKeepsAll(s: string, keep: char -> bool)
    requires forall i :: 0 <= i < |s| ==> keep(s[i])
    ensures FilterChars(s, keep) == s
  {
    if s != [] {
      assert s == [s[0]] + s[1..];
      FilterCharsKeepsAll(s[1..], keep);
    }
  }

  /** `s.split(c)`: the pieces between the occurrences of `c`, in order. */
  function Split(s: string, c: char): (parts: seq<string>)
    ensures parts != [] && parts[0] == BeforeFirst(s, c)
    ensures forall k :: 0 <= k < |parts| ==> c !in parts[k]
    ensures c !in s <==> |parts| == 1
    decreases |s|
  {
    if c !in s then [s] else [BeforeFirst(s, c)] + Split(AfterFirst(s, c), c)
  }

  /** `parts.join('')`. */
  function Join(parts: seq<string>): string {
    if parts == [] then [] else parts[0] + Join(parts[1..])
  }

  /** Splitting at `c` and joining again without a separator removes every `c`. */
  lemma {:induction false} JoinSplit(s: string, c: char)
    ensures Join(Split(s, c)) == RemoveChar(s, c)
    decreases |s|
  {
    if c !in s {
      RemoveAbsentChar(s, c);
    } else {
      var b := BeforeFirst(s, c);
      var a := AfterFirst(s, c);
      var rest := Split(a, c);
      assert Split(s, c) == [b] + rest;
      assert Join([b] + rest) == b + Join(rest) by { assert ([b] + rest)[1..] == rest; }
      JoinSplit(a, c);
      RemoveRemovedAfter(b, c, a);
    }
  }

  lemma RemoveRemovedAfter(b: string, c: char, a: string)
    requires c !in b
    ensures RemoveChar(b + [c] + a, c) == b + RemoveChar(a, c)
  {
    var bc := b + [c];
    RemoveCharConcat(bc, a, c);
    RemoveCharConcat(b, [c], c);
    RemoveAbsentChar(b, c);
    RemoveOnlyChar(c);
    assert RemoveChar(bc, c) == b;
  }

  lemma RemoveOnlyChar(c: char)
    ensures RemoveChar([c], c) == []
  {
    assert [c][1..] == [];
  }

  /** The pieces after the first are the pieces of the text after the first `c`. */
  lemma SplitTail(s: string, c: char)
    requires c in s
    ensures Split(s, c)[1..] == Split(AfterFirst(s, c), c)
  {
  }

  // ---------------------------------------------------------------------------
  // Digit strings and their values
  // ---------------------------------------------------------------------------

  function DigitValue(c: char): (d: nat)
    requires IsDigit(c)
    ensures d < 10
  {
    c as int - '0' as int
  }

  /** The value of a decimal digit string, most significant digit first. */
  function DecimalValue(ds: string): nat
    requires AllDigits(ds)
  {
    if ds == [] then 0 else DecimalValue(ds[..|ds| - 1]) * 10 + DigitValue(ds[|ds| - 1])
  }

  function Pow10(n: nat): (p: nat)
    ensures p >= 1
  {
    if n == 0 then 1 else 10 * Pow10(n - 1)
  }

  /** The value of the digits written after a decimal point: `0.ds`. */
  function FractionValue(ds: string): (v: real)
    requires AllDigits(ds)
    ensures 0.0 <= v < 1.0
    ensures ds == [] ==> v == 0.0
  {
    if ds == [] then 0.0 else (DigitValue(ds[0]) as real + FractionValue(ds[1..])) / 10.0
  }

  /** Writing digits after others shifts the first ones by a power of ten: the value of `20` + `yy` is 2000 + `yy`. */
  lemma {:induction false} DecimalValueConcat(a: string, b: string)
    requires AllDigits(a) && AllDigits(b)
    ensures DecimalValue(a + b) == DecimalValue(a) * Pow10(|b|) + DecimalValue(b)
  {
    if b == [] {
      assert a + b == a;
    } else {
      var ab := a + b;
      var b' := b[..|b| - 1];
      assert ab[..|ab| - 1] == a + b';
      assert ab[|ab| - 1] == b[|b| - 1];
      DecimalValueConcat(a, b');
      ShiftDigit(DecimalValue(a), Pow10(|b'|), DecimalValue(b'), DigitValue(b[|b| - 1]));
    }
  }

  lemma ShiftDigit(x: int, p: int, y: int, d: int)
    ensures (x * p + y) * 10 + d == x * (10 * p) + (y * 10 + d)
  {
  }

  /** The longest prefix of `s` made of decimal digits. */
  function LeadingDigits(s: string): (r: string)
    ensures AllDigits(r) && |r| <= |s| && r == s[..|r|]
    ensures |r| < |s| ==> !IsDigit(s[|r|])
  {
    if s == [] || !IsDigit(s[0]) then [] else [s[0]] + LeadingDigits(s[1..])
  }

  predicate IsHexDigit(c: char) { IsDigit(c) || 'a' <= c <= 'f' || 'A' <= c <= 'F' }

  function HexDigitValue(c: char): (d: nat)
    requires IsHexDigit(c)
    ensures d < 16
  {
    if IsDigit(c) then DigitValue(c)
    else if 'a' <= c <= 'f' then c as int - 'a' as int + 10
    else c as int - 'A' as int + 10
  }

  /** The longest prefix of `s` made of hexadecimal digits. */
  function LeadingHexDigits(s: string): (r: string)
    ensures |r| <= |s| && r == s[..|r|]
    ensures forall i :: 0 <= i < |r| ==> IsHexDigit(r[i])
  {
    if s == [] || !IsHexDigit(s[0]) then [] else [s[0]] + LeadingHexDigits(s[1..])
  }

  function HexValue(ds: string): nat
    requires forall i :: 0 <= i < |ds| ==> IsHexDigit(ds[i])
  {
    if ds == [] then 0 else HexValue(ds[..|ds| - 1]) * 16 + HexDigitValue(ds[|ds| - 1])
  }

  // ---------------------------------------------------------------------------
  // parseInt, parseFloat, Math.round
  // ---------------------------------------------------------------------------

  /**
    `parseInt(s)` with no radix: leading white space is skipped, one sign is
    read, a `0x`/`0X` prefix switches to base 16, and the longest run of digits
    that follows is the value. `None` is NaN (no digit at all).
  */
  function ParseInt(s: string): Option<int> {
    var t := TrimStart(s);
    if |t| > 0 && (t[0] == '-' || t[0] == '+') then ReadRadixInteger(t[1..], t[0] == '-')
    else ReadRadixInteger(t, false)
  }

  predicate IsHexPrefixed(u: string) {
    |u| >= 2 && u[0] == '0' && (u[1] == 'x' || u[1] == 'X')
  }

  /** The unsigned digits after the sign: base 16 after `0x`/`0X`, base 10 otherwise. */
  function ReadRadixInteger(u: string, negative: bool): Option<int> {
    if IsHexPrefixed(u) then
      var ds := LeadingHexDigits(u[2..]);
      if ds == [] then None
      else Some(if negative then -(HexValue(ds) as int) else HexValue(ds))
    else
      var ds := LeadingDigits(u);
      if ds == [] then None
      else Some(if negative then -(DecimalValue(ds) as int) else DecimalValue(ds))
  }

  /** `parseInt` reads a plain run of decimal digits as its decimal value. */
  lemma ParseIntDigits(ds: string)
    requires ds != [] && AllDigits(ds)
    ensures ParseInt(ds) == Some(DecimalValue(ds))
  {
    TrimStartOfNonSpace(ds);
    assert !IsHexPrefixed(ds);
    LeadingDigitsOfDigits(ds);
  }

  lemma {:induction false} LeadingDigitsOfDigits(ds: string)
    requires AllDigits(ds)
    ensures LeadingDigits(ds) == ds
  {
    if ds != [] { LeadingDigitsOfDigits(ds[1..]); }
  }

  /** `x * 10^e` for an exponent of either sign. */
  function Scale(x: real, e: int): real
    decreases if e < 0 then -e else e
  {
    if e == 0 then x
    else if e > 0 then Scale(x * 10.0, e - 1)
    else Scale(x / 10.0, e + 1)
  }

  /** The exponent written at the head of `s` (`e5`, `E-3`), 0 when none is there. */
  function ExponentOf(s: string): int {
    if |s| >= 2 && (s[0] == 'e' || s[0] == 'E') then
      var signed := s[1] == '-' || s[1] == '+';
      var ds := LeadingDigits(if signed then s[2..] else s[1..]);
      if ds == [] then 0 else if s[1] == '-' then -(DecimalValue(ds) as int) else DecimalValue(ds)
    else 0
  }

  /**
    `parseFloat(s)` when it is finite, `None` when it is NaN or infinite.
    After white space and one sign, the longest prefix of the form
    `digits [. digits] [e[sign]digits]` with at least one mantissa digit is
    read exactly; `Infinity` is the non-finite literal. Binary rounding and
    overflow of large literals are not modelled (values are exact reals).
  */
  function ParseFloat(s: string): (r: Option<real>) {
    ReadSigned(TrimStart(s))
  }

  /** The literal at the head of `t`, after at most one sign. */
  function ReadSigned(t: string): Option<real> {
    if t == [] || (t[0] != '-' && t[0] != '+') then ReadUnsigned(t)
    else
      match ReadUnsigned(t[1..])
      case None => None
      case Some(m) => Some(if t[0] == '-' then -m else m)
  }

  /** The unsigned literal `parseFloat` reads at the head of `u`; `None` for NaN and `Infinity`. */
  function ReadUnsigned(u: string): Option<real> {
    if StartsWithInfinity(u) then None
    else
      var ip := LeadingDigits(u);
      ReadAfterDigits(ip, u[|ip|..])
  }

  predicate StartsWithInfinity(u: string) {
    |u| >= 8 && u[..8] == "Infinity"
  }

  /** The literal made of the integer digits `ip` and whatever follows them, `rest`. */
  function ReadAfterDigits(ip: string, rest: string): Option<real>
    requires AllDigits(ip)
  {
    if |rest| > 0 && rest[0] == '.' then
      var fp := LeadingDigits(rest[1..]);
      if ip == [] && fp == [] then None
      else Some(Scale(DecimalValue(ip) as real + FractionValue(fp), ExponentOf(rest[1 + |fp|..])))
    else if ip == [] then None
    else Some(Scale(DecimalValue(ip) as real, ExponentOf(rest)))
  }

  /** Scaling by a power of ten keeps a value non-negative. */
  lemma {:induction false} ScaleNonNegative(x: real, e: int)
    requires x >= 0.0
    ensures Scale(x, e) >= 0.0
    decreases if e < 0 then -e else e
  {
    if e > 0 {
      ScaleNonNegative(x * 10.0, e - 1);
    } else if e < 0 {
      ScaleNonNegative(x / 10.0, e + 1);
    }
  }

  lemma ReadAfterDigitsNonNegative(ip: string, rest: string)
    requires AllDigits(ip)
    ensures ReadAfterDigits(ip, rest).Some? ==> ReadAfterDigits(ip, rest).value >= 0.0
  {
    if |rest| > 0 && rest[0] == '.' {
      var fp := LeadingDigits(rest[1..]);
      ScaleNonNegative(DecimalValue(ip) as real + FractionValue(fp), ExponentOf(rest[1 + |fp|..]));
    } else {
      ScaleNonNegative(DecimalValue(ip) as real, ExponentOf(rest));
    }
  }

  lemma ReadUnsignedNonNegative(u: string)
    ensures ReadUnsigned(u).Some? ==> ReadUnsigned(u).value >= 0.0
  {
    if !StartsWithInfinity(u) {
      var ip := LeadingDigits(u);
      ReadAfterDigitsNonNegative(ip, u[|ip|..]);
    }
  }

  /** Without a minus sign `parseFloat` reads no negative number. */
  lemma ParseFloatNonNegative(s: string)
    requires '-' !in s
    ensures ParseFloat(s).Some? ==> ParseFloat(s).value >= 0.0
  {
    var t := TrimStart(s);
    if t != [] {
      assert t[0] == s[|s| - |t|];
      ReadUnsignedNonNegative(t[1..]);
    }
    ReadUnsignedNonNegative(t);
  }

  /** `parseFloat('')` is NaN. */
  lemma ParseFloatOfEmpty()
    ensures ParseFloat([]) == None
  {
    assert TrimStart([]) == [];
    assert LeadingDigits([]) == [];
  }

  /** A string that starts with a digit is read by `parseFloat` from its first character. */
  lemma ParseFloatFromDigit(s: string)
    requires s != [] && IsDigit(s[0])
    ensures ParseFloat(s) == ReadUnsigned(s)
  {
    TrimStartOfNonSpace(s);
  }

  lemma TrimStartOfNonSpace(s: string)
    requires s == [] || !IsSpace(s[0])
    ensures TrimStart(s) == s
  {
  }

  lemma TrimEndOfNonSpace(s: string)
    requires s == [] || !IsSpace(s[|s| - 1])
    ensures TrimEnd(s) == s
  {
  }

  /** Text with no white space at either end is its own trim. */
  lemma TrimOfNonSpaceEnds(s: string)
    requires s == [] || (!IsSpace(s[0]) && !IsSpace(s[|s| - 1]))
    ensures Trim(s) == s
  {
    TrimStartOfNonSpace(s);
    TrimEndOfNonSpace(s);
  }

  lemma TrimStartOfSpace(s: string)
    requires s != [] && IsSpace(s[0])
    ensures |TrimStart(s)| < |s|
  {
    assert TrimStart(s) == TrimStart(s[1..]);
  }

  /** `parseFloat` of a non-empty digit string is its decimal value. */
  lemma ParseFloatInteger(ip: string)
    requires ip != [] && AllDigits(ip)
    ensures ParseFloat(ip) == Some(DecimalValue(ip) as real)
  {
    ParseFloatFromDigit(ip);
    assert ip + [] == ip;
    ReadUnsignedSplit(ip, []);
    assert ExponentOf([]) == 0;
    assert Scale(DecimalValue(ip) as real, 0) == DecimalValue(ip) as real;
  }

  /** `parseFloat` of `int.frac` (plain digit strings, `int` non-empty) is `int + 0.frac`. */
  lemma ParseFloatDecimal(ip: string, fp: string)
    requires ip != [] && AllDigits(ip) && AllDigits(fp)
    ensures ParseFloat(ip + ("." + fp)) == Some(DecimalValue(ip) as real + FractionValue(fp))
  {
    ParseFloatFromDigit(ip + ("." + fp));
    ReadUnsignedSplit(ip, "." + fp);
    ReadFraction(ip, fp);
  }

  /**
    `parseFloat` stops at the first character that cannot continue the
    literal: after `int.frac` anything but a digit or an exponent is ignored.
  */
  lemma ParseFloatDecimalPrefix(ip: string, fp: string, rest: string)
    requires ip != [] && AllDigits(ip) && AllDigits(fp)
    requires rest == [] || (!IsDigit(rest[0]) && rest[0] != 'e' && rest[0] != 'E')
    ensures ParseFloat(ip + ['.'] + fp + rest) == Some(DecimalValue(ip) as real + FractionValue(fp))
  {
    var tail := ['.'] + fp + rest;
    assert ip + ['.'] + fp + rest == ip + tail;
    ParseFloatFromDigit(ip + tail);
    ReadUnsignedSplit(ip, tail);
    ReadFractionThen(ip, fp, rest);
  }

  lemma ReadFractionThen(ip: string, fp: string, rest: string)
    requires ip != [] && AllDigits(ip) && AllDigits(fp)
    requires rest == [] || (!IsDigit(rest[0]) && rest[0] != 'e' && rest[0] != 'E')
    ensures ReadAfterDigits(ip, ['.'] + fp + rest) == Some(DecimalValue(ip) as real + FractionValue(fp))
  {
    var tail := ['.'] + fp + rest;
    PointTail(fp, rest);
    LeadingDigitsStops(fp, rest);
    NoExponent(rest);
    ReadAfterPoint(ip, tail, fp, rest);
  }

  /** The case of `ReadAfterDigits` where a point and digits follow the integer digits, and no exponent. */
  lemma ReadAfterPoint(ip: string, rest: string, fp: string, after: string)
    requires ip != [] && AllDigits(ip)
    requires |rest| > 0 && rest[0] == '.'
    requires LeadingDigits(rest[1..]) == fp && rest[1 + |fp|..] == after
    requires ExponentOf(after) == 0
    ensures ReadAfterDigits(ip, rest) == Some(DecimalValue(ip) as real + FractionValue(fp))
  {
    ScaleByZero(DecimalValue(ip) as real + FractionValue(fp));
  }

  lemma PointTail(fp: string, rest: string)
    ensures (['.'] + fp + rest)[1..] == fp + rest
    ensures (['.'] + fp + rest)[1 + |fp|..] == rest
  {
  }

  lemma ScaleByZero(x: real)
    ensures Scale(x, 0) == x
  {
  }

  lemma NoExponent(rest: string)
    requires rest == [] || (rest[0] != 'e' && rest[0] != 'E')
    ensures ExponentOf(rest) == 0
  {
  }

  /** Integer digits followed by something that is not a digit are read as the integer part. */
  lemma ReadUnsignedSplit(ip: string, rest: string)
    requires ip != [] && AllDigits(ip)
    requires rest == [] || !IsDigit(rest[0])
    ensures ReadUnsigned(ip + rest) == ReadAfterDigits(ip, rest)
  {
    var s := ip + rest;
    assert s[0] == ip[0];
    LeadingDigitsStops(ip, rest);
    assert s[|ip|..] == rest;
  }

  lemma ReadFraction(ip: string, fp: string)
    requires AllDigits(ip) && AllDigits(fp) && ip != []
    ensures ReadAfterDigits(ip, "." + fp) == Some(DecimalValue(ip) as real + FractionValue(fp))
  {
    var rest := "." + fp;
    LeadingDigitsOfDigits(fp);
    assert rest[1..] == fp;
    assert rest[1 + |fp|..] == [];
    assert ExponentOf([]) == 0;
    var m := DecimalValue(ip) as real + FractionValue(fp);
    assert Scale(m, 0) == m;
  }

  lemma {:induction false} LeadingDigitsStops(ds: string, rest: string)
    requires AllDigits(ds)
    requires rest == [] || !IsDigit(rest[0])
    ensures LeadingDigits(ds + rest) == ds
  {
    if ds == [] {
      assert ds + rest == rest;
    } else {
      assert (ds + rest)[1..] == ds[1..] + rest;
      LeadingDigitsStops(ds[1..], rest);
    }
  }

  /** `Math.round`: the nearest integer, halves rounded towards +infinity. */
  function Round(x: real): (n: int)
    ensures n as real - 0.5 <= x < n as real + 0.5
  {
    (x + 0.5).Floor
  }

  /** `Math.round(x * 10) / 10`: one decimal place, as the dashboards show percentages. */
  function RoundTenth(x: real): real {
    Round(x * 10.0) as real / 10.0
  }

  // ---------------------------------------------------------------------------
  // Rendering numbers as text
  // ---------------------------------------------------------------------------

  function DigitChar(d: nat): (c: char)
    requires d < 10
    ensures IsDigit(c) && DigitValue(c) == d
  {
    ('0' as int + d) as char
  }

  /** The decimal digits of `n`, no leading zeros (`"0"` for zero). */
  function NatToString(n: nat): (s: string)
    ensures s != [] && AllDigits(s)
    ensures DecimalValue(s) == n
    ensures s[0] != '0' || n == 0
    decreases n
  {
    if n < 10 then [DigitChar(n)]
    else
      var s := NatToString(n / 10) + [DigitChar(n % 10)];
      assert s[..|s| - 1] == NatToString(n / 10);
      s
  }

  /** `${n}` for an integer `n`. */
  function IntToString(n: int): (s: string)
    ensures s != []
    ensures n < 0 <==> s[0] == '-'
  {
    if n < 0 then "-" + NatToString(-n) else NatToString(n)
  }

  /** `parseInt` reads the decimal rendering of any integer back as that integer. */
  lemma ParseIntOfIntToString(n: int)
    ensures ParseInt(IntToString(n)) == Some(n)
  {
    if n < 0 {
      var ds := NatToString(-n);
      var t := IntToString(n);
      TrimStartOfNonSpace(t);
      assert t[1..] == ds;
      assert !IsHexPrefixed(ds);
      LeadingDigitsOfDigits(ds);
    } else {
      ParseIntDigits(NatToString(n));
    }
  }

  /** Decimal rendering is injective on integers, so `${n}`-keyed maps key by the number. */
  lemma IntToStringInjective(a: int, b: int)
    requires IntToString(a) == IntToString(b)
    ensures a == b
  {
    if a < 0 {
      assert IntToString(a)[1..] == NatToString(-a);
      assert IntToString(b)[1..] == NatToString(-b);
    }
  }

  /**
    `x.toFixed(1)` of an exact real below 1e21: a `-` when `x < 0`, then the
    magnitude rounded to tenths (ties upwards) with one digit after the point.
  */
  function ToFixed1(x: real): (s: string)
    ensures s != [] && s[0] != '+'
    ensures s[0] == '-' <==> x < 0.0
  {
    var magnitude := if x < 0.0 then -x else x;
    var n := Round(magnitude * 10.0);
    var digits := NatToString(n / 10) + "." + [DigitChar(n % 10)];
    assert digits[0] == NatToString(n / 10)[0];
    if x < 0.0 then "-" + digits else digits
  }
}
