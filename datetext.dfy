/**
  The text pre-processing both upload pipelines apply to a date cell before
  parsing it:
  - strip one pair of surrounding double quotes and trim;
  - drop a leading Indonesian day name followed by a comma;
  - collapse white-space runs into one space;
  - translate Indonesian month words, case-insensitively and as whole words.
  It also holds the two numeric layouts tried after the host parser,
  D/M/Y and Y/M/D. Both pipelines write this code out identically; it is
  defined once here.
*/
module DateText {
  import opened Wrappers
  import opened JsText
  import opened Calendar

  // ---------------------------------------------------------------------------
  // Quotes, day prefix, white space
  // ---------------------------------------------------------------------------

  /** `replace(/^"|"$/g, '')`: at most one leading and one trailing double quote go. */
  function StripQuotes(s: string): (r: string)
    ensures |s| - 2 <= |r| <= |s|
    ensures (s != [] && s[0] == '"') ==> |r| < |s| && r == s[1..][..|r|]
    ensures (s == [] || s[0] != '"') ==> r == s[..|r|]
    ensures |r| < |s| - 1 ==> s[0] == '"' && s[|s| - 1] == '"'
    ensures (s != [] && s[0] != '"' && s[|s| - 1] != '"') ==> r == s
  {
    var t := if |s| > 0 && s[0] == '"' then s[1..] else s;
    if |t| > 0 && t[|t| - 1] == '"' then t[..|t| - 1] else t
  }

  /** The alternatives of the day-name prefix, in the order the pattern lists them. */
  const DayNames: seq<string> := ["senin", "selasa", "rabu", "kamis", "jumat", "jum'at", "sabtu", "minggu"]

  /** `s` begins with `word` up to ASCII case. */
  predicate StartsWithFolded(s: string, word: string) {
    |s| >= |word| && Lower(s[..|word|]) == word
  }

  /** What follows `name\s*,\s*` at the head of `s`, if that is how `s` begins. */
  function AfterDayPrefix(s: string, name: string): Option<string> {
    if StartsWithFolded(s, name) then
      var t := TrimStart(s[|name|..]);
      if |t| > 0 && t[0] == ',' then Some(TrimStart(t[1..])) else None
    else None
  }

  /**
    Removing the pattern `^(senin|…|minggu)\s*,\s*` (flag `i`): the first day name (from the
    `i`-th on) that begins `s` and is followed by a comma is removed with the
    white space around the comma.
  */
  function StripDayPrefixFrom(s: string, i: nat): string
    requires i <= |DayNames|
    decreases |DayNames| - i
  {
    if i == |DayNames| then s
    else match AfterDayPrefix(s, DayNames[i])
      case Some(rest) => rest
      case None => StripDayPrefixFrom(s, i + 1)
  }

  function StripDayPrefix(s: string): string {
    StripDayPrefixFrom(s, 0)
  }

  /** `replace(/\s+/g, ' ')`. */
  function CollapseSpaces(s: string): (r: string)
    ensures forall i :: 0 <= i < |r| ==> (IsSpace(r[i]) ==> r[i] == ' ')
    ensures forall i :: 0 <= i < |r| - 1 ==> !(r[i] == ' ' && r[i + 1] == ' ')
    ensures s == [] <==> r == []
    ensures r != [] && r[0] == ' ' ==> IsSpace(s[0])
    decreases |s|
  {
    if s == [] then []
    else if IsSpace(s[0]) then
      var t := TrimStart(s);
      TrimStartOfSpace(s);
      var rest := CollapseSpaces(t);
      ConsCollapsed(' ', rest, t);
      [' '] + rest
    else
      var rest := CollapseSpaces(s[1..]);
      ConsCollapsed(s[0], rest, s[1..]);
      [s[0]] + rest
  }

  /** Collapsed text stays collapsed when a character goes in front of it that is not a space, or a space before non-space text. */
  lemma ConsCollapsed(c: char, rest: string, t: string)
    requires forall i :: 0 <= i < |rest| ==> (IsSpace(rest[i]) ==> rest[i] == ' ')
    requires forall i :: 0 <= i < |rest| - 1 ==> !(rest[i] == ' ' && rest[i + 1] == ' ')
    requires t == [] <==> rest == []
    requires rest != [] && rest[0] == ' ' ==> IsSpace(t[0])
    requires c == ' ' ==> t == [] || !IsSpace(t[0])
    requires IsSpace(c) ==> c == ' '
    ensures var r := [c] + rest;
            && (forall i :: 0 <= i < |r| ==> (IsSpace(r[i]) ==> r[i] == ' '))
            && (forall i :: 0 <= i < |r| - 1 ==> !(r[i] == ' ' && r[i + 1] == ' '))
  {
    var r := [c] + rest;
    assert forall i :: 1 <= i < |r| ==> r[i] == rest[i - 1];
  }

  // ---------------------------------------------------------------------------
  // Month names
  // ---------------------------------------------------------------------------

  /**
    The Indonesian (and English) month words the pattern recognises, in the
    source's order, and what each becomes; `None` for any other word.
  */
  function MonthTranslation(key: string): Option<string> {
    if key == [] then None
    else match key[0]
      case 'j' =>
        if key == "januari" then Some("january") else if key == "jan" then Some("jan")
        else if key == "juni" then Some("june") else if key == "jun" then Some("jun")
        else if key == "juli" then Some("july") else if key == "jul" then Some("jul")
        else None
      case 'f' =>
        if key == "februari" then Some("february") else if key == "feb" then Some("feb") else None
      case 'm' =>
        if key == "maret" then Some("march") else if key == "mar" then Some("mar")
        else if key == "mei" then Some("may")
        else None
      case 'a' =>
        if key == "april" then Some("april") else if key == "apr" then Some("apr")
        else if key == "agustus" then Some("august") else if key == "agu" then Some("aug")
        else if key == "ags" then Some("aug") else if key == "aug" then Some("aug")
        else None
      case 's' =>
        if key == "september" then Some("september") else if key == "sep" then Some("sep")
        else if key == "sept" then Some("sep")
        else None
      case 'o' =>
        if key == "oktober" then Some("october") else if key == "okt" then Some("oct")
        else if key == "oct" then Some("oct")
        else None
      case 'n' =>
        if key == "november" then Some("november") else if key == "nov" then Some("nov") else None
      case 'd' =>
        if key == "desember" then Some("december") else if key == "des" then Some("dec")
        else if key == "dec" then Some("dec")
        else None
      case _ => None
  }

  /** The longest prefix of `s` made of `\w` characters. */
  function LeadingWord(s: string): (r: string)
    ensures |r| <= |s| && r == s[..|r|]
    ensures forall i :: 0 <= i < |r| ==> IsWordChar(r[i])
    ensures |r| < |s| ==> !IsWordChar(s[|r|])
  {
    if s == [] || !IsWordChar(s[0]) then [] else [s[0]] + LeadingWord(s[1..])
  }

  /** What one whole word becomes: its translation when it is a month word up to case. */
  function TranslateWord(w: string): string {
    match MonthTranslation(Lower(w))
    case Some(t) => t
    case None => w
  }

  /**
    `replace(/\b(januari|jan|…|dec)\b/gi, …)`. The pattern's words are all
    letters, so a match is exactly a maximal run of `\w` characters that reads
    as one of them up to case; every run is looked at from its first character.
  */
  function TranslateMonths(s: string): string {
    MapWords(s, TranslateWord)
  }

  /** Every maximal run of `\w` characters `w` replaced by `f(w)`, everything else kept. */
  function MapWords(s: string, f: string -> string): string
    decreases |s|
  {
    if s == [] then []
    else if IsWordChar(s[0]) then
      var w := LeadingWord(s);
      f(w) + MapWords(s[|w|..], f)
    else [s[0]] + MapWords(s[1..], f)
  }

  /** Two pieces that do not meet inside a word are rewritten independently. */
  lemma {:induction false} MapWordsSplits(a: string, b: string, f: string -> string)
    requires a == [] || b == [] || !IsWordChar(a[|a| - 1]) || !IsWordChar(b[0])
    ensures MapWords(a + b, f) == MapWords(a, f) + MapWords(b, f)
    decreases |a|
  {
    if a == [] {
      assert a + b == b;
    } else if !IsWordChar(a[0]) {
      var h := [a[0]];
      MapWordsNonWordHead(a, b, f);
      MapWordsSplits(a[1..], b, f);
      ConcatAssoc(h, MapWords(a[1..], f), MapWords(b, f));
    } else {
      var w := LeadingWord(a);
      LeadingWordSplits(a, b);
      MapWordsWordHead(a, b, f);
      MapWordsSplits(a[|w|..], b, f);
      ConcatAssoc(f(w), MapWords(a[|w|..], f), MapWords(b, f));
    }
  }

  lemma MapWordsNonWordHead(a: string, b: string, f: string -> string)
    requires a != [] && !IsWordChar(a[0])
    ensures MapWords(a, f) == [a[0]] + MapWords(a[1..], f)
    ensures MapWords(a + b, f) == [a[0]] + MapWords(a[1..] + b, f)
  {
    assert (a + b)[0] == a[0];
    assert (a + b)[1..] == a[1..] + b;
  }

  lemma MapWordsWordHead(a: string, b: string, f: string -> string)
    requires a != [] && IsWordChar(a[0]) && LeadingWord(a + b) == LeadingWord(a)
    ensures MapWords(a, f) == f(LeadingWord(a)) + MapWords(a[|LeadingWord(a)|..], f)
    ensures MapWords(a + b, f) == f(LeadingWord(a)) + MapWords(a[|LeadingWord(a)|..] + b, f)
  {
    var w := LeadingWord(a);
    assert (a + b)[0] == a[0];
    assert (a + b)[|w|..] == a[|w|..] + b;
  }

  lemma {:induction false} LeadingWordSplits(a: string, b: string)
    requires a != []
    requires b == [] || !IsWordChar(a[|a| - 1]) || !IsWordChar(b[0])
    ensures LeadingWord(a + b) == LeadingWord(a)
  {
    if IsWordChar(a[0]) {
      assert (a + b)[1..] == a[1..] + b;
      if a[1..] == [] {
        assert a + b == [a[0]] + b;
      } else {
        LeadingWordSplits(a[1..], b);
      }
    }
  }

  lemma MapLeadingWord(w: string, post: string, f: string -> string)
    requires w != [] && forall i :: 0 <= i < |w| ==> IsWordChar(w[i])
    requires post == [] || !IsWordChar(post[0])
    ensures MapWords(w + post, f) == f(w) + MapWords(post, f)
  {
    var wp := w + post;
    assert wp[0] == w[0];
    LeadingWordSplits(w, post);
    LeadingWordWhole(w);
    assert wp[|w|..] == post;
  }

  lemma {:induction false} LeadingWordWhole(w: string)
    requires forall i :: 0 <= i < |w| ==> IsWordChar(w[i])
    ensures LeadingWord(w) == w
  {
    if w != [] { LeadingWordWhole(w[1..]); }
  }

  /**
    A whole word, delimited by non-word characters or the ends of the text,
    is replaced by its image and the text around it is rewritten on its own:
    with `f` the month translation, month words are recognised on word
    boundaries only.
  */
  lemma WordBetweenBoundaries(pre: string, w: string, post: string, f: string -> string)
    requires w != [] && forall i :: 0 <= i < |w| ==> IsWordChar(w[i])
    requires pre == [] || !IsWordChar(pre[|pre| - 1])
    requires post == [] || !IsWordChar(post[0])
    ensures MapWords(pre + w + post, f) == MapWords(pre, f) + f(w) + MapWords(post, f)
  {
    MapWordsSplits(pre, w + post, f);
    ConcatAssoc(pre, w, post);
    MapLeadingWord(w, post, f);
    ConcatAssoc(MapWords(pre, f), f(w), MapWords(post, f));
  }

  lemma ConcatAssoc(a: string, b: string, c: string)
    ensures a + (b + c) == a + b + c
  {
  }

  /** Words that `f` leaves alone are left alone in the text too. */
  lemma {:induction false} MapWordsKeeps(s: string, f: string -> string)
    requires forall i :: 0 <= i < |s| ==> !IsAsciiLetter(s[i])
    requires forall w :: (w == [] || !IsAsciiLetter(w[0])) ==> f(w) == w
    ensures MapWords(s, f) == s
    decreases |s|
  {
    if s != [] {
      assert s + [] == s;
      if IsWordChar(s[0]) {
        var w := LeadingWord(s);
        MapWordsWordHead(s, [], f);
        assert w[0] == s[0];
        NoLetterSuffix(s, |w|);
        MapWordsKeeps(s[|w|..], f);
        assert s == w + s[|w|..];
      } else {
        MapWordsNonWordHead(s, [], f);
        NoLetterSuffix(s, 1);
        MapWordsKeeps(s[1..], f);
      }
    }
  }

  lemma NoLetterSuffix(s: string, k: nat)
    requires k <= |s| && forall i :: 0 <= i < |s| ==> !IsAsciiLetter(s[i])
    ensures forall i :: 0 <= i < |s[k..]| ==> !IsAsciiLetter(s[k..][i])
  {
    forall i | 0 <= i < |s[k..]| ensures !IsAsciiLetter(s[k..][i]) {
      assert s[k..][i] == s[k + i];
    }
  }

  /** Text with no ASCII letter in it (a purely numeric date) is left as it is. */
  lemma TranslateMonthsKeepsNumbers(s: string)
    requires forall i :: 0 <= i < |s| ==> !IsAsciiLetter(s[i])
    ensures TranslateMonths(s) == s
  {
    forall w | w == [] || !IsAsciiLetter(w[0])
      ensures TranslateWord(w) == w
    {
      assert Lower(w) == [] || !IsAsciiLetter(Lower(w)[0]);
    }
    MapWordsKeeps(s, TranslateWord);
  }

  /** `Agustus` reads as the English `august`. */
  lemma AugustSpellings()
    ensures TranslateWord("Agustus") == "august"
  {
    assert Lower("Agustus") == "agustus";
    assert MonthTranslation("agustus") == Some("august");
  }

  /** The short forms `agu` and `ags` become `aug`. */
  lemma AugustAbbreviations()
    ensures TranslateWord("AGU") == "aug"
    ensures TranslateWord("ags") == "aug"
  {
    assert Lower("AGU") == "agu";
    assert MonthTranslation("agu") == Some("aug");
    assert Lower("ags") == "ags";
  }

  // ---------------------------------------------------------------------------
  // The whole pre-processing
  // ---------------------------------------------------------------------------

  /**
    The text handed to the date parsers, or `None` when nothing is left once
    the quotes are stripped and the text is trimmed.
  */
  function Normalize(raw: string): (r: Option<string>)
    ensures r.None? <==> IsBlank(StripQuotes(raw))
  {
    var n := Trim(StripQuotes(raw));
    TrimEmptyIffBlank(StripQuotes(raw));
    if n == [] then None
    else Some(TranslateMonths(CollapseSpaces(Trim(StripDayPrefix(n)))))
  }

  /** No day name begins with anything but a letter. */
  lemma {:induction false} StripDayPrefixFromNonLetter(s: string, i: nat)
    requires s != [] && !IsAsciiLetter(s[0]) && i <= |DayNames|
    ensures StripDayPrefixFrom(s, i) == s
    decreases |DayNames| - i
  {
    if i < |DayNames| {
      var name := DayNames[i];
      assert IsAsciiLetter(name[0]);
      StripDayPrefixFromNonLetter(s, i + 1);
    }
  }

  lemma {:induction false} CollapseSpacesOfSpaceless(s: string)
    requires forall i :: 0 <= i < |s| ==> !IsSpace(s[i])
    ensures CollapseSpaces(s) == s
  {
    if s != [] {
      CollapseSpacesOfSpaceless(s[1..]);
      assert s == [s[0]] + s[1..];
    }
  }

  /**
    Text made of digits, `/`, `-` and `.` only, beginning and ending with a
    digit, reaches the date parsers unchanged: no quote, no white space, no
    day name and no month word is there to remove.
  */
  lemma NormalizeNumeric(s: string)
    requires s != [] && IsDigit(s[0]) && IsDigit(s[|s| - 1])
    requires forall i :: 0 <= i < |s| ==> IsDigit(s[i]) || IsDateSeparator(s[i]) || s[i] == '.'
    ensures Normalize(s) == Some(s)
  {
    assert s[0] != '"' && s[|s| - 1] != '"';
    TrimOfNonSpaceEnds(s);
    StripDayPrefixFromNonLetter(s, 0);
    CollapseSpacesOfSpaceless(s);
    TranslateMonthsKeepsNumbers(s);
  }

  // ---------------------------------------------------------------------------
  // D/M/Y and Y/M/D
  // ---------------------------------------------------------------------------

  predicate IsDateSeparator(c: char) { c == '/' || c == '-' }

  predicate DigitRun(s: string, lo: nat, hi: nat) {
    lo <= |s| <= hi && AllDigits(s)
  }

  /** A group of `lo` to `hi` digits at the head of `s` and a separator after it: the group and the text after the separator. */
  function GroupThenSeparator(s: string, lo: nat, hi: nat): (r: Option<(string, string)>)
    ensures r.Some? ==> DigitRun(r.value.0, lo, hi) && |r.value.0| < |s|
                        && IsDateSeparator(s[|r.value.0|]) && s == r.value.0 + [s[|r.value.0|]] + r.value.1
  {
    var a := LeadingDigits(s);
    if lo <= |a| <= hi && |a| < |s| && IsDateSeparator(s[|a|]) then
      assert s == a + [s[|a|]] + s[|a| + 1..];
      Some((a, s[|a| + 1..]))
    else None
  }

  /** `s` itself when it is a group of `lo` to `hi` digits. */
  function FinalGroup(s: string, lo: nat, hi: nat): (r: Option<string>)
    ensures r.Some? ==> r.value == s && DigitRun(s, lo, hi)
  {
    if lo <= |s| <= hi && AllDigits(s) then Some(s) else None
  }

  /**
    `s.match(/^(\d{lo1,hi1})[\/-](\d{lo2,hi2})[\/-](\d{lo3,hi3})$/)`: the three
    digit groups. The groups are followed by a separator or the end, so each
    is the maximal digit run at its position.
  */
  function MatchDateParts(s: string, lo1: nat, hi1: nat, lo2: nat, hi2: nat, lo3: nat, hi3: nat): (r: Option<(string, string, string)>)
    ensures r.Some? ==> DigitRun(r.value.0, lo1, hi1) && DigitRun(r.value.1, lo2, hi2) && DigitRun(r.value.2, lo3, hi3)
  {
    match GroupThenSeparator(s, lo1, hi1)
    case None => None
    case Some((a, s2)) =>
      match GroupThenSeparator(s2, lo2, hi2)
      case None => None
      case Some((b, s3)) =>
        match FinalGroup(s3, lo3, hi3)
        case None => None
        case Some(c) => Some((a, b, c))
  }

  /** A match is the text cut into its three groups at two separators. */
  lemma MatchDatePartsShape(s: string, lo1: nat, hi1: nat, lo2: nat, hi2: nat, lo3: nat, hi3: nat)
    requires MatchDateParts(s, lo1, hi1, lo2, hi2, lo3, hi3).Some?
    ensures var (a, b, c) := MatchDateParts(s, lo1, hi1, lo2, hi2, lo3, hi3).value;
            exists s1, s2 :: IsDateSeparator(s1) && IsDateSeparator(s2) && s == a + [s1] + b + [s2] + c
  {
    var (a, s2) := GroupThenSeparator(s, lo1, hi1).value;
    var (b, s3) := GroupThenSeparator(s2, lo2, hi2).value;
    assert s == a + [s[|a|]] + b + [s2[|b|]] + s3;
  }

  lemma GroupThenSeparatorOf(a: string, sep: char, rest: string, lo: nat, hi: nat)
    requires DigitRun(a, lo, hi) && IsDateSeparator(sep)
    ensures GroupThenSeparator(a + [sep] + rest, lo, hi) == Some((a, rest))
  {
    var s := a + [sep] + rest;
    assert s == a + ([sep] + rest);
    LeadingDigitsStops(a, [sep] + rest);
    assert s[|a| + 1..] == rest;
  }

  /** Text written as three digit groups with `/` or `-` between them is matched as exactly those groups. */
  lemma MatchDatePartsOf(a: string, s1: char, b: string, s2: char, c: string, lo1: nat, hi1: nat, lo2: nat, hi2: nat, lo3: nat, hi3: nat)
    requires DigitRun(a, lo1, hi1) && DigitRun(b, lo2, hi2) && DigitRun(c, lo3, hi3)
    requires IsDateSeparator(s1) && IsDateSeparator(s2)
    ensures MatchDateParts(a + [s1] + b + [s2] + c, lo1, hi1, lo2, hi2, lo3, hi3) == Some((a, b, c))
  {
    assert a + [s1] + b + [s2] + c == a + [s1] + (b + [s2] + c);
    GroupThenSeparatorOf(a, s1, b + [s2] + c, lo1, hi1);
    GroupThenSeparatorOf(b, s2, c, lo2, hi2);
  }

  /** `^(\d{1,2})[\/-](\d{1,2})[\/-](\d{2,4})$`: day, month, year. */
  function MatchDmy(s: string): Option<(string, string, string)> {
    MatchDateParts(s, 1, 2, 1, 2, 2, 4)
  }

  /** `^(\d{4})[\/-](\d{1,2})[\/-](\d{1,2})$`: year, month, day. */
  function MatchYmd(s: string): Option<(string, string, string)> {
    MatchDateParts(s, 4, 4, 1, 2, 1, 2)
  }

  /** A text either layout matches is matched by only one of them: the first group has 1-2 or 4 digits. */
  lemma DmyAndYmdExclusive(s: string)
    ensures !(MatchDmy(s).Some? && MatchYmd(s).Some?)
  {
  }

  /**
    The date of a D/M/Y match: a two-digit year is read as `20yy`, and the
    month is one-based.
  */
  function DmyDate(day: string, month: string, year: string): (d: CalendarDate)
    requires AllDigits(day) && AllDigits(month) && AllDigits(year)
    ensures |year| == 2 && 1 <= DecimalValue(month) <= 12 && 1 <= DecimalValue(day) <= DaysInMonth(2000 + DecimalValue(year), DecimalValue(month) - 1)
            ==> d == Date(2000 + DecimalValue(year), DecimalValue(month) - 1, DecimalValue(day))
  {
    if |year| == 2 then
      TwoDigitYear(year);
      NewDate(DecimalValue("20" + year), DecimalValue(month) - 1, DecimalValue(day))
    else
      NewDate(DecimalValue(year), DecimalValue(month) - 1, DecimalValue(day))
  }

  /** `20` written before a two-digit year `yy` reads as 2000 + `yy`. */
  lemma TwoDigitYear(yy: string)
    requires |yy| == 2 && AllDigits(yy)
    ensures AllDigits("20" + yy) && DecimalValue("20" + yy) == 2000 + DecimalValue(yy)
  {
    DecimalValueConcat("20", yy);
    assert DecimalValue("20") == 20 by {
      assert "20"[..1] == "2";
      assert "2"[..0] == [];
    }
  }

  /** The date of a Y/M/D match; the month is one-based. */
  function YmdDate(year: string, month: string, day: string): CalendarDate
    requires AllDigits(day) && AllDigits(month) && AllDigits(year)
  {
    NewDate(DecimalValue(year), DecimalValue(month) - 1, DecimalValue(day))
  }
}
