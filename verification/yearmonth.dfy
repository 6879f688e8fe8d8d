/** Year and month inference of the manifest tools: the file-name rule
    `parse_year_month_from_filename` (present, with the same body, in
    tools/download_all.py and tools/batch_emit.py) and the "MONTH OF <name>
    <yyyy>" match of `try_extract_year_month_from_excel`
    (tools/batch_emit.py). Both work on upper-cased text. */
module YearMonth {
  import opened Wrappers
  import opened Text
  import opened Cells
  import opened Header

  /** The keys of `MONTHS`, in their insertion order. */
  const MonthNames: seq<string> := [
    "JANUARY", "FEBRUARY", "MARCH", "APRIL", "MAY", "JUNE",
    "JULY", "AUGUST", "SEPTEMBER", "OCTOBER", "NOVEMBER", "DECEMBER"]

  /** An inferred year and month. */
  datatype YearMonth = YearMonth(year: int, month: int)

  function MonthFrom(name: string, k: nat): (r: Option<nat>)
    requires k <= 12
    ensures r.Some? ==> k < r.value <= 12 && MonthNames[r.value - 1] == name
    ensures r.None? ==> forall j :: k <= j < 12 ==> MonthNames[j] != name
    decreases 12 - k
  {
    if k == 12 then None
    else if MonthNames[k] == name then Some(k + 1)
    else MonthFrom(name, k + 1)
  }

  /** `MONTHS.get(name)`: the number of a full upper-case month name. */
  function MonthNumber(name: string): (r: Option<nat>)
    ensures r.Some? ==> 1 <= r.value <= 12 && MonthNames[r.value - 1] == name
    ensures r.None? <==> name !in MonthNames
  {
    MonthFrom(name, 0)
  }

  /** The first position in `[p, end)` where `P` holds: the leftmost match
      of `re.search`, or the first hit of a `for` loop with early return. */
  function FirstWhere(P: nat -> bool, p: nat, end: nat): (r: Option<nat>)
    ensures r.Some? ==> p <= r.value < end && P(r.value)
    ensures r.Some? ==> forall q :: p <= q < r.value ==> !P(q)
    ensures r.None? ==> forall q :: p <= q < end ==> !P(q)
    decreases end - p
  {
    if p >= end then None
    else if P(p) then Some(p)
    else FirstWhere(P, p + 1, end)
  }

  /** The length of the run of upper-case letters at the front of `s`. */
  function LetterRun(s: string): (n: nat)
    ensures n <= |s| && (n == |s| || !IsUpperLetter(s[n]))
    ensures forall i :: 0 <= i < n ==> IsUpperLetter(s[i])
  {
    if s != [] && IsUpperLetter(s[0]) then 1 + LetterRun(s[1..]) else 0
  }

  /** Four decimal digits start at `q`: `\d{4}`. */
  predicate FourDigitsAt(s: string, q: nat) {
    q + 4 <= |s| && AllDigits(s[q..q + 4])
  }

  // ---------------------------------------------------------------------
  // parse_year_month_from_filename
  // ---------------------------------------------------------------------

  /** `ATM([A-Z]+?)(\d{4})` matches at `p`. A digit is not a letter, so the
      lazy letter group can only end where the whole run of letters ends:
      the pattern matches exactly when that run is non-empty and four digits
      follow it. */
  predicate AtmMatchAt(up: string, p: nat) {
    p + 3 <= |up| && up[p..p + 3] == "ATM" &&
    var n := LetterRun(up[p + 3..]);
    n >= 1 && FourDigitsAt(up, p + 3 + n)
  }

  /** Group 1 of the match at `p`: the month token. */
  function AtmToken(up: string, p: nat): string
    requires AtmMatchAt(up, p)
  {
    up[p + 3..p + 3 + LetterRun(up[p + 3..])]
  }

  /** Group 2 of the match at `p`: the year digits. */
  function AtmYear(up: string, p: nat): (y: string)
    requires AtmMatchAt(up, p)
    ensures |y| == 4 && AllDigits(y)
  {
    var q := p + 3 + LetterRun(up[p + 3..]);
    up[q..q + 4]
  }

  /** Some `ATM<month name>` occurs in the text. */
  predicate MentionsAtmMonth(up: string, k: nat) {
    k < 12 && Contains(up, "ATM" + MonthNames[k])
  }

  /** The leftmost `ATM<letters><4 digits>` (`re.search`). */
  function FirstAtmMatch(up: string): (r: Option<nat>)
    ensures r.Some? ==> AtmMatchAt(up, r.value) && forall q :: 0 <= q < r.value ==> !AtmMatchAt(up, q)
    ensures r.None? ==> forall q :: 0 <= q < |up| ==> !AtmMatchAt(up, q)
  {
    var P := (q: nat) => AtmMatchAt(up, q);
    assert forall q: nat :: P(q) == AtmMatchAt(up, q);
    FirstWhere(P, 0, |up|)
  }

  /** The leftmost four digits (`re.search(r"(\d{4})", up)`). */
  function FirstFourDigits(up: string): (r: Option<nat>)
    ensures r.Some? ==> FourDigitsAt(up, r.value) && forall q :: 0 <= q < r.value ==> !FourDigitsAt(up, q)
    ensures r.None? ==> forall q :: 0 <= q < |up| ==> !FourDigitsAt(up, q)
  {
    var P := (q: nat) => FourDigitsAt(up, q);
    assert forall q: nat :: P(q) == FourDigitsAt(up, q);
    FirstWhere(P, 0, |up|)
  }

  /** The first month, in January-to-December order, whose `ATM<name>`
      occurs (the `for` loop over `MONTHS`), as an index 0..11. */
  function FirstAtmMonth(up: string): (r: Option<nat>)
    ensures r.Some? ==> MentionsAtmMonth(up, r.value) && forall k :: 0 <= k < r.value ==> !MentionsAtmMonth(up, k)
    ensures r.None? ==> forall k :: 0 <= k < 12 ==> !MentionsAtmMonth(up, k)
  {
    var P := (k: nat) => MentionsAtmMonth(up, k);
    assert forall k: nat :: P(k) == MentionsAtmMonth(up, k);
    FirstWhere(P, 0, 12)
  }

  /** The rule on the upper-cased name. The leftmost `ATM<letters><4 digits>`
      decides when its letters are a month name; otherwise the year is the
      first four digits anywhere and the month the first of January to
      December whose `ATM<name>` occurs. */
  function ParseUpper(up: string): Option<YearMonth> {
    var first := FirstAtmMatch(up);
    if first.Some? && MonthNumber(AtmToken(up, first.value)).Some? then
      Some(YearMonth(DigitsValue(AtmYear(up, first.value)), MonthNumber(AtmToken(up, first.value)).value))
    else
      var y := FirstFourDigits(up);
      var m := FirstAtmMonth(up);
      if y.Some? && m.Some? then Some(YearMonth(DigitsValue(up[y.value..y.value + 4]), m.value + 1))
      else None
  }

  lemma {:induction false} DigitsValueBound(s: string)
    requires AllDigits(s)
    ensures DigitsValue(s) < Pow10(|s|)
  {
    if s != [] {
      var init := s[..|s| - 1];
      assert AllDigits(init) by {
        forall i | 0 <= i < |init| ensures IsDigit(init[i]) { assert init[i] == s[i]; }
      }
      DigitsValueBound(init);
    }
  }

  lemma ParseUpperRange(up: string)
    ensures ParseUpper(up).Some? ==> 1 <= ParseUpper(up).value.month <= 12 && 0 <= ParseUpper(up).value.year <= 9999
  {
    Pow10Four();
    var first := FirstAtmMatch(up);
    if first.Some? {
      DigitsValueBound(AtmYear(up, first.value));
    }
    var y := FirstFourDigits(up);
    if y.Some? {
      DigitsValueBound(up[y.value..y.value + 4]);
    }
  }

  /** `parse_year_month_from_filename`: `None` stands for `(None, None)`; a
      result always carries a month 1..12 and a four-digit year. */
  function ParseYearMonthFromFilename(name: string): (r: Option<YearMonth>)
    ensures r.Some? ==> 1 <= r.value.month <= 12 && 0 <= r.value.year <= 9999
  {
    ParseUpperRange(Upper(name));
    ParseUpper(Upper(name))
  }

  /** A non-empty run of `n` upper-case letters follows the "ATM" at `p`,
      and four digits follow the run. */
  predicate LettersThenDigits(up: string, p: nat, n: nat) {
    1 <= n && p + 3 + n <= |up| &&
    (forall i :: p + 3 <= i < p + 3 + n ==> IsUpperLetter(up[i])) &&
    FourDigitsAt(up, p + 3 + n)
  }

  /** An independent reading of the lazy group: the pattern matches at `p`
      exactly when some non-empty run of letters after "ATM" is followed by
      four digits. */
  lemma AtmMatchAtIsRegex(up: string, p: nat)
    requires p + 3 <= |up| && up[p..p + 3] == "ATM"
    ensures AtmMatchAt(up, p) <==> exists n: nat :: LettersThenDigits(up, p, n)
  {
    var run := LetterRun(up[p + 3..]);
    forall i | p + 3 <= i < p + 3 + run ensures IsUpperLetter(up[i]) {
      assert up[i] == up[p + 3..][i - p - 3];
    }
    if AtmMatchAt(up, p) {
      assert LettersThenDigits(up, p, run);
    }
    if exists n: nat :: LettersThenDigits(up, p, n) {
      var n: nat :| LettersThenDigits(up, p, n);
      if n < run {
        assert IsUpperLetter(up[p + 3..][n]);
        assert up[p + 3 + n..p + 3 + n + 4][0] == up[p + 3 + n];
      } else if n > run {
        assert up[p + 3..][run] == up[p + 3 + run];
      }
    }
  }

  /** A match whose token is a month name mentions that month after "ATM"
      and holds four digits. */
  lemma AtmMatchMentions(up: string, p: nat)
    requires AtmMatchAt(up, p) && MonthNumber(AtmToken(up, p)).Some?
    ensures MentionsAtmMonth(up, MonthNumber(AtmToken(up, p)).value - 1)
    ensures FourDigitsAt(up, p + 3 + LetterRun(up[p + 3..]))
  {
    var tok := AtmToken(up, p);
    var k := MonthNumber(tok).value - 1;
    var n := |tok|;
    assert up[p..p + 3 + n] == "ATM" + tok;
    assert MatchAt(up, "ATM" + MonthNames[k], p);
  }

  /** The rule finds a date exactly when the text holds four digits and some
      `ATM<month name>`. */
  lemma ParseUpperSomeIff(up: string)
    ensures ParseUpper(up).Some? <==>
      (exists q: nat :: FourDigitsAt(up, q)) && (exists k: nat :: MentionsAtmMonth(up, k))
  {
    var first := FirstAtmMatch(up);
    if first.Some? && MonthNumber(AtmToken(up, first.value)).Some? {
      AtmMatchMentions(up, first.value);
    } else {
      if exists q: nat :: FourDigitsAt(up, q) {
        var q: nat :| FourDigitsAt(up, q);
        assert q < |up|;
      }
      if exists k: nat :: MentionsAtmMonth(up, k) {
        var k: nat :| MentionsAtmMonth(up, k);
        assert k < 12;
      }
    }
  }

  /** The file-name rule finds a date exactly when the name holds four digits
      and some `ATM<month name>`; otherwise it gives `(None, None)`. */
  lemma ParseSomeIff(name: string)
    ensures ParseYearMonthFromFilename(name).Some? <==>
      (exists q: nat :: FourDigitsAt(Upper(name), q)) && (exists k: nat :: MentionsAtmMonth(Upper(name), k))
  {
    ParseUpperSomeIff(Upper(name));
  }

  lemma ParseUpperWitness(up: string)
    requires ParseUpper(up).Some?
    ensures MentionsAtmMonth(up, ParseUpper(up).value.month - 1)
    ensures exists q: nat :: FourDigitsAt(up, q) && DigitsValue(up[q..q + 4]) == ParseUpper(up).value.year
  {
    var first := FirstAtmMatch(up);
    if first.Some? && MonthNumber(AtmToken(up, first.value)).Some? {
      AtmMatchMentions(up, first.value);
      var q := first.value + 3 + LetterRun(up[first.value + 3..]);
      assert up[q..q + 4] == AtmYear(up, first.value);
    } else {
      var q := FirstFourDigits(up).value;
      assert DigitsValue(up[q..q + 4]) == ParseUpper(up).value.year;
    }
  }

  /** What a found date rests on: the month is named right after some "ATM"
      and the year is the value of four digits of the name. */
  lemma ParseWitness(name: string)
    requires ParseYearMonthFromFilename(name).Some?
    ensures var ym := ParseYearMonthFromFilename(name).value;
      MentionsAtmMonth(Upper(name), ym.month - 1) &&
      exists q: nat :: FourDigitsAt(Upper(name), q) && DigitsValue(Upper(name)[q..q + 4]) == ym.year
  {
    ParseUpperWitness(Upper(name));
  }

  /** Lower-casing and upper-casing agree once upper-cased again. */
  lemma UpperOfLower(s: string)
    ensures Upper(Lower(s)) == Upper(s)
  {
    forall i | 0 <= i < |s| ensures Upper(Lower(s))[i] == Upper(s)[i] {
      assert Lower(s)[i] == LowerChar(s[i]);
    }
  }

  /** Matching ignores case: a lower-cased name gives the same date. */
  lemma ParseIgnoresCase(name: string)
    ensures ParseYearMonthFromFilename(Lower(name)) == ParseYearMonthFromFilename(name)
  {
    UpperOfLower(name);
  }

  lemma MonthNameLetters(k: nat)
    requires k < 12
    ensures |MonthNames[k]| >= 3
    ensures forall i :: 0 <= i < |MonthNames[k]| ==> IsUpperLetter(MonthNames[k][i])
  {
  }

  lemma MonthNamesDistinct()
    ensures forall i, j :: 0 <= i < j < 12 ==> MonthNames[i] != MonthNames[j]
  {
    forall i, j | 0 <= i < j < 12 ensures MonthNames[i] != MonthNames[j] {
      if |MonthNames[i]| == |MonthNames[j]| {
        assert MonthNames[i][0] != MonthNames[j][0] || MonthNames[i][2] != MonthNames[j][2];
      }
    }
  }

  /** The number of the `k`-th month name is `k + 1`. */
  lemma MonthNumberOf(k: nat)
    requires k < 12
    ensures MonthNumber(MonthNames[k]) == Some(k + 1)
  {
    MonthNamesDistinct();
    var r := MonthNumber(MonthNames[k]);
    assert MonthNames[k] in MonthNames;
    assert MonthNames[r.value - 1] == MonthNames[k];
  }

  lemma {:induction false} LetterRunPrefix(a: string, b: string)
    requires forall i :: 0 <= i < |a| ==> IsUpperLetter(a[i])
    requires b != [] && !IsUpperLetter(b[0])
    ensures LetterRun(a + b) == |a|
  {
    if a != [] {
      assert (a + b)[1..] == a[1..] + b;
      LetterRunPrefix(a[1..], b);
    } else {
      assert a + b == b;
    }
  }

  /** `ATM<letters><4 digits>` at the front of the text is a match at 0 with
      those groups. */
  lemma AtmAtFront(up: string, word: string, digits: string, rest: string)
    requires word != [] && forall i :: 0 <= i < |word| ==> IsUpperLetter(word[i])
    requires |digits| == 4 && AllDigits(digits)
    requires up == "ATM" + word + digits + rest
    ensures AtmMatchAt(up, 0) && AtmToken(up, 0) == word && AtmYear(up, 0) == digits
  {
    assert up[3..] == word + (digits + rest);
    LetterRunPrefix(word, digits + rest);
    assert up[3 + |word|..3 + |word| + 4] == digits;
    assert up[3..3 + |word|] == word;
  }

  /** Upper-casing leaves "ATM", a month name and digits as they are. */
  lemma UpperOfAtmMonth(k: nat, digits: string, rest: string)
    requires k < 12 && AllDigits(digits)
    ensures Upper("ATM" + MonthNames[k] + digits + rest) == "ATM" + MonthNames[k] + digits + Upper(rest)
  {
    MonthNameLetters(k);
    var head := "ATM" + MonthNames[k] + digits;
    assert HasNoLower(head) by {
      forall i | 0 <= i < |head| ensures !IsLowerLetter(head[i]) {
        if 3 <= i < 3 + |MonthNames[k]| { assert head[i] == MonthNames[k][i - 3]; }
        else if i >= 3 + |MonthNames[k]| { assert head[i] == digits[i - 3 - |MonthNames[k]|]; }
      }
    }
    UpperOfUpper(head);
    UpperAppend(head, rest);
  }

  /** A name that starts with `ATM<month name>` and four digits gives that
      month and the value of the digits as the year, whatever follows. */
  lemma ParseRoundTrip(month: int, digits: string, rest: string)
    requires 1 <= month <= 12 && |digits| == 4 && AllDigits(digits)
    ensures ParseYearMonthFromFilename("ATM" + MonthNames[month - 1] + digits + rest)
      == Some(YearMonth(DigitsValue(digits), month))
  {
    var k := month - 1;
    var up := Upper("ATM" + MonthNames[k] + digits + rest);
    UpperOfAtmMonth(k, digits, rest);
    MonthNameLetters(k);
    AtmAtFront(up, MonthNames[k], digits, Upper(rest));
    MonthNumberOf(k);
  }

  lemma Pow10Four()
    ensures Pow10(4) == 10000
  {
    assert Pow10(2) == 100;
  }

  /** The same with the year written as `{year:04d}`. */
  lemma ParseRoundTripYear(month: int, year: int, rest: string)
    requires 1 <= month <= 12 && 0 <= year <= 9999
    ensures ParseYearMonthFromFilename("ATM" + MonthNames[month - 1] + FixedDigits(year, 4) + rest)
      == Some(YearMonth(year, month))
  {
    ParseRoundTrip(month, FixedDigits(year, 4), rest);
    Pow10Four();
    FixedDigitsValue(year, 4);
  }

  lemma DigitsValueOf(s: string, v: nat)
    requires |s| == 4 && AllDigits(s)
    requires v == DigitValue(s[0]) * 1000 + DigitValue(s[1]) * 100 + DigitValue(s[2]) * 10 + DigitValue(s[3])
    ensures DigitsValue(s) == v
  {
    assert AllDigits(s[..1]) && AllDigits(s[..2]) && AllDigits(s[..3]);
    assert DigitsValue(s[..1]) == DigitValue(s[0]) by {
      assert s[..1][..0] == [];
    }
    assert DigitsValue(s[..2]) == DigitsValue(s[..1]) * 10 + DigitValue(s[1]) by {
      assert s[..2][..1] == s[..1];
    }
    assert DigitsValue(s[..3]) == DigitsValue(s[..2]) * 10 + DigitValue(s[2]) by {
      assert s[..3][..2] == s[..2];
    }
    assert s[..|s| - 1] == s[..3];
  }

  /** `ATMSEPTEMBER2025` is September 2025. */
  lemma SeptemberExample()
    ensures ParseYearMonthFromFilename("ATMSEPTEMBER2025.XLSX") == Some(YearMonth(2025, 9))
  {
    var name := "ATM" + MonthNames[8] + "2025" + ".XLSX";
    assert MonthNames[8] == "SEPTEMBER";
    assert name == "ATMSEPTEMBER2025.XLSX";
    ParseRoundTrip(9, "2025", ".XLSX");
    DigitsValueOf("2025", 2025);
  }

  /** `ATMMAY23062025`: the four digits after the month name are taken as the
      year, so this is May of the year 2306. */
  lemma MayExample()
    ensures ParseYearMonthFromFilename("ATMMAY23062025.XLSX") == Some(YearMonth(2306, 5))
  {
    var name := "ATM" + MonthNames[4] + "2306" + "2025.XLSX";
    assert MonthNames[4] == "MAY";
    assert name == "ATMMAY23062025.XLSX";
    ParseRoundTrip(5, "2306", "2025.XLSX");
    DigitsValueOf("2306", 2306);
  }

  // ---------------------------------------------------------------------
  // The regex step of try_extract_year_month_from_excel
  // ---------------------------------------------------------------------

  /** `MONTH OF\s+([A-Z]+)\s+(\d{4})` at `p`, giving the two groups.
      Whitespace, letters and digits are disjoint classes, so each greedy
      run takes its whole run and no backtracking can help: the pattern
      matches exactly when each run is non-empty and four digits follow. */
  function MonthOfAt(txt: string, p: nat): (r: Option<(string, string)>)
    ensures r.Some? ==> |r.value.1| == 4 && AllDigits(r.value.1)
  {
    if p + 8 <= |txt| && txt[p..p + 8] == "MONTH OF" then
      var a := p + 8 + SpaceRun(txt[p + 8..]);
      var b := a + LetterRun(txt[a..]);
      var c := b + SpaceRun(txt[b..]);
      if a > p + 8 && b > a && c > b && FourDigitsAt(txt, c) then Some((txt[a..b], txt[c..c + 4]))
      else None
    else None
  }

  /** The leftmost "MONTH OF" match. */
  function FirstMonthOf(txt: string): (r: Option<nat>)
    ensures r.Some? ==> MonthOfAt(txt, r.value).Some? && forall p :: 0 <= p < r.value ==> MonthOfAt(txt, p).None?
    ensures r.None? ==> forall p :: 0 <= p < |txt| ==> MonthOfAt(txt, p).None?
  {
    var P := (p: nat) => MonthOfAt(txt, p).Some?;
    assert forall p: nat :: P(p) == MonthOfAt(txt, p).Some?;
    FirstWhere(P, 0, |txt|)
  }

  /** The date the leftmost "MONTH OF" match names, when its word is a month
      name; a match on another word gives nothing, without a second try. */
  function MonthOfText(txt: string): (r: Option<YearMonth>)
    ensures r.Some? ==> 1 <= r.value.month <= 12 && 0 <= r.value.year <= 9999
  {
    match FirstMonthOf(txt)
    case None => None
    case Some(p) =>
      var groups := MonthOfAt(txt, p).value;
      DigitsValueBound(groups.1);
      Pow10Four();
      match MonthNumber(groups.0)
      case None => None
      case Some(m) => Some(YearMonth(DigitsValue(groups.1), m))
  }

  /** `fillna("")` then `astype(str)`: a missing cell reads as "". */
  function FilledText(c: Cell): string {
    match c
    case None => ""
    case Some(t) => t
  }

  /** The cells of the rows in row-major order, as text. */
  function FlattenRows(rows: seq<seq<Cell>>): (r: seq<string>)
  {
    if rows == [] then []
    else
      var last := rows[|rows| - 1];
      FlattenRows(rows[..|rows| - 1]) + seq(|last|, j requires 0 <= j < |last| => FilledText(last[j]))
  }

  /** The number of rows read from the workbook (`nrows=12`). */
  const SheetRows: nat := 12

  /** The upper-cased text of the first twelve rows, cells joined by one
      space. */
  function SheetText(rows: seq<seq<Cell>>): string {
    Upper(JoinWithSpace(FlattenRows(rows[..Min(SheetRows, |rows|)])))
  }

  /** `try_extract_year_month_from_excel` once the workbook is read: `None`
      for the sheet stands for a read that raised, and the result `None` for
      `(None, None)`. */
  function InSheetYearMonth(sheet: Option<seq<seq<Cell>>>): (r: Option<YearMonth>)
    ensures r.Some? ==> sheet.Some? && 1 <= r.value.month <= 12 && 0 <= r.value.year <= 9999
  {
    match sheet
    case None => None
    case Some(rows) => MonthOfText(SheetText(rows))
  }

  lemma SpaceRunOne(s: string)
    requires |s| >= 2 && IsSpace(s[0]) && !IsSpace(s[1])
    ensures SpaceRun(s) == 1
  {
    assert s[1..][0] == s[1];
  }

  /** The groups of a match at the very front. */
  lemma MonthOfLeading(word: string, digits: string, rest: string)
    requires word != [] && forall i :: 0 <= i < |word| ==> IsUpperLetter(word[i])
    requires |digits| == 4 && AllDigits(digits)
    ensures var txt := "MONTH OF " + word + " " + digits + rest;
      MonthOfAt(txt, 0) == Some((word, digits))
  {
    var txt := "MONTH OF " + word + " " + digits + rest;
    var w := |word|;
    assert txt[..8] == "MONTH OF";
    var s1 := txt[8..];
    assert s1 == " " + word + " " + digits + rest;
    assert s1[1] == word[0];
    SpaceRunOne(s1);
    var s2 := txt[9..];
    assert s2 == word + (" " + digits + rest);
    LetterRunPrefix(word, " " + digits + rest);
    var s3 := txt[9 + w..];
    assert s3 == " " + digits + rest;
    assert s3[1] == digits[0];
    SpaceRunOne(s3);
    assert txt[9..9 + w] == word;
    assert txt[10 + w..14 + w] == digits;
  }

  /** "MONTH OF <month name> <4 digits>" at the front of the text names that
      month, with the digits as the year, whatever follows. */
  lemma MonthOfRoundTrip(month: int, digits: string, rest: string)
    requires 1 <= month <= 12 && |digits| == 4 && AllDigits(digits)
    ensures MonthOfText("MONTH OF " + MonthNames[month - 1] + " " + digits + rest)
      == Some(YearMonth(DigitsValue(digits), month))
  {
    MonthNameLetters(month - 1);
    MonthOfLeading(MonthNames[month - 1], digits, rest);
    MonthNumberOf(month - 1);
  }

  /** A leftmost match whose word is not a month name gives nothing, even
      when a later "MONTH OF" would name a month. */
  lemma MonthOfNoRetry(word: string, digits: string, rest: string)
    requires word != [] && forall i :: 0 <= i < |word| ==> IsUpperLetter(word[i])
    requires |digits| == 4 && AllDigits(digits)
    requires word !in MonthNames
    ensures MonthOfText("MONTH OF " + word + " " + digits + rest) == None
  {
    MonthOfLeading(word, digits, rest);
  }
}
