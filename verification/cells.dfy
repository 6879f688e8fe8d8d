/** Cell cleaning of the month extractor: `to_number` and `clean_bank_name`
    (tools/emit_json.py). A worksheet cell is its text, or `None` where pandas
    holds NaN. */
module Cells {
  import opened Wrappers
  import opened Text

  type Cell = Option<string>

  /** pandas `astype(str)`: a missing cell reads as the text "nan". */
  function CellText(c: Cell): string {
    match c
    case None => "nan"
    case Some(t) => t
  }

  /** What `to_number` returns when it succeeds. The value of a decimal is
      left symbolic: it carries the sanitised text given to `float`. */
  datatype Number = Int(value: int) | Decimal(text: string)

  /** `re.sub(r"[,\s]", "", s)` */
  function DeleteCommasAndSpaces(s: string): (r: string)
    ensures |r| <= |s|
  {
    if s == [] then []
    else (if s[0] == ',' || IsSpace(s[0]) then [] else [s[0]]) + DeleteCommasAndSpaces(s[1..])
  }

  /** The class `[0-9.\-]`. */
  predicate IsNumericChar(c: char) {
    IsDigit(c) || c == '.' || c == '-'
  }

  /** `re.sub(r"[^0-9.\-]", "", s)` */
  function KeepNumericChars(s: string): (r: string)
    ensures AllNumeric(r)
  {
    if s == [] then []
    else (if IsNumericChar(s[0]) then [s[0]] else []) + KeepNumericChars(s[1..])
  }

  /** The text without an optional leading minus sign. */
  function Unsigned(t: string): string {
    if t != [] && t[0] == '-' then t[1..] else t
  }

  /** Python's `int(t)` succeeds on a text over `[0-9.-]` exactly when it is
      an optional '-' followed by one or more digits. */
  predicate IsIntLiteral(t: string) {
    Unsigned(t) != [] && AllDigits(Unsigned(t))
  }

  function IntLiteralValue(t: string): int
    requires IsIntLiteral(t)
  {
    var v: int := DigitsValue(Unsigned(t));
    if t[0] == '-' then -v else v
  }

  /** Python's `float(t)` grammar for a text without exponent: an optional
      '-', then `digits "." [digits]` or `"." digits`. */
  predicate IsPointFloatLiteral(t: string) {
    var u := Unsigned(t);
    exists k: nat :: k < |u| && u[k] == '.' && AllDigits(u[..k]) && AllDigits(u[k + 1..]) && |u| >= 2
  }

  /** The tail of `to_number` once the text is sanitised: the five texts
      without digits listed in the source give None; a text with a point goes
      to `float` and one without to `int`, a parse failure giving None. */
  function ParseSanitised(t: string): Option<Number> {
    if t in ["", "-", ".", "-.", ".-"] then None
    else if '.' in t then (if IsPointFloatLiteral(t) then Some(Decimal(t)) else None)
    else if IsIntLiteral(t) then Some(Int(IntLiteralValue(t)))
    else None
  }

  /** `to_number`: None for a missing or blank cell; otherwise the stripped
      cell text loses its commas and whitespace, then every character outside
      `[0-9.-]`, and is parsed. */
  function ToNumber(x: Cell): Option<Number> {
    match x
    case None => None
    case Some(text) =>
      var s := Strip(text);
      if s == [] then None
      else ParseSanitised(KeepNumericChars(DeleteCommasAndSpaces(s)))
  }

  // ---------------------------------------------------------------------
  // An independent description of what `to_number` accepts
  // ---------------------------------------------------------------------

  /** The sanitised text of a cell: commas, whitespace and every character
      outside `[0-9.-]` deleted. */
  function NumericText(text: string): (t: string)
    ensures AllNumeric(t)
  {
    KeepNumericChars(DeleteCommasAndSpaces(text))
  }

  predicate HasDigit(t: string) {
    exists i :: 0 <= i < |t| && IsDigit(t[i])
  }

  /** A minus sign appears nowhere but at the front. */
  predicate MinusOnlyLeading(t: string) {
    forall i :: 0 < i < |t| ==> t[i] != '-'
  }

  /** Exactly one decimal point. */
  predicate OnePoint(t: string) {
    exists k :: 0 <= k < |t| && t[k] == '.' && forall i :: 0 <= i < |t| && t[i] == '.' ==> i == k
  }

  predicate IntShape(t: string) {
    '.' !in t && HasDigit(t) && MinusOnlyLeading(t)
  }

  predicate DecimalShape(t: string) {
    OnePoint(t) && HasDigit(t) && MinusOnlyLeading(t)
  }

  predicate AllNumeric(t: string) {
    forall i :: 0 <= i < |t| ==> IsNumericChar(t[i])
  }

  /** The value of a text of the shape `-?digits`. */
  function SignedValue(t: string): int
    requires IntShape(t) && AllNumeric(t)
  {
    var u := Unsigned(t);
    var off := if t[0] == '-' then 1 else 0;
    assert AllDigits(u) by {
      forall i | 0 <= i < |u| ensures IsDigit(u[i]) {
        assert u[i] == t[off + i] && t[off + i] in t;
        assert t[off + i] != '-';
      }
    }
    var v: int := DigitsValue(u);
    if t[0] == '-' then -v else v
  }

  lemma {:induction false} DeleteCommasAndSpacesAppend(a: string, b: string)
    ensures DeleteCommasAndSpaces(a + b) == DeleteCommasAndSpaces(a) + DeleteCommasAndSpaces(b)
  {
    if a != [] {
      assert (a + b)[1..] == a[1..] + b;
      DeleteCommasAndSpacesAppend(a[1..], b);
    } else {
      assert a + b == b;
    }
  }

  lemma {:induction false} DeleteCommasAndSpacesOfSpaces(s: string)
    requires AllSpace(s)
    ensures DeleteCommasAndSpaces(s) == []
  {
    if s != [] { DeleteCommasAndSpacesOfSpaces(s[1..]); }
  }

  /** Stripping before deleting whitespace changes nothing. */
  lemma DeleteCommasAndSpacesStrip(s: string)
    ensures DeleteCommasAndSpaces(Strip(s)) == DeleteCommasAndSpaces(s)
  {
    DeleteCommasAndSpacesLStrip(s);
    DeleteCommasAndSpacesRStrip(LStrip(s));
  }

  lemma DeleteCommasAndSpacesLStrip(s: string)
    ensures DeleteCommasAndSpaces(LStrip(s)) == DeleteCommasAndSpaces(s)
  {
    var l := LStrip(s);
    var pre := s[..|s| - |l|];
    assert s == pre + l;
    DeleteCommasAndSpacesAppend(pre, l);
    DeleteCommasAndSpacesOfSpaces(pre);
  }

  lemma DeleteCommasAndSpacesRStrip(s: string)
    ensures DeleteCommasAndSpaces(RStrip(s)) == DeleteCommasAndSpaces(s)
  {
    var r := RStrip(s);
    var post := s[|r|..];
    assert s == r + post;
    DeleteCommasAndSpacesAppend(r, post);
    DeleteCommasAndSpacesOfSpaces(post);
  }

  lemma {:induction false} NumericTextKeeps(s: string)
    requires AllNumeric(s)
    ensures DeleteCommasAndSpaces(s) == s && KeepNumericChars(s) == s
  {
    if s != [] {
      NumericTextKeeps(s[1..]);
      assert s == [s[0]] + s[1..];
    }
  }

  /** Blank input is missing. */
  lemma ToNumberBlank(text: string)
    requires AllSpace(text)
    ensures ToNumber(Some(text)) == None
  {
    DeleteCommasAndSpacesStrip(text);
    DeleteCommasAndSpacesOfSpaces(text);
  }

  /** The length of the optional leading minus sign. */
  function SignLen(t: string): (n: nat)
    ensures n <= |t|
  {
    if t != [] && t[0] == '-' then 1 else 0
  }

  lemma UnsignedLength(t: string)
    ensures |t| == SignLen(t) + |Unsigned(t)|
  {
  }

  lemma UnsignedAt(t: string, i: nat)
    requires i < |Unsigned(t)|
    ensures t[SignLen(t) + i] == Unsigned(t)[i]
  {
  }

  /** Digits on both sides of position `k` make every other position a digit. */
  lemma DigitsAroundPoint(u: string, k: nat)
    requires k < |u| && AllDigits(u[..k]) && AllDigits(u[k + 1..])
    ensures forall i :: 0 <= i < |u| && i != k ==> IsDigit(u[i])
  {
    forall i | 0 <= i < |u| && i != k ensures IsDigit(u[i]) {
      if i < k { assert u[..k][i] == u[i]; }
      else { assert u[k + 1..][i - k - 1] == u[i]; }
    }
  }

  lemma DigitsBesidePoint(u: string, k: nat)
    requires k < |u| && forall i :: 0 <= i < |u| && i != k ==> IsDigit(u[i])
    ensures AllDigits(u[..k]) && AllDigits(u[k + 1..])
  {
    var head := u[..k];
    forall j | 0 <= j < |head| ensures IsDigit(head[j]) {
      assert head[j] == u[j];
    }
    var tail := u[k + 1..];
    forall j | 0 <= j < |tail| ensures IsDigit(tail[j]) {
      assert tail[j] == u[k + 1 + j];
    }
  }

  lemma PointFloatHasDecimalShape(t: string)
    requires AllNumeric(t) && IsPointFloatLiteral(t)
    ensures DecimalShape(t)
  {
    var u := Unsigned(t);
    var off := SignLen(t);
    UnsignedLength(t);
    var k: nat :| k < |u| && u[k] == '.' && AllDigits(u[..k]) && AllDigits(u[k + 1..]) && |u| >= 2;
    DigitsAroundPoint(u, k);
    // one point
    UnsignedAt(t, k);
    forall i | 0 <= i < |t| && t[i] == '.' ensures i == off + k {
      if i >= off {
        UnsignedAt(t, i - off);
      }
    }
    assert OnePoint(t);
    // a digit
    var d := if k > 0 then 0 else 1;
    UnsignedAt(t, d);
    assert IsDigit(t[off + d]);
    // the minus sign only in front
    forall i | 0 < i < |t| ensures t[i] != '-' {
      if i >= off {
        UnsignedAt(t, i - off);
      }
    }
  }

  lemma DecimalShapeIsPointFloat(t: string)
    requires AllNumeric(t) && DecimalShape(t)
    ensures IsPointFloatLiteral(t)
  {
    var u := Unsigned(t);
    var off := SignLen(t);
    UnsignedLength(t);
    var k :| 0 <= k < |t| && t[k] == '.' && forall i :: 0 <= i < |t| && t[i] == '.' ==> i == k;
    assert k >= off;
    var m := k - off;
    UnsignedAt(t, m);
    forall i | 0 <= i < |u| && i != m ensures IsDigit(u[i]) {
      UnsignedAt(t, i);
      assert IsNumericChar(t[off + i]) && t[off + i] != '.';
      assert off + i > 0 ==> t[off + i] != '-';
    }
    DigitsBesidePoint(u, m);
    var d :| 0 <= d < |t| && IsDigit(t[d]);
    assert d >= off && d != k;
    UnsignedAt(t, d - off);
  }

  /** Over `[0-9.-]` and without a point, Python's `int` grammar is exactly
      "some digit, a minus sign only in front". */
  lemma IntLiteralIsIntShape(t: string)
    requires AllNumeric(t)
    requires '.' !in t
    ensures IsIntLiteral(t) <==> IntShape(t)
  {
    var u := Unsigned(t);
    var off := if t != [] && t[0] == '-' then 1 else 0;
    assert u == t[off..];
    if IsIntLiteral(t) {
      assert IsDigit(u[0]) && t[off] == u[0];
      forall i | 0 < i < |t| ensures t[i] != '-' {
        if i >= off { assert IsDigit(u[i - off]); }
      }
    }
    if IntShape(t) {
      var d :| 0 <= d < |t| && IsDigit(t[d]);
      forall i | 0 <= i < |u| ensures IsDigit(u[i]) {
        assert u[i] == t[off + i] && t[off + i] in t;
        assert IsNumericChar(t[off + i]);
      }
      assert d >= off;
    }
  }

  /** Stripping the cell first does not change what is parsed. */
  lemma ToNumberIsParseOfNumericText(text: string)
    ensures ToNumber(Some(text)) == ParseSanitised(NumericText(text))
  {
    DeleteCommasAndSpacesStrip(text);
    if Strip(text) == [] {
      assert NumericText(text) == [];
    }
  }

  lemma ParseSanitisedClassifies(t: string)
    requires AllNumeric(t)
    ensures ParseSanitised(t) ==
      if DecimalShape(t) then Some(Decimal(t))
      else if IntShape(t) then Some(Int(SignedValue(t)))
      else None
  {
    if t in ["", "-", ".", "-.", ".-"] {
      assert !HasDigit(t);
    } else if '.' in t {
      if IsPointFloatLiteral(t) { PointFloatHasDecimalShape(t); }
      if DecimalShape(t) { DecimalShapeIsPointFloat(t); }
    } else {
      IntLiteralIsIntShape(t);
      assert !OnePoint(t);
    }
  }

  /** What `to_number` does, stated on the sanitised text: an integer exactly
      when that text is `-?digits`, a decimal exactly when it has one point,
      a digit and a minus sign at most in front, and None otherwise (the
      empty text, "-", ".", "1-2", "1.2.3" and the like). */
  lemma ToNumberClassifies(text: string)
    ensures var t := NumericText(text);
      ToNumber(Some(text)) ==
        if DecimalShape(t) then Some(Decimal(t))
        else if IntShape(t) then Some(Int(SignedValue(t)))
        else None
  {
    ToNumberIsParseOfNumericText(text);
    ParseSanitisedClassifies(NumericText(text));
  }

  /** Python's `str(n)` for an integer. */
  function IntToString(n: int): string {
    if n < 0 then "-" + NatToString(-n) else NatToString(n)
  }

  lemma IntToStringShape(n: int)
    ensures AllNumeric(IntToString(n)) && IntShape(IntToString(n))
    ensures SignedValue(IntToString(n)) == n
  {
    var s := IntToString(n);
    var m: nat := if n < 0 then -n else n;
    var digits := NatToString(m);
    assert Unsigned(s) == digits;
    assert forall i :: 0 < i < |s| ==> s[i] == digits[i - (|s| - |digits|)];
    assert AllNumeric(s);
    assert IsDigit(s[|s| - 1]);
    assert forall i :: 0 <= i < |s| ==> s[i] != '.';
    NatToStringValue(m);
  }

  /** A cell holding the decimal text of an integer reads back as that
      integer. */
  lemma ToNumberOfIntText(n: int)
    ensures ToNumber(Some(IntToString(n))) == Some(Int(n))
  {
    var s := IntToString(n);
    IntToStringShape(n);
    NumericTextKeeps(s);
    assert NumericText(s) == s;
    assert !OnePoint(s);
    ToNumberClassifies(s);
  }

  lemma SanitisedThousands()
    ensures NumericText("1,234") == "1234"
  {
    assert DeleteCommasAndSpaces("1,234") == "1234";
    assert KeepNumericChars("1234") == "1234";
  }

  lemma ParsedThousands()
    ensures ParseSanitised("1234") == Some(Int(1234))
  {
    assert DigitsValue("1234") == 1234 by {
      assert "1234"[..3] == "123" && "123"[..2] == "12" && "12"[..1] == "1";
    }
    assert IsIntLiteral("1234");
    assert '.' !in "1234";
  }

  /** "1,234" reads as the integer 1234: the thousands separator vanishes. */
  lemma ToNumberThousands()
    ensures ToNumber(Some("1,234")) == Some(Int(1234))
  {
    SanitisedThousands();
    ToNumberIsParseOfNumericText("1,234");
    ParsedThousands();
  }

  // ---------------------------------------------------------------------
  // clean_bank_name
  // ---------------------------------------------------------------------

  /** Length of the run of whitespace at the front of `s`. */
  function SpaceRun(s: string): (n: nat)
    ensures n <= |s| && (n == |s| || !IsSpace(s[n]))
    ensures forall i :: 0 <= i < n ==> IsSpace(s[i])
    ensures AllSpace(s[..n])
  {
    if s != [] && IsSpace(s[0]) then 1 + SpaceRun(s[1..]) else 0
  }

  /** `re.sub(r"\s{2,}", " ", s)`: every maximal run of two or more
      whitespace characters becomes one space; a lone whitespace character
      stays as it is. */
  function CollapseSpaceRuns(s: string): string
    decreases |s|
  {
    if s == [] then []
    else
      var n := SpaceRun(s);
      if n >= 2 then " " + CollapseSpaceRuns(s[n..])
      else [s[0]] + CollapseSpaceRuns(s[1..])
  }

  /** `clean_bank_name`: None reads as ""; the text is stripped and its runs
      of whitespace collapsed. */
  function CleanBankName(s: Option<string>): string {
    CollapseSpaceRuns(Strip(match s case None => "" case Some(t) => t))
  }

  /** No two whitespace characters side by side. */
  predicate NoDoubleSpace(s: string) {
    forall i :: 0 <= i < |s| - 1 ==> !(IsSpace(s[i]) && IsSpace(s[i + 1]))
  }

  /** The characters of `s` that are not whitespace, in order. */
  function NonSpace(s: string): string {
    if s == [] then [] else (if IsSpace(s[0]) then [] else [s[0]]) + NonSpace(s[1..])
  }

  lemma {:induction false} NonSpaceAppend(a: string, b: string)
    ensures NonSpace(a + b) == NonSpace(a) + NonSpace(b)
  {
    if a != [] {
      assert (a + b)[1..] == a[1..] + b;
      NonSpaceAppend(a[1..], b);
    } else {
      assert a + b == b;
    }
  }

  lemma {:induction false} NonSpaceOfSpaces(s: string)
    requires AllSpace(s)
    ensures NonSpace(s) == []
  {
    if s != [] { NonSpaceOfSpaces(s[1..]); }
  }

  lemma {:induction false} CollapseHead(s: string)
    requires s != [] && !IsSpace(s[0])
    ensures CollapseSpaceRuns(s) != [] && CollapseSpaceRuns(s)[0] == s[0]
  {
  }

  lemma {:induction false} CollapseLast(s: string)
    requires s != [] && !IsSpace(s[|s| - 1])
    ensures var r := CollapseSpaceRuns(s); r != [] && r[|r| - 1] == s[|s| - 1]
    decreases |s|
  {
    var n := SpaceRun(s);
    assert n < |s|;
    var rest := if n >= 2 then s[n..] else s[1..];
    if rest != [] {
      assert rest[|rest| - 1] == s[|s| - 1];
      CollapseLast(rest);
    }
  }

  lemma {:induction false} CollapseNoDoubleSpace(s: string)
    ensures NoDoubleSpace(CollapseSpaceRuns(s))
    decreases |s|
  {
    if s != [] {
      var n := SpaceRun(s);
      var rest := if n >= 2 then s[n..] else s[1..];
      CollapseNoDoubleSpace(rest);
      if rest != [] && (n >= 1) {
        assert !IsSpace(rest[0]);
        CollapseHead(rest);
      }
    }
  }

  lemma {:induction false} CollapseNonSpace(s: string)
    ensures NonSpace(CollapseSpaceRuns(s)) == NonSpace(s)
    decreases |s|
  {
    if s != [] {
      var n := SpaceRun(s);
      if n >= 2 {
        CollapseNonSpace(s[n..]);
        NonSpaceAppend(" ", CollapseSpaceRuns(s[n..]));
        assert s == s[..n] + s[n..];
        NonSpaceAppend(s[..n], s[n..]);
        NonSpaceOfSpaces(s[..n]);
      } else {
        CollapseNonSpace(s[1..]);
        NonSpaceAppend([s[0]], CollapseSpaceRuns(s[1..]));
      }
    }
  }

  lemma {:induction false} CollapseOfSingleSpaced(s: string)
    requires NoDoubleSpace(s)
    ensures CollapseSpaceRuns(s) == s
    decreases |s|
  {
    if s != [] {
      assert SpaceRun(s) <= 1 by {
        if |s| >= 2 && IsSpace(s[0]) { assert !IsSpace(s[1]); }
      }
      CollapseOfSingleSpaced(s[1..]);
      assert s == [s[0]] + s[1..];
    }
  }

  lemma StripTrimmed(s: string)
    ensures IsTrimmed(Strip(s))
  {
    var l := LStrip(s);
    var r := RStrip(l);
    if r != [] { assert r[0] == l[0]; }
  }

  lemma StripOfTrimmed(s: string)
    requires IsTrimmed(s)
    ensures Strip(s) == s
  {
  }

  lemma LStripNonSpace(s: string)
    ensures NonSpace(LStrip(s)) == NonSpace(s)
  {
    var l := LStrip(s);
    var pre := s[..|s| - |l|];
    assert s == pre + l;
    NonSpaceAppend(pre, l);
    NonSpaceOfSpaces(pre);
  }

  lemma RStripNonSpace(s: string)
    ensures NonSpace(RStrip(s)) == NonSpace(s)
  {
    var r := RStrip(s);
    var post := s[|r|..];
    assert s == r + post;
    NonSpaceAppend(r, post);
    NonSpaceOfSpaces(post);
  }

  lemma StripNonSpace(s: string)
    ensures NonSpace(Strip(s)) == NonSpace(s)
  {
    LStripNonSpace(s);
    RStripNonSpace(LStrip(s));
  }

  /** A cleaned name has no leading or trailing whitespace and no run of two
      or more whitespace characters. */
  lemma CleanBankNameShape(s: Option<string>)
    ensures IsTrimmed(CleanBankName(s))
    ensures NoDoubleSpace(CleanBankName(s))
  {
    var t := Strip(match s case None => "" case Some(t) => t);
    StripTrimmed(match s case None => "" case Some(t) => t);
    CollapseNoDoubleSpace(t);
    if t != [] {
      CollapseHead(t);
      CollapseLast(t);
    }
  }

  /** Cleaning only touches whitespace: the other characters survive, in
      order. */
  lemma CleanBankNameKeepsText(s: string)
    ensures NonSpace(CleanBankName(Some(s))) == NonSpace(s)
  {
    StripNonSpace(s);
    CollapseNonSpace(Strip(s));
  }

  /** Cleaning twice is cleaning once. */
  lemma CleanBankNameIdempotent(s: Option<string>)
    ensures CleanBankName(Some(CleanBankName(s))) == CleanBankName(s)
  {
    var r := CleanBankName(s);
    CleanBankNameShape(s);
    StripOfTrimmed(r);
    CollapseOfSingleSpaced(r);
  }
}
