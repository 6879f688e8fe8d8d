/** Month file names under `docs/data` (tools/emit_json.py): the
    `{year:04d}-{month:02d}.json` name `emit_month` writes and the glob
    `rebuild_index_and_banks` lists. */
module MonthFiles {
  import opened Text

  /** The directory the month files live in. */
  const DataDir: string := "docs/data/"

  function Zeros(n: nat): (r: string)
    ensures |r| == n && AllDigits(r)
    ensures forall i :: 0 <= i < n ==> r[i] == '0'
  {
    if n == 0 then [] else "0" + Zeros(n - 1)
  }

  /** Left-pads a digit string with zeros to at least `w` characters. */
  function ZeroPad(s: string, w: nat): (r: string)
    ensures |r| == if |s| >= w then |s| else w
    ensures AllDigits(s) ==> AllDigits(r)
  {
    if |s| >= w then s else Zeros(w - |s|) + s
  }

  /** Python's `format(n, "0<w>d")`: zero padding to width `w`, where the
      width counts a leading minus sign. */
  function FormatInt(n: int, w: nat): string {
    if n >= 0 then ZeroPad(NatToString(n), w)
    else "-" + ZeroPad(NatToString(-n), if w >= 1 then w - 1 else 0)
  }

  /** The name `emit_month` writes a month to. */
  function MonthFileName(year: int, month: int): string {
    FormatInt(year, 4) + "-" + FormatInt(month, 2) + ".json"
  }

  /** The glob `[0-9][0-9][0-9][0-9]-[0-1][0-9].json` on one file name. */
  predicate MatchesMonthGlob(name: string) {
    |name| == 12 &&
    IsDigit(name[0]) && IsDigit(name[1]) && IsDigit(name[2]) && IsDigit(name[3]) &&
    name[4] == '-' && '0' <= name[5] <= '1' && IsDigit(name[6]) &&
    name[7..] == ".json"
  }

  lemma {:induction false} ZerosValue(n: nat)
    ensures DigitsValue(Zeros(n)) == 0
  {
    if n > 0 {
      assert Zeros(n)[..n - 1] == Zeros(n - 1);
      ZerosValue(n - 1);
    }
  }

  /** The decimal text of `n` fits in `k >= 1` characters exactly when
      `n < 10^k`. */
  lemma {:induction false} NatToStringLength(n: nat, k: nat)
    requires k >= 1
    ensures |NatToString(n)| <= k <==> n < Pow10(k)
  {
    if n >= 10 {
      if k >= 2 {
        NatToStringLength(n / 10, k - 1);
      } else {
        assert |NatToString(n)| == |NatToString(n / 10)| + 1;
      }
    }
  }

  /** A non-negative number below `10^w` is written with exactly `w` digits
      that read back as the number. */
  lemma FormatIntFits(n: int, w: nat)
    requires w >= 1 && 0 <= n < Pow10(w)
    ensures |FormatInt(n, w)| == w && AllDigits(FormatInt(n, w))
    ensures DigitsValue(FormatInt(n, w)) == n
  {
    var s := NatToString(n);
    NatToStringLength(n, w);
    assert |s| <= w;
    var z := Zeros(w - |s|);
    assert FormatInt(n, w) == z + s;
    DigitsValueAppend(z, s);
    ZerosValue(w - |s|);
    NatToStringValue(n);
    var p := Pow10(|s|);
    assert DigitsValue(z + s) == 0 * p + n;
  }

  /** A number that needs more than `w` digits is written with more than `w`
      characters. */
  lemma FormatIntTooWide(n: int, w: nat)
    requires w >= 1 && n >= Pow10(w)
    ensures |FormatInt(n, w)| > w && AllDigits(FormatInt(n, w))
  {
    NatToStringLength(n, w);
  }

  lemma TwoDigitsValue(s: string)
    requires |s| == 2 && AllDigits(s)
    ensures DigitsValue(s) == DigitValue(s[0]) * 10 + DigitValue(s[1])
  {
    var h := s[..1];
    assert h[..0] == [] && h[0] == s[0];
    assert DigitsValue(h) == DigitValue(s[0]);
    assert s[..|s| - 1] == h;
  }

  /** The glob lists a month file exactly when the year has four digits and
      the month is at most 19: every month written for a year 0..9999 and a
      month 1..12 is picked up again, and a negative or five-digit year is
      not. */
  lemma MonthFileNameMatchesGlob(year: int, month: int)
    ensures MatchesMonthGlob(MonthFileName(year, month)) <==> 0 <= year <= 9999 && 0 <= month <= 19
  {
    var y := FormatInt(year, 4);
    var m := FormatInt(month, 2);
    var name := MonthFileName(year, month);
    assert |m| >= 2;
    if 0 <= year <= 9999 {
      FormatIntFits(year, 4);
      assert name[..4] == y && name[4] == '-' && name[5..5 + |m|] == m;
      if 0 <= month <= 19 {
        FormatIntFits(month, 2);
        TwoDigitsValue(m);
        assert name[5] == m[0] && name[6] == m[1];
        assert name[7..] == ".json";
      } else if month >= 100 {
        FormatIntTooWide(month, 2);
      } else if month >= 20 {
        FormatIntFits(month, 2);
        TwoDigitsValue(m);
        assert name[5] == m[0];
      } else {
        assert name[5] == '-';
      }
    } else if year < 0 {
      assert name[0] == '-';
    } else {
      FormatIntTooWide(year, 4);
      assert name[4] == y[4];
    }
  }

  /** The digits of a listed month file read back as the year and month it
      was written for. */
  lemma MonthFileNameDigits(year: int, month: int)
    requires 0 <= year <= 9999 && 0 <= month <= 19
    ensures AllDigits(MonthFileName(year, month)[..4]) && DigitsValue(MonthFileName(year, month)[..4]) == year
    ensures AllDigits(MonthFileName(year, month)[5..7]) && DigitsValue(MonthFileName(year, month)[5..7]) == month
  {
    FormatIntFits(year, 4);
    FormatIntFits(month, 2);
    var name := MonthFileName(year, month);
    assert name[..4] == FormatInt(year, 4);
    assert name[5..7] == FormatInt(month, 2);
  }
}
