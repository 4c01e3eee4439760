/**
 * The memory row's text, "<used> GB / <total> GB", where each figure is a
 * KiB count divided by 1024 twice and printed with two decimals.
 *
 * For a KiB count `n` with |n| < 2^53 the two float divisions are exact, so
 * the printed figure is `n / 2^20` rounded to hundredths, ties to even, with a
 * minus sign exactly when `n` is negative (Python prints "-0.00"). That is the
 * rounding written out here on integers.
 */
module RamText {
  import opened Wrappers
  import opened PyStr

  /** KiB in one GiB: the two divisions by 1024. */
  const KiBPerGiB: nat := 1048576

  /** `|kib| / 2^20` in hundredths, rounded to nearest, ties to even: the
      digits `{:.2f}` prints for the magnitude. */
  function CentiGiB(kib: int): (c: nat)
    ensures var num := (if kib < 0 then -kib else kib) * 100;
      && -(KiBPerGiB as int) <= 2 * (num - c * KiBPerGiB) <= KiBPerGiB
      && (2 * (num - c * KiBPerGiB) == KiBPerGiB ==> c % 2 == 0)
      && (2 * (num - c * KiBPerGiB) == -(KiBPerGiB as int) ==> c % 2 == 0)
  {
    var num := (if kib < 0 then -kib else kib) * 100;
    var q := num / KiBPerGiB;
    var r := num % KiBPerGiB;
    assert num - q * KiBPerGiB == r && 0 <= r < KiBPerGiB;
    assert num - (q + 1) * KiBPerGiB == r - KiBPerGiB;
    if 2 * r < KiBPerGiB then q
    else if 2 * r > KiBPerGiB then q + 1
    else if q % 2 == 0 then q
    else q + 1
  }

  /** `f"{kib / 1024 / 1024:.2f}"`: digits, a point and two more digits, led
      by a minus sign exactly for a negative count; never a space. */
  function FormatGiB(kib: int): (s: string)
    ensures |s| >= 4 && s[|s| - 3] == '.' && IsDigit(s[|s| - 2]) && IsDigit(s[|s| - 1])
    ensures s[0] == '-' <==> kib < 0
    ensures ' ' !in s
  {
    var c := CentiGiB(kib);
    var whole := Decimal(c / 100);
    assert forall i :: 0 <= i < |whole| ==> whole[i] != ' ';
    (if kib < 0 then "-" else "") + (whole + "." + [DigitChar(c % 100 / 10), DigitChar(c % 100 % 10)])
  }

  /** A figure printed with two decimals: its sign and its value in hundredths. */
  datatype Fixed2 = Fixed2(negative: bool, centi: nat)

  /** Reads back text of the form `[-]digits.dd`. */
  function ParseFixed2(s: string): Option<Fixed2> {
    var negative := |s| > 0 && s[0] == '-';
    match ParseCenti(if negative then s[1..] else s)
    case None => None
    case Some(centi) => Some(Fixed2(negative, centi))
  }

  /** Reads back text of the form `digits.dd` as a count of hundredths. */
  function ParseCenti(body: string): Option<nat> {
    if |body| >= 4 && body[|body| - 3] == '.' && AllDigits(body[..|body| - 3]) && AllDigits(body[|body| - 2..]) then
      Some(DigitsValue(body[..|body| - 3]) * 100 + DigitsValue(body[|body| - 2..]))
    else None
  }

  /** The printed figure reads back as its sign and its rounded hundredths. */
  lemma FormatGiBReadsBack(kib: int)
    ensures ParseFixed2(FormatGiB(kib)) == Some(Fixed2(kib < 0, CentiGiB(kib)))
  {
    var c := CentiGiB(kib);
    var frac := [DigitChar(c % 100 / 10), DigitChar(c % 100 % 10)];
    TwoDigits(c % 100);
    var whole := Decimal(c / 100);
    UnsignedReadsBack(whole, frac);
    SignedReadsBack(kib < 0, whole + "." + frac, c);
  }

  /** The sign in front of an unsigned figure is read back as such. */
  lemma SignedReadsBack(negative: bool, body: string, centi: nat)
    requires ParseCenti(body) == Some(centi) && body[0] != '-'
    ensures ParseFixed2((if negative then "-" else "") + body) == Some(Fixed2(negative, centi))
  {
    SignSplit(body);
  }

  /** A leading minus sign, or none, in front of `body`. */
  lemma SignSplit(body: string)
    ensures ("-" + body)[0] == '-' && ("-" + body)[1..] == body
    ensures "" + body == body
  {
    assert ("-" + body)[1..] == body;
  }

  /** `digits.dd` reads back as its hundredths. */
  lemma UnsignedReadsBack(whole: string, frac: string)
    requires |whole| > 0 && AllDigits(whole) && |frac| == 2 && AllDigits(frac)
    ensures (whole + "." + frac)[0] != '-'
    ensures ParseCenti(whole + "." + frac) == Some(DigitsValue(whole) * 100 + DigitsValue(frac))
  {
    DotSplit(whole, frac);
  }

  /** Where the parts of `whole.frac` sit, for two-character `frac`. */
  lemma DotSplit(whole: string, frac: string)
    requires |whole| > 0 && |frac| == 2
    ensures var body := whole + "." + frac;
      && |body| >= 4 && body[0] == whole[0] && body[|body| - 3] == '.'
      && body[..|body| - 3] == whole && body[|body| - 2..] == frac
  {
    var body := whole + "." + frac;
    assert body[..|body| - 3] == whole;
    assert body[|body| - 2..] == frac;
  }

  /** Two digit characters of `d < 100` spell `d`. */
  lemma TwoDigits(d: nat)
    requires d < 100
    ensures AllDigits([DigitChar(d / 10), DigitChar(d % 10)])
    ensures DigitsValue([DigitChar(d / 10), DigitChar(d % 10)]) == d
  {
    var frac := [DigitChar(d / 10), DigitChar(d % 10)];
    assert frac[..1] == [frac[0]] && [frac[0]][..0] == [];
    assert DigitsValue([frac[0]]) == d / 10;
  }

  /** `f"{used_gb:.2f} GB / {total_gb:.2f} GB"` for KiB counts: split at
      spaces it is the used figure, "GB", "/", the total figure and "GB". */
  function FormatRam(usedKiB: int, totalKiB: int): (r: string)
    ensures Split(r, ' ') == [FormatGiB(usedKiB), "GB", "/", FormatGiB(totalKiB), "GB"]
  {
    var used, total := FormatGiB(usedKiB), FormatGiB(totalKiB);
    RamWords(used, total);
    SplitJoin([used, "GB", "/", total, "GB"], ' ');
    used + " GB / " + total + " GB"
  }

  /** The row's text is its five words joined by single spaces. */
  lemma RamWords(used: string, total: string)
    ensures Join([used, "GB", "/", total, "GB"], ' ') == used + " GB / " + total + " GB"
  {
    var tail := total + " GB";
    assert [total, "GB"][1..] == ["GB"];
    assert Join([total, "GB"], ' ') == tail;
    assert ["/", total, "GB"][1..] == [total, "GB"];
    assert Join(["/", total, "GB"], ' ') == "/ " + tail;
    assert ["GB", "/", total, "GB"][1..] == ["/", total, "GB"];
    assert Join(["GB", "/", total, "GB"], ' ') == "GB / " + tail;
    assert [used, "GB", "/", total, "GB"][1..] == ["GB", "/", total, "GB"];
    assert used + " GB / " + total + " GB" == used + [' '] + ("GB / " + tail);
  }

  /** Reads back "<used> GB / <total> GB" as the two printed figures. */
  function ParseRam(s: string): Option<(Fixed2, Fixed2)> {
    var words := Split(s, ' ');
    if |words| == 5 && words[1] == "GB" && words[2] == "/" && words[4] == "GB" then
      match (ParseFixed2(words[0]), ParseFixed2(words[3]))
      case (Some(used), Some(total)) => Some((used, total))
      case _ => None
    else None
  }

  /** The row shows the used figure first and the total second, each as its
      rounded value. */
  lemma {:induction false} FormatRamReadsBack(usedKiB: int, totalKiB: int)
    ensures ParseRam(FormatRam(usedKiB, totalKiB))
         == Some((Fixed2(usedKiB < 0, CentiGiB(usedKiB)), Fixed2(totalKiB < 0, CentiGiB(totalKiB))))
  {
    FormatGiBReadsBack(usedKiB);
    FormatGiBReadsBack(totalKiB);
  }

  /** 6000000 KiB used of 8000000 KiB prints as "5.72 GB / 7.63 GB". */
  lemma EightGigabyteExample()
    ensures FormatRam(8000000 - 2000000, 8000000) == "5.72 GB / 7.63 GB"
  {
    UsedFigure();
    TotalFigure();
  }

  /** 6000000 KiB prints as "5.72". */
  lemma UsedFigure()
    ensures FormatGiB(6000000) == "5.72"
  {
    assert CentiGiB(6000000) == 572;
    assert Decimal(5) == "5";
  }

  /** 8000000 KiB prints as "7.63". */
  lemma TotalFigure()
    ensures FormatGiB(8000000) == "7.63"
  {
    assert CentiGiB(8000000) == 763;
    assert Decimal(7) == "7";
  }

  /** An exact tie rounds to the even hundredth: 0.125 GiB prints as "0.12". */
  lemma TieRoundsToEven()
    ensures FormatGiB(131072) == "0.12"
  {
    assert CentiGiB(131072) == 12;
    assert Decimal(0) == "0";
  }
}
