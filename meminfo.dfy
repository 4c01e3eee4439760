/**
 * The memory figures read from the meminfo file (`Key:   value kB` lines,
 * see proc(5)) and the memory row text derived from them.
 *
 * Every line is scanned. A line containing `MemTotal` sets the total; else a
 * line containing `MemAvailable` sets the available figure. The value is
 * `int()` of the line's second whitespace-separated word. A missing file, a
 * matched line with fewer than two words, or a second word that is not an
 * integer abandons the scan with an error.
 */
module MemInfo {
  import opened Wrappers
  import opened PyStr
  import opened RamText

  const ErrorText := "Error reading memory"

  /** The outcome of the scan: the last figures read, or the error that ended it. */
  datatype MemScan = MemRead(total: int, available: int) | MemError

  predicate IsTotalLine(line: string) {
    Contains(line, "MemTotal")
  }

  /** The `elif`: a line that mentions both keys counts as a total line only. */
  predicate IsAvailableLine(line: string) {
    !IsTotalLine(line) && Contains(line, "MemAvailable")
  }

  predicate IsKeyLine(line: string) {
    IsTotalLine(line) || IsAvailableLine(line)
  }

  /** `int(line.split()[1])`; `None` where Python raises `IndexError` or
      `ValueError`. */
  function FieldValue(line: string): (v: Option<int>)
    ensures v.Some? <==> |Tokens(line)| >= 2 && IsIntLiteral(Tokens(line)[1])
  {
    var words := Tokens(line);
    if |words| < 2 then None else ParseInt(words[1])
  }

  /** One pass of the loop body: a total line sets the total, else an
      available line sets the available figure; a failed `int()` or a missing
      word ends the scan. */
  function Step(scan: MemScan, line: string): (next: MemScan)
    ensures next.MemError? <==> scan.MemError? || (IsKeyLine(line) && FieldValue(line).None?)
    ensures !IsKeyLine(line) ==> next == scan
    ensures scan.MemRead? && next.MemRead? && IsTotalLine(line) ==>
      Some(next.total) == FieldValue(line) && next.available == scan.available
    ensures scan.MemRead? && next.MemRead? && IsAvailableLine(line) ==>
      Some(next.available) == FieldValue(line) && next.total == scan.total
  {
    match scan
    case MemError => MemError
    case MemRead(total, available) =>
      if IsTotalLine(line) then
        match FieldValue(line)
        case None => MemError
        case Some(v) => MemRead(v, available)
      else if IsAvailableLine(line) then
        match FieldValue(line)
        case None => MemError
        case Some(v) => MemRead(total, v)
      else scan
  }

  /** The state the loop reaches after the given lines, starting from totals
      of 0: the last line of each kind wins, and the first failing key line
      ends the scan. */
  function Scan(lines: seq<string>): (r: MemScan)
    ensures r.MemRead? ==> KeysReadable(lines)
    decreases |lines|
  {
    if lines == [] then MemRead(0, 0)
    else
      ReadableKeys(lines);
      Step(Scan(lines[..|lines| - 1]), lines[|lines| - 1])
  }

  /** Every key line is readable if every key line before the last is, and
      the last one is. */
  predicate KeysReadable(lines: seq<string>) {
    forall k :: 0 <= k < |lines| && IsKeyLine(lines[k]) ==> FieldValue(lines[k]).Some?
  }

  lemma ReadableKeys(lines: seq<string>)
    requires lines != []
    ensures KeysReadable(lines[..|lines| - 1])
         && (IsKeyLine(lines[|lines| - 1]) ==> FieldValue(lines[|lines| - 1]).Some?)
        ==> KeysReadable(lines)
  {
    var prefix := lines[..|lines| - 1];
    if KeysReadable(prefix) {
      forall k | 0 <= k < |prefix|
        ensures lines[k] == prefix[k]
      {
      }
    }
  }

  /** The meminfo outcome; `None` stands for the file not being found. It is
      the error exactly when the file is missing or one of its key lines has
      no integer second word. */
  function MemScanOf(meminfo: Option<seq<string>>): (r: MemScan)
    ensures r.MemError? <==> || meminfo.None?
                             || exists k :: && 0 <= k < |meminfo.value|
                                            && IsKeyLine(meminfo.value[k])
                                            && FieldValue(meminfo.value[k]).None?
  {
    match meminfo
    case None => MemError
    case Some(lines) =>
      ScanFailsIff(lines);
      Scan(lines)
  }

  /** The loop of `load_system_data` over the meminfo lines. */
  method ScanMeminfo(meminfo: Option<seq<string>>) returns (scan: MemScan)
    ensures scan == MemScanOf(meminfo)
  {
    if meminfo.None? {
      return MemError;
    }
    var lines := meminfo.value;
    var total, available := 0, 0;
    var i := 0;
    while i < |lines|
      invariant 0 <= i <= |lines|
      invariant Scan(lines[..i]) == MemRead(total, available)
    {
      var line := lines[i];
      ScanExtends(lines, i);
      if IsTotalLine(line) {
        var v := FieldValue(line);
        if v.None? {
          ErrorPersists(lines, i + 1);
          return MemError;
        }
        total := v.value;
      } else if IsAvailableLine(line) {
        var v := FieldValue(line);
        if v.None? {
          ErrorPersists(lines, i + 1);
          return MemError;
        }
        available := v.value;
      }
      i := i + 1;
    }
    assert lines[..|lines|] == lines;
    scan := MemRead(total, available);
  }

  /** Scanning one more line is one more step. */
  lemma ScanExtends(lines: seq<string>, i: nat)
    requires i < |lines|
    ensures Scan(lines[..i + 1]) == Step(Scan(lines[..i]), lines[i])
  {
    assert lines[..i + 1][..i] == lines[..i];
    ScanUnfolds(lines[..i + 1]);
  }

  /** Once the scan has failed, later lines do not revive it. */
  lemma {:induction false} ErrorPersists(lines: seq<string>, n: nat)
    requires n <= |lines| && Scan(lines[..n]) == MemError
    ensures Scan(lines) == MemError
    decreases |lines| - n
  {
    if n < |lines| {
      assert lines[..n + 1][..n] == lines[..n];
      ErrorPersists(lines, n + 1);
    } else {
      assert lines[..n] == lines;
    }
  }

  /** The scan fails exactly when some key line has no integer second word. */
  lemma {:induction false} ScanFailsIff(lines: seq<string>)
    ensures Scan(lines) == MemError
        <==> exists k :: 0 <= k < |lines| && IsKeyLine(lines[k]) && FieldValue(lines[k]).None?
    decreases |lines|
  {
    if lines != [] {
      var prefix := lines[..|lines| - 1];
      ScanFailsIff(prefix);
      assert forall k :: 0 <= k < |prefix| ==> prefix[k] == lines[k];
    }
  }

  /** Without a `MemTotal` line the total stays 0. */
  lemma {:induction false} NoTotalLine(lines: seq<string>)
    requires Scan(lines).MemRead?
    requires forall k :: 0 <= k < |lines| ==> !IsTotalLine(lines[k])
    ensures Scan(lines).total == 0
    decreases |lines|
  {
    if lines != [] {
      var prefix := lines[..|lines| - 1];
      assert forall k :: 0 <= k < |prefix| ==> prefix[k] == lines[k];
      NoTotalLine(prefix);
    }
  }

  /** A non-empty scan is the step of its last line after the scan of the rest. */
  lemma ScanUnfolds(lines: seq<string>)
    requires lines != []
    ensures Scan(lines) == Step(Scan(lines[..|lines| - 1]), lines[|lines| - 1])
  {
  }

  /** A step that leaves the scan readable sets the total on a total line and
      keeps it otherwise. */
  lemma TotalStep(scan: MemScan, line: string)
    ensures Step(scan, line).MemRead? ==> scan.MemRead?
    ensures Step(scan, line).MemRead? && IsTotalLine(line) ==> FieldValue(line) == Some(Step(scan, line).total)
    ensures Step(scan, line).MemRead? && !IsTotalLine(line) ==> Step(scan, line).total == scan.total
  {
  }

  /** A step that leaves the scan readable sets the available figure on an
      available line and keeps it otherwise. */
  lemma AvailableStep(scan: MemScan, line: string)
    ensures Step(scan, line).MemRead? ==> scan.MemRead?
    ensures Step(scan, line).MemRead? && IsAvailableLine(line) ==> FieldValue(line) == Some(Step(scan, line).available)
    ensures Step(scan, line).MemRead? && !IsAvailableLine(line) ==> Step(scan, line).available == scan.available
  {
  }

  /** The total is the value of the last `MemTotal` line. */
  lemma {:induction false} LastTotalWins(lines: seq<string>, k: nat)
    requires Scan(lines).MemRead?
    requires k < |lines| && IsTotalLine(lines[k])
    requires forall j :: k < j < |lines| ==> !IsTotalLine(lines[j])
    ensures FieldValue(lines[k]) == Some(Scan(lines).total)
    decreases |lines|
  {
    var prefix := lines[..|lines| - 1];
    ScanUnfolds(lines);
    TotalStep(Scan(prefix), lines[|lines| - 1]);
    if k < |lines| - 1 {
      assert forall j :: k < j < |prefix| ==> prefix[j] == lines[j];
      LastTotalWins(prefix, k);
    }
  }

  /** Without a line that mentions `MemAvailable` but not `MemTotal` the
      available figure stays 0. */
  lemma {:induction false} NoAvailableLine(lines: seq<string>)
    requires Scan(lines).MemRead?
    requires forall k :: 0 <= k < |lines| ==> !IsAvailableLine(lines[k])
    ensures Scan(lines).available == 0
    decreases |lines|
  {
    if lines != [] {
      var prefix := lines[..|lines| - 1];
      assert forall k :: 0 <= k < |prefix| ==> prefix[k] == lines[k];
      NoAvailableLine(prefix);
    }
  }

  /** The available figure is the value of the last line that mentions
      `MemAvailable` but not `MemTotal`. */
  lemma {:induction false} LastAvailableWins(lines: seq<string>, k: nat)
    requires Scan(lines).MemRead?
    requires k < |lines| && IsAvailableLine(lines[k])
    requires forall j :: k < j < |lines| ==> !IsAvailableLine(lines[j])
    ensures FieldValue(lines[k]) == Some(Scan(lines).available)
    decreases |lines|
  {
    var prefix := lines[..|lines| - 1];
    ScanUnfolds(lines);
    AvailableStep(Scan(prefix), lines[|lines| - 1]);
    if k < |lines| - 1 {
      assert forall j :: k < j < |prefix| ==> prefix[j] == lines[j];
      LastAvailableWins(prefix, k);
    }
  }

  /** A readable `MemTotal` line never changes the available figure: taking it
      out changes neither whether the scan fails nor the available figure. */
  lemma {:induction false} TotalLineLeavesAvailable(before: seq<string>, line: string, after: seq<string>)
    requires IsTotalLine(line) && FieldValue(line).Some?
    ensures Scan(before + [line] + after).MemError? == Scan(before + after).MemError?
    ensures Scan(before + after).MemRead? ==> Scan(before + [line] + after).available == Scan(before + after).available
    decreases |after|
  {
    if after == [] {
      LastLine(before, line);
    } else {
      var shorter := after[..|after| - 1];
      LastOfBoth(before, line, after);
      TotalLineLeavesAvailable(before, line, shorter);
    }
  }

  /** `before + [line]` with nothing after it ends in `line`. */
  lemma LastLine(before: seq<string>, line: string)
    ensures var withLine := before + [line] + [];
      withLine[..|withLine| - 1] == before && withLine[|withLine| - 1] == line && before + [] == before
  {
    var withLine := before + [line] + [];
    assert withLine[..|withLine| - 1] == before;
  }

  /** With and without `line`, the lines end alike when `after` is not empty. */
  lemma LastOfBoth(before: seq<string>, line: string, after: seq<string>)
    requires after != []
    ensures var withLine, without, shorter := before + [line] + after, before + after, after[..|after| - 1];
      && withLine[..|withLine| - 1] == before + [line] + shorter
      && without[..|without| - 1] == before + shorter
      && withLine[|withLine| - 1] == after[|after| - 1]
      && without[|without| - 1] == after[|after| - 1]
  {
    var withLine, without, shorter := before + [line] + after, before + after, after[..|after| - 1];
    assert withLine[..|withLine| - 1] == before + [line] + shorter;
    assert without[..|without| - 1] == before + shorter;
  }

  /** The memory row after loading, given its text before: the error text on
      a failed scan, the used and total figures when the total is positive,
      and otherwise the text it had. Whatever the scan, the row holds the
      error text, its old text, or a figure pair that reads back. */
  function RamSubtitle(scan: MemScan, prior: string): (r: string)
    ensures r == ErrorText || r == prior || ParseRam(r).Some?
  {
    match scan
    case MemError => ErrorText
    case MemRead(total, available) =>
      if total > 0 then
        FormatRamReadsBack(total - available, total);
        FormatRam(total - available, total)
      else prior
  }

  /** The three outcomes of the memory row, and that they can be told apart:
      the error text, the prior text, or a figure pair that reads back as the
      used amount (total minus available, unclamped) before the total. */
  lemma RamSubtitleCases(scan: MemScan, prior: string)
    ensures scan.MemError? ==> RamSubtitle(scan, prior) == ErrorText
    ensures scan.MemRead? && scan.total <= 0 ==> RamSubtitle(scan, prior) == prior
    ensures scan.MemRead? && scan.total > 0 ==>
      ParseRam(RamSubtitle(scan, prior)) == Some((
        Fixed2(scan.total - scan.available < 0, CentiGiB(scan.total - scan.available)),
        Fixed2(false, CentiGiB(scan.total))))
  {
    if scan.MemRead? && scan.total > 0 {
      FormatRamReadsBack(scan.total - scan.available, scan.total);
    }
  }

  /** The row shows the error text exactly when the scan failed, unless it
      showed that text already; so "Error reading memory" and the untouched
      "Calculating..." are two different outcomes. */
  lemma ErrorShownIff(scan: MemScan, prior: string)
    requires prior != ErrorText
    ensures RamSubtitle(scan, prior) == ErrorText <==> scan.MemError?
  {
    if scan.MemRead? && scan.total > 0 {
      var text := FormatRam(scan.total - scan.available, scan.total);
      assert text[|text| - 1] == 'B' && ErrorText[|ErrorText| - 1] == 'y';
    }
  }

  lemma ErrorTextIsNoFigure()
    ensures ParseRam(ErrorText) == None
  {
    var words := ["Error", "reading", "memory"];
    assert Join(words[1..], ' ') == "reading memory";
    assert Join(words, ' ') == ErrorText;
    SplitJoin(words, ' ');
  }

  /** A line laid out as the kernel writes it, `Key:<spaces><digits> kB`, gives
      the number its digits spell. */
  lemma StandardLineValue(key: string, gap: string, n: nat, unit: string)
    requires IsToken(key)
    requires |gap| > 0 && forall i :: 0 <= i < |gap| ==> gap[i] in Whitespace
    requires |unit| > 0 && unit[0] in Whitespace
    ensures FieldValue(key + gap + Decimal(n) + unit) == Some(n)
  {
    var digits := Decimal(n);
    assert IsToken(digits) by {
      assert forall i :: 0 <= i < |digits| ==> digits[i] !in Whitespace;
    }
    TokensAfterWord(digits, unit);
    SkipWhitespace(gap, digits + unit);
    TokensAfterWord(key, gap + (digits + unit));
    Regroup(key, gap, digits, unit);
  }

  lemma Regroup(a: string, b: string, c: string, d: string)
    ensures a + b + c + d == a + (b + (c + d))
  {
  }

  lemma {:induction false} SkipWhitespace(gap: string, rest: string)
    requires forall i :: 0 <= i < |gap| ==> gap[i] in Whitespace
    ensures Tokens(gap + rest) == Tokens(rest)
    decreases |gap|
  {
    if gap != [] {
      assert (gap + rest)[1..] == gap[1..] + rest;
      SkipWhitespace(gap[1..], rest);
    } else {
      assert gap + rest == rest;
    }
  }
}
