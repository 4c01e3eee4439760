/**
 * The operating-system name shown by the window: the value of the first
 * `PRETTY_NAME=` line of the os-release file (`KEY=VALUE` lines, see
 * os-release(5)), with whitespace and then double quotes stripped from both
 * ends, or "Unknown Linux" when the file is missing or has no such line.
 */
module OsRelease {
  import opened Wrappers
  import opened PyStr

  const UnknownOs := "Unknown Linux"
  const PrettyNamePrefix := "PRETTY_NAME="

  predicate IsPrettyNameLine(line: string) {
    StartsWith(line, PrettyNamePrefix)
  }

  /** What every name taken from the file looks like: no `=`, and no double
      quote at either end. */
  predicate WellShaped(name: string) {
    && '=' !in name
    && (name != [] ==> name[0] != '"' && name[|name| - 1] != '"')
  }

  /** `line.split("=")[1].strip().strip('"')` for a `PRETTY_NAME=` line: the
      text between the first and the second `=`, trimmed. It holds no `=`, does
      not start or end with `"`, and every character of it is in the line. */
  function PrettyNameValue(line: string): (name: string)
    requires IsPrettyNameLine(line)
    ensures WellShaped(name)
    ensures forall i :: 0 <= i < |name| ==> name[i] in line
  {
    assert line[11] == PrettyNamePrefix[11];
    var parts := Split(line, '=');
    var field := parts[1];
    var stripped := Strip(field);
    var name := StripChars(stripped, {'"'});
    FieldChars(parts, line);
    ValueChars(line, field, stripped, name);
    name
  }

  /** Every character of the second part is a character of the line. */
  lemma FieldChars(parts: seq<string>, line: string)
    requires |parts| >= 2 && Join(parts, '=') == line
    ensures forall i :: 0 <= i < |parts[1]| ==> parts[1][i] in line
  {
    forall i | 0 <= i < |parts[1]| ensures parts[1][i] in line {
      JoinHoldsPart(parts, '=', 1, i);
    }
  }

  /** Characters kept by two strips come from the field, hence from the line,
      and are never `=`. */
  lemma ValueChars(line: string, field: string, stripped: string, name: string)
    requires forall i :: 0 <= i < |field| ==> field[i] in line
    requires '=' !in field
    requires forall i :: 0 <= i < |stripped| ==> stripped[i] in field
    requires forall i :: 0 <= i < |name| ==> name[i] in stripped
    ensures forall i :: 0 <= i < |name| ==> name[i] in line
    ensures '=' !in name
  {
    forall i | 0 <= i < |name| ensures name[i] in line && name[i] != '=' {
      var j :| 0 <= j < |stripped| && stripped[j] == name[i];
      var k :| 0 <= k < |field| && field[k] == stripped[j];
    }
  }

  /** Every character of a part is a character of the joined text. */
  lemma {:induction false} JoinHoldsPart(parts: seq<string>, sep: char, k: nat, i: nat)
    requires |parts| >= 1 && k < |parts| && i < |parts[k]|
    ensures parts[k][i] in Join(parts, sep)
    decreases |parts|
  {
    if |parts| > 1 {
      var tail := Join(parts[1..], sep);
      assert Join(parts, sep) == parts[0] + [sep] + tail;
      if k == 0 {
        assert Join(parts, sep)[i] == parts[0][i];
      } else {
        JoinHoldsPart(parts[1..], sep, k - 1, i);
        var j :| 0 <= j < |tail| && tail[j] == parts[k][i];
        assert Join(parts, sep)[|parts[0]| + 1 + j] == tail[j];
      }
    }
  }

  /** The value of the first `PRETTY_NAME=` line, scanning in order. */
  function FirstPrettyName(lines: seq<string>): (r: Option<string>)
    ensures r.Some? ==> WellShaped(r.value)
    decreases |lines|
  {
    if lines == [] then None
    else if IsPrettyNameLine(lines[0]) then
      Some(PrettyNameValue(lines[0]))
    else FirstPrettyName(lines[1..])
  }

  /** Any name the scan finds is the value of one of the `PRETTY_NAME=` lines. */
  lemma {:induction false} FirstPrettyNameFromLine(lines: seq<string>)
    requires FirstPrettyName(lines).Some?
    ensures exists k :: && 0 <= k < |lines| && IsPrettyNameLine(lines[k])
                        && FirstPrettyName(lines).value == PrettyNameValue(lines[k])
    decreases |lines|
  {
    var name := FirstPrettyName(lines).value;
    if IsPrettyNameLine(lines[0]) {
      assert name == PrettyNameValue(lines[0]);
    } else {
      var tail := lines[1..];
      assert FirstPrettyName(lines) == FirstPrettyName(tail);
      FirstPrettyNameFromLine(tail);
      var k :| 0 <= k < |tail| && IsPrettyNameLine(tail[k]) && name == PrettyNameValue(tail[k]);
      assert lines[k + 1] == tail[k];
      assert IsPrettyNameLine(lines[k + 1]) && name == PrettyNameValue(lines[k + 1]);
    }
  }

  /** The name the window shows for the os-release contents; `None` stands for
      the file not being found. It is the default or the value of one of the
      file's `PRETTY_NAME=` lines. */
  function OsName(osRelease: Option<seq<string>>): (name: string)
    ensures || name == UnknownOs
            || (&& osRelease.Some?
                && exists k :: && 0 <= k < |osRelease.value|
                               && IsPrettyNameLine(osRelease.value[k])
                               && name == PrettyNameValue(osRelease.value[k]))
  {
    match osRelease
    case None => UnknownOs
    case Some(lines) =>
      match FirstPrettyName(lines)
      case None => UnknownOs
      case Some(name) =>
        FirstPrettyNameFromLine(lines);
        name
  }

  /** The scan of `load_system_data`: keep the default, and on the first
      `PRETTY_NAME=` line take its value and stop. */
  method ReadOsName(osRelease: Option<seq<string>>) returns (osName: string)
    ensures osName == OsName(osRelease)
  {
    osName := UnknownOs;
    if osRelease.None? {
      return;
    }
    var lines := osRelease.value;
    var i := 0;
    while i < |lines|
      invariant 0 <= i <= |lines|
      invariant FirstPrettyName(lines[i..]) == FirstPrettyName(lines)
      invariant osName == UnknownOs
    {
      if IsPrettyNameLine(lines[i]) {
        osName := PrettyNameValue(lines[i]);
        break;
      }
      assert lines[i..][1..] == lines[i + 1..];
      i := i + 1;
    }
  }

  /** The `k`-th line is used exactly when it is the first `PRETTY_NAME=` line. */
  lemma {:induction false} FirstMatchIsUsed(lines: seq<string>, k: nat)
    requires k < |lines| && IsPrettyNameLine(lines[k])
    requires forall j :: 0 <= j < k ==> !IsPrettyNameLine(lines[j])
    ensures OsName(Some(lines)) == PrettyNameValue(lines[k])
  {
    FirstPrettyNameAt(lines, k);
  }

  lemma {:induction false} FirstPrettyNameAt(lines: seq<string>, k: nat)
    requires k < |lines| && IsPrettyNameLine(lines[k])
    requires forall j :: 0 <= j < k ==> !IsPrettyNameLine(lines[j])
    ensures FirstPrettyName(lines) == Some(PrettyNameValue(lines[k]))
    decreases k
  {
    if k > 0 {
      FirstPrettyNameAt(lines[1..], k - 1);
    }
  }

  /** No `PRETTY_NAME=` line, and only then, leaves nothing to take. */
  lemma {:induction false} NoPrettyNameLine(lines: seq<string>)
    ensures FirstPrettyName(lines) == None <==> forall j :: 0 <= j < |lines| ==> !IsPrettyNameLine(lines[j])
    decreases |lines|
  {
    if lines != [] {
      NoPrettyNameLine(lines[1..]);
      assert forall j :: 1 <= j < |lines| ==> lines[j] == lines[1..][j - 1];
    }
  }

  /** A missing file, or a file without a `PRETTY_NAME=` line, gives
      "Unknown Linux". */
  lemma DefaultName(osRelease: Option<seq<string>>)
    requires osRelease.Some? ==> forall j :: 0 <= j < |osRelease.value| ==> !IsPrettyNameLine(osRelease.value[j])
    ensures OsName(osRelease) == UnknownOs
  {
    if osRelease.Some? {
      NoPrettyNameLine(osRelease.value);
    }
  }

  /** Once a `PRETTY_NAME=` line has been seen, whatever follows is ignored. */
  lemma LaterLinesIgnored(before: seq<string>, after: seq<string>)
    requires exists j :: 0 <= j < |before| && IsPrettyNameLine(before[j])
    ensures OsName(Some(before + after)) == OsName(Some(before))
  {
    FirstPrettyNameAppend(before, after);
  }

  lemma {:induction false} FirstPrettyNameAppend(before: seq<string>, after: seq<string>)
    requires exists j :: 0 <= j < |before| && IsPrettyNameLine(before[j])
    ensures FirstPrettyName(before + after) == FirstPrettyName(before)
    decreases |before|
  {
    var all := before + after;
    assert all[0] == before[0];
    if !IsPrettyNameLine(before[0]) {
      assert all[1..] == before[1..] + after;
      var j :| 0 <= j < |before| && IsPrettyNameLine(before[j]);
      assert before[1..][j - 1] == before[j];
      FirstPrettyNameAppend(before[1..], after);
    }
  }

  /** Whatever the input, the name shown holds no `=` and neither starts nor
      ends with a double quote. */
  lemma NameShape(osRelease: Option<seq<string>>)
    ensures WellShaped(OsName(osRelease))
  {
    assert WellShaped(UnknownOs);
  }

  /** The value of a `PRETTY_NAME=` line is the text `v` up to the next `=`
      (or the end of the line), stripped of whitespace and then of double
      quotes. */
  lemma PrettyNameField(v: string, rest: string)
    requires '=' !in v
    requires rest == [] || rest[0] == '='
    ensures IsPrettyNameLine(PrettyNamePrefix + v + rest)
    ensures PrettyNameValue(PrettyNamePrefix + v + rest) == StripChars(Strip(v), {'"'})
  {
    var line := PrettyNamePrefix + v + rest;
    assert line[..|PrettyNamePrefix|] == PrettyNamePrefix;
    SecondPartIs(v, rest);
  }

  /** Splitting `PRETTY_NAME=` + `v` + rest at `=` gives `v` as second part. */
  lemma SecondPartIs(v: string, rest: string)
    requires '=' !in v
    requires rest == [] || rest[0] == '='
    ensures var parts := Split(PrettyNamePrefix + v + rest, '=');
      |parts| >= 2 && parts[1] == v
  {
    var key := "PRETTY_NAME";
    assert '=' !in key;
    assert PrettyNamePrefix == key + ['='];
    KeyThenValue(key, v, rest);
  }

  /** The part after a `=`-free key and its `=` is the text up to the next `=`. */
  lemma KeyThenValue(key: string, v: string, rest: string)
    requires '=' !in key && '=' !in v
    requires rest == [] || rest[0] == '='
    ensures var parts := Split(key + ['='] + v + rest, '=');
      |parts| >= 2 && parts[1] == v
  {
    var line := key + ['='] + v + rest;
    assert line == key + ['='] + (v + rest);
    SplitAtSeparator(key, v + rest, '=');
    SplitWithoutSeparator(key, '=');
    assert Split(line, '=') == [key] + Split(v + rest, '=');
    ValueFirst(v, rest);
  }

  /** Splitting `v` + rest at `=` gives `v` first. */
  lemma ValueFirst(v: string, rest: string)
    requires '=' !in v
    requires rest == [] || rest[0] == '='
    ensures Split(v + rest, '=')[0] == v
  {
    SplitWithoutSeparator(v, '=');
    if rest == [] {
      assert v + rest == v;
    } else {
      var tail := rest[1..];
      assert v + rest == v + ['='] + tail by {
        assert rest == ['='] + tail;
      }
      SplitAtSeparator(v, tail, '=');
    }
  }

  /** Quoting a value and ending the line is undone exactly: a well-shaped
      name written as `PRETTY_NAME="name"` is read back as itself. */
  lemma QuotedValue(x: string)
    requires WellShaped(x)
    ensures PrettyNameValue(PrettyNamePrefix + "\"" + x + "\"\n") == x
  {
    QuotedLine(x);
    StripLineEnd(x);
    Unquote(x);
  }

  /** A quoted `PRETTY_NAME=` line, and the field its value is taken from. */
  lemma QuotedLine(x: string)
    requires '=' !in x
    ensures IsPrettyNameLine(PrettyNamePrefix + "\"" + x + "\"\n")
    ensures PrettyNameValue(PrettyNamePrefix + "\"" + x + "\"\n") == StripChars(Strip("\"" + x + "\"\n"), {'"'})
  {
    var v := "\"" + x + "\"\n";
    var rest: string := [];
    assert PrettyNamePrefix + "\"" + x + "\"\n" == PrettyNamePrefix + v + rest;
    assert forall i :: 0 <= i < |v| ==> v[i] == '"' || v[i] == '\n' || v[i] == x[i - 1];
    PrettyNameField(v, rest);
  }

  /** The whitespace strip of a quoted line keeps both quotes and drops the
      line terminator. */
  lemma StripLineEnd(x: string)
    ensures Strip("\"" + x + "\"\n") == "\"" + x + "\""
  {
    var s := "\"" + x + "\"\n";
    var q := "\"" + x + "\"";
    assert '"' !in Whitespace && '\n' in Whitespace;
    assert s[0] == '"';
    assert TrimStart(s, Whitespace) == s;
    assert s[..|s| - 1] == q;
    assert q[|q| - 1] == '"';
    assert TrimEnd(q, Whitespace) == q;
  }

  /** Stripping double quotes from `"x"` gives back `x` when `x` neither
      starts nor ends with one. */
  lemma Unquote(x: string)
    requires x != [] ==> x[0] != '"' && x[|x| - 1] != '"'
    ensures StripChars("\"" + x + "\"", {'"'}) == x
  {
    UnquoteStart(x);
    if x != [] {
      UnquoteEnd(x);
    }
  }

  /** The leading quote goes, and the trailing one too when nothing is left
      between them. */
  lemma UnquoteStart(x: string)
    requires x != [] ==> x[0] != '"'
    ensures TrimStart("\"" + x + "\"", {'"'}) == if x == [] then [] else x + "\""
  {
    var q := "\"" + x + "\"";
    var t := x + "\"";
    assert q[0] == '"' && q[1..] == t;
    if x == [] {
      assert t[0] == '"' && t[1..] == [];
    } else {
      assert t[0] == x[0];
    }
  }

  /** The trailing quote goes, and nothing before it. */
  lemma UnquoteEnd(x: string)
    requires x != [] && x[|x| - 1] != '"'
    ensures TrimEnd(x + "\"", {'"'}) == x
  {
    var t := x + "\"";
    assert t[|t| - 1] == '"' && t[..|t| - 1] == x;
  }

  /** A file whose first `PRETTY_NAME=` line carries a quoted, well-shaped
      name shows that name, whatever the lines after it say. */
  lemma QuotedSecondLine(first: string, x: string, later: seq<string>)
    requires !IsPrettyNameLine(first) && WellShaped(x)
    ensures OsName(Some([first, PrettyNamePrefix + "\"" + x + "\"\n"] + later)) == x
  {
    var line := PrettyNamePrefix + "\"" + x + "\"\n";
    QuotedLine(x);
    QuotedValue(x);
    SecondLineUsed(first, line, later);
  }

  lemma SecondLineUsed(first: string, line: string, later: seq<string>)
    requires !IsPrettyNameLine(first) && IsPrettyNameLine(line)
    ensures OsName(Some([first, line] + later)) == PrettyNameValue(line)
  {
    var lines := [first, line] + later;
    assert lines[0] == first && lines[1] == line;
    FirstPrettyNameAt(lines, 1);
  }

  /** The quoted value of a typical Fedora file comes out without its quotes
      and without the line terminator; a later `PRETTY_NAME=` line is ignored. */
  lemma FedoraExample()
    ensures OsName(Some(["NAME=\"Fedora Linux\"\n", "PRETTY_NAME=\"Fedora Linux 39\"\n", "PRETTY_NAME=other\n"]))
         == "Fedora Linux 39"
  {
    var first := "NAME=\"Fedora Linux\"\n";
    assert first[1] != PrettyNamePrefix[1];
    FedoraLine();
    QuotedSecondLine(first, "Fedora Linux 39", ["PRETTY_NAME=other\n"]);
  }

  lemma FedoraLine()
    ensures ["NAME=\"Fedora Linux\"\n", PrettyNamePrefix + "\"" + "Fedora Linux 39" + "\"\n"] + ["PRETTY_NAME=other\n"]
         == ["NAME=\"Fedora Linux\"\n", "PRETTY_NAME=\"Fedora Linux 39\"\n", "PRETTY_NAME=other\n"]
    ensures WellShaped("Fedora Linux 39")
  {
    assert PrettyNamePrefix + "\"" + "Fedora Linux 39" + "\"\n" == "PRETTY_NAME=\"Fedora Linux 39\"\n";
  }
}
