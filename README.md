# SysGlimpse telemetry core, modelled in Dafny

SysGlimpse is a small GTK window. It shows the host name, the operating
system's pretty name and the memory in use, and it saves those three texts as
`snapshot.json` under the user's data directory. This project models the
logic of `SysGlimpseWindow` in `main.py`, with the toolkit removed:

- `osrelease.dfy`: the os-release reader. It takes the first line that starts
  with `PRETTY_NAME=`, keeps the text between the first and second `=`, and
  strips whitespace and then double quotes. The default is "Unknown Linux".
  `ReadOsName` is the loop with its `break`, proved equal to the reference
  function `OsName`.
- `meminfo.dfy`: the meminfo reader. Every line is scanned. A line containing
  `MemTotal` sets the total. Otherwise, a line containing `MemAvailable` sets
  the available figure. The value is `int()` of the second word. Any failure
  gives "Error reading memory". The row is written only when the total is
  positive; otherwise it keeps its text ("Calculating..." after startup).
  `ScanMeminfo` is the loop, proved equal to the fold `Scan`.
- `ramtext.dfy`: the text "<used> GB / <total> GB". The `{:.2f}` rendering of
  a KiB count divided by 1024 twice is written out as integer rounding to
  hundredths, ties to even, with a parser that reads the text back.
- `snapshot.dfy`: the base directory and file path. `XDG_DATA_HOME` is used
  whenever it is set, even when empty; otherwise the base is
  `<home>/.local/share`. Paths are joined as POSIX `os.path.join` joins them.
  The record holds the keys `hostname`, `os` and `ram`, in that order.
- `window.dfy`: the class `SysGlimpseWindow`. It holds the title label, the
  description label and the three row subtitles. Its constructor sets the
  placeholders and then loads, as `__init__` does. `SaveSnapshot` returns
  the directory, the path and the record instead of writing them.
- `pystr.dfy`, `wrappers.dfy`: the Python string built-ins the readers use,
  and `Option`.

Inputs from the host are parameters:
- the hostname from `socket.gethostname()`;
- each file as the lines Python's text-mode iteration yields, or `None` when
  the file is not found;
- the environment as a map;
- the home directory as `~` expands.

The code keeps "Calculating..." when `MemTotal` is read as 0 or less. It does
not write the error text in that case, and the model follows the code. The
hostname has no fallback in the code; the model takes it as given.

## Model

| member | source | states |
|---|---|---|
| PyStr.StartsWith | main.py:118 | `s.startswith(p)` holds exactly when `p` fits in `s` and agrees with it character by character |
| PyStr.ContainsOccurs | main.py:133-135 | `sub in s` holds exactly when `sub` occurs at some index of `s` |
| PyStr.Split | main.py:119 | `s.split(sep)` gives at least one piece, two or more when `sep` occurs; no piece holds `sep`; joining the pieces with `sep` gives back `s` |
| PyStr.SplitJoin | main.py:119 | splitting undoes joining when no part holds the separator |
| PyStr.Tokens | main.py:134 | `s.split()` returns only non-empty words without whitespace |
| PyStr.TokensJoin | main.py:134 | `s.split()` undoes `" ".join(words)` for a list of words |
| PyStr.TrimStart | main.py:119 | the result is a suffix of `s`; every removed character is in the strip set; the result does not start with one |
| PyStr.TrimEnd | main.py:119 | the result is a prefix of `s`; every removed character is in the strip set; the result does not end with one |
| PyStr.StripChars | main.py:119 | `s.strip(chars)` is the slice of `s` left once characters of the set are removed from the two ends, and only those: everything before and after the slice is in the set, and the slice neither starts nor ends with one |
| PyStr.Strip | main.py:119 | `s.strip()` removes whitespace from the two ends and nothing else, and leaves no whitespace at either end |
| PyStr.Decimal | main.py:141 | the decimal digits of `n` read back as `n` |
| PyStr.ParseInt | main.py:134 | `int(s)` succeeds exactly on an optional sign followed by ASCII digits |
| PyStr.ParseShowInt | main.py:134 | `int(str(n)) == n` for every integer |
| OsRelease.PrettyNameValue | main.py:119 | the value taken from a `PRETTY_NAME=` line holds no `=`, does not start or end with `"`, and uses only characters of the line |
| OsRelease.PrettyNameField | main.py:118-119 | for a line `PRETTY_NAME=` + `v` + rest, where `v` holds no `=` and rest is empty or starts with `=`, the value is `v` stripped of whitespace and then of `"` |
| OsRelease.QuotedValue | main.py:119 | a well-shaped name written as `PRETTY_NAME="name"` plus a line end reads back as exactly that name |
| OsRelease.FirstPrettyName | main.py:117-120 | any name the scan finds has that shape |
| OsRelease.FirstPrettyNameFromLine | main.py:117-120 | any name the scan finds is the value of one of the `PRETTY_NAME=` lines |
| OsRelease.OsName | main.py:114-123 | the name shown is "Unknown Linux" or the value of one of the file's `PRETTY_NAME=` lines |
| OsRelease.ReadOsName | main.py:114-122 | the loop with `break` returns exactly `OsName` of the input |
| OsRelease.FirstMatchIsUsed | main.py:117-120 | the first `PRETTY_NAME=` line, and no other, gives the name |
| OsRelease.NoPrettyNameLine | main.py:117-120 | the scan finds nothing exactly when no line starts with `PRETTY_NAME=` |
| OsRelease.DefaultName | main.py:114-122 | a missing file, or one with no `PRETTY_NAME=` line, gives "Unknown Linux" |
| OsRelease.LaterLinesIgnored | main.py:118-120 | lines after a `PRETTY_NAME=` line do not change the name |
| OsRelease.NameShape | main.py:114-119 | the name shown never holds `=` and never starts or ends with `"` |
| OsRelease.QuotedSecondLine | main.py:116-120 | after a non-matching first line, a quoted well-shaped name on the second line is the name shown, whatever follows |
| OsRelease.FedoraExample | main.py:116-120 | `PRETTY_NAME="Fedora Linux 39"` gives `Fedora Linux 39`; a later `PRETTY_NAME=` line is ignored |
| RamText.CentiGiB | main.py:139-141 | the hundredths printed are the nearest to `|kib| / 2^20`, ties going to the even one |
| RamText.FormatGiB | main.py:139-141 | a printed figure is digits, a point and two digits, led by `-` exactly when the count is negative, and holds no space |
| RamText.FormatGiBReadsBack | main.py:139-141 | the printed figure reads back as its sign (negative exactly when the count is) and its rounded hundredths |
| RamText.FormatRam | main.py:141 | the row text splits at spaces into the used figure, "GB", "/", the total figure and "GB" |
| RamText.FormatRamReadsBack | main.py:141 | the row text reads back as the used figure followed by the total figure |
| RamText.EightGigabyteExample | main.py:139-141 | 8000000 KiB total and 2000000 KiB available print as "5.72 GB / 7.63 GB" |
| RamText.TieRoundsToEven | main.py:141 | 0.125 GiB prints as "0.12" |
| MemInfo.FieldValue | main.py:134 | `int(line.split()[1])` succeeds exactly when the line has two words and the second is an integer |
| MemInfo.StandardLineValue | main.py:134 | a `Key:<spaces><digits> kB` line gives the number its digits spell |
| MemInfo.Step | main.py:133-136 | a line naming neither key changes nothing; an error stays an error; the step fails exactly when a key line's value cannot be read; a total line sets only the total to its value, an available line only the available figure |
| MemInfo.Scan | main.py:128-136 | a scan that succeeds read an integer from every key line |
| MemInfo.MemScanOf | main.py:128-137 | the read fails exactly when the file is missing or some key line lacks an integer second word |
| MemInfo.ScanMeminfo | main.py:128-137 | the loop returns exactly `MemScanOf` of the input: no file gives an error, otherwise the fold `Scan` |
| MemInfo.ErrorPersists | main.py:128-143 | once a key line fails, the whole read is an error whatever follows |
| MemInfo.ScanFailsIff | main.py:131-136 | the read fails exactly when some key line lacks a second word or that word is not an integer |
| MemInfo.NoTotalLine | main.py:129-134 | with no `MemTotal` line the total is 0 |
| MemInfo.LastTotalWins | main.py:132-134 | the total is the value of the last line containing `MemTotal` |
| MemInfo.NoAvailableLine | main.py:130-136 | with no line naming `MemAvailable` but not `MemTotal`, the available figure is 0 |
| MemInfo.LastAvailableWins | main.py:132-136 | the available figure is the value of the last line containing `MemAvailable` but not `MemTotal` |
| MemInfo.TotalLineLeavesAvailable | main.py:133-136 | removing a readable `MemTotal` line changes neither success nor the available figure |
| MemInfo.RamSubtitle | main.py:138-143 | the memory row always holds the error text, its previous text, or a figure pair that reads back |
| MemInfo.RamSubtitleCases | main.py:138-143 | failure shows "Error reading memory"; a total of 0 or less keeps the prior text; a positive total shows used = total - available (unclamped) and then the total |
| MemInfo.ErrorShownIff | main.py:138-143 | the row shows the error text exactly when the read failed, whenever it did not show that text before |
| MemInfo.ErrorTextIsNoFigure | main.py:143 | the error text never reads as a figure pair |
| Snapshot.PathJoin | main.py:146-157 | `os.path.join(a, b)`: an absolute `b` replaces `a`; a relative `b` follows `a` as a directory, with one `/` between them unless `a` is empty or already ends in one |
| Snapshot.DataHome | main.py:146 | the base is `XDG_DATA_HOME` whenever it is set, else `<home>/.local/share` |
| Snapshot.AppDir | main.py:147 | the application directory is `<base>/sysglimpse` |
| Snapshot.SnapshotPath | main.py:157 | the file is `snapshot.json` inside the application directory, i.e. `<base>/sysglimpse/snapshot.json` |
| Snapshot.EmptyDataHomeGivesRelativePath | main.py:146-157 | an empty `XDG_DATA_HOME` gives the relative path `sysglimpse/snapshot.json` |
| Snapshot.DefaultDataHome | main.py:146-157 | without `XDG_DATA_HOME` the file is `<home>/.local/share/sysglimpse/snapshot.json` |
| Snapshot.SnapshotRecord | main.py:151-155 | the record has exactly the keys `hostname`, `os`, `ram` in that order, each holding its given text |
| Window.SysGlimpseWindow.constructor | main.py:54-104 | after startup the title and hostname row show the hostname, the OS row shows `OsName`, the description is "Running " + the name, and the memory row is the loaded text over the placeholder "Calculating..." |
| Window.SysGlimpseWindow.LoadSystemData | main.py:106-143 | every label but the memory row is overwritten from the inputs; the memory row is updated from its old text |
| Window.SysGlimpseWindow.SaveSnapshot | main.py:145-157 | returns the directory to create, the file path inside it, and a record whose three values are the current row subtitles |
| Window.StartAndSave | main.py:104-157 | a snapshot saved after startup holds the loaded hostname, OS name and memory text; a missing meminfo file saves the error text |

## Left out

- GTK and Adwaita presentation is not modelled: the widget tree, CSS classes, icons, the button signal, the toast overlay, the "Saved to ..." toast and the `SysGlimpseApp` activation. It is toolkit glue with no logic.
- Real I/O is not modelled: opening the two files, `socket.gethostname`, `os.environ`, `expanduser`, `Path.mkdir(parents=True, exist_ok=True)` and the file write. Their inputs are parameters. The directory and file to write are outputs of `SaveSnapshot`.
- The JSON text (`indent=4`, string escaping per section 7 of RFC 8259) is not modelled. The record is its ordered key/value pairs.
- OsRelease.ReadOsName: only `FileNotFoundError` is caught around the os-release read. Other read errors (permissions, decoding) propagate out of `load_system_data`. They are not modelled.
- MemInfo.MemScanOf: every failure to open or read the meminfo file is one `None` input. Python catches them all and shows the error text, so nothing is lost.
- PyStr.ParseInt: `int()` also accepts underscores between digits, non-ASCII digits and surrounding whitespace. These are not modelled. Words from `split()` never hold whitespace.
- PyStr.ParseInt: CPython refuses to convert more than 4300 digits (`sys.int_max_str_digits`) and raises `ValueError`. The model has no such limit. A meminfo key line whose value has more digits would show the error text in the program, but the model reads the number (MemInfo.FieldValue and the members built on it).
- RamText.FormatGiB: the rendering is exact for counts below 2^53 KiB. Beyond that, the float rounding of the division is not modelled, and neither is the `OverflowError` for counts too large for a float. The code would show the error text for the latter.
