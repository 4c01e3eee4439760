/**
 * Where the snapshot is written and what it holds. The base directory is the
 * value of `XDG_DATA_HOME` when that variable is set, even to the empty
 * string, and `<home>/.local/share` otherwise; the file is
 * `<base>/sysglimpse/snapshot.json`, joined as `os.path.join` joins on POSIX.
 * The record is the JSON object's keys and values in order.
 */
module Snapshot {
  import opened Wrappers

  const DataHomeVariable := "XDG_DATA_HOME"
  const AppDirName := "sysglimpse"
  const SnapshotFileName := "snapshot.json"

  /** `a` as a directory prefix: with a trailing `/` added unless `a` is empty
      or already has one. */
  function AsDirectory(a: string): (d: string)
    ensures d == "" || d[|d| - 1] == '/'
  {
    if a == "" || a[|a| - 1] == '/' then a else a + "/"
  }

  /** `os.path.join(a, b)` on POSIX: an absolute `b` replaces `a`; a relative
      one is put right after `a` as a directory. */
  function PathJoin(a: string, b: string): (r: string)
    ensures |b| > 0 && b[0] == '/' ==> r == b
    ensures (b == "" || b[0] != '/') ==> r == AsDirectory(a) + b
  {
    if |b| > 0 && b[0] == '/' then b
    else if a == "" || a[|a| - 1] == '/' then a + b
    else a + "/" + b
  }

  /** The base directory: `os.environ.get("XDG_DATA_HOME",
      os.path.join(home, ".local", "share"))`, `home` standing for
      `os.path.expanduser("~")`. */
  function DataHome(env: map<string, string>, home: string): (base: string)
    ensures DataHomeVariable in env ==> base == env[DataHomeVariable]
    ensures DataHomeVariable !in env ==> base == AsDirectory(home) + ".local/share"
  {
    if DataHomeVariable in env then env[DataHomeVariable]
    else
      PathJoin(PathJoin(home, ".local"), "share")
  }

  /** The directory created before writing: `<base>/sysglimpse`. */
  function AppDir(base: string): (dir: string)
    ensures dir == AsDirectory(base) + AppDirName
  {
    PathJoin(base, AppDirName)
  }

  /** The file written: `snapshot.json` inside the application directory. */
  function SnapshotPath(base: string): (path: string)
    ensures path == AppDir(base) + "/" + SnapshotFileName
    ensures path == AsDirectory(base) + "sysglimpse/snapshot.json"
  {
    var dir := AppDir(base);
    assert dir[|dir| - 1] == 'e' && SnapshotFileName[0] == 's';
    assert AppDirName + "/" + SnapshotFileName == "sysglimpse/snapshot.json";
    PathJoin(dir, SnapshotFileName)
  }

  /** An empty `XDG_DATA_HOME` is taken as the base all the same, which makes
      the path relative to the working directory. */
  lemma EmptyDataHomeGivesRelativePath(env: map<string, string>, home: string)
    requires DataHomeVariable in env && env[DataHomeVariable] == ""
    ensures SnapshotPath(DataHome(env, home)) == "sysglimpse/snapshot.json"
  {
  }

  /** Without `XDG_DATA_HOME` the file lands under the home directory's
      `.local/share`. */
  lemma DefaultDataHome(env: map<string, string>, home: string)
    requires DataHomeVariable !in env
    ensures SnapshotPath(DataHome(env, home)) == AsDirectory(home) + ".local/share" + "/" + AppDirName + "/" + SnapshotFileName
  {
    var base := AsDirectory(home) + ".local/share";
    assert base[|base| - 1] == 'e';
    assert AppDir(base) == base + "/" + AppDirName;
  }

  /** The JSON object written, as its key/value pairs in order. */
  type Record = seq<(string, string)>

  function Keys(r: Record): (ks: seq<string>)
    ensures |ks| == |r|
    ensures forall i :: 0 <= i < |r| ==> ks[i] == r[i].0
  {
    seq(|r|, i requires 0 <= i < |r| => r[i].0)
  }

  /** The value of the first pair with key `k`, as a JSON reader finds it. */
  function Lookup(r: Record, k: string): Option<string>
    decreases |r|
  {
    if r == [] then None else if r[0].0 == k then Some(r[0].1) else Lookup(r[1..], k)
  }

  /** The `data` dictionary of `save_snapshot`: exactly the keys `hostname`,
      `os` and `ram`, in that order, holding the three given texts. */
  function SnapshotRecord(hostname: string, os: string, ram: string): (r: Record)
    ensures Keys(r) == ["hostname", "os", "ram"]
    ensures Lookup(r, "hostname") == Some(hostname)
    ensures Lookup(r, "os") == Some(os)
    ensures Lookup(r, "ram") == Some(ram)
  {
    var r := [("hostname", hostname), ("os", os), ("ram", ram)];
    assert r[1..] == [("os", os), ("ram", ram)] && r[1..][1..] == [("ram", ram)];
    assert "hostname"[0] != "ram"[0] && "os"[0] != "ram"[0] && "hostname"[0] != "os"[0];
    assert Lookup(r[1..][1..], "ram") == Some(ram);
    assert Lookup(r[1..], "ram") == Some(ram);
    r
  }
}
