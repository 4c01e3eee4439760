/**
 * The displayed state of the SysGlimpse window: the header's title and
 * description labels and the subtitles of the hostname, operating-system and
 * memory rows. Construction puts up placeholders and then loads the system
 * data; saving a snapshot reads the three subtitles back.
 *
 * The host is passed in: the hostname as returned by the name lookup, each
 * file as its lines (`None` when it is not found), the environment as a map
 * and the home directory as `~` expands.
 */
module Window {
  import opened Wrappers
  import OsRelease
  import MemInfo
  import RamText
  import Snapshot

  const InitialTitle := "System Ready"
  const InitialDescription := "Gathering system telemetry..."
  const LoadingText := "Loading..."
  const CalculatingText := "Calculating..."

  class SysGlimpseWindow {
    var title: string
    var description: string
    var hostnameSubtitle: string
    var osSubtitle: string
    var ramSubtitle: string

    /** `__init__`: the labels start as placeholders and are then loaded, so
        the memory row keeps "Calculating..." when the total read is not
        positive. */
    constructor (hostname: string, osRelease: Option<seq<string>>, meminfo: Option<seq<string>>)
      ensures title == hostname && hostnameSubtitle == hostname
      ensures osSubtitle == OsRelease.OsName(osRelease)
      ensures description == "Running " + OsRelease.OsName(osRelease)
      ensures ramSubtitle == MemInfo.RamSubtitle(MemInfo.MemScanOf(meminfo), CalculatingText)
    {
      title := InitialTitle;
      description := InitialDescription;
      hostnameSubtitle := LoadingText;
      osSubtitle := LoadingText;
      ramSubtitle := CalculatingText;
      new;
      LoadSystemData(hostname, osRelease, meminfo);
    }

    /** `load_system_data`: every label but the memory row is overwritten; the
        memory row is overwritten on an error or a positive total, and keeps
        its text otherwise. */
    method LoadSystemData(hostname: string, osRelease: Option<seq<string>>, meminfo: Option<seq<string>>)
      modifies this
      ensures hostnameSubtitle == hostname && title == hostname
      ensures osSubtitle == OsRelease.OsName(osRelease)
      ensures description == "Running " + OsRelease.OsName(osRelease)
      ensures ramSubtitle == MemInfo.RamSubtitle(MemInfo.MemScanOf(meminfo), old(ramSubtitle))
    {
      hostnameSubtitle := hostname;
      title := hostname;

      var osName := OsRelease.ReadOsName(osRelease);
      osSubtitle := osName;
      description := "Running " + osName;

      var scan := MemInfo.ScanMeminfo(meminfo);
      ghost var prior := ramSubtitle;
      match scan
      case MemError =>
        ramSubtitle := MemInfo.ErrorText;
      case MemRead(total, available) =>
        if total > 0 {
          ramSubtitle := RamText.FormatRam(total - available, total);
        }
        assert ramSubtitle == MemInfo.RamSubtitle(MemInfo.MemRead(total, available), prior);
    }

    /** `save_snapshot` without the I/O: the directory it creates, the file it
        writes and the record it writes there, taken from the three rows. */
    method SaveSnapshot(env: map<string, string>, home: string)
      returns (appDir: string, path: string, record: Snapshot.Record)
      ensures appDir == Snapshot.AppDir(Snapshot.DataHome(env, home))
      ensures path == appDir + "/" + Snapshot.SnapshotFileName
      ensures Snapshot.Keys(record) == ["hostname", "os", "ram"]
      ensures Snapshot.Lookup(record, "hostname") == Some(hostnameSubtitle)
      ensures Snapshot.Lookup(record, "os") == Some(osSubtitle)
      ensures Snapshot.Lookup(record, "ram") == Some(ramSubtitle)
    {
      var base := Snapshot.DataHome(env, home);
      appDir := Snapshot.AppDir(base);
      record := Snapshot.SnapshotRecord(hostnameSubtitle, osSubtitle, ramSubtitle);
      path := Snapshot.SnapshotPath(base);
    }
  }

  /** The application's whole run: open the window, then press "Save
      Snapshot". The record saved holds what was loaded at startup. */
  method StartAndSave(hostname: string, osRelease: Option<seq<string>>, meminfo: Option<seq<string>>,
                      env: map<string, string>, home: string)
    returns (path: string, record: Snapshot.Record)
    ensures path == Snapshot.SnapshotPath(Snapshot.DataHome(env, home))
    ensures Snapshot.Lookup(record, "hostname") == Some(hostname)
    ensures Snapshot.Lookup(record, "os") == Some(OsRelease.OsName(osRelease))
    ensures Snapshot.Lookup(record, "ram") == Some(MemInfo.RamSubtitle(MemInfo.MemScanOf(meminfo), CalculatingText))
    ensures meminfo.None? ==> Snapshot.Lookup(record, "ram") == Some(MemInfo.ErrorText)
  {
    var window := new SysGlimpseWindow(hostname, osRelease, meminfo);
    var appDir;
    appDir, path, record := window.SaveSnapshot(env, home);
  }
}
