/** The four detectors of INTD.py. Each is given the host facts it would
    otherwise read from the operating system, decides which of them to
    report with a small predicate, and calls `log_event` once per report.
    The pure functions say which alerts a detector produces; the methods
    append to the log (the file, USB and process detectors by a loop over
    their facts, the working-hours detector by at most one call), and are
    proved to append exactly those alerts. */
module Detectors {
  import opened Text
  import opened Selection
  import opened EventStore

  // Configuration hard-coded in INTD.py.
  const SensitiveDirs: seq<string> := ["C:/Users/Public/Documents", "C:/ImportantData"]
  const WorkStart: nat := 9
  const WorkEnd: nat := 18
  const SuspiciousNames: seq<string> := ["cmd.exe", "powershell.exe", "taskkill.exe"]
  /** A file counts as just accessed when its access time is less than this many seconds ago. */
  const RecencyWindow: int := 60

  // The `event_type` strings passed to `log_event`.
  const FileAccess: string := "File Access"
  const OffHourAccess: string := "Off-hour Access"
  const UsbInserted: string := "USB Inserted"
  const SuspiciousProcess: string := "Suspicious Process"

  predicate AllOfKind(alerts: seq<Alert>, kind: string)
  {
    forall a :: a in alerts ==> a.eventType == kind
  }

  // ---------------------------------------------------------------------
  // File access

  /** What `os.path.getatime` gives for a file: its last access time in
      whole seconds, or an exception. */
  datatype AccessTime = Unreadable | ReadAt(seconds: int)

  /** A file found by the recursive walk, with its full path. */
  datatype FileFact = FileFact(path: string, accessTime: AccessTime)

  /** The directories that exist, each with every file the recursive walk
      below it yields, in walk order. A directory missing from the map does
      not exist. */
  type DirectoryTree = map<string, seq<FileFact>>

  predicate AccessedRecently(f: FileFact, now: int)
  {
    f.accessTime.ReadAt? && now - f.accessTime.seconds < RecencyWindow
  }

  function RecentTest(now: int): FileFact -> bool
  {
    f => AccessedRecently(f, now)
  }

  function FileAlert(f: FileFact): Alert
  {
    Alert(FileAccess, "Accessed: " + f.path)
  }

  /** Alerts for the files of one directory. */
  function FileAlerts(files: seq<FileFact>, now: int): seq<Alert>
  {
    Select(files, RecentTest(now), FileAlert)
  }

  /** Alerts for the directories `dirs`, in order; missing ones give none. */
  function DirAlerts(dirs: seq<string>, tree: DirectoryTree, now: int): seq<Alert>
    decreases |dirs|
  {
    if |dirs| == 0 then []
    else
      var last := dirs[|dirs| - 1];
      DirAlerts(dirs[..|dirs| - 1], tree, now) + (if last in tree then FileAlerts(tree[last], now) else [])
  }

  lemma DirAlertsSnoc(dirs: seq<string>, d: nat, tree: DirectoryTree, now: int)
    requires d < |dirs|
    ensures DirAlerts(dirs[..d + 1], tree, now) ==
            DirAlerts(dirs[..d], tree, now) + (if dirs[d] in tree then FileAlerts(tree[dirs[d]], now) else [])
  {
    assert dirs[..d + 1][..d] == dirs[..d];
  }

  /** Everything `monitor_file_access` logs in one call. */
  function FileAccessAlerts(tree: DirectoryTree, now: int): seq<Alert>
  {
    DirAlerts(SensitiveDirs, tree, now)
  }

  lemma FileAlertsSnoc(files: seq<FileFact>, i: nat, now: int)
    requires i < |files|
    ensures FileAlerts(files[..i + 1], now) ==
            FileAlerts(files[..i], now) + (if AccessedRecently(files[i], now) then [FileAlert(files[i])] else [])
  {
    assert files[..i + 1] == files[..i] + [files[i]];
    SelectSnoc(files[..i], files[i], RecentTest(now), FileAlert);
  }

  lemma FileAlertsMember(files: seq<FileFact>, now: int, a: Alert)
    ensures a in FileAlerts(files, now) <==> exists f :: f in files && AccessedRecently(f, now) && a == FileAlert(f)
  {
    SelectMember(files, RecentTest(now), FileAlert, a);
    if exists f :: f in files && AccessedRecently(f, now) && a == FileAlert(f) {
      var f :| f in files && AccessedRecently(f, now) && a == FileAlert(f);
      var i :| 0 <= i < |files| && files[i] == f;
      assert RecentTest(now)(files[i]);
    }
  }

  lemma {:induction false} DirAlertsMember(dirs: seq<string>, tree: DirectoryTree, now: int, a: Alert)
    ensures a in DirAlerts(dirs, tree, now) <==>
              exists d, f :: d in dirs && d in tree && f in tree[d] && AccessedRecently(f, now) && a == FileAlert(f)
    decreases |dirs|
  {
    if |dirs| > 0 {
      var front, last := dirs[..|dirs| - 1], dirs[|dirs| - 1];
      DirAlertsMember(front, tree, now, a);
      assert dirs == front + [last];
      if last in tree {
        FileAlertsMember(tree[last], now, a);
      }
    }
  }

  /** A "File Access" alert for path p is logged exactly when some existing
      sensitive directory holds a file at p whose access time could be read
      and lies less than 60 seconds before `now` (or after it). Unreadable
      files and missing directories give nothing. */
  lemma FileAccessRule(tree: DirectoryTree, now: int, a: Alert)
    ensures a in FileAccessAlerts(tree, now) <==>
              exists d, f :: d in SensitiveDirs && d in tree && f in tree[d]
                             && f.accessTime.ReadAt? && f.accessTime.seconds > now - 60
                             && a == Alert("File Access", "Accessed: " + f.path)
  {
    DirAlertsMember(SensitiveDirs, tree, now, a);
    if a in FileAccessAlerts(tree, now) {
      var d, f :| d in SensitiveDirs && d in tree && f in tree[d] && AccessedRecently(f, now) && a == FileAlert(f);
      assert f.accessTime.seconds > now - 60;
    }
    if exists d, f :: d in SensitiveDirs && d in tree && f in tree[d]
                      && f.accessTime.ReadAt? && f.accessTime.seconds > now - 60
                      && a == Alert("File Access", "Accessed: " + f.path) {
      var d, f :| d in SensitiveDirs && d in tree && f in tree[d]
                  && f.accessTime.ReadAt? && f.accessTime.seconds > now - 60
                  && a == Alert("File Access", "Accessed: " + f.path);
      assert AccessedRecently(f, now) && a == FileAlert(f);
    }
  }

  /** One alert per recently accessed file of a directory, in walk order:
      the k-th alert names the k-th such file. */
  lemma FileAlertsCount(files: seq<FileFact>, now: int)
    ensures |FileAlerts(files, now)| ==
              |set i: nat | i < |files| && files[i].accessTime.ReadAt? && now - files[i].accessTime.seconds < 60|
    ensures var idx := KeptIndices(files, RecentTest(now));
            && |FileAlerts(files, now)| == |idx|
            && (forall k :: 0 <= k < |idx| ==>
                  FileAlerts(files, now)[k] == Alert("File Access", "Accessed: " + files[idx[k]].path))
            && (forall k, l :: 0 <= k < l < |idx| ==> idx[k] < idx[l])
            && (forall i :: 0 <= i < |files| ==>
                  (i in idx <==> files[i].accessTime.ReadAt? && now - files[i].accessTime.seconds < 60))
  {
    SelectCount(files, RecentTest(now), FileAlert);
    SelectIndexed(files, RecentTest(now), FileAlert);
    assert KeptSet(files, RecentTest(now)) ==
           set i: nat | i < |files| && files[i].accessTime.ReadAt? && now - files[i].accessTime.seconds < 60;
  }

  lemma FileAccessKind(tree: DirectoryTree, now: int)
    ensures AllOfKind(FileAccessAlerts(tree, now), FileAccess)
  {
    forall a | a in FileAccessAlerts(tree, now)
      ensures a.eventType == FileAccess
    {
      FileAccessRule(tree, now, a);
    }
  }

  /** The file-access detail names the file. */
  lemma FileDetailNamesPath(f: FileFact)
    ensures Contains(FileAlert(f).details, f.path)
  {
    ContainsPart("Accessed: ", f.path, "");
    assert "Accessed: " + f.path + "" == FileAlert(f).details;
  }

  /** The inner loop of `monitor_file_access` over the files of one
      existing directory: read each access time and log the file if it
      falls in the window; a file whose access time cannot be read is passed
      over and the loop goes on. */
  method MonitorDirectory(log: EventLog, files: seq<FileFact>, now: int, at: Timestamp, user: string)
    modifies log
    ensures log.rows == old(log.rows) + Stamp(FileAlerts(files, now), at, user)
  {
    var i := 0;
    while i < |files|
      invariant 0 <= i <= |files|
      invariant log.rows == old(log.rows) + Stamp(FileAlerts(files[..i], now), at, user)
    {
      var f := files[i];
      FileAlertsSnoc(files, i, now);
      match f.accessTime {
        case Unreadable =>
        case ReadAt(t) =>
          if now - t < RecencyWindow {
            log.LogEvent(at, user, FileAccess, "Accessed: " + f.path);
            LogOneMore(old(log.rows), FileAlerts(files[..i], now), FileAlert(f), at, user);
          }
      }
      i := i + 1;
    }
    assert files[..i] == files;
  }

  /** `monitor_file_access`: the sensitive directories in order; those that
      do not exist are passed over. */
  method MonitorFileAccess(log: EventLog, tree: DirectoryTree, now: int, at: Timestamp, user: string)
    modifies log
    ensures log.rows == old(log.rows) + Stamp(FileAccessAlerts(tree, now), at, user)
  {
    var d := 0;
    while d < |SensitiveDirs|
      invariant 0 <= d <= |SensitiveDirs|
      invariant log.rows == old(log.rows) + Stamp(DirAlerts(SensitiveDirs[..d], tree, now), at, user)
    {
      var dir := SensitiveDirs[d];
      DirAlertsSnoc(SensitiveDirs, d, tree, now);
      if dir in tree {
        ghost var done := DirAlerts(SensitiveDirs[..d], tree, now);
        MonitorDirectory(log, tree[dir], now, at, user);
        LogBatch(old(log.rows), done, FileAlerts(tree[dir], now), at, user);
      } else {
        assert DirAlerts(SensitiveDirs[..d + 1], tree, now) == DirAlerts(SensitiveDirs[..d], tree, now) + [];
      }
      d := d + 1;
    }
    assert SensitiveDirs[..d] == SensitiveDirs;
  }

  // ---------------------------------------------------------------------
  // Working hours

  /** Outside the working day `[9, 18)` of the local 24-hour clock. */
  predicate IsOffHour(hour: nat)
  {
    hour < WorkStart || hour >= WorkEnd
  }

  /** Everything `monitor_working_hours` logs at hour `hour`. */
  function OffHourAlerts(hour: nat): seq<Alert>
  {
    if IsOffHour(hour) then [Alert(OffHourAccess, "Accessed system at " + NatToString(hour) + ":00")] else []
  }

  /** Hours 9 to 17 give nothing; every other hour gives exactly one
      "Off-hour Access" alert whose detail carries that hour in decimal. */
  lemma OffHourRule(hour: nat)
    ensures 9 <= hour <= 17 ==> OffHourAlerts(hour) == []
    ensures !(9 <= hour <= 17) ==> |OffHourAlerts(hour)| == 1 && OffHourAlerts(hour)[0].eventType == "Off-hour Access"
    ensures forall a :: a in OffHourAlerts(hour) ==>
              a.details == "Accessed system at " + NatToString(hour) + ":00"
    ensures forall a :: a in OffHourAlerts(hour) ==>
              exists digits :: |digits| >= 1 && IsDecimal(digits) && (digits[0] == '0' ==> hour == 0)
                               && DecimalValue(digits) == hour
                               && a.details == "Accessed system at " + digits + ":00"
  {
    DecimalRoundTrip(hour);
  }

  /** `monitor_working_hours`. */
  method MonitorWorkingHours(log: EventLog, hour: nat, at: Timestamp, user: string)
    modifies log
    ensures log.rows == old(log.rows) + Stamp(OffHourAlerts(hour), at, user)
  {
    if hour < WorkStart || hour >= WorkEnd {
      log.LogEvent(at, user, OffHourAccess, "Accessed system at " + NatToString(hour) + ":00");
    }
  }

  // ---------------------------------------------------------------------
  // Removable media

  /** One entry of `psutil.disk_partitions()`. */
  datatype Partition = Partition(device: string, opts: string)

  predicate IsRemovable(p: Partition)
  {
    Contains(p.opts, "removable")
  }

  function DeviceOf(p: Partition): string
  {
    p.device
  }

  /** `[d.device for d in partitions if 'removable' in d.opts]`. */
  function RemovableDrives(partitions: seq<Partition>): seq<string>
  {
    Select(partitions, IsRemovable, DeviceOf)
  }

  /** One "USB Inserted" alert per drive, in order. */
  function DriveAlerts(drives: seq<string>): (r: seq<Alert>)
    ensures |r| == |drives|
    ensures forall k :: 0 <= k < |drives| ==> r[k] == Alert(UsbInserted, "Drive: " + drives[k])
    decreases |drives|
  {
    if |drives| == 0 then []
    else DriveAlerts(drives[..|drives| - 1]) + [Alert(UsbInserted, "Drive: " + drives[|drives| - 1])]
  }

  /** Everything `monitor_usb_devices` logs. */
  function UsbAlerts(partitions: seq<Partition>): seq<Alert>
  {
    DriveAlerts(RemovableDrives(partitions))
  }

  /** Exactly one "USB Inserted" alert per partition whose options mention
      `removable`, naming its device, in partition order; none for the
      other partitions. */
  lemma UsbRule(partitions: seq<Partition>)
    ensures var idx := KeptIndices(partitions, IsRemovable);
            && |UsbAlerts(partitions)| == |idx|
            && (forall k :: 0 <= k < |idx| ==>
                  UsbAlerts(partitions)[k] == Alert("USB Inserted", "Drive: " + partitions[idx[k]].device))
            && (forall k, l :: 0 <= k < l < |idx| ==> idx[k] < idx[l])
            && (forall i :: 0 <= i < |partitions| ==>
                  (i in idx <==> exists j :: OccursAt(partitions[i].opts, "removable", j)))
  {
    SelectIndexed(partitions, IsRemovable, DeviceOf);
    var idx := KeptIndices(partitions, IsRemovable);
    forall i | 0 <= i < |partitions|
      ensures i in idx <==> exists j :: OccursAt(partitions[i].opts, "removable", j)
    {
      ContainsIff(partitions[i].opts, "removable");
    }
  }

  /** The USB detector logs only "USB Inserted" rows. */
  lemma UsbKind(partitions: seq<Partition>)
    ensures AllOfKind(UsbAlerts(partitions), UsbInserted)
  {
    var r := UsbAlerts(partitions);
    forall a | a in r
      ensures a.eventType == UsbInserted
    {
      var k :| 0 <= k < |r| && r[k] == a;
    }
  }

  /** `monitor_usb_devices`: list the removable drives, then log each. */
  method MonitorUsbDevices(log: EventLog, partitions: seq<Partition>, at: Timestamp, user: string)
    modifies log
    ensures log.rows == old(log.rows) + Stamp(UsbAlerts(partitions), at, user)
  {
    var drives := RemovableDrives(partitions);
    var i := 0;
    while i < |drives|
      invariant 0 <= i <= |drives|
      invariant log.rows == old(log.rows) + Stamp(DriveAlerts(drives[..i]), at, user)
    {
      log.LogEvent(at, user, UsbInserted, "Drive: " + drives[i]);
      assert drives[..i + 1][..i] == drives[..i];
      LogOneMore(old(log.rows), DriveAlerts(drives[..i]), Alert(UsbInserted, "Drive: " + drives[i]), at, user);
      i := i + 1;
    }
    assert drives[..i] == drives;
  }

  // ---------------------------------------------------------------------
  // Suspicious processes

  /** One entry of `psutil.process_iter(['pid', 'name'])`; `accessible` is
      false when reading it raises NoSuchProcess or AccessDenied. */
  datatype ProcessEntry = ProcessEntry(pid: nat, name: string, accessible: bool)

  /** The lower-cased name is on the denylist (exact match, ignoring case). */
  predicate IsSuspicious(p: ProcessEntry)
  {
    p.accessible && LowerString(p.name) in SuspiciousNames
  }

  function ProcessAlert(p: ProcessEntry): Alert
  {
    Alert(SuspiciousProcess, "Process: " + p.name + " (PID: " + NatToString(p.pid) + ")")
  }

  /** Everything `monitor_suspicious_processes` logs. */
  function ProcessAlerts(processes: seq<ProcessEntry>): seq<Alert>
  {
    Select(processes, IsSuspicious, ProcessAlert)
  }

  /** A "Suspicious Process" alert is logged exactly for the readable
      processes whose lower-cased name is cmd.exe, powershell.exe or
      taskkill.exe; the detail keeps the name as the system reports it. */
  lemma ProcessRule(processes: seq<ProcessEntry>, a: Alert)
    ensures a in ProcessAlerts(processes) <==>
              exists i :: 0 <= i < |processes| && processes[i].accessible
                          && LowerString(processes[i].name) in {"cmd.exe", "powershell.exe", "taskkill.exe"}
                          && a == Alert("Suspicious Process", "Process: " + processes[i].name
                                                              + " (PID: " + NatToString(processes[i].pid) + ")")
  {
    SelectMember(processes, IsSuspicious, ProcessAlert, a);
  }

  /** One alert per matching process, in the order the processes are listed. */
  lemma ProcessCount(processes: seq<ProcessEntry>)
    ensures |ProcessAlerts(processes)| == |set i: nat | i < |processes| && IsSuspicious(processes[i])|
    ensures var idx := KeptIndices(processes, IsSuspicious);
            && |ProcessAlerts(processes)| == |idx|
            && (forall k :: 0 <= k < |idx| ==> ProcessAlerts(processes)[k] == ProcessAlert(processes[idx[k]]))
            && (forall k, l :: 0 <= k < l < |idx| ==> idx[k] < idx[l])
            && (forall i :: 0 <= i < |processes| ==> (i in idx <==> IsSuspicious(processes[i])))
  {
    SelectCount(processes, IsSuspicious, ProcessAlert);
    SelectIndexed(processes, IsSuspicious, ProcessAlert);
    assert KeptSet(processes, IsSuspicious) == set i: nat | i < |processes| && IsSuspicious(processes[i]);
  }

  /** The detail names both the process and its id. */
  lemma ProcessDetailNames(p: ProcessEntry)
    ensures Contains(ProcessAlert(p).details, p.name)
    ensures Contains(ProcessAlert(p).details, NatToString(p.pid))
  {
    var d := ProcessAlert(p).details;
    ContainsPart("Process: ", p.name, " (PID: " + NatToString(p.pid) + ")");
    assert d == "Process: " + p.name + (" (PID: " + NatToString(p.pid) + ")");
    ContainsPart("Process: " + p.name + " (PID: ", NatToString(p.pid), ")");
  }

  lemma ProcessKind(processes: seq<ProcessEntry>)
    ensures AllOfKind(ProcessAlerts(processes), SuspiciousProcess)
  {
    forall a | a in ProcessAlerts(processes)
      ensures a.eventType == SuspiciousProcess
    {
      ProcessRule(processes, a);
    }
  }

  /** `monitor_suspicious_processes`. */
  method MonitorSuspiciousProcesses(log: EventLog, processes: seq<ProcessEntry>, at: Timestamp, user: string)
    modifies log
    ensures log.rows == old(log.rows) + Stamp(ProcessAlerts(processes), at, user)
  {
    var i := 0;
    while i < |processes|
      invariant 0 <= i <= |processes|
      invariant log.rows == old(log.rows) + Stamp(ProcessAlerts(processes[..i]), at, user)
    {
      var p := processes[i];
      assert processes[..i + 1] == processes[..i] + [p];
      SelectSnoc(processes[..i], p, IsSuspicious, ProcessAlert);
      if p.accessible {
        if LowerString(p.name) in SuspiciousNames {
          log.LogEvent(at, user, SuspiciousProcess, "Process: " + p.name + " (PID: " + NatToString(p.pid) + ")");
          LogOneMore(old(log.rows), ProcessAlerts(processes[..i]), ProcessAlert(p), at, user);
        }
      }
      i := i + 1;
    }
    assert processes[..i] == processes;
  }
}
