/** One pass of the body of `run_loop`: the four detectors, in a fixed order,
    each appending to the log as it goes. */
module Scheduler {
  import opened EventStore
  import opened Detectors

  /** What the operating system and the clocks report during one cycle. */
  datatype HostFacts = HostFacts(
    tree: DirectoryTree,           // os.path.exists / os.walk over the sensitive directories
    nowSeconds: int,               // time.time(), in whole seconds
    hour: nat,                     // datetime.now().hour
    partitions: seq<Partition>,    // psutil.disk_partitions()
    processes: seq<ProcessEntry>,  // psutil.process_iter(['pid', 'name'])
    at: Timestamp,                 // datetime.now(), stamped on every row
    user: string                   // getpass.getuser()
  )

  /** The alerts of one cycle, in the order they are logged. */
  function CycleAlerts(h: HostFacts): seq<Alert>
  {
    FileAccessAlerts(h.tree, h.nowSeconds)
    + OffHourAlerts(h.hour)
    + UsbAlerts(h.partitions)
    + ProcessAlerts(h.processes)
  }

  /** The position of each detector in the cycle. */
  function KindRank(eventType: string): nat
  {
    if eventType == FileAccess then 0
    else if eventType == OffHourAccess then 1
    else if eventType == UsbInserted then 2
    else 3
  }

  /** A cycle logs only the four known kinds, and all file-access alerts come
      first, then the off-hour alert, then the USB alerts, then the process
      alerts. */
  lemma CycleOrder(h: HostFacts)
    ensures forall a :: a in CycleAlerts(h) ==>
              a.eventType in {"File Access", "Off-hour Access", "USB Inserted", "Suspicious Process"}
    ensures forall i, j :: 0 <= i < j < |CycleAlerts(h)| ==>
              KindRank(CycleAlerts(h)[i].eventType) <= KindRank(CycleAlerts(h)[j].eventType)
  {
    var f, o, u, p := FileAccessAlerts(h.tree, h.nowSeconds), OffHourAlerts(h.hour), UsbAlerts(h.partitions), ProcessAlerts(h.processes);
    var c := CycleAlerts(h);
    FileAccessKind(h.tree, h.nowSeconds);
    UsbKind(h.partitions);
    ProcessKind(h.processes);
    var n1, n2, n3 := |f|, |f| + |o|, |f| + |o| + |u|;
    forall i | 0 <= i < |c|
      ensures KindRank(c[i].eventType) == (if i < n1 then 0 else if i < n2 then 1 else if i < n3 then 2 else 3)
      ensures c[i].eventType in {"File Access", "Off-hour Access", "USB Inserted", "Suspicious Process"}
    {
      if i < n1 {
        assert c[i] == f[i] && f[i] in f;
      } else if i < n2 {
        assert c[i] == o[i - n1] && o[i - n1] in o;
      } else if i < n3 {
        assert c[i] == u[i - n2] && u[i - n2] in u;
      } else {
        assert c[i] == p[i - n3] && p[i - n3] in p;
      }
    }
  }

  /** One iteration of `run_loop` (before its sleep): the file, working-hours,
      USB and process detectors, in that order. Earlier rows are kept and
      the cycle's rows follow them. */
  method RunCycle(log: EventLog, h: HostFacts)
    modifies log
    ensures log.rows == old(log.rows) + Stamp(CycleAlerts(h), h.at, h.user)
  {
    ghost var f, o, u, p := FileAccessAlerts(h.tree, h.nowSeconds), OffHourAlerts(h.hour), UsbAlerts(h.partitions), ProcessAlerts(h.processes);
    MonitorFileAccess(log, h.tree, h.nowSeconds, h.at, h.user);
    MonitorWorkingHours(log, h.hour, h.at, h.user);
    LogBatch(old(log.rows), f, o, h.at, h.user);
    MonitorUsbDevices(log, h.partitions, h.at, h.user);
    LogBatch(old(log.rows), f + o, u, h.at, h.user);
    MonitorSuspiciousProcesses(log, h.processes, h.at, h.user);
    LogBatch(old(log.rows), f + o + u, p, h.at, h.user);
  }
}
