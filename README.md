# Insider-threat detection engine: a Dafny model

This project models the detection-and-recording engine of INTD.py, a host
activity monitor. The engine has three parts:

- **Four detectors.** Recent access to files under two sensitive directories,
  activity outside the working day `[9, 18)`, removable drives that are
  mounted, and processes named `cmd.exe`, `powershell.exe` or `taskkill.exe`
  in any case.
- **The `logs` table.** An append-only sequence of rows
  `(timestamp, username, event_type, details)`. `log_event` appends to it. The
  viewer reads at most the 100 latest rows.
- **One polling cycle.** The body of `run_loop` runs the four detectors in a
  fixed order. Each detector logs its events as it finds them.

The operating system is replaced by explicit inputs:

- a directory tree of files with their access times in whole seconds, or
  `Unreadable`;
- the current time in seconds and the current hour;
- the partition list as `(device, opts)` pairs;
- the process list as `(pid, name, accessible)`;
- the instant and the user name stamped on each row.

Modules:

- `Text`: lower-casing, the substring test of Python's `in`, and the decimal
  rendering used in the detail strings. It includes proofs that the scanning
  substring test agrees with the positional definition and that decimal
  rendering round-trips.
- `Selection`: the walk that the file, USB and process detectors perform.
  It is characterised exactly: one item per qualifying fact, in the facts' order, and nothing for
  the other facts.
- `EventStore`: the `Event` row, the `EventLog` class (its `rows` field is the
  table), and the `Recent` query.
- `Detectors`: each rule as a pure function of the facts, plus a method that
  appends to the log (a loop over the facts for the three list detectors; the
  working-hours detector reads one hour and logs at most once). Each method
  is proved to append exactly the function's alerts.
- `Scheduler`: `RunCycle` and the ordering of a cycle's rows.

INTD.py hard-codes the sensitive directories, the working hours and the
denylist (INTD.py:11-12, 61); the model keeps them as constants and has no
start/stop state.

## Model

| member | source | states |
|---|---|---|
| `EventStore.EventLog.LogEvent` | INTD.py:28-34 | appends exactly one row holding the given instant, user, event type and details unchanged; all earlier rows stay as they were |
| `EventStore.Stamp` | INTD.py:31-32 | logging a batch of alerts adds one row per alert in the same order; each row keeps the alert's event type and details unchanged and carries the instant and the user |
| `EventStore.StampConcat` | INTD.py:86-89 | logging two batches one after the other gives the same rows as logging their concatenation |
| `EventStore.Recent` | INTD.py:75 | the query returns exactly min(100, n) rows, ordered latest first; they are drawn from the stored rows (as a sub-multiset); every stored row left out is no later than every row returned |
| `EventStore.RecentAll` | INTD.py:75 | with at most 100 rows stored, the query returns all of them |
| `EventStore.RecentHeadIsLatest` | INTD.py:75 | the first row returned is no earlier than any stored row |
| `EventStore.LatestFirst` | INTD.py:75 | a row appended with a timestamp later than every stored row is the first row the query returns |
| `EventStore.SortDesc` | INTD.py:75 | the ORDER BY puts the rows latest first and neither adds nor drops a row (a permutation) |
| `Detectors.FileAccessRule` | INTD.py:37-48 | a "File Access" alert `Accessed: <path>` is produced iff some sensitive directory exists, holds a file at that path, and that file's access time could be read and is greater than now - 60 (strict; future times qualify); missing directories and unreadable files give nothing |
| `Detectors.FileAlertsCount` | INTD.py:41-46 | a directory's files give exactly as many alerts as there are files with a readable access time less than 60 seconds ago; the k-th alert names the k-th such file in walk order |
| `Detectors.FileDetailNamesPath` | INTD.py:46 | the file-access detail contains the file's path |
| `Detectors.MonitorDirectory` | INTD.py:40-48 | walking one existing directory's files in order appends exactly that directory's file-access alerts after the existing rows; unreadable files are passed over and the walk goes on |
| `Detectors.MonitorFileAccess` | INTD.py:37-48 | walking the sensitive directories in order appends exactly the alerts of `FileAccessAlerts`, stamped, after the existing rows; missing directories add nothing |
| `Detectors.OffHourRule` | INTD.py:50-53 | hours 9 to 17 give no alert; any other hour gives exactly one "Off-hour Access" alert whose detail is `Accessed system at ` followed by the hour in shortest decimal form (no leading zero, as `str(h)`) and `:00`; those digits read back as the hour |
| `Detectors.MonitorWorkingHours` | INTD.py:50-53 | appends exactly the alerts of `OffHourAlerts(hour)` after the existing rows |
| `Detectors.UsbRule` | INTD.py:55-58 | one "USB Inserted" alert `Drive: <device>` per partition whose opts contain `removable`, in partition order; partitions whose opts do not contain it give none |
| `Detectors.DriveAlerts` | INTD.py:57-58 | logging the drive list gives exactly one "USB Inserted" alert per drive, in the list's order, whose detail is `Drive: ` followed by that drive |
| `Detectors.MonitorUsbDevices` | INTD.py:55-58 | building the drive list and then logging each drive appends exactly the alerts of `UsbAlerts` after the existing rows |
| `Detectors.ProcessRule` | INTD.py:60-67 | a "Suspicious Process" alert is produced iff some readable process has a lower-cased name equal to cmd.exe, powershell.exe or taskkill.exe; its detail is `Process: <name> (PID: <pid>)`, with the name in its original case; unreadable processes give nothing |
| `Detectors.ProcessCount` | INTD.py:62-65 | exactly one alert per matching process; the k-th alert is built from the k-th matching process in listing order |
| `Detectors.ProcessDetailNames` | INTD.py:65 | the process detail contains both the process name and its pid in decimal |
| `Detectors.MonitorSuspiciousProcesses` | INTD.py:60-67 | walking the process list appends exactly the alerts of `ProcessAlerts` after the existing rows, skipping unreadable entries |
| `Detectors.FileAccessKind` | INTD.py:46 | the file detector logs only "File Access" rows |
| `Detectors.ProcessKind` | INTD.py:65 | the process detector logs only "Suspicious Process" rows |
| `Detectors.UsbKind` | INTD.py:58 | the USB detector logs only "USB Inserted" rows |
| `Scheduler.CycleOrder` | INTD.py:86-89 | a cycle logs only the four known event types; all file-access rows come first, then the off-hour row, then the USB rows, then the process rows |
| `Scheduler.RunCycle` | INTD.py:86-89 | one cycle keeps every earlier row and appends the file, off-hour, USB and process alerts in that order |
| `Selection.SelectIndexed` | INTD.py:56 | the k-th selected item comes from the k-th qualifying fact; qualifying positions are listed in increasing order and all of them are listed |
| `Selection.SelectMember` | INTD.py:56 | an item is selected iff some qualifying fact produces it |
| `Selection.SelectCount` | INTD.py:56 | the number of selected items equals the number of qualifying facts |
| `Text.LowerString` | INTD.py:64 | `name.lower()` keeps the length, lower-cases each character (ASCII letters only), and leaves no upper-case ASCII letter |
| `Text.ContainsIff` | INTD.py:56 | Python's substring test `p in s` holds iff `p` occurs in `s` at some position |
| `Text.DecimalRoundTrip` | INTD.py:53 | reading back the decimal digits that render an integer gives that integer |
| `Text.NatToStringInjective` | INTD.py:65 | different pids or hours render as different strings |

## Left out

- The tkinter window, the Treeview refresh, the buttons and the message box (INTD.py:71-72, 76-77, 82, 95-123) are presentation only.
- The daemon thread, the endless `while True` loop and `time.sleep(60)` (INTD.py:84-93) are not modelled. The model has one cycle, `Scheduler.RunCycle`. A second `start_monitoring` call starting a second loop is a concurrency matter and is also left out.
- SQLite plumbing is not modelled: `connect`, `commit`, `close` and `CREATE TABLE IF NOT EXISTS` (INTD.py:16-25, 29-30, 33-34, 73-74, 78, 81). The table is the `rows` sequence of `EventLog`, and its durability is not modelled.
- `os.path.exists`, `os.walk`, `os.path.getatime`, `time.time`, `datetime.now`, `getpass.getuser`, `psutil.disk_partitions` and `psutil.process_iter` are inputs, not calls. The model therefore does not capture the order `os.walk` visits files in, or errors it ignores. It also does not capture psutil's behaviour, such as a process name that psutil reports as missing.
- `Scheduler.RunCycle`: one instant and one user are stamped on every row of a cycle. `log_event` reads the clock and the user again for each row.
- `EventStore.Recent`: timestamps are integers ordered like time. The table stores ISO-8601 text and sorts it as text; ISO texts of one format sort in time order. Rows with equal timestamps may come back in any order.
- `Detectors.MonitorFileAccess`: `time.time()` is a float read once per file. The model takes one integer `now` in seconds for the whole walk. The source's `try` also swallows a failing `log_event` for that file. In the model, appending never fails.
- `Text.LowerString`: only ASCII letters are lower-cased, whereas Python's `str.lower()` folds all of Unicode. For example, a name spelled with the Kelvin sign instead of `k` matches `taskkill.exe` in the source but not in the model.
- The hour in `HostFacts` is any natural number. `datetime` only gives 0 to 23.
- Duplicate suppression across cycles, cancellation and configurable directories, hours or denylist are not modelled, because INTD.py has none of them.
