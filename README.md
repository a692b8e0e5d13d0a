# v86 OS Emulator page: session, terminal transcript and system monitor

This project models the three pieces of real logic inside the emulator page, a React
front end that simulates a virtual-machine session without running any emulation:

- **The session controller** (`src/pages/Index.tsx`). The page keeps the selected guest
  id, a running flag and a list of debug-log entries. Six handlers update them: select,
  start, pause, reset, stop and clear-logs. `addDebugLog` is a bounded append.
  The model is module `Session`:
  - `Step` is a pure reference definition of one handler run. `Inv` is the page
    invariant: the log holds at most 51 entries, and the page runs only with a guest
    selected.
  - Class `Controller` holds the three fields. Each handler is a method proved to
    produce exactly `Step` of the old state.
- **The terminal boot transcript** (`src/components/TerminalOutput.tsx`, lines 1–86).
  When `isRunning` turns true the terminal empties its lines and schedules ten boot
  lines with `setTimeout`, line i after i·800 ms. It never cancels a timer.
  The model is module `Terminal`:
  - Class `TerminalOutput` keeps the line list and a queue of pending timers, ordered
    by due time with ties in creation order.
  - `Advance(dt)` is a virtual clock: it fires every timer that has come due, in
    order.
  - Scenario methods show that pausing does not stop the boot, and that a restart
    lets stale timers from the earlier boot fire into the new transcript.
- **The system monitor** (`src/components/SystemInfo.tsx`). While running, a
  one-second interval applies a clamped random walk to four gauges. It also draws a
  process count and a network speed, and formats the uptime as `HH:MM:SS`. When not
  running, the sample resets to a fixed baseline. The model is module `SystemInfo`:
  - The tick updater `Next` is pure. Each `Math.random()` result is a parameter in
    [0, 1), and the gauges are exact reals.
  - `Uptime` renders elapsed milliseconds through the decimal helpers in module
    `Decimal` (`Number#toString`, `padStart`). `ParseClock` reads the text back.
  - Class `SystemMonitor` holds the sample and the interval's lifetime.

Module `Base` holds the shared `Option` type and the log/line levels.

Where the code and the page's own comments or intent disagree, the model follows the
code:

- `addDebugLog` keeps the last 50 *previous* entries and then appends one. The buffer
  therefore holds 51 entries, not the 50 the comment at `src/pages/Index.tsx:37` names
  (`ManyAppendsKeepFiftyOne`).
- The terminal effect has no cleanup, so pausing cancels nothing. All ten boot lines
  appear even after a pause at 500 ms (`PauseDoesNotCancelBoot`). A restart does not
  cancel the first boot's timers either (`RestartKeepsStaleTimers`).
- A timeout fires once its delay has fully elapsed. The tenth line is due at exactly
  7200 ms, so all ten lines are out at 7200 ms (`BootEmittedBy`).
- Reset only logs. The emulator restart it mentions is not implemented.
- `startTime` is taken once, at mount, so uptime counts from mount and not from the
  latest start.

## Model

| member | source | states |
|---|---|---|
| Session.LastEntries | src/pages/Index.tsx:37 | `prev.slice(-n)` for a positive n (the page uses 50) keeps min(|prev|, n) entries, and they are a suffix of `prev` |
| Session.BoundedAppend | src/pages/Index.tsx:37 | the new log has min(old length, 50) + 1 entries, never more than 51; the new entry is last; the survivors are the latest old entries, in order |
| Session.StartWithoutSelection | src/pages/Index.tsx:47-52 | a start with no guest selected (absent or empty id) leaves running and selection unchanged and appends exactly one error entry from EmulatorControls |
| Session.StartWithSelection | src/pages/Index.tsx:53-54 | a start with a guest selected sets running, keeps the selection and appends one info entry naming the guest |
| Session.SelectHalts | src/pages/Index.tsx:40-43 | selecting records the option id, forces running off from any state, and appends the "Operating system selected" entry |
| Session.PauseResetStop | src/pages/Index.tsx:58-79 | pause and stop turn running off, reset leaves it, none of them touches the selection, and each appends its one entry |
| Session.ClearLeavesOne | src/pages/Index.tsx:81-84 | after clearing, the log is exactly the one "Debug logs cleared" entry from DebugPanel |
| Session.StepKeepsInv | src/pages/Index.tsx:25-84 | every handler keeps the log within 51 entries and running only with a guest selected; no handler clears a selection, and a truthy selection stays truthy unless an option with an empty id is chosen |
| Session.OnlyStartRuns | src/pages/Index.tsx:47-56 | the only transition into running is a start with a guest selected |
| Session.ReplayKeepsInv | src/pages/Index.tsx:25-84 | any sequence of handler runs from a state satisfying the invariant keeps it, keeps a selection once made, and keeps it truthy when every chosen option has a non-empty id |
| Session.AppendAllKeepsLatest | src/pages/Index.tsx:30-38 | after any number of appends, none included, the log is exactly the last (at most 51) entries ever written, in order |
| Session.ManyAppendsKeepFiftyOne | src/pages/Index.tsx:37 | from an empty log, more than 51 appends leave exactly 51 entries: the latest 51 |
| Session.Controller.constructor | src/pages/Index.tsx:25-28 | the page starts with no selection, not running and an empty log |
| Session.Controller.AddDebugLog | src/pages/Index.tsx:30-38 | slices then appends; the new log is the bounded append of the new entry, and nothing else changes |
| Session.Controller.HandleOSSelect | src/pages/Index.tsx:40-45 | sets the selection to the id and running to false; the new state is `Step` of the old one |
| Session.Controller.HandleStart | src/pages/Index.tsx:47-56 | running becomes true only when a guest is selected; otherwise only the error is logged; the new state is `Step` of the old one |
| Session.Controller.HandlePause | src/pages/Index.tsx:58-62 | running off, selection kept, one entry logged; the new state is `Step` of the old one |
| Session.Controller.HandleReset | src/pages/Index.tsx:64-70 | only logs: running and selection unchanged; the new state is `Step` of the old one |
| Session.Controller.HandleStop | src/pages/Index.tsx:72-79 | running off, selection kept, one entry logged; the new state is `Step` of the old one |
| Session.Controller.HandleClearLogs | src/pages/Index.tsx:81-84 | the log becomes exactly the "Debug logs cleared" entry; the rest of the state is unchanged |
| Terminal.BootTimers | src/components/TerminalOutput.tsx:27-44 | exactly ten timers; timer i carries message i, is due at start + i·800 and has the boot level of index i |
| Terminal.BootSuccessIsLast | src/components/TerminalOutput.tsx:42 | a boot line is tagged success if and only if it is the last, index 9 |
| Terminal.BootTimersIncrease | src/components/TerminalOutput.tsx:40-44 | boot due times strictly increase with the index, so the lines arrive in list order |
| Terminal.Insert | src/components/TerminalOutput.tsx:41-43 | registering a timeout adds one timer; the new head is either the new timer or the old head |
| Terminal.InsertAfterTies | src/components/TerminalOutput.tsx:41-43 | a registered timer lands right after every queued timer due no later than it, ties included (they were created first), and in a sorted queue right before every timer due after it |
| Terminal.InsertSorted | src/components/TerminalOutput.tsx:41-43 | registering a timeout keeps the queue in due order |
| Terminal.InsertKeepsAll | src/components/TerminalOutput.tsx:41-43 | registering a timeout loses no timer and adds only the new one (as a multiset) |
| Terminal.InsertLines | src/components/TerminalOutput.tsx:41-43 | the lines a queue will produce gain exactly the registered timer's line |
| Terminal.InsertAll | src/components/TerminalOutput.tsx:40-44 | registering several timeouts grows the queue by their number |
| Terminal.InsertAllSorted | src/components/TerminalOutput.tsx:40-44 | registering several timeouts keeps the queue in due order |
| Terminal.InsertAllKeepsAll | src/components/TerminalOutput.tsx:40-44 | the queue afterwards holds exactly the old timers plus the new ones |
| Terminal.InsertAllLines | src/components/TerminalOutput.tsx:40-44 | after registering several timeouts, the queue will produce exactly its old lines plus the new timers' lines |
| Terminal.InsertAllNotBefore | src/components/TerminalOutput.tsx:40-44 | timeouts scheduled from the current clock never land before it |
| Terminal.InsertLatest | src/components/TerminalOutput.tsx:41-43 | a timer due no earlier than every queued one goes last |
| Terminal.BootIntoEmpty | src/components/TerminalOutput.tsx:40-44 | scheduling any prefix of the boot into an empty queue leaves it in list order |
| Terminal.StartFromEmpty | src/components/TerminalOutput.tsx:40-44 | a first start leaves exactly the ten boot timers queued, in list order |
| Terminal.DueCount | src/components/TerminalOutput.tsx:41-43 | the timers counted at the head of the queue are all due by the clock reading |
| Terminal.DueCountExact | src/components/TerminalOutput.tsx:41-43 | in a sorted queue, a timer is in the due prefix if and only if it is due by the clock reading |
| Terminal.InsertAllDueBy | src/components/TerminalOutput.tsx:40-44 | adding timers due by t to a queue due by t keeps every timer due by t |
| Terminal.AllDue | src/components/TerminalOutput.tsx:41-43 | when every timer is due by t, advancing to t fires them all |
| Terminal.AsLines | src/components/TerminalOutput.tsx:9-15 | firing timers yields one line each, in order, with the timer's level and message, stamped with its due time |
| Terminal.AsLinesAppend | src/components/TerminalOutput.tsx:9-15 | the lines of two batches, appended, are the lines of the joined batches |
| Terminal.BootEmittedBy | src/components/TerminalOutput.tsx:40-44 | from a fresh start, boot line i has fired by time t if and only if i·800 ≤ t; the count is min(⌊t/800⌋ + 1, 10) |
| Terminal.BootCompletes | src/components/TerminalOutput.tsx:40-44 | once 7200 ms have passed, whatever was shown plus what fires now is the complete transcript, in order |
| Terminal.TerminalOutput.constructor | src/components/TerminalOutput.tsx:5-7 | the terminal mounts with no lines, no timers and not running |
| Terminal.TerminalOutput.AddLine | src/components/TerminalOutput.tsx:9-15 | appends one line at the end, stamped with the current clock; earlier lines unchanged |
| Terminal.TerminalOutput.SetRunning | src/components/TerminalOutput.tsx:24-47 | turning true empties the lines before any boot line and schedules the ten boot timers; turning false changes neither lines nor timers |
| Terminal.TerminalOutput.ScheduleBoot | src/components/TerminalOutput.tsx:40-44 | the `forEach` adds the ten boot timers to the queue, which stays sorted and not before the clock |
| Terminal.TerminalOutput.Advance | src/components/TerminalOutput.tsx:41-43 | exactly the timers due by the new clock fire, in due order, each appending its line; the rest stay pending |
| Terminal.StartThenPauseAt | src/components/TerminalOutput.tsx:24-47 | after a start at 0 and a pause at t, the due boot lines are shown and the rest are still pending |
| Terminal.PauseDoesNotCancelBoot | src/components/TerminalOutput.tsx:24-47 | a pause at 500 ms stops nothing: ten seconds later all ten boot lines are shown, in order |
| Terminal.RestartQueueAllDue | src/components/TerminalOutput.tsx:24-47 | after a restart, the queue holds the stale timers beside ten new ones, in due order, all due once the new boot completes |
| Terminal.RestartQueueHoldsStale | src/components/TerminalOutput.tsx:24-47 | the stale first-boot timers are still queued after a restart, with their first-boot due times |
| Terminal.RestartShown | src/components/TerminalOutput.tsx:24-47 | once the new boot completes, the transcript holds exactly the stale first-boot lines and the ten new boot lines (20 − k in all, as a multiset), in non-decreasing time order |
| Terminal.RestartAfterPause | src/components/TerminalOutput.tsx:24-47 | start, pause at p, start again and wait out the boot: the transcript is exactly the stale first-boot lines plus the ten new lines stamped p + i·800 (as a multiset), in non-decreasing time order |
| Terminal.RestartKeepsStaleTimers | src/components/TerminalOutput.tsx:24-47 | pausing at 1 s and restarting shows 18 lines in time order: first-boot lines 2 to 9 and the ten new lines from 1000 ms |
| Decimal.NatToString | src/components/SystemInfo.tsx:56 | `toString` gives a non-empty string of digits with no leading zero, one digit exactly below 10 |
| Decimal.ValueOfNatToString | src/components/SystemInfo.tsx:56 | the decimal text of n reads back as n |
| Decimal.PadStart | src/components/SystemInfo.tsx:56 | `padStart` fills on the left up to the width, never truncates, and keeps the original text as a suffix |
| Decimal.PaddedValue | src/components/SystemInfo.tsx:56 | a zero-padded number is still all digits and still reads back as the number |
| SystemInfo.Clamp | src/components/SystemInfo.tsx:59-62 | `Math.max(lo, Math.min(hi, x))` lies in [lo, hi], and equals x when x is already inside |
| SystemInfo.Kbps | src/components/SystemInfo.tsx:63 | the network figure is an integer in [0, 999] |
| SystemInfo.ProcessCount | src/components/SystemInfo.tsx:64 | the process count is an integer in [120, 169] |
| SystemInfo.StatusColor | src/components/SystemInfo.tsx:73-77 | red if and only if value ≥ danger; yellow if and only if warn ≤ value < danger; default otherwise |
| SystemInfo.NextInBounds | src/components/SystemInfo.tsx:59-62 | after any tick, for any previous sample and any draws: cpu in [5, 95], memory in [20, 80], disk in [10, 60], temperature in [35, 65] |
| SystemInfo.NextStepIsSmall | src/components/SystemInfo.tsx:59-62 | a gauge already within its own bounds moves by at most 5 (cpu), 2.5 (memory), 1.5 (disk) or 1 (temperature) per tick, whatever the other gauges hold |
| SystemInfo.FirstTickFromBaseline | src/components/SystemInfo.tsx:59-62 | the first tick from the baseline pulls cpu, memory and disk up to 5, 20 and 10, and moves temperature from 35 to below 36 |
| SystemInfo.NextCounters | src/components/SystemInfo.tsx:63-64 | processes in [120, 169]; the speed text is digits reading at most 999 followed by " KB/s" |
| SystemInfo.UptimeArithmetic | src/components/SystemInfo.tsx:52-55 | minutes and seconds are below 60, and hours·3600000 + minutes·60000 + seconds·1000 ≤ elapsed < that sum + 1000 |
| SystemInfo.Pad2Width | src/components/SystemInfo.tsx:56 | a padded field is at least two characters, and exactly two below 100 |
| SystemInfo.ParseJoined | src/components/SystemInfo.tsx:56 | reading the text back inverts the colon join of the three digit fields |
| SystemInfo.ClockTextReadsBack | src/components/SystemInfo.tsx:56 | the `HH:MM:SS` text of any hours and of minutes and seconds below 100 reads back as those three numbers |
| SystemInfo.UptimeReadsBack | src/components/SystemInfo.tsx:52-56 | the uptime text reads back as whole hours elapsed, minutes and seconds below 60, accounting for the elapsed time to within the dropped milliseconds |
| SystemInfo.RunStaysBounded | src/components/SystemInfo.tsx:49-68 | from any sample, the baseline included, the gauges are in bounds after the first tick and stay there; over n ticks a gauge that starts in its bounds moves by at most n times its per-tick step |
| SystemInfo.RunFromBaseline | src/components/SystemInfo.tsx:36-68 | a run from the baseline is in bounds after its first tick, and after n ticks temperature is at most 35 + n |
| SystemInfo.SystemMonitor.constructor | src/components/SystemInfo.tsx:23-33 | the panel mounts with the baseline sample, not running, and `startTime` fixed at the mount time |
| SystemInfo.SystemMonitor.SetRunning | src/components/SystemInfo.tsx:35-47 | stopping resets the sample to the baseline and clears the interval; starting keeps the baseline, starts the interval and keeps the mount-time origin |
| SystemInfo.SystemMonitor.Tick | src/components/SystemInfo.tsx:49-68 | while the interval is live, a tick replaces the sample by the updater's result (in bounds) with uptime measured from mount; otherwise the sample stays the baseline |

## Left out

- Toasts (`sonner`) and the emulator handle in `src/pages/Index.tsx`. The `if (emulator)` branches of reset and stop only raise a toast.
- Wall-clock timestamps (`toLocaleTimeString`). A debug entry's timestamp is an opaque string the caller passes in. A terminal line is stamped with the virtual clock reading at which it fires.
- The terminal's 100 ms scroll-to-bottom timeout (`src/components/TerminalOutput.tsx:17-21`), its level-to-colour switch and all rendering.
- The second copy of the terminal component at `src/components/TerminalOutput.tsx:87` onwards.
- The `onLog` property passed to the terminal: the component ignores it, so nothing flows from the terminal to the debug log.
- `src/components/EmulatorDisplay.tsx`, `src/App.tsx`, `src/components/DebugPanel.tsx`, `src/components/EmulatorControls.tsx` and `src/components/OSSelector.tsx` are not part of this model. The display's `onLog` calls are covered by `Controller.AddDebugLog`, which accepts any component, level and message.
- React batching and render timing. Handlers and effects run one after another, and the terminal effect runs only when the property actually changes.
- `Math.random()` is replaced by draws in [0, 1) passed as parameters. IEEE-754 rounding and `toFixed` display are not modelled: gauges are exact reals.
- SystemInfo.SystemMonitor.Tick: stands for one interval callback. The 1000 ms cadence of `setInterval` is not modelled, so the caller chooses when ticks happen.
- The clock is monotone: elapsed time is a natural number, so a clock that runs backwards (negative elapsed) is not covered.
- Terminal.TerminalOutput.Advance: fires due timers on local copies and writes the line list once at the end, instead of calling `AddLine` per timer. The lines appended are the same: each line is stamped with its own due time, in firing order.
