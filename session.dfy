/**
 * The session page controller (src/pages/Index.tsx): which guest operating
 * system is selected, whether the emulator is running, and the bounded
 * debug log that every component writes into.
 *
 * The handlers are first given as a pure transition function `Step` on a
 * `State` value, about which the lemmas below are stated; the class
 * `Controller` then holds the same three pieces of state as fields and
 * updates them in place, each method proved to perform exactly `Step`.
 */
module Session {
  import opened Base

  /** How many previous entries `prev.slice(-50)` keeps before the append. */
  const KeptPrevious: nat := 50

  /** The most entries the log can hold: the kept ones plus the new one. */
  const LogBound: nat := KeptPrevious + 1

  datatype DebugLog = DebugLog(timestamp: string, level: Level, component: string, message: string)

  /** An entry of the operating-system chooser; only its id and name matter here. */
  datatype OSOption = OSOption(id: string, name: string)

  /** The operator's and the components' inputs to the page. */
  datatype Action =
    | SelectOS(os: OSOption)
    | Start
    | Pause
    | Reset
    | Stop
    | ClearLogs
    | Log(component: string, level: Level, message: string)   // `onLog` from another component

  datatype State = State(selectedOS: Option<string>, isRunning: bool, debugLogs: seq<DebugLog>)

  const Initial: State := State(None, false, [])

  /** JavaScript truthiness of `selectedOS`: neither `undefined` nor the empty string. */
  predicate Selected(os: Option<string>) {
    os.Some? && os.value != ""
  }

  /**
   * The last `n` entries of `prev`, or all of them when there are fewer:
   * `prev.slice(-n)` for a positive `n` (`slice(-0)` would keep everything).
   */
  function LastEntries<T>(prev: seq<T>, n: nat): (r: seq<T>)
    requires n > 0
    ensures |r| == if |prev| < n then |prev| else n
    ensures r == prev[|prev| - |r|..]
  {
    if |prev| <= n then prev else prev[|prev| - n..]
  }

  /** `addDebugLog`'s updater: keep the last 50 previous entries, then append. */
  function BoundedAppend(prev: seq<DebugLog>, entry: DebugLog): (r: seq<DebugLog>)
    ensures |r| == (if |prev| < KeptPrevious then |prev| else KeptPrevious) + 1
    ensures |r| <= LogBound
    ensures r[|r| - 1] == entry
    ensures r[..|r| - 1] == prev[|prev| - (|r| - 1)..]
  {
    LastEntries(prev, KeptPrevious) + [entry]
  }

  /** The entry each action appends to the log. */
  function EntryFor(s: State, a: Action, timestamp: string): DebugLog {
    match a
    case SelectOS(os) => DebugLog(timestamp, Info, "OSSelector", "Operating system selected: " + os.name)
    case Start =>
      if Selected(s.selectedOS) then DebugLog(timestamp, Info, "EmulatorControls", "Starting emulator for " + s.selectedOS.value)
      else DebugLog(timestamp, Error, "EmulatorControls", "No operating system selected")
    case Pause => DebugLog(timestamp, Info, "EmulatorControls", "Emulator paused")
    case Reset => DebugLog(timestamp, Info, "EmulatorControls", "Emulator reset requested")
    case Stop => DebugLog(timestamp, Info, "EmulatorControls", "Emulator stopped")
    case ClearLogs => DebugLog(timestamp, Info, "DebugPanel", "Debug logs cleared")
    case Log(component, level, message) => DebugLog(timestamp, level, component, message)
  }

  /** One handler run; `timestamp` is the wall-clock string of the entry it logs. */
  function Step(s: State, a: Action, timestamp: string): State {
    var entry := EntryFor(s, a, timestamp);
    match a
    case SelectOS(os) => State(Some(os.id), false, BoundedAppend(s.debugLogs, entry))
    case Start =>
      if Selected(s.selectedOS) then State(s.selectedOS, true, BoundedAppend(s.debugLogs, entry))
      else s.(debugLogs := BoundedAppend(s.debugLogs, entry))
    case Pause => s.(isRunning := false, debugLogs := BoundedAppend(s.debugLogs, entry))
    case Reset => s.(debugLogs := BoundedAppend(s.debugLogs, entry))
    case Stop => s.(isRunning := false, debugLogs := BoundedAppend(s.debugLogs, entry))
    case ClearLogs => s.(debugLogs := BoundedAppend([], entry))
    case Log(_, _, _) => s.(debugLogs := BoundedAppend(s.debugLogs, entry))
  }

  /** The page's invariant: a bounded log, and running only with a guest selected. */
  predicate Inv(s: State) {
    |s.debugLogs| <= LogBound && (s.isRunning ==> Selected(s.selectedOS))
  }

  /** Handler runs one after another, each with its own timestamp. */
  function Replay(s: State, trace: seq<(Action, string)>): State
    decreases |trace|
  {
    if trace == [] then s
    else var last := trace[|trace| - 1]; Step(Replay(s, trace[..|trace| - 1]), last.0, last.1)
  }

  // ---------------------------------------------------------------- lemmas

  /** A start with no guest selected is refused: only an error entry is logged. */
  lemma StartWithoutSelection(s: State, timestamp: string)
    requires !Selected(s.selectedOS)
    ensures var r := Step(s, Start, timestamp);
      && r.isRunning == s.isRunning && r.selectedOS == s.selectedOS
      && r.debugLogs == BoundedAppend(s.debugLogs, DebugLog(timestamp, Error, "EmulatorControls", "No operating system selected"))
  {
  }

  /** A start with a guest selected runs it, keeps the selection and logs one info entry. */
  lemma StartWithSelection(s: State, timestamp: string)
    requires Selected(s.selectedOS)
    ensures var r := Step(s, Start, timestamp);
      && r.isRunning && r.selectedOS == s.selectedOS
      && r.debugLogs == BoundedAppend(s.debugLogs, DebugLog(timestamp, Info, "EmulatorControls", "Starting emulator for " + s.selectedOS.value))
  {
  }

  /** Selecting a guest records its id and halts the emulator, whatever ran before. */
  lemma SelectHalts(s: State, os: OSOption, timestamp: string)
    ensures var r := Step(s, SelectOS(os), timestamp);
      && r.selectedOS == Some(os.id) && !r.isRunning
      && r.debugLogs == BoundedAppend(s.debugLogs, DebugLog(timestamp, Info, "OSSelector", "Operating system selected: " + os.name))
  {
  }

  /** Pause and stop halt; reset does not; none of the three touches the selection; each logs once. */
  lemma PauseResetStop(s: State, a: Action, timestamp: string)
    requires a.Pause? || a.Reset? || a.Stop?
    ensures var r := Step(s, a, timestamp);
      && r.selectedOS == s.selectedOS
      && r.isRunning == (a.Reset? && s.isRunning)
      && r.debugLogs == BoundedAppend(s.debugLogs, EntryFor(s, a, timestamp))
  {
  }

  /** Clearing leaves exactly one entry: the note that the log was cleared. */
  lemma ClearLeavesOne(s: State, timestamp: string)
    ensures Step(s, ClearLogs, timestamp).debugLogs == [DebugLog(timestamp, Info, "DebugPanel", "Debug logs cleared")]
  {
  }

  /**
   * The chooser offers only options with a non-empty id (`linux-mint`,
   * `windows-10`, `ubuntu`); every other action names no option.
   */
  predicate NamesGuest(a: Action) {
    a.SelectOS? ==> a.os.id != ""
  }

  /**
   * Every handler keeps the invariant, and none clears a selection once made;
   * it stays truthy unless an option with an empty id is chosen.
   */
  lemma StepKeepsInv(s: State, a: Action, timestamp: string)
    requires Inv(s)
    ensures Inv(Step(s, a, timestamp))
    ensures s.selectedOS.Some? ==> Step(s, a, timestamp).selectedOS.Some?
    ensures Selected(s.selectedOS) && NamesGuest(a) ==> Selected(Step(s, a, timestamp).selectedOS)
  {
  }

  /** The only way to become running is a start with a guest selected. */
  lemma OnlyStartRuns(s: State, a: Action, timestamp: string)
    requires !s.isRunning && Step(s, a, timestamp).isRunning
    ensures a == Start && Selected(s.selectedOS)
  {
  }

  /** From any state that satisfies it, any sequence of handler runs keeps the invariant. */
  lemma {:induction false} ReplayKeepsInv(s: State, trace: seq<(Action, string)>)
    requires Inv(s)
    ensures Inv(Replay(s, trace))
    ensures s.selectedOS.Some? ==> Replay(s, trace).selectedOS.Some?
    ensures Selected(s.selectedOS) && (forall i :: 0 <= i < |trace| ==> NamesGuest(trace[i].0))
      ==> Selected(Replay(s, trace).selectedOS)
    decreases |trace|
  {
    if trace != [] {
      var prefix := trace[..|trace| - 1];
      assert forall i :: 0 <= i < |prefix| ==> prefix[i] == trace[i];
      ReplayKeepsInv(s, prefix);
      StepKeepsInv(Replay(s, prefix), trace[|trace| - 1].0, trace[|trace| - 1].1);
    }
  }

  /** Appending the entries `es` one at a time, each through `BoundedAppend`. */
  function AppendAll(prev: seq<DebugLog>, es: seq<DebugLog>): seq<DebugLog>
    decreases |es|
  {
    if es == [] then prev else BoundedAppend(AppendAll(prev, es[..|es| - 1]), es[|es| - 1])
  }

  /**
   * Whatever was appended, the log holds exactly the last (at most 51)
   * entries of everything written to it, in the order they were written.
   */
  lemma {:induction false} AppendAllKeepsLatest(prev: seq<DebugLog>, es: seq<DebugLog>)
    requires |prev| <= LogBound
    ensures AppendAll(prev, es) == LastEntries(prev + es, LogBound)
    decreases |es|
  {
    if es == [] {
      assert prev + es == prev;
      assert LastEntries(prev, LogBound) == prev;
    } else {
      var init, e := es[..|es| - 1], es[|es| - 1];
      var h := prev + init;
      assert prev + es == h + [e];
      AppendAllKeepsLatest(prev, init);
      var b := AppendAll(prev, init);
      assert AppendAll(prev, es) == BoundedAppend(b, e);
      assert b == LastEntries(h, LogBound);
      assert LastEntries(b, KeptPrevious) == LastEntries(h, KeptPrevious);
      LastEntriesSnoc(h, e);
    }
  }

  /** Keeping the last 51 of `h + [e]` is keeping the last 50 of `h`, then `e`. */
  lemma LastEntriesSnoc(h: seq<DebugLog>, e: DebugLog)
    ensures LastEntries(h + [e], LogBound) == LastEntries(h, KeptPrevious) + [e]
  {
    if |h| > KeptPrevious {
      assert (h + [e])[|h| + 1 - LogBound..] == h[|h| - KeptPrevious..] + [e];
    }
  }

  /** So from an empty log, more than 51 appends leave 51 entries: one more than the 50 the page intends. */
  lemma ManyAppendsKeepFiftyOne(es: seq<DebugLog>)
    requires |es| > LogBound
    ensures |AppendAll([], es)| == LogBound
    ensures AppendAll([], es) == es[|es| - LogBound..]
  {
    AppendAllKeepsLatest([], es);
    assert [] + es == es;
  }

  // ---------------------------------------------------------------- the page as an object

  /** The page component's state hooks, updated in place by its handlers. */
  class Controller {
    var selectedOS: Option<string>
    var isRunning: bool
    var debugLogs: seq<DebugLog>

    function Snapshot(): State
      reads this
    {
      State(selectedOS, isRunning, debugLogs)
    }

    ghost predicate Valid()
      reads this
    {
      Inv(Snapshot())
    }

    constructor ()
      ensures Valid() && Snapshot() == Initial
    {
      selectedOS, isRunning, debugLogs := None, false, [];
    }

    /** `addDebugLog`: also the `onLog` callback other components call. */
    method AddDebugLog(component: string, level: Level, message: string, timestamp: string)
      requires Valid()
      modifies this
      ensures Valid()
      ensures selectedOS == old(selectedOS) && isRunning == old(isRunning)
      ensures debugLogs == BoundedAppend(old(debugLogs), DebugLog(timestamp, level, component, message))
      ensures Snapshot() == Step(old(Snapshot()), Log(component, level, message), timestamp)
    {
      var kept := LastEntries(debugLogs, KeptPrevious);
      debugLogs := kept + [DebugLog(timestamp, level, component, message)];
    }

    method HandleOSSelect(os: OSOption, timestamp: string)
      requires Valid()
      modifies this
      ensures Valid()
      ensures selectedOS == Some(os.id) && !isRunning
      ensures Snapshot() == Step(old(Snapshot()), SelectOS(os), timestamp)
    {
      selectedOS := Some(os.id);
      isRunning := false;
      AddDebugLog("OSSelector", Info, "Operating system selected: " + os.name, timestamp);
    }

    method HandleStart(timestamp: string)
      requires Valid()
      modifies this
      ensures Valid()
      ensures selectedOS == old(selectedOS)
      ensures isRunning == (Selected(old(selectedOS)) || old(isRunning))
      ensures Snapshot() == Step(old(Snapshot()), Start, timestamp)
    {
      if selectedOS.None? || selectedOS.value == "" {
        AddDebugLog("EmulatorControls", Error, "No operating system selected", timestamp);
        return;
      }
      isRunning := true;
      AddDebugLog("EmulatorControls", Info, "Starting emulator for " + selectedOS.value, timestamp);
    }

    method HandlePause(timestamp: string)
      requires Valid()
      modifies this
      ensures Valid()
      ensures selectedOS == old(selectedOS) && !isRunning
      ensures Snapshot() == Step(old(Snapshot()), Pause, timestamp)
    {
      isRunning := false;
      AddDebugLog("EmulatorControls", Info, "Emulator paused", timestamp);
    }

    /** Only logs: the emulator restart it would trigger is not implemented. */
    method HandleReset(timestamp: string)
      requires Valid()
      modifies this
      ensures Valid()
      ensures selectedOS == old(selectedOS) && isRunning == old(isRunning)
      ensures Snapshot() == Step(old(Snapshot()), Reset, timestamp)
    {
      AddDebugLog("EmulatorControls", Info, "Emulator reset requested", timestamp);
    }

    method HandleStop(timestamp: string)
      requires Valid()
      modifies this
      ensures Valid()
      ensures selectedOS == old(selectedOS) && !isRunning
      ensures Snapshot() == Step(old(Snapshot()), Stop, timestamp)
    {
      isRunning := false;
      AddDebugLog("EmulatorControls", Info, "Emulator stopped", timestamp);
    }

    /** Empties the log, then the queued updater logs the clearing itself. */
    method HandleClearLogs(timestamp: string)
      requires Valid()
      modifies this
      ensures Valid()
      ensures selectedOS == old(selectedOS) && isRunning == old(isRunning)
      ensures debugLogs == [DebugLog(timestamp, Info, "DebugPanel", "Debug logs cleared")]
      ensures Snapshot() == Step(old(Snapshot()), ClearLogs, timestamp)
    {
      ghost var before := Snapshot();
      var entry := DebugLog(timestamp, Info, "DebugPanel", "Debug logs cleared");
      assert Step(before, ClearLogs, timestamp) == before.(debugLogs := [entry]) by {
        assert EntryFor(before, ClearLogs, timestamp) == entry;
        assert BoundedAppend([], entry) == [entry];
      }
      debugLogs := [];
      AddDebugLog("DebugPanel", Info, "Debug logs cleared", timestamp);
    }
  }
}
