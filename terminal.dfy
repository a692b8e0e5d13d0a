/**
 * The terminal panel (src/components/TerminalOutput.tsx). When its
 * `isRunning` property turns true it empties its line list and schedules ten
 * boot lines with `setTimeout`, line i after i * 800 ms. It keeps no timer
 * handles and has no effect cleanup, so nothing it schedules is ever
 * cancelled.
 *
 * Timers are a queue ordered by due time (ties in creation order, as
 * `setTimeout` delivers them) and time passes only through `Advance`, a
 * virtual clock that fires every timer that has come due.
 */
module Terminal {
  import opened Base

  /** A displayed line; `time` is the clock reading when it was added. */
  datatype Line = Line(time: int, level: Level, message: string)

  /** A pending `setTimeout` that will add one line. */
  datatype Timer = Timer(due: int, level: Level, message: string)

  const BootMessages: seq<string> := [
    "=== Starting Tiny Core Linux Emulation ===",
    "GRUB loading...",
    "Loading Linux kernel...",
    "Initializing hardware...",
    "Starting kernel modules",
    "Mounting file systems",
    "Starting system services",
    "Loading desktop environment",
    "System ready - Welcome to Tiny Core Linux!",
    "tc@box:~$ "
  ]

  /** The last boot line is tagged success, all the others info. */
  function BootLevel(index: nat): Level {
    if index == |BootMessages| - 1 then Success else Info
  }

  /** The timers one start schedules from clock reading `start`: line i after i * 800 ms. */
  function BootTimers(start: int): (r: seq<Timer>)
    ensures |r| == |BootMessages| == 10
    ensures forall i :: 0 <= i < |r| ==> r[i] == Timer(start + i * 800, BootLevel(i), BootMessages[i])
  {
    seq(|BootMessages|, i requires 0 <= i < |BootMessages| => Timer(start + i * 800, BootLevel(i), BootMessages[i]))
  }

  ghost predicate Sorted(q: seq<Timer>) {
    forall i, j :: 0 <= i < j < |q| ==> q[i].due <= q[j].due
  }

  /** No timer in the sorted queue `q` is due before `t`. */
  ghost predicate NotBefore(q: seq<Timer>, t: int) {
    q != [] ==> t <= q[0].due
  }

  /** Registering a timer: it goes after every timer due no later than it. */
  function Insert(q: seq<Timer>, t: Timer): (r: seq<Timer>)
    ensures |r| == |q| + 1
    ensures r[0] == t || (q != [] && r[0] == q[0])
  {
    if q == [] || t.due < q[0].due then [t] + q
    else [q[0]] + Insert(q[1..], t)
  }

  /** Registering the timers `ts` in order. */
  function InsertAll(q: seq<Timer>, ts: seq<Timer>): (r: seq<Timer>)
    ensures |r| == |q| + |ts|
    decreases |ts|
  {
    if ts == [] then q else Insert(InsertAll(q, ts[..|ts| - 1]), ts[|ts| - 1])
  }

  /** Registering a timer keeps the queue in due order. */
  lemma {:induction false} InsertSorted(q: seq<Timer>, t: Timer)
    requires Sorted(q)
    ensures Sorted(Insert(q, t))
  {
    if q != [] && t.due >= q[0].due {
      var rest := Insert(q[1..], t);
      var r := [q[0]] + rest;
      InsertSorted(q[1..], t);
      assert q[0].due <= rest[0].due;
      forall i, j | 0 <= i < j < |r| ensures r[i].due <= r[j].due {
        if i > 0 { assert r[i] == rest[i - 1]; }
        assert r[j] == rest[j - 1];
      }
    }
  }

  /** Registering several timers keeps the queue in due order. */
  lemma {:induction false} InsertAllSorted(q: seq<Timer>, ts: seq<Timer>)
    requires Sorted(q)
    ensures Sorted(InsertAll(q, ts))
    decreases |ts|
  {
    if ts != [] {
      InsertAllSorted(q, ts[..|ts| - 1]);
      InsertSorted(InsertAll(q, ts[..|ts| - 1]), ts[|ts| - 1]);
    }
  }

  /** Registering a timer loses nothing and adds nothing else. */
  lemma {:induction false} InsertKeepsAll(q: seq<Timer>, t: Timer)
    ensures multiset(Insert(q, t)) == multiset(q) + multiset{t}
  {
    if q != [] && t.due >= q[0].due {
      InsertKeepsAll(q[1..], t);
      assert q == [q[0]] + q[1..];
    }
  }

  /** The queue after registering `ts` holds exactly the old timers and `ts`. */
  lemma {:induction false} InsertAllKeepsAll(q: seq<Timer>, ts: seq<Timer>)
    ensures multiset(InsertAll(q, ts)) == multiset(q) + multiset(ts)
    decreases |ts|
  {
    if ts != [] {
      var init, last := ts[..|ts| - 1], ts[|ts| - 1];
      var mid := InsertAll(q, init);
      assert InsertAll(q, ts) == Insert(mid, last);
      assert multiset(mid) == multiset(q) + multiset(init) by {
        InsertAllKeepsAll(q, init);
      }
      assert multiset(Insert(mid, last)) == multiset(mid) + multiset{last} by {
        InsertKeepsAll(mid, last);
      }
      assert multiset(ts) == multiset(init) + multiset{last} by {
        assert ts == init + [last];
      }
    }
  }

  /** Registering timers none of which is due before `lb` keeps the queue free of such timers. */
  lemma {:induction false} InsertAllNotBefore(q: seq<Timer>, ts: seq<Timer>, lb: int)
    requires NotBefore(q, lb)
    requires forall i :: 0 <= i < |ts| ==> lb <= ts[i].due
    ensures NotBefore(InsertAll(q, ts), lb)
    decreases |ts|
  {
    if ts != [] {
      InsertAllNotBefore(q, ts[..|ts| - 1], lb);
    }
  }

  /** How many timers at the head of the queue are due by clock reading `t`. */
  function DueCount(q: seq<Timer>, t: int): (k: nat)
    ensures k <= |q|
    ensures forall i :: 0 <= i < k ==> q[i].due <= t
  {
    if q == [] || q[0].due > t then 0 else 1 + DueCount(q[1..], t)
  }

  /** The lines that firing `ts` adds, each stamped with its due time. */
  function AsLines(ts: seq<Timer>): (r: seq<Line>)
    ensures |r| == |ts|
    ensures forall i :: 0 <= i < |ts| ==> r[i] == Line(ts[i].due, ts[i].level, ts[i].message)
  {
    seq(|ts|, i requires 0 <= i < |ts| => Line(ts[i].due, ts[i].level, ts[i].message))
  }

  // ---------------------------------------------------------------- lemmas

  /** Firing the head of the queue `q[k..]`: what is left, and the line it adds. */
  lemma FireHead(q: seq<Timer>, k: nat, target: int)
    requires k < |q| && Sorted(q[k..]) && q[k].due <= target
    ensures q[k..][1..] == q[k + 1..] && Sorted(q[k + 1..]) && NotBefore(q[k + 1..], q[k].due)
    ensures DueCount(q[k..], target) == 1 + DueCount(q[k + 1..], target)
  {
    assert q[k..][1..] == q[k + 1..];
    assert forall i :: k + 1 <= i < |q| ==> q[i] == q[k..][i - k];
  }

  /** The lines shown after firing `q[k]` extend those shown after firing `q[..k]`. */
  lemma ShowNext(shown: seq<Line>, q: seq<Timer>, k: nat)
    requires k < |q|
    ensures shown + AsLines(q[..k]) + [Line(q[k].due, q[k].level, q[k].message)] == shown + AsLines(q[..k + 1])
  {
    assert q[..k + 1] == q[..k] + [q[k]];
  }

  lemma AsLinesAppend(x: seq<Timer>, y: seq<Timer>)
    ensures AsLines(x) + AsLines(y) == AsLines(x + y)
  {
  }

  /** In a sorted queue the due prefix holds exactly the timers due by `t`. */
  lemma {:induction false} DueCountExact(q: seq<Timer>, t: int)
    requires Sorted(q)
    ensures forall i :: 0 <= i < |q| ==> (i < DueCount(q, t) <==> q[i].due <= t)
  {
    if q != [] && q[0].due <= t {
      DueCountExact(q[1..], t);
      forall i | 0 <= i < |q|
        ensures i < DueCount(q, t) <==> q[i].due <= t
      {
        if i > 0 { assert q[i] == q[1..][i - 1]; }
      }
    }
  }

  /**
   * Where a registered timer lands: right after every queued timer due no
   * later than it (the earlier ones, and the ties, which were created first)
   * and, in a sorted queue, right before every timer due after it.
   */
  lemma {:induction false} InsertAfterTies(q: seq<Timer>, t: Timer)
    ensures var j := DueCount(q, t.due);
      && Insert(q, t) == q[..j] + [t] + q[j..]
      && (forall i :: 0 <= i < j ==> q[i].due <= t.due)
      && (Sorted(q) ==> forall i :: j <= i < |q| ==> t.due < q[i].due)
  {
    if q != [] && t.due >= q[0].due {
      var rest := q[1..];
      var j := DueCount(rest, t.due);
      assert Insert(rest, t) == rest[..j] + [t] + rest[j..] by {
        InsertAfterTies(rest, t);
      }
      assert DueCount(q, t.due) == j + 1;
      assert q[..j + 1] == [q[0]] + rest[..j];
      assert q[j + 1..] == rest[j..];
    }
    if Sorted(q) {
      DueCountExact(q, t.due);
    }
  }

  /** The lines a queue will produce gain exactly the registered timer's line. */
  lemma InsertLines(q: seq<Timer>, t: Timer)
    ensures multiset(AsLines(Insert(q, t))) == multiset(AsLines(q)) + multiset{Line(t.due, t.level, t.message)}
  {
    var j := DueCount(q, t.due);
    var front, back := q[..j], q[j..];
    assert Insert(q, t) == front + [t] + back by {
      InsertAfterTies(q, t);
    }
    assert q == front + back;
    LinesOfSplice(front, t, back, Insert(q, t), q);
  }

  /** Splicing a timer into a queue splices its line into the lines. */
  lemma LinesOfSplice(a: seq<Timer>, t: Timer, b: seq<Timer>, spliced: seq<Timer>, joined: seq<Timer>)
    requires spliced == a + [t] + b && joined == a + b
    ensures multiset(AsLines(spliced)) == multiset(AsLines(joined)) + multiset{Line(t.due, t.level, t.message)}
  {
    AsLinesAppend(a + [t], b);
    AsLinesAppend(a, [t]);
    AsLinesAppend(a, b);
  }

  /** The lines a queue will produce after registering `ts`: its own and those of `ts`. */
  lemma {:induction false} InsertAllLines(q: seq<Timer>, ts: seq<Timer>)
    ensures multiset(AsLines(InsertAll(q, ts))) == multiset(AsLines(q)) + multiset(AsLines(ts))
    decreases |ts|
  {
    if ts != [] {
      var init, last := ts[..|ts| - 1], ts[|ts| - 1];
      var mid := InsertAll(q, init);
      var line := Line(last.due, last.level, last.message);
      assert InsertAll(q, ts) == Insert(mid, last);
      assert multiset(AsLines(mid)) == multiset(AsLines(q)) + multiset(AsLines(init)) by {
        InsertAllLines(q, init);
      }
      assert multiset(AsLines(Insert(mid, last))) == multiset(AsLines(mid)) + multiset{line} by {
        InsertLines(mid, last);
      }
      assert multiset(AsLines(ts)) == multiset(AsLines(init)) + multiset{line} by {
        assert ts == init + [last];
        AsLinesAppend(init, [last]);
      }
    }
  }

  /** Every timer in `q` is due by `t`. */
  ghost predicate DueBy(q: seq<Timer>, t: int) {
    forall i :: 0 <= i < |q| ==> q[i].due <= t
  }

  lemma {:induction false} InsertDueBy(q: seq<Timer>, x: Timer, t: int)
    requires DueBy(q, t) && x.due <= t
    ensures DueBy(Insert(q, x), t)
  {
    if q != [] && x.due >= q[0].due {
      InsertDueBy(q[1..], x, t);
    }
  }

  /** Registering timers all due by `t` into a queue all due by `t` keeps it so. */
  lemma {:induction false} InsertAllDueBy(q: seq<Timer>, ts: seq<Timer>, t: int)
    requires DueBy(q, t) && DueBy(ts, t)
    ensures DueBy(InsertAll(q, ts), t)
    decreases |ts|
  {
    if ts != [] {
      InsertAllDueBy(q, ts[..|ts| - 1], t);
      InsertDueBy(InsertAll(q, ts[..|ts| - 1]), ts[|ts| - 1], t);
    }
  }

  /** When every timer is due by `t`, firing up to `t` empties the queue. */
  lemma AllDue(q: seq<Timer>, t: int)
    requires Sorted(q)
    requires DueBy(q, t)
    ensures DueCount(q, t) == |q|
  {
    DueCountExact(q, t);
  }

  /** Boot lines arrive in list order: their due times strictly increase. */
  lemma BootTimersIncrease(start: int)
    ensures forall i, j :: 0 <= i < j < 10 ==> BootTimers(start)[i].due < BootTimers(start)[j].due
  {
    var b := BootTimers(start);
    forall i, j | 0 <= i < j < 10 ensures b[i].due < b[j].due {
      assert i * 800 < j * 800;
    }
  }

  /** Only the last boot line is a success line. */
  lemma BootSuccessIsLast(start: int)
    ensures forall i :: 0 <= i < 10 ==> (BootTimers(start)[i].level == Success <==> i == 9)
  {
  }

  /** A timer due no earlier than everything queued lands at the end. */
  lemma {:induction false} InsertLatest(q: seq<Timer>, t: Timer)
    requires forall i :: 0 <= i < |q| ==> q[i].due <= t.due
    ensures Insert(q, t) == q + [t]
  {
    if q != [] {
      InsertLatest(q[1..], t);
      assert q == [q[0]] + q[1..];
    }
  }

  /** Scheduling the boot into an empty queue leaves the ten timers in list order. */
  lemma {:induction false} BootIntoEmpty(start: int, n: nat)
    requires n <= 10
    ensures InsertAll([], BootTimers(start)[..n]) == BootTimers(start)[..n]
  {
    if n > 0 {
      var b := BootTimers(start);
      assert b[..n][..n - 1] == b[..n - 1];
      BootIntoEmpty(start, n - 1);
      BootTimersIncrease(start);
      InsertLatest(b[..n - 1], b[n - 1]);
      assert b[..n - 1] + [b[n - 1]] == b[..n];
    }
  }

  lemma StartFromEmpty(start: int)
    ensures InsertAll([], BootTimers(start)) == BootTimers(start)
  {
    BootIntoEmpty(start, 10);
    assert BootTimers(start)[..10] == BootTimers(start);
  }

  /**
   * Whatever part of a boot from 0 has been shown, once the clock passes
   * 7200 ms the rest fires, completing the transcript in list order.
   */
  lemma BootCompletes(k: nat, t: int)
    requires k <= 10 && 7200 <= t
    ensures var b := BootTimers(0);
      AsLines(b[..k]) + AsLines(b[k..][..DueCount(b[k..], t)]) == AsLines(b)
  {
    var b := BootTimers(0);
    var q := b[k..];
    assert DueCount(q, t) == |q| by {
      BootTimersIncrease(0);
      assert Sorted(q);
      forall i | 0 <= i < |q| ensures q[i].due <= t {
        assert q[i] == b[k + i];
      }
      AllDue(q, t);
    }
    assert q[..|q|] == q;
    AsLinesAppend(b[..k], q);
    assert b[..k] + q == b;
  }

  /**
   * From a fresh start at `start`, the boot lines fired by `start + t` are
   * exactly those whose index i has i * 800 <= t.
   */
  lemma BootEmittedBy(start: int, t: nat)
    ensures forall i :: 0 <= i < 10 ==> (i < DueCount(BootTimers(start), start + t) <==> i * 800 <= t)
    ensures DueCount(BootTimers(start), start + t) == if t / 800 < 10 then t / 800 + 1 else 10
  {
    var b := BootTimers(start);
    BootTimersIncrease(start);
    DueCountExact(b, start + t);
    var k := DueCount(b, start + t);
    var m := if t / 800 < 10 then t / 800 + 1 else 10;
    assert t == (t / 800) * 800 + t % 800;
    if m < 10 {
      assert m * 800 > t;
      assert b[m].due == start + m * 800;
      assert !(m < k);
    }
    if k < 10 {
      assert b[k].due == start + k * 800;
      assert k * 800 > t;
    }
  }

  // ---------------------------------------------------------------- the component

  class TerminalOutput {
    /** The `isRunning` property last seen by the effect. */
    var isRunning: bool
    var lines: seq<Line>
    /** Scheduled timers, in the order they will fire. */
    var pending: seq<Timer>
    /** The virtual clock, in milliseconds since the page loaded. */
    var now: int

    ghost predicate Valid()
      reads this
    {
      Sorted(pending) && NotBefore(pending, now)
    }

    constructor ()
      ensures Valid()
      ensures !isRunning && lines == [] && pending == [] && now == 0
    {
      isRunning, lines, pending, now := false, [], [], 0;
    }

    /** `addLine`: appends one line stamped with the current clock. */
    method AddLine(level: Level, message: string)
      modifies this`lines
      ensures lines == old(lines) + [Line(now, level, message)]
    {
      lines := lines + [Line(now, level, message)];
    }

    /**
     * The `[isRunning]` effect, run when the property changes. Turning true
     * empties the lines and schedules the boot; turning false does nothing,
     * and in particular cancels nothing.
     */
    method SetRunning(running: bool)
      requires Valid()
      modifies this
      ensures Valid()
      ensures isRunning == running && now == old(now)
      ensures running && !old(isRunning) ==> lines == [] && pending == InsertAll(old(pending), BootTimers(now))
      ensures !(running && !old(isRunning)) ==> lines == old(lines) && pending == old(pending)
    {
      if running == isRunning {
        return;
      }
      isRunning := running;
      if running {
        lines := [];
        ScheduleBoot();
      }
    }

    /** The `bootMessages.forEach`: one `setTimeout` per boot line. */
    method ScheduleBoot()
      requires Valid()
      modifies this`pending
      ensures Valid()
      ensures pending == InsertAll(old(pending), BootTimers(now))
    {
      var boot := BootTimers(now);
      var p := pending;
      for i := 0 to |boot|
        invariant p == InsertAll(pending, boot[..i])
        modifies {}
      {
        assert boot[..i + 1][..i] == boot[..i];
        p := Insert(p, boot[i]);
      }
      assert boot[..|boot|] == boot;
      InsertAllNotBefore(pending, boot, now);
      InsertAllSorted(pending, boot);
      pending := p;
    }

    /** Lets `dt` ms pass, firing every timer that comes due, in order. */
    method Advance(dt: nat)
      requires Valid()
      modifies this`lines, this`pending, this`now
      ensures Valid()
      ensures isRunning == old(isRunning) && now == old(now) + dt
      ensures var k := DueCount(old(pending), old(now) + dt);
        && lines == old(lines) + AsLines(old(pending)[..k])
        && pending == old(pending)[k..]
    {
      var target := now + dt;
      ghost var q := pending;
      ghost var k := 0;
      var p, shown, clock := pending, lines, now;
      while p != [] && p[0].due <= target
        invariant 0 <= k <= |q| && p == q[k..]
        invariant shown == old(lines) + AsLines(q[..k])
        invariant DueCount(q, target) == k + DueCount(p, target)
        invariant Sorted(p) && NotBefore(p, clock) && clock <= target
        modifies {}
        decreases |p|
      {
        // each due callback runs at its own due time and appends its line
        var t := p[0];
        FireHead(q, k, target);
        ShowNext(old(lines), q, k);
        p, clock := p[1..], t.due;
        shown := shown + [Line(clock, t.level, t.message)];
        k := k + 1;
      }
      pending, lines := p, shown;
      now := target;
    }
  }

  // ---------------------------------------------------------------- scenarios

  /**
   * Start, pause at 500 ms, wait 10 s: pausing cancels nothing, so the whole
   * boot transcript still appears, in order.
   */
  method PauseDoesNotCancelBoot() returns (shown: seq<Line>)
    ensures |shown| == 10
    ensures forall i :: 0 <= i < 10 ==> shown[i] == Line(i * 800, BootLevel(i), BootMessages[i])
  {
    var term := StartThenPauseAt(500);
    assert DueCount(BootTimers(0), 500) == 1 by { BootEmittedBy(0, 500); }
    term.Advance(10000);
    shown := term.lines;
    assert shown == AsLines(BootTimers(0)) by { BootCompletes(1, 10500); }
  }

  /** Start at 0 and pause at `t`: the boot lines due by then are shown, the rest stay pending. */
  method StartThenPauseAt(t: nat) returns (term: TerminalOutput)
    ensures fresh(term) && term.Valid()
    ensures !term.isRunning && term.now == t
    ensures var k := DueCount(BootTimers(0), t);
      term.lines == AsLines(BootTimers(0)[..k]) && term.pending == BootTimers(0)[k..]
  {
    term := new TerminalOutput();
    term.SetRunning(true);
    assert term.pending == BootTimers(0) by { StartFromEmpty(0); }
    term.Advance(t);
    term.SetRunning(false);
  }

  /**
   * Restarting at `s1` a boot started at `s0` of which `k` lines have fired:
   * the queue holds the stale timers beside the ten new ones, and all of them
   * are due by the time the new boot completes.
   */
  lemma RestartQueueAllDue(s0: int, k: nat, s1: int, t: int, q: seq<Timer>)
    requires k <= 10 && s0 <= s1 && s1 + 7200 <= t
    requires q == InsertAll(BootTimers(s0)[k..], BootTimers(s1))
    ensures |q| == 20 - k && DueCount(q, t) == |q| && Sorted(q)
  {
    var b, c := BootTimers(s0), BootTimers(s1);
    assert Sorted(b[k..]) by {
      BootTimersIncrease(s0);
      forall i, j | 0 <= i < j < |b[k..]| ensures b[k..][i].due <= b[k..][j].due {
        assert b[k..][i] == b[k + i] && b[k..][j] == b[k + j];
      }
    }
    assert Sorted(q) by {
      InsertAllSorted(b[k..], c);
    }
    assert DueBy(q, t) by {
      forall i | 0 <= i < |b[k..]| ensures b[k..][i].due <= t {
        assert b[k..][i] == b[k + i];
      }
      assert DueBy(c, t);
      InsertAllDueBy(b[k..], c, t);
    }
    AllDue(q, t);
  }

  /** The stale first-boot timers are in that queue, with their first-boot due times. */
  lemma RestartQueueHoldsStale(k: nat, s1: int, q: seq<Timer>)
    requires k <= 10
    requires q == InsertAll(BootTimers(0)[k..], BootTimers(s1))
    ensures forall i :: k <= i < 10 ==> Line(i * 800, BootLevel(i), BootMessages[i]) in AsLines(q)
  {
    var b := BootTimers(0);
    InsertAllKeepsAll(b[k..], BootTimers(s1));
    forall i | k <= i < 10 ensures Line(i * 800, BootLevel(i), BootMessages[i]) in AsLines(q) {
      assert b[i] in multiset(q) by {
        assert b[i] == b[k..][i - k];
      }
      var j :| 0 <= j < |q| && q[j] == b[i];
      assert AsLines(q)[j] == Line(i * 800, BootLevel(i), BootMessages[i]);
    }
  }

  /**
   * Once the new boot completes, everything in that queue has fired into the
   * cleared transcript, in time order: the stale lines and the ten new ones,
   * and nothing else.
   */
  lemma RestartShown(k: nat, s1: int, t: int, q: seq<Timer>, shown: seq<Line>)
    requires k <= 10 && 0 <= s1 && s1 + 7200 <= t
    requires q == InsertAll(BootTimers(0)[k..], BootTimers(s1))
    requires shown == AsLines(q[..DueCount(q, t)])
    ensures |shown| == 20 - k
    ensures forall i :: k <= i < 10 ==> Line(i * 800, BootLevel(i), BootMessages[i]) in shown
    ensures multiset(shown) == multiset(AsLines(BootTimers(0)[k..])) + multiset(AsLines(BootTimers(s1)))
    ensures forall i, j :: 0 <= i < j < |shown| ==> shown[i].time <= shown[j].time
  {
    RestartQueueAllDue(0, k, s1, t, q);
    assert shown == AsLines(q) by {
      assert q[..|q|] == q;
    }
    RestartQueueHoldsStale(k, s1, q);
    InsertAllLines(BootTimers(0)[k..], BootTimers(s1));
  }

  /**
   * Start at 0, pause at `pauseAt`, start again and wait until the new boot
   * completes: the restart clears the lines, but the first-boot timers still
   * pending fire into the new transcript, stamped with their first-boot times,
   * next to the ten new ones.
   */
  method RestartAfterPause(pauseAt: nat, wait: nat) returns (shown: seq<Line>)
    requires 7200 <= wait
    ensures var k := DueCount(BootTimers(0), pauseAt);
      && |shown| == 20 - k
      && (forall i :: k <= i < 10 ==> Line(i * 800, BootLevel(i), BootMessages[i]) in shown)
      && multiset(shown) == multiset(AsLines(BootTimers(0)[k..])) + multiset(AsLines(BootTimers(pauseAt)))
    ensures forall i, j :: 0 <= i < j < |shown| ==> shown[i].time <= shown[j].time
  {
    var term := StartThenPauseAt(pauseAt);
    ghost var k := DueCount(BootTimers(0), pauseAt);
    term.SetRunning(true);
    ghost var q, t := term.pending, term.now + wait;
    term.Advance(wait);
    shown := term.lines;
    assert shown == AsLines(q[..DueCount(q, t)]);
    RestartShown(k, pauseAt, t, q, shown);
  }

  /**
   * Start, pause after 1 s (two lines shown), start again: eight stale
   * first-boot lines join the ten new ones.
   */
  method RestartKeepsStaleTimers() returns (shown: seq<Line>)
    ensures |shown| == 18
    ensures forall i :: 2 <= i < 10 ==> Line(i * 800, BootLevel(i), BootMessages[i]) in shown
    ensures multiset(shown) == multiset(AsLines(BootTimers(0)[2..])) + multiset(AsLines(BootTimers(1000)))
    ensures forall i, j :: 0 <= i < j < |shown| ==> shown[i].time <= shown[j].time
  {
    shown := RestartAfterPause(1000, 19000);
    assert DueCount(BootTimers(0), 1000) == 2 by { BootEmittedBy(0, 1000); }
  }
}
