/**
 * The system monitor panel (src/components/SystemInfo.tsx): a sample of
 * synthetic gauges that a one-second interval updates by a clamped random
 * walk while the emulator runs, and that is reset to a fixed baseline when it
 * stops. Each `Math.random()` call is a parameter drawn from [0, 1), the
 * gauges are exact reals, and the clock is passed in.
 */
module SystemInfo {
  import opened Base
  import opened Decimal

  datatype Stats = Stats(
    cpu: real,
    memory: real,
    disk: real,
    temperature: real,
    networkSpeed: string,
    processes: int,
    uptime: string)

  /** The sample shown before the first tick and whenever the emulator is not running. */
  const Baseline: Stats := Stats(0.0, 0.0, 0.0, 35.0, "0 KB/s", 0, "00:00:00")

  /** The six `Math.random()` results one tick consumes, in source order. */
  datatype Draws = Draws(cpu: real, memory: real, disk: real, temperature: real, network: real, processes: real)

  predicate Unit(r: real) {
    0.0 <= r < 1.0
  }

  /** What `Math.random()` guarantees of each draw. */
  predicate ValidDraws(d: Draws) {
    Unit(d.cpu) && Unit(d.memory) && Unit(d.disk) && Unit(d.temperature) && Unit(d.network) && Unit(d.processes)
  }

  function Max(a: real, b: real): real { if a >= b then a else b }
  function Min(a: real, b: real): real { if a <= b then a else b }

  /** `Math.max(lo, Math.min(hi, x))`. */
  function Clamp(lo: real, hi: real, x: real): (r: real)
    ensures lo <= hi ==> lo <= r <= hi
    ensures lo <= x <= hi ==> r == x
  {
    Max(lo, Min(hi, x))
  }

  /** `(Math.random() - 0.5) * span`: a step in [-span/2, span/2). */
  function Jitter(r: real, span: real): real {
    (r - 0.5) * span
  }

  /** `Math.floor(Math.random() * 1000)`: the KB/s figure. */
  function Kbps(d: Draws): (k: nat)
    requires ValidDraws(d)
    ensures k <= 999
  {
    (d.network * 1000.0).Floor
  }

  /** `Math.floor(120 + Math.random() * 50)`: the process count. */
  function ProcessCount(d: Draws): (n: int)
    requires ValidDraws(d)
    ensures 120 <= n <= 169
  {
    (120.0 + d.processes * 50.0).Floor
  }

  /** A number rendered in decimal and left-padded with zeros to two characters. */
  function Pad2(n: nat): string {
    PadStart(NatToString(n), 2, '0')
  }

  /** Milliseconds since mount as HH:MM:SS (hours may take more than two digits). */
  function Uptime(elapsed: nat): string {
    var hours := elapsed / 3600000;
    var minutes := (elapsed % 3600000) / 60000;
    var seconds := (elapsed % 60000) / 1000;
    ClockText(hours, minutes, seconds)
  }

  /** The template literal joining the three padded fields with colons. */
  function ClockText(hours: nat, minutes: nat, seconds: nat): string {
    Pad2(hours) + ":" + Pad2(minutes) + ":" + Pad2(seconds)
  }

  /**
   * Reading an uptime text back: a digit field of any width, a colon, two
   * digits, a colon, two digits; `None` for text of any other shape.
   */
  function ParseClock(u: string): Option<(nat, nat, nat)> {
    if |u| >= 8 && u[|u| - 6] == ':' && u[|u| - 3] == ':'
       && AllDigits(u[..|u| - 6]) && AllDigits(u[|u| - 5..|u| - 3]) && AllDigits(u[|u| - 2..])
    then Some((Value(u[..|u| - 6]), Value(u[|u| - 5..|u| - 3]), Value(u[|u| - 2..])))
    else None
  }

  /** The interval's state updater: one tick from the previous sample. */
  function Next(prev: Stats, d: Draws, elapsed: nat): Stats
    requires ValidDraws(d)
  {
    Stats(
      cpu := Clamp(5.0, 95.0, prev.cpu + Jitter(d.cpu, 10.0)),
      memory := Clamp(20.0, 80.0, prev.memory + Jitter(d.memory, 5.0)),
      disk := Clamp(10.0, 60.0, prev.disk + Jitter(d.disk, 3.0)),
      temperature := Clamp(35.0, 65.0, prev.temperature + Jitter(d.temperature, 2.0)),
      networkSpeed := NatToString(Kbps(d)) + " KB/s",
      processes := ProcessCount(d),
      uptime := Uptime(elapsed))
  }

  /** Every gauge inside the range the updater clamps it to. */
  predicate InBounds(s: Stats) {
    && 5.0 <= s.cpu <= 95.0
    && 20.0 <= s.memory <= 80.0
    && 10.0 <= s.disk <= 60.0
    && 35.0 <= s.temperature <= 65.0
  }

  datatype Color = Red | Yellow | Plain

  /** `getStatusColor`: the danger threshold is checked before the warning one. */
  function StatusColor(value: real, warn: real, danger: real): (c: Color)
    ensures c == Red <==> danger <= value
    ensures c == Yellow <==> warn <= value < danger
    ensures c == Plain <==> value < warn && value < danger
  {
    if value >= danger then Red else if value >= warn then Yellow else Plain
  }

  // ---------------------------------------------------------------- lemmas

  /** After any tick, from any previous sample, every gauge is within its bounds. */
  lemma NextInBounds(prev: Stats, d: Draws, elapsed: nat)
    requires ValidDraws(d)
    ensures InBounds(Next(prev, d, elapsed))
  {
  }

  /**
   * A gauge already within its bounds moves by at most half its jitter span
   * per tick, whatever the other gauges hold.
   */
  lemma NextStepIsSmall(prev: Stats, d: Draws, elapsed: nat)
    requires ValidDraws(d)
    ensures var r := Next(prev, d, elapsed);
      && (5.0 <= prev.cpu <= 95.0 ==> -5.0 <= r.cpu - prev.cpu <= 5.0)
      && (20.0 <= prev.memory <= 80.0 ==> -2.5 <= r.memory - prev.memory <= 2.5)
      && (10.0 <= prev.disk <= 60.0 ==> -1.5 <= r.disk - prev.disk <= 1.5)
      && (35.0 <= prev.temperature <= 65.0 ==> -1.0 <= r.temperature - prev.temperature <= 1.0)
  {
  }

  /**
   * The first tick after a start, from the baseline: cpu, memory and disk
   * are pulled up to their lower bounds, and temperature, which starts inside
   * its bounds at 35, rises by less than 1.
   */
  lemma FirstTickFromBaseline(d: Draws, elapsed: nat)
    requires ValidDraws(d)
    ensures var r := Next(Baseline, d, elapsed);
      && r.cpu == 5.0 && r.memory == 20.0 && r.disk == 10.0
      && 35.0 <= r.temperature < 36.0
  {
  }

  /** The counters: processes in [120, 169]; the speed reads back as an integer in [0, 999] KB/s. */
  lemma NextCounters(prev: Stats, d: Draws, elapsed: nat)
    requires ValidDraws(d)
    ensures var r := Next(prev, d, elapsed);
      && 120 <= r.processes <= 169
      && |r.networkSpeed| > 5 && r.networkSpeed[|r.networkSpeed| - 5..] == " KB/s"
      && AllDigits(r.networkSpeed[..|r.networkSpeed| - 5])
      && Value(r.networkSpeed[..|r.networkSpeed| - 5]) <= 999
  {
    var s := NatToString(Kbps(d));
    assert (s + " KB/s")[..|s|] == s;
    ValueOfNatToString(Kbps(d));
  }

  /** The milliseconds that whole hours, minutes and seconds stand for. */
  function Millis(h: nat, m: nat, s: nat): nat {
    h * 3600000 + m * 60000 + s * 1000
  }

  lemma MinuteRemainder(x: int, q: int, r: int)
    requires 0 <= r < 60000 && x == q * 60000 + r
    ensures x % 60000 == r
  {
  }

  /** The three uptime fields: whole hours, then minutes and seconds below 60. */
  lemma UptimeArithmetic(elapsed: nat)
    ensures var h, m, s := elapsed / 3600000, (elapsed % 3600000) / 60000, (elapsed % 60000) / 1000;
      && m < 60 && s < 60
      && Millis(h, m, s) <= elapsed < Millis(h, m, s) + 1000
  {
    var h, r := elapsed / 3600000, elapsed % 3600000;
    var m, r2 := r / 60000, r % 60000;
    assert elapsed == h * 3600000 + r && r < 3600000;
    assert r == m * 60000 + r2 && m < 60;
    MinuteRemainder(elapsed, h * 60 + m, r2);
    var s := r2 / 1000;
    assert r2 == s * 1000 + r2 % 1000 && s < 60;
  }

  lemma {:induction false} ShortNumber(n: nat)
    requires n < 100
    ensures |NatToString(n)| <= 2
  {
    if n >= 10 {
      assert NatToString(n) == NatToString(n / 10) + [DigitChar(n % 10)];
    }
  }

  /** A padded field is at least two characters, and exactly two below 100. */
  lemma Pad2Width(n: nat)
    ensures |Pad2(n)| >= 2
    ensures n < 100 ==> |Pad2(n)| == 2
  {
    if n < 100 {
      ShortNumber(n);
    }
  }

  /** Where the three fields and the two colons sit in `hh:mm:ss` with two-character `mm` and `ss`. */
  lemma FieldLayout(hh: string, mm: string, ss: string)
    requires |mm| == 2 && |ss| == 2
    ensures var u := hh + ":" + mm + ":" + ss;
      && |u| == |hh| + 6 && u[|u| - 6] == ':' && u[|u| - 3] == ':'
      && u[..|u| - 6] == hh && u[|u| - 5..|u| - 3] == mm && u[|u| - 2..] == ss
  {
    var u := hh + ":" + mm + ":" + ss;
    var n := |hh|;
    assert u[..n] == hh;
    assert u[n + 1..n + 3] == mm;
    assert u[n + 4..] == ss;
  }

  /** Reading back inverts joining: digit fields of widths at least two, two and two come back out. */
  lemma ParseJoined(hh: string, mm: string, ss: string)
    requires |hh| >= 2 && |mm| == 2 && |ss| == 2
    requires AllDigits(hh) && AllDigits(mm) && AllDigits(ss)
    ensures ParseClock(hh + ":" + mm + ":" + ss) == Some((Value(hh), Value(mm), Value(ss)))
  {
    FieldLayout(hh, mm, ss);
  }

  /** Clock text with minutes and seconds below 100 reads back as the three fields. */
  lemma ClockTextReadsBack(h: nat, m: nat, s: nat)
    requires m < 100 && s < 100
    ensures ParseClock(ClockText(h, m, s)) == Some((h, m, s))
  {
    Pad2Width(h);
    Pad2Width(m);
    Pad2Width(s);
    PaddedValue(h, 2);
    PaddedValue(m, 2);
    PaddedValue(s, 2);
    ParseJoined(Pad2(h), Pad2(m), Pad2(s));
  }

  /**
   * Uptime round trip: the text reads back as whole hours elapsed and minute
   * and second fields below 60, and those three fields account for the
   * elapsed time to within the dropped milliseconds.
   */
  lemma UptimeReadsBack(elapsed: nat)
    ensures var r := ParseClock(Uptime(elapsed));
      && r.Some? && r.value.0 == elapsed / 3600000 && r.value.1 < 60 && r.value.2 < 60
      && Millis(r.value.0, r.value.1, r.value.2) <= elapsed < Millis(r.value.0, r.value.1, r.value.2) + 1000
  {
    var h, m, s := elapsed / 3600000, (elapsed % 3600000) / 60000, (elapsed % 60000) / 1000;
    UptimeArithmetic(elapsed);
    assert Uptime(elapsed) == ClockText(h, m, s);
    ClockTextReadsBack(h, m, s);
  }

  /** The updater applied once per tick, oldest tick first. */
  datatype TickInput = TickInput(draws: Draws, elapsed: nat)

  function Run(start: Stats, ticks: seq<TickInput>): Stats
    requires forall i :: 0 <= i < |ticks| ==> ValidDraws(ticks[i].draws)
    decreases |ticks|
  {
    if ticks == [] then start
    else
      var last := ticks[|ticks| - 1];
      Next(Run(start, ticks[..|ticks| - 1]), last.draws, last.elapsed)
  }

  /**
   * From any sample, the baseline included, the gauges are inside their
   * bounds after the first tick and stay there. Over n ticks a gauge that
   * starts inside its bounds moves by at most n times its per-tick step; the
   * baseline's temperature (35) is such a gauge.
   */
  lemma {:induction false} RunStaysBounded(start: Stats, ticks: seq<TickInput>)
    requires forall i :: 0 <= i < |ticks| ==> ValidDraws(ticks[i].draws)
    ensures var r, n := Run(start, ticks), |ticks| as real;
      && (|ticks| > 0 ==> InBounds(r))
      && (5.0 <= start.cpu <= 95.0 ==> -5.0 * n <= r.cpu - start.cpu <= 5.0 * n)
      && (20.0 <= start.memory <= 80.0 ==> -2.5 * n <= r.memory - start.memory <= 2.5 * n)
      && (10.0 <= start.disk <= 60.0 ==> -1.5 * n <= r.disk - start.disk <= 1.5 * n)
      && (35.0 <= start.temperature <= 65.0 ==> -1.0 * n <= r.temperature - start.temperature <= 1.0 * n)
    decreases |ticks|
  {
    if ticks != [] {
      var init := ticks[..|ticks| - 1];
      var last := ticks[|ticks| - 1];
      assert forall i :: 0 <= i < |init| ==> init[i] == ticks[i];
      RunStaysBounded(start, init);
      NextInBounds(Run(start, init), last.draws, last.elapsed);
      NextStepIsSmall(Run(start, init), last.draws, last.elapsed);
    }
  }

  /** A run from the baseline keeps temperature within n degrees of 35 over n ticks. */
  lemma RunFromBaseline(ticks: seq<TickInput>)
    requires forall i :: 0 <= i < |ticks| ==> ValidDraws(ticks[i].draws)
    ensures var r := Run(Baseline, ticks);
      && (|ticks| > 0 ==> InBounds(r))
      && r.temperature <= 35.0 + |ticks| as real
  {
    RunStaysBounded(Baseline, ticks);
  }

  // ---------------------------------------------------------------- the component

  /** The component's `stats` state, the mount-time `startTime` and its interval. */
  class SystemMonitor {
    /** `Date.now()` at mount; never updated afterwards. */
    const startTime: int
    /** The virtual wall clock. */
    var clock: int
    /** The `isRunning` property the effect last ran for. */
    var isRunning: bool
    /** Whether the effect's `setInterval` is live (not yet cleared by its cleanup). */
    var intervalActive: bool
    var stats: Stats

    ghost predicate Valid()
      reads this
    {
      && startTime <= clock
      && intervalActive == isRunning
      && (!isRunning ==> stats == Baseline)
    }

    /** Mount: the initial state, then the effect's first run with `isRunning` false. */
    constructor (mountTime: int)
      ensures Valid()
      ensures startTime == mountTime && clock == mountTime
      ensures !isRunning && stats == Baseline
    {
      startTime := mountTime;
      clock := mountTime;
      isRunning := false;
      intervalActive := false;
      stats := Baseline;
    }

    /**
     * The `[isRunning, startTime]` effect, run when the property changes: the
     * cleanup clears the old interval; stopping resets the sample to the
     * baseline; starting sets up a new interval (the uptime origin stays the
     * mount time).
     */
    method SetRunning(running: bool)
      requires Valid()
      modifies this
      ensures Valid()
      ensures isRunning == running && intervalActive == running && clock == old(clock)
      ensures running && old(isRunning) ==> stats == old(stats)
      ensures !running ==> stats == Baseline
      ensures running && !old(isRunning) ==> stats == Baseline
    {
      if running == isRunning {
        return;
      }
      intervalActive := false;
      isRunning := running;
      if !running {
        stats := Baseline;
        return;
      }
      intervalActive := true;
    }

    /**
     * One interval callback, `dt` ms after the previous event. It updates the
     * sample only while the interval is live, so no tick lands after the
     * emulator stops.
     */
    method Tick(dt: nat, d: Draws)
      requires Valid() && ValidDraws(d)
      modifies this`clock, this`stats
      ensures Valid()
      ensures clock == old(clock) + dt
      ensures intervalActive ==> stats == Next(old(stats), d, old(clock) + dt - startTime)
      ensures intervalActive ==> InBounds(stats)
      ensures !intervalActive ==> stats == old(stats) == Baseline
    {
      if intervalActive {
        var next := Next(stats, d, clock + dt - startTime);
        NextInBounds(stats, d, clock + dt - startTime);
        stats := next;
      }
      clock := clock + dt;
    }
  }
}
