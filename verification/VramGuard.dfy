/**
 The VRAM circuit breaker: the scan for the most utilised GPU, the hysteresis
 step, and what both mean over whole runs. Floating-point values are reals.
 */
module VramGuard {
  datatype Config = Config(oomThresholdPct: real, closeThresholdPct: real)

  /** The threshold ordering the process checks at startup. */
  predicate Validated(cfg: Config) {
    0.0 < cfg.oomThresholdPct <= 100.0 && 0.0 < cfg.closeThresholdPct < cfg.oomThresholdPct
  }

  /** The close threshold in effect, with the defaults for a misconfigured one. */
  function CloseThreshold(cfg: Config): real {
    var close := if cfg.closeThresholdPct <= 0.0 then cfg.oomThresholdPct - 5.0 else cfg.closeThresholdPct;
    if close < 0.0 then 0.0 else close
  }

  /** What one reader call returns. */
  datatype Reading = Failed | Reading(used: real, total: real)

  /** What one device contributes to a scan. */
  datatype Gauge = NoReading | Gauge(used: real, total: real)

  predicate Usable(g: Gauge) {
    g.Gauge? && g.total > 0.0
  }

  function Ratio(g: Gauge): real
    requires Usable(g)
  {
    g.used / g.total
  }

  // ---------- The scan ----------

  /** The first gauge of maximal ratio among the usable ones. */
  function Hottest(gs: seq<Gauge>): (r: Reading)
    ensures r.Reading? ==> r.total > 0.0
  {
    if gs == [] then Failed
    else
      var best, last := Hottest(gs[..|gs| - 1]), gs[|gs| - 1];
      if Usable(last) && (best.Failed? || last.used / last.total > best.used / best.total)
      then Reading(last.used, last.total) else best
  }

  /** The i-th gauge is usable, none exceeds it, and none before it equals it. */
  ghost predicate FirstHottest(gs: seq<Gauge>, i: int) {
    && 0 <= i < |gs| && Usable(gs[i])
    && (forall j :: 0 <= j < |gs| && Usable(gs[j]) ==> gs[j].used / gs[j].total <= gs[i].used / gs[i].total)
    && (forall j :: 0 <= j < i && Usable(gs[j]) ==> gs[j].used / gs[j].total < gs[i].used / gs[i].total)
  }

  /** The scan returns the first of the most utilised gauges. */
  lemma {:induction false} HottestIsFirst(gs: seq<Gauge>) returns (i: int)
    requires Hottest(gs).Reading?
    ensures FirstHottest(gs, i) && gs[i] == Gauge(Hottest(gs).used, Hottest(gs).total)
  {
    var n := |gs| - 1;
    var init := gs[..n];
    HottestIsMaximal(init);
    assert forall j :: 0 <= j < n ==> init[j] == gs[j];
    if Hottest(init).Reading? {
      var k := HottestIsFirst(init);
      i := if Hottest(gs) == Hottest(init) then k else n;
    } else {
      i := n;
      assert forall j :: 0 <= j < n ==> !Usable(init[j]);
    }
  }

  /** The scan fails exactly when no gauge is usable and otherwise returns one that no usable gauge exceeds. */
  lemma {:induction false} HottestIsMaximal(gs: seq<Gauge>)
    ensures Hottest(gs).Failed? <==> forall i :: 0 <= i < |gs| ==> !Usable(gs[i])
    ensures var r := Hottest(gs); r.Reading? ==>
      && (exists i :: 0 <= i < |gs| && gs[i] == Gauge(r.used, r.total))
      && (forall i :: 0 <= i < |gs| && Usable(gs[i]) ==> Ratio(gs[i]) <= r.used / r.total)
  {
    if gs != [] {
      var n := |gs| - 1;
      HottestIsMaximal(gs[..n]);
      forall i | 0 <= i < |gs|
        ensures i < n ==> gs[i] == gs[..n][i]
      {
      }
      var best, r := Hottest(gs[..n]), Hottest(gs);
      if r.Reading? {
        if r == best && best.Reading? {
          var i :| 0 <= i < n && gs[..n][i] == Gauge(best.used, best.total);
          assert gs[i] == Gauge(r.used, r.total);
        } else {
          assert gs[n] == Gauge(r.used, r.total);
        }
      } else {
        assert !Usable(gs[n]) && best.Failed?;
      }
    }
  }

  /** One NVML device: its memory query fails, or yields byte counts. */
  datatype Device = QueryFailed | Memory(used: nat, total: nat)

  const MIB := 1048576.0

  function GaugeOf(d: Device): Gauge {
    if d.Memory? && d.total != 0 then Gauge(d.used as real / MIB, d.total as real / MIB) else NoReading
  }

  function Gauges(ds: seq<Device>): seq<Gauge> {
    seq(|ds|, i requires 0 <= i < |ds| => GaugeOf(ds[i]))
  }

  method ReadUsageNvml(devices: seq<Device>) returns (r: Reading)
    ensures r == Hottest(Gauges(devices))
  {
    var used, total, found := 0.0, 0.0, false;
    var i := 0;
    while i < |devices|
      invariant 0 <= i <= |devices|
      invariant Hottest(Gauges(devices)[..i]) == if found then Reading(used, total) else Failed
      invariant found ==> total > 0.0
    {
      assert Gauges(devices)[..i + 1][..i] == Gauges(devices)[..i];
      var device := devices[i];
      i := i + 1;
      if device.QueryFailed? || device.total == 0 {
        continue;
      }
      var u, t := device.used as real / MIB, device.total as real / MIB;
      if !found || u / t > used / total {
        used, total := u, t;
        found := true;
      }
    }
    assert Gauges(devices)[..|devices|] == Gauges(devices);
    r := if found then Reading(used, total) else Failed;
  }

  /** One line of nvidia-smi output after trimming. */
  datatype Line = Blank | Malformed | Values(used: real, total: real)

  function GaugeOfLine(l: Line): Gauge {
    if l.Values? then Gauge(l.used, l.total) else NoReading
  }

  function LineGauges(ls: seq<Line>): seq<Gauge> {
    seq(|ls|, i requires 0 <= i < |ls| => GaugeOfLine(ls[i]))
  }

  /** One malformed line spoils the whole reading, wherever it stands. */
  function SmiReading(ls: seq<Line>): Reading {
    if exists i :: 0 <= i < |ls| && ls[i] == Malformed then Failed else Hottest(LineGauges(ls))
  }

  method ParseSmiOutput(lines: seq<Line>) returns (r: Reading)
    ensures r == SmiReading(lines)
  {
    var used, total, found := 0.0, 0.0, false;
    var i := 0;
    while i < |lines|
      invariant 0 <= i <= |lines|
      invariant forall k :: 0 <= k < i ==> lines[k] != Malformed
      invariant Hottest(LineGauges(lines)[..i]) == if found then Reading(used, total) else Failed
      invariant found ==> total > 0.0
    {
      assert LineGauges(lines)[..i + 1][..i] == LineGauges(lines)[..i];
      var line := lines[i];
      if line.Malformed? {
        return Failed;
      }
      i := i + 1;
      if line.Blank? || line.total <= 0.0 {
        continue;
      }
      if !found || line.used / line.total > used / total {
        used, total := line.used, line.total;
        found := true;
      }
    }
    assert LineGauges(lines)[..|lines|] == LineGauges(lines);
    r := if found then Reading(used, total) else Failed;
  }

  lemma MibCancels(used: nat, total: nat)
    requires total > 0
    ensures total as real / 1048576.0 > 0.0
    ensures (used as real / 1048576.0) / (total as real / 1048576.0) == used as real / total as real
  {
    var u, t := used as real / 1048576.0, total as real / 1048576.0;
    assert used as real == u * 1048576.0 && total as real == t * 1048576.0;
  }

  predicate Working(d: Device) {
    d.Memory? && d.total > 0
  }

  /**
   An NVML reading in bytes: there is one exactly if some device answers with a
   positive size, and it is that of the first device with the highest share in use,
   in units of 1024 * 1024 bytes.
   */
  lemma NvmlReadingMeaning(devices: seq<Device>) returns (i: int)
    ensures Hottest(Gauges(devices)).Failed? <==> forall j :: 0 <= j < |devices| ==> !Working(devices[j])
    ensures var r := Hottest(Gauges(devices)); r.Reading? ==>
      && 0 <= i < |devices| && Working(devices[i])
      && r == Reading(devices[i].used as real / 1048576.0, devices[i].total as real / 1048576.0)
      && (forall j :: 0 <= j < |devices| && Working(devices[j]) ==>
            devices[j].used as real / devices[j].total as real <= devices[i].used as real / devices[i].total as real)
      && (forall j :: 0 <= j < i && Working(devices[j]) ==>
            devices[j].used as real / devices[j].total as real < devices[i].used as real / devices[i].total as real)
  {
    var gs := Gauges(devices);
    HottestIsMaximal(gs);
    forall j | 0 <= j < |devices|
      ensures Working(devices[j]) <==> Usable(gs[j])
      ensures Working(devices[j]) ==>
        gs[j].used / gs[j].total == devices[j].used as real / devices[j].total as real
    {
      if Working(devices[j]) {
        MibCancels(devices[j].used, devices[j].total);
      }
    }
    i := 0;
    if Hottest(gs).Reading? {
      i := HottestIsFirst(gs);
    }
  }

  /**
   An nvidia-smi reading in lines: there is none if a line is malformed or no line
   has a positive total, and otherwise it is the first line with the highest share
   in use.
   */
  lemma SmiReadingMeaning(lines: seq<Line>) returns (i: int)
    ensures SmiReading(lines).Failed? <==>
      || (exists j :: 0 <= j < |lines| && lines[j] == Malformed)
      || (forall j :: 0 <= j < |lines| ==> !(lines[j].Values? && lines[j].total > 0.0))
    ensures var r := SmiReading(lines); r.Reading? ==>
      && 0 <= i < |lines| && lines[i] == Values(r.used, r.total) && r.total > 0.0
      && (forall j :: 0 <= j < |lines| && lines[j].Values? && lines[j].total > 0.0 ==>
            lines[j].used / lines[j].total <= lines[i].used / lines[i].total)
      && (forall j :: 0 <= j < i && lines[j].Values? && lines[j].total > 0.0 ==>
            lines[j].used / lines[j].total < lines[i].used / lines[i].total)
  {
    var gs := LineGauges(lines);
    HottestIsMaximal(gs);
    forall j | 0 <= j < |lines|
      ensures Usable(gs[j]) <==> lines[j].Values? && lines[j].total > 0.0
      ensures lines[j].Values? ==> gs[j] == Gauge(lines[j].used, lines[j].total)
    {
    }
    i := 0;
    if SmiReading(lines).Reading? {
      i := HottestIsFirst(gs);
    }
  }

  // ---------- The hysteresis step ----------

  datatype State = State(open: bool, usedMB: real, totalMB: real)

  const INITIAL := State(false, 0.0, 0.0)

  /** Errors and non-positive totals change nothing. */
  predicate Accepted(r: Reading) {
    r.Reading? && r.total > 0.0
  }

  function Pct(r: Reading): real
    requires Accepted(r)
  {
    (r.used / r.total) * 100.0
  }

  function Step(cfg: Config, s: State, r: Reading): State {
    if !Accepted(r) then s
    else
      State(if Pct(r) >= cfg.oomThresholdPct then true
            else if Pct(r) <= CloseThreshold(cfg) then false
            else s.open, r.used, r.total)
  }

  class Guard {
    const cfg: Config
    var circuitOpen: bool
    var usedMB: real
    var totalMB: real
    var pollErrors: nat

    function Current(): State
      reads this
    {
      State(circuitOpen, usedMB, totalMB)
    }

    constructor (cfg: Config)
      ensures this.cfg == cfg && Current() == INITIAL && pollErrors == 0
    {
      this.cfg := cfg;
      circuitOpen, usedMB, totalMB, pollErrors := false, 0.0, 0.0, 0;
    }

    method PollOnce(sample: Reading)
      modifies this
      ensures Current() == Step(cfg, old(Current()), sample)
      ensures sample.Reading? && sample.total > 0.0 ==>
        var pct := sample.used / sample.total * 100.0;
        var close := if cfg.closeThresholdPct > 0.0 then cfg.closeThresholdPct
                     else if cfg.oomThresholdPct > 5.0 then cfg.oomThresholdPct - 5.0 else 0.0;
        && usedMB == sample.used && totalMB == sample.total
        && circuitOpen == (pct >= cfg.oomThresholdPct || (old(circuitOpen) && pct > close))
      ensures sample.Failed? || sample.total <= 0.0 ==> Current() == old(Current())
      ensures pollErrors == old(pollErrors) + if sample.Failed? then 1 else 0
    {
      if sample.Failed? {
        pollErrors := pollErrors + 1;
        return;
      }
      var used, total := sample.used, sample.total;
      if total <= 0.0 {
        return;
      }
      usedMB, totalMB := used, total;
      var pct := (used / total) * 100.0;
      var closeThreshold := cfg.closeThresholdPct;
      if closeThreshold <= 0.0 {
        closeThreshold := cfg.oomThresholdPct - 5.0;
      }
      if closeThreshold < 0.0 {
        closeThreshold := 0.0;
      }
      if pct >= cfg.oomThresholdPct {
        if !circuitOpen {
          circuitOpen := true;
        }
      } else if pct <= closeThreshold && circuitOpen {
        circuitOpen := false;
      }
    }

    /** One tick of the polling loop over NVML devices. */
    method PollNvml(devices: seq<Device>)
      modifies this
      ensures Current() == Step(cfg, old(Current()), ReadingOf(Nvml(devices)))
      ensures pollErrors == old(pollErrors) + if ReadingOf(Nvml(devices)).Failed? then 1 else 0
    {
      var r := ReadUsageNvml(devices);
      PollOnce(r);
    }

    /** One tick of the polling loop over nvidia-smi, whose command may itself have failed. */
    method PollSmi(lines: seq<Line>, commandFailed: bool)
      modifies this
      ensures var p := if commandFailed then ReaderError else Smi(lines);
        && Current() == Step(cfg, old(Current()), ReadingOf(p))
        && pollErrors == old(pollErrors) + if ReadingOf(p).Failed? then 1 else 0
    {
      var r := Failed;
      if !commandFailed {
        r := ParseSmiOutput(lines);
      }
      PollOnce(r);
    }

    /** The polling loop of a new guard, over the polls made before it is stopped. */
    method Start(polls: seq<Poll>)
      requires Current() == INITIAL && pollErrors == 0
      modifies this
      ensures Current() == RunPolls(cfg, polls) && pollErrors == FailedPolls(polls)
      ensures circuitOpen <==> exists k :: OpenSince(Signals(cfg, polls), k)
    {
      var i := 0;
      while i < |polls|
        invariant 0 <= i <= |polls|
        invariant Current() == RunPolls(cfg, polls[..i]) && pollErrors == FailedPolls(polls[..i])
      {
        assert polls[..i + 1][..i] == polls[..i];
        match polls[i] {
          case ReaderError => PollSmi([], true);
          case Nvml(devices) => PollNvml(devices);
          case Smi(lines) => PollSmi(lines, false);
        }
        i := i + 1;
      }
      assert polls[..|polls|] == polls;
      BreakerOpenIff(cfg, polls);
    }
  }

  // ---------- Whole runs over many GPUs ----------

  /** One poll of either reader. */
  datatype Poll = ReaderError | Nvml(devices: seq<Device>) | Smi(lines: seq<Line>)

  function ReadingOf(p: Poll): Reading {
    match p
    case ReaderError => Failed
    case Nvml(devices) => Hottest(Gauges(devices))
    case Smi(lines) => SmiReading(lines)
  }

  /** The gauges of a poll that produced a reading at all. */
  function GaugesOf(p: Poll): seq<Gauge> {
    match p
    case ReaderError => []
    case Nvml(devices) => Gauges(devices)
    case Smi(lines) => if exists i :: 0 <= i < |lines| && lines[i] == Malformed then [] else LineGauges(lines)
  }

  function GaugePct(g: Gauge): real
    requires Usable(g)
  {
    Ratio(g) * 100.0
  }

  /** Some GPU is at or above the open threshold. */
  predicate Opening(cfg: Config, p: Poll) {
    exists i :: 0 <= i < |GaugesOf(p)| && Usable(GaugesOf(p)[i]) && GaugePct(GaugesOf(p)[i]) >= cfg.oomThresholdPct
  }

  /** Some GPU was read, all that were are at or below the close threshold, and none calls for opening. */
  predicate Closing(cfg: Config, p: Poll) {
    && !Opening(cfg, p)
    && (exists i :: 0 <= i < |GaugesOf(p)| && Usable(GaugesOf(p)[i]))
    && (forall i :: 0 <= i < |GaugesOf(p)| && Usable(GaugesOf(p)[i]) ==>
          GaugePct(GaugesOf(p)[i]) <= CloseThreshold(cfg))
  }

  lemma ReadingIsHottest(p: Poll)
    ensures ReadingOf(p) == Hottest(GaugesOf(p))
  {
  }

  /** What one poll does to the breaker, in terms of the GPUs it saw. */
  lemma PollMeaning(cfg: Config, s: State, p: Poll)
    ensures Step(cfg, s, ReadingOf(p)).open == (Opening(cfg, p) || (s.open && !Closing(cfg, p)))
  {
    ReadingIsHottest(p);
    var gs, r := GaugesOf(p), Hottest(GaugesOf(p));
    HottestIsMaximal(gs);
    if r.Reading? {
      var i :| 0 <= i < |gs| && gs[i] == Gauge(r.used, r.total);
      assert Usable(gs[i]) && GaugePct(gs[i]) == Pct(r);
      assert forall j :: 0 <= j < |gs| && Usable(gs[j]) ==> GaugePct(gs[j]) <= Pct(r);
    }
  }

  function RunPolls(cfg: Config, polls: seq<Poll>): State {
    if polls == [] then INITIAL
    else Step(cfg, RunPolls(cfg, polls[..|polls| - 1]), ReadingOf(polls[|polls| - 1]))
  }

  ghost predicate SomeUsable(p: Poll) {
    exists i :: 0 <= i < |GaugesOf(p)| && Usable(GaugesOf(p)[i])
  }

  /** Some usable GPU is above a percentage, or at it if that counts. */
  ghost predicate SomeAbove(p: Poll, pct: real, orAt: bool) {
    exists i :: 0 <= i < |GaugesOf(p)| && GaugesOf(p)[i].Gauge? && GaugesOf(p)[i].total > 0.0 &&
      var share := GaugesOf(p)[i].used / GaugesOf(p)[i].total * 100.0;
      share > pct || (orAt && share == pct)
  }

  /**
   A poll in terms of the configured numbers: the breaker is open afterwards
   exactly if some GPU is at or above the open threshold, or it was open and some
   GPU is above the close threshold, which is five points below the other, but not
   below zero, if it is not configured. A poll without a usable GPU changes nothing.
   */
  lemma PollByConfiguredThresholds(cfg: Config, s: State, p: Poll)
    ensures SomeUsable(p) ==>
      Step(cfg, s, ReadingOf(p)).open == (
        || SomeAbove(p, cfg.oomThresholdPct, true)
        || (s.open && SomeAbove(p, if cfg.closeThresholdPct > 0.0 then cfg.closeThresholdPct
                                   else if cfg.oomThresholdPct > 5.0 then cfg.oomThresholdPct - 5.0 else 0.0, false)))
    ensures !SomeUsable(p) ==> Step(cfg, s, ReadingOf(p)) == s
  {
    PollMeaning(cfg, s, p);
    ReadingIsHottest(p);
    HottestIsMaximal(GaugesOf(p));
    assert Opening(cfg, p) <==> SomeAbove(p, cfg.oomThresholdPct, true);
    assert Closing(cfg, p) <==> SomeUsable(p) && !Opening(cfg, p) && !SomeAbove(p, CloseThreshold(cfg), false);
  }

  /**
   With validated thresholds, over NVML devices and in bytes: an open breaker stays
   open exactly if some device has more than the configured close percentage in use,
   and a closed one opens exactly if some has at least the open percentage.
   */
  lemma ValidatedPoll(cfg: Config, s: State, devices: seq<Device>)
    requires Validated(cfg) && exists i :: 0 <= i < |devices| && Working(devices[i])
    ensures Step(cfg, s, ReadingOf(Nvml(devices))).open <==>
      exists i :: 0 <= i < |devices| && Working(devices[i]) &&
        var share := devices[i].used as real / devices[i].total as real * 100.0;
        if s.open then share > cfg.closeThresholdPct else share >= cfg.oomThresholdPct
  {
    var i := NvmlReadingMeaning(devices);
    var r := Hottest(Gauges(devices));
    MibCancels(devices[i].used, devices[i].total);
    assert Pct(r) == devices[i].used as real / devices[i].total as real * 100.0;
    forall j | 0 <= j < |devices| && Working(devices[j])
      ensures devices[j].used as real / devices[j].total as real * 100.0 <= Pct(r)
    {
    }
  }

  ghost predicate LastReading(polls: seq<Poll>, k: int) {
    0 <= k < |polls| && ReadingOf(polls[k]).Reading? && forall j :: k < j < |polls| ==> ReadingOf(polls[j]).Failed?
  }

  lemma ReadingsAreAccepted(p: Poll)
    ensures ReadingOf(p).Reading? ==> ReadingOf(p).total > 0.0
  {
    ReadingIsHottest(p);
  }

  /** The usage on record is that of the last poll that gave a reading. */
  lemma {:induction false} UsageOnRecord(cfg: Config, polls: seq<Poll>, k: int)
    requires LastReading(polls, k)
    ensures ReadingOf(polls[k]) == Reading(RunPolls(cfg, polls).usedMB, RunPolls(cfg, polls).totalMB)
    decreases |polls|
  {
    var n := |polls| - 1;
    ReadingsAreAccepted(polls[n]);
    if k < n {
      var init := polls[..n];
      assert LastReading(init, k) && init[k] == polls[k];
      UsageOnRecord(cfg, init, k);
    }
  }

  /** Before there is a reading it is zero. */
  lemma {:induction false} UsageBeforeReadings(cfg: Config, polls: seq<Poll>)
    requires forall k :: 0 <= k < |polls| ==> ReadingOf(polls[k]).Failed?
    ensures RunPolls(cfg, polls) == State(false, 0.0, 0.0)
  {
    if polls != [] {
      UsageBeforeReadings(cfg, polls[..|polls| - 1]);
    }
  }

  /** How many polls gave no reading. */
  function FailedPolls(polls: seq<Poll>): nat {
    if polls == [] then 0
    else FailedPolls(polls[..|polls| - 1]) + if ReadingOf(polls[|polls| - 1]).Failed? then 1 else 0
  }

  /** What a poll asks of the breaker; Hold covers failed polls and the dead band. */
  datatype Signal = Open | Close | Hold

  function SignalOf(cfg: Config, p: Poll): Signal {
    if Opening(cfg, p) then Open else if Closing(cfg, p) then Close else Hold
  }

  function Signals(cfg: Config, polls: seq<Poll>): seq<Signal> {
    seq(|polls|, i requires 0 <= i < |polls| => SignalOf(cfg, polls[i]))
  }

  /** The breaker after a list of signals. */
  function Latch(sigs: seq<Signal>): bool {
    if sigs == [] then false
    else
      var last := sigs[|sigs| - 1];
      if last == Hold then Latch(sigs[..|sigs| - 1]) else last == Open
  }

  ghost predicate OpenSince(sigs: seq<Signal>, k: int) {
    0 <= k < |sigs| && sigs[k] == Open && forall j :: k < j < |sigs| ==> sigs[j] != Close
  }

  lemma {:induction false} LatchOpenIff(sigs: seq<Signal>)
    ensures Latch(sigs) <==> exists k :: OpenSince(sigs, k)
  {
    if sigs != [] {
      var n := |sigs| - 1;
      var init := sigs[..n];
      LatchOpenIff(init);
      if Latch(sigs) {
        if sigs[n] == Open {
          assert OpenSince(sigs, n);
        } else {
          var k :| OpenSince(init, k);
          assert OpenSince(sigs, k);
        }
      } else if k :| OpenSince(sigs, k) {
        assert OpenSince(init, k);
        assert false;
      }
    }
  }

  lemma {:induction false} RunIsLatch(cfg: Config, polls: seq<Poll>)
    ensures RunPolls(cfg, polls).open == Latch(Signals(cfg, polls))
  {
    if polls != [] {
      var n := |polls| - 1;
      RunIsLatch(cfg, polls[..n]);
      PollMeaning(cfg, RunPolls(cfg, polls[..n]), polls[n]);
      assert Signals(cfg, polls)[..n] == Signals(cfg, polls[..n]);
    }
  }

  /**
   After any sequence of polls the breaker is open exactly if some poll saw a GPU
   at or above the open threshold and no later poll was a closing one.
   */
  lemma BreakerOpenIff(cfg: Config, polls: seq<Poll>)
    ensures RunPolls(cfg, polls).open <==> exists k :: OpenSince(Signals(cfg, polls), k)
  {
    RunIsLatch(cfg, polls);
    LatchOpenIff(Signals(cfg, polls));
  }

  // ---------- Anti-flapping ----------

  /** The breaker's state, and how often it has changed. */
  datatype Track = Track(open: bool, changes: nat)

  function Moved(t: Track, open: bool): Track {
    Track(open, if open == t.open then t.changes else t.changes + 1)
  }

  /** A run of the guard on reader results. */
  function TrackOf(cfg: Config, samples: seq<Reading>): Track {
    if samples == [] then Track(false, 0)
    else
      var t := TrackOf(cfg, samples[..|samples| - 1]);
      Moved(t, Step(cfg, State(t.open, 0.0, 0.0), samples[|samples| - 1]).open)
  }

  /** The percentages the guard acted on. */
  function Pcts(samples: seq<Reading>): seq<real> {
    if samples == [] then []
    else Pcts(samples[..|samples| - 1]) + if Accepted(samples[|samples| - 1]) then [Pct(samples[|samples| - 1])] else []
  }

  /** The same run, on percentages alone. */
  function Follow(hi: real, lo: real, xs: seq<real>): Track {
    if xs == [] then Track(false, 0)
    else
      var t, x := Follow(hi, lo, xs[..|xs| - 1]), xs[|xs| - 1];
      Moved(t, if x >= hi then true else if x <= lo then false else t.open)
  }

  lemma {:induction false} TrackFollowsPercentages(cfg: Config, samples: seq<Reading>)
    ensures TrackOf(cfg, samples) == Follow(cfg.oomThresholdPct, CloseThreshold(cfg), Pcts(samples))
  {
    if samples != [] {
      var n := |samples| - 1;
      TrackFollowsPercentages(cfg, samples[..n]);
      if Accepted(samples[n]) {
        assert Pcts(samples)[..|Pcts(samples)| - 1] == Pcts(samples[..n]);
      } else {
        assert Pcts(samples) == Pcts(samples[..n]);
      }
    }
  }

  /** The polling run and the tracked run agree on the breaker. */
  lemma {:induction false} RunIsTracked(cfg: Config, polls: seq<Poll>)
    ensures RunPolls(cfg, polls).open
      == TrackOf(cfg, seq(|polls|, i requires 0 <= i < |polls| => ReadingOf(polls[i]))).open
  {
    if polls != [] {
      var n := |polls| - 1;
      RunIsTracked(cfg, polls[..n]);
      assert seq(|polls|, i requires 0 <= i < |polls| => ReadingOf(polls[i]))[..n]
        == seq(n, i requires 0 <= i < n => ReadingOf(polls[..n][i]));
    }
  }

  /** Reading k changed the breaker. */
  predicate Flips(cfg: Config, samples: seq<Reading>, k: nat) {
    k < |samples| && TrackOf(cfg, samples[..k]).open != TrackOf(cfg, samples[..k + 1]).open
  }

  function FlipSet(cfg: Config, samples: seq<Reading>): set<nat> {
    set k: nat | k < |samples| && Flips(cfg, samples, k)
  }

  lemma FlipSetSnoc(cfg: Config, samples: seq<Reading>)
    requires samples != []
    ensures var n := |samples| - 1;
      FlipSet(cfg, samples) == FlipSet(cfg, samples[..n]) + if Flips(cfg, samples, n) then {n} else {}
  {
    var n := |samples| - 1;
    var init := samples[..n];
    forall k: nat | k < n
      ensures Flips(cfg, samples, k) <==> Flips(cfg, init, k)
    {
      assert init[..k] == samples[..k] && init[..k + 1] == samples[..k + 1];
    }
  }

  /** The changes of a run are the readings before and after which the breaker differs. */
  lemma {:induction false} ChangesAreFlips(cfg: Config, samples: seq<Reading>)
    ensures TrackOf(cfg, samples).changes == |FlipSet(cfg, samples)|
  {
    if samples != [] {
      var n := |samples| - 1;
      assert samples[..n + 1] == samples;
      ChangesAreFlips(cfg, samples[..n]);
      FlipSetSnoc(cfg, samples);
    }
  }

  function Abs(x: real): real {
    if x < 0.0 then -x else x
  }

  function TotalVariation(xs: seq<real>): real {
    if |xs| < 2 then 0.0
    else TotalVariation(xs[..|xs| - 1]) + Abs(xs[|xs| - 1] - xs[|xs| - 2])
  }

  /** k times x; the name keeps products out of the proofs that only add. */
  function Times(k: nat, x: real): real {
    k as real * x
  }

  lemma TimesNext(k: nat, x: real)
    ensures Times(0, x) == 0.0 && Times(k + 1, x) == Times(k, x) + x
  {
    assert (k + 1) as real == k as real + 1.0;
  }

  /** How far the last percentage has moved back from the threshold that caused the last change. */
  function Retreat(hi: real, lo: real, open: bool, last: real): real {
    var back := if open then hi - last else last - lo;
    if back < 0.0 then 0.0 else back
  }

  lemma {:induction false} VariationPaysForChanges(hi: real, lo: real, xs: seq<real>)
    requires lo <= hi
    ensures var t := Follow(hi, lo, xs);
      && (t.changes == 0 ==> !t.open)
      && (t.changes > 0 ==> xs != [])
      && (t.changes > 0 ==> TotalVariation(xs) >= Times(t.changes - 1, hi - lo) + Retreat(hi, lo, t.open, xs[|xs| - 1]))
  {
    if xs != [] {
      var n := |xs| - 1;
      var t, t', x := Follow(hi, lo, xs[..n]), Follow(hi, lo, xs), xs[n];
      VariationPaysForChanges(hi, lo, xs[..n]);
      if t.changes > 0 {
        var y := xs[..n][n - 1];
        assert TotalVariation(xs) == TotalVariation(xs[..n]) + Abs(x - y);
        if t'.changes > t.changes {
          TimesNext(t.changes - 1, hi - lo);
          assert Abs(x - y) + Retreat(hi, lo, t.open, y) >= hi - lo + Retreat(hi, lo, t'.open, x);
        } else {
          assert Abs(x - y) + Retreat(hi, lo, t.open, y) >= Retreat(hi, lo, t.open, x);
        }
      } else if t'.changes > 0 {
        VariationIsNonNegative(xs);
        TimesNext(0, hi - lo);
      }
    }
  }

  lemma {:induction false} VariationIsNonNegative(xs: seq<real>)
    ensures TotalVariation(xs) >= 0.0
  {
    if |xs| >= 2 {
      VariationIsNonNegative(xs[..|xs| - 1]);
    }
  }

  lemma TimesNonPositive(k: nat, x: real)
    requires x <= 0.0
    ensures Times(k, x) <= 0.0
  {
  }

  function Band(cfg: Config): real {
    cfg.oomThresholdPct - CloseThreshold(cfg)
  }

  lemma BoundOnPercentages(hi: real, lo: real, xs: seq<real>)
    requires Follow(hi, lo, xs).changes > 0
    ensures TotalVariation(xs) >= Times(Follow(hi, lo, xs).changes - 1, hi - lo)
  {
    if lo <= hi {
      VariationPaysForChanges(hi, lo, xs);
    } else {
      VariationIsNonNegative(xs);
      TimesNonPositive(Follow(hi, lo, xs).changes - 1, hi - lo);
    }
  }

  /** k state changes cost at least (k-1) times the width of the band in total variation. */
  lemma HysteresisBound(cfg: Config, samples: seq<Reading>)
    requires TrackOf(cfg, samples).changes > 0
    ensures TotalVariation(Pcts(samples)) >= Times(TrackOf(cfg, samples).changes - 1, Band(cfg))
    ensures Validated(cfg) ==>
      TotalVariation(Pcts(samples))
        >= Times(TrackOf(cfg, samples).changes - 1, cfg.oomThresholdPct - cfg.closeThresholdPct)
  {
    TrackFollowsPercentages(cfg, samples);
    BoundOnPercentages(cfg.oomThresholdPct, CloseThreshold(cfg), Pcts(samples));
  }

  /** Whether the n-th jump goes up to the open threshold. */
  predicate Up(n: nat) {
    n > 0 && !Up(n - 1)
  }

  /** Readings that jump between the two thresholds. */
  function Sawtooth(hi: real, lo: real, n: nat): seq<Reading> {
    if n == 0 then [] else Sawtooth(hi, lo, n - 1) + [Reading(if Up(n) then hi else lo, 100.0)]
  }

  function Jumps(hi: real, lo: real, n: nat): seq<real> {
    if n == 0 then [] else Jumps(hi, lo, n - 1) + [if Up(n) then hi else lo]
  }

  lemma {:induction false} SawtoothJumps(hi: real, lo: real, n: nat)
    ensures Pcts(Sawtooth(hi, lo, n)) == Jumps(hi, lo, n)
  {
    if n > 0 {
      SawtoothJumps(hi, lo, n - 1);
      var samples := Sawtooth(hi, lo, n);
      assert samples[..|samples| - 1] == Sawtooth(hi, lo, n - 1);
      assert Pct(samples[|samples| - 1]) == samples[|samples| - 1].used;
    }
  }

  lemma {:induction false} JumpsChangeEveryTime(hi: real, lo: real, n: nat)
    requires lo < hi
    ensures |Jumps(hi, lo, n)| == n && Follow(hi, lo, Jumps(hi, lo, n)) == Track(Up(n), n)
  {
    if n > 0 {
      JumpsChangeEveryTime(hi, lo, n - 1);
      assert Jumps(hi, lo, n)[..n - 1] == Jumps(hi, lo, n - 1);
    }
  }

  lemma {:induction false} JumpsVariation(hi: real, lo: real, n: nat)
    requires lo < hi && n > 0
    ensures TotalVariation(Jumps(hi, lo, n)) == Times(n - 1, hi - lo)
  {
    var xs := Jumps(hi, lo, n);
    JumpsChangeEveryTime(hi, lo, n);
    if n == 1 {
      TimesNext(0, hi - lo);
    } else {
      JumpsVariation(hi, lo, n - 1);
      TimesNext(n - 2, hi - lo);
      JumpsChangeEveryTime(hi, lo, n - 1);
      assert xs[..n - 1] == Jumps(hi, lo, n - 1);
      assert Abs(xs[n - 1] - xs[n - 2]) == hi - lo;
    }
  }

  /** The bound is attained for every number of changes: no wider band could be promised. */
  lemma HysteresisBoundIsTight(cfg: Config, n: nat) returns (samples: seq<Reading>)
    requires Validated(cfg) && n > 0
    ensures TrackOf(cfg, samples).changes == n
    ensures TotalVariation(Pcts(samples)) == Times(n - 1, cfg.oomThresholdPct - cfg.closeThresholdPct)
  {
    var hi, lo := cfg.oomThresholdPct, CloseThreshold(cfg);
    samples := Sawtooth(hi, lo, n);
    SawtoothJumps(hi, lo, n);
    JumpsChangeEveryTime(hi, lo, n);
    JumpsVariation(hi, lo, n);
    TrackFollowsPercentages(cfg, samples);
  }
}
