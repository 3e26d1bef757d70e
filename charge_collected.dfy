/** The peak-window charge integrator of the energy-deposit analysis.

    A record holds three adjacent, baseline-subtracted channels (low, center,
    high) sampled tick by tick. The scan skips ticks where all three channels
    are above threshold (a broad muon signature), opens a window when the
    center channel rises strictly above threshold (adding a clamped prefix of
    earlier ticks), keeps adding ticks while the center stays above threshold,
    and closes on the first center tick at or below threshold (adding a
    clamped suffix that starts at the closing tick). A closed window appends
    its four sums to four area lists, unless induction gating is on and the
    two induction-plane triplets show no coincident bipolar signal. */
module ChargeCollected {
  import opened Common

  const PREFIX: nat := 5
  const SUFFIX: nat := 5
  const THRESHOLD: int := 100
  const INDUCTION_THRESHOLD: int := 40
  const INDUCTION_WINDOW: nat := 15

  /** One tick of three adjacent, baseline-subtracted channels. */
  datatype Triplet = Triplet(low: int, center: int, high: int)

  datatype Channel = Low | Center | High

  /** The scan's parameters; `induction` is the `--induction` flag. */
  datatype Config = Config(threshold: int, prefix: nat, suffix: nat, induction: bool,
                           inductionThreshold: int, inductionWindow: nat)

  function DefaultConfig(induction: bool): Config
  {
    Config(THRESHOLD, PREFIX, SUFFIX, induction, INDUCTION_THRESHOLD, INDUCTION_WINDOW)
  }

  /** The centred waveforms of one record: the triplet around the chosen
      channel and the triplets around the two induction-plane centre
      channels (only read when gating is on). */
  datatype Record = Record(wfs: seq<Triplet>, ind1: seq<Triplet>, ind2: seq<Triplet>)

  /** The running sums of the open window. */
  datatype Sums = Sums(low: int, center: int, high: int, total: int)

  const NoSums := Sums(0, 0, 0, 0)

  /** What the scan accumulates across records: the four area lists and the
      muon and induction-skip counters. */
  datatype Tally = Tally(lowAreas: seq<int>, centerAreas: seq<int>, highAreas: seq<int>,
                         totalAreas: seq<int>, muonCount: nat, inductionSkip: nat)

  const EmptyTally := Tally([], [], [], [], 0, 0)

  datatype ScanState = ScanState(sums: Sums, tally: Tally)

  /** Where a record's scan stands: still going, or stopped by an exception
      with the tally as it was when the exception was raised. */
  datatype Progress = Scanning(state: ScanState) | Raised(tally: Tally, error: Error)

  function Sample(x: Triplet, c: Channel): int
  {
    match c
    case Low => x.low
    case Center => x.center
    case High => x.high
  }

  /** `np.sum(wfs[t, :])` */
  function TickTotal(x: Triplet): int
  {
    x.low + x.center + x.high
  }

  /** `np.sum(wfs[lo:hi, c])` for an in-range slice. */
  function ChannelSum(w: seq<Triplet>, lo: nat, hi: nat, c: Channel): int
    requires lo <= hi <= |w|
    decreases hi - lo
  {
    if lo == hi then 0 else ChannelSum(w, lo, hi - 1, c) + Sample(w[hi - 1], c)
  }

  /** `np.sum(wfs[lo:hi, :])` for an in-range slice. */
  function WindowTotal(w: seq<Triplet>, lo: nat, hi: nat): int
    requires lo <= hi <= |w|
    decreases hi - lo
  {
    if lo == hi then 0 else WindowTotal(w, lo, hi - 1) + TickTotal(w[hi - 1])
  }

  lemma {:induction false} WindowTotalSplits(w: seq<Triplet>, lo: nat, hi: nat)
    requires lo <= hi <= |w|
    ensures WindowTotal(w, lo, hi)
            == ChannelSum(w, lo, hi, Low) + ChannelSum(w, lo, hi, Center) + ChannelSum(w, lo, hi, High)
    decreases hi - lo
  {
    if lo < hi {
      WindowTotalSplits(w, lo, hi - 1);
    }
  }

  /** `check_muon`: all three channels of the tick are above threshold. */
  function CheckMuon(threshold: int, x: Triplet): (r: bool)
    ensures r <==> x.low > threshold && x.center > threshold && x.high > threshold
  {
    var channels := [Low, Center, High];
    assert Low in channels && Center in channels && High in channels;
    assert forall c | c in channels :: c == Low || c == Center || c == High;
    forall c | c in channels :: Sample(x, c) > threshold
  }

  function TickMax(x: Triplet): (m: int)
    ensures x.low <= m && x.center <= m && x.high <= m
    ensures m == x.low || m == x.center || m == x.high
  {
    Max(x.low, Max(x.center, x.high))
  }

  function TickMin(x: Triplet): (m: int)
    ensures m <= x.low && m <= x.center && m <= x.high
    ensures m == x.low || m == x.center || m == x.high
  {
    Min(x.low, Min(x.center, x.high))
  }

  /** `np.max` over every channel of a non-empty run of ticks. */
  function WindowMax(s: seq<Triplet>): (m: int)
    requires |s| > 0
    ensures forall i | 0 <= i < |s| :: TickMax(s[i]) <= m
    ensures exists i | 0 <= i < |s| :: TickMax(s[i]) == m
  {
    if |s| == 1 then TickMax(s[0])
    else
      var rest := WindowMax(s[1..]);
      assert forall i | 1 <= i < |s| :: s[i] == s[1..][i - 1];
      Max(TickMax(s[0]), rest)
  }

  /** `np.min` over every channel of a non-empty run of ticks. */
  function WindowMin(s: seq<Triplet>): (m: int)
    requires |s| > 0
    ensures forall i | 0 <= i < |s| :: m <= TickMin(s[i])
    ensures exists i | 0 <= i < |s| :: TickMin(s[i]) == m
  {
    if |s| == 1 then TickMin(s[0])
    else
      var rest := WindowMin(s[1..]);
      assert forall i | 1 <= i < |s| :: s[i] == s[1..][i - 1];
      Min(TickMin(s[0]), rest)
  }

  /** First tick of the backward-looking induction window ending at `time`. */
  function InductionStart(cfg: Config, time: nat): (start: nat)
    ensures start <= time
    ensures time < cfg.inductionWindow ==> start == 0
    ensures time >= cfg.inductionWindow ==> time - start == cfg.inductionWindow
  {
    if time - cfg.inductionWindow < 0 then 0 else time - cfg.inductionWindow
  }

  /** Some tick in [lo, time] of `ind` (and inside it) has a sample above `threshold`. */
  predicate AnyAbove(ind: seq<Triplet>, lo: nat, time: nat, threshold: int)
  {
    exists i | lo <= i <= time && i < |ind| :: TickMax(ind[i]) > threshold
  }

  /** Some tick in [lo, time] of `ind` (and inside it) has a sample below `threshold`. */
  predicate AnyBelow(ind: seq<Triplet>, lo: nat, time: nat, threshold: int)
  {
    exists i | lo <= i <= time && i < |ind| :: TickMin(ind[i]) < threshold
  }

  lemma SliceMaxAbove(ind: seq<Triplet>, lo: nat, time: nat, threshold: int)
    requires |Slice(ind, lo, time + 1)| > 0
    ensures WindowMax(Slice(ind, lo, time + 1)) > threshold <==> AnyAbove(ind, lo, time, threshold)
  {
    var w := Slice(ind, lo, time + 1);
    assert forall i | lo <= i <= time && i < |ind| :: ind[i] == w[i - lo];
  }

  lemma SliceMinBelow(ind: seq<Triplet>, lo: nat, time: nat, threshold: int)
    requires |Slice(ind, lo, time + 1)| > 0
    ensures WindowMin(Slice(ind, lo, time + 1)) < threshold <==> AnyBelow(ind, lo, time, threshold)
  {
    var w := Slice(ind, lo, time + 1);
    assert forall i | lo <= i <= time && i < |ind| :: ind[i] == w[i - lo];
  }

  /** `check_induction`: within the ticks [start, time] of the induction
      window, some sample of the first induction triplet is above the
      induction threshold and some sample of the second is below its
      negative. The slices clip at the end of the induction waveforms; a
      slice that comes out empty makes numpy raise, and the `and`
      short-circuits, so the second slice is only reduced when the first
      test passed. */
  function CheckInduction(cfg: Config, ind1: seq<Triplet>, ind2: seq<Triplet>, time: nat): (r: Result<bool>)
    ensures r.Err? ==> r.error == ValueError
    ensures r.Err? <==>
      InductionStart(cfg, time) >= |ind1| ||
      (InductionStart(cfg, time) >= |ind2| && AnyAbove(ind1, InductionStart(cfg, time), time, cfg.inductionThreshold))
    ensures r == Ok(true) <==>
      AnyAbove(ind1, InductionStart(cfg, time), time, cfg.inductionThreshold) &&
      AnyBelow(ind2, InductionStart(cfg, time), time, -cfg.inductionThreshold)
  {
    var early := InductionStart(cfg, time);
    var window1 := Slice(ind1, early, time + 1);
    var window2 := Slice(ind2, early, time + 1);
    if |window1| == 0 then
      Err(ValueError)
    else
      SliceMaxAbove(ind1, early, time, cfg.inductionThreshold);
      if !(WindowMax(window1) > cfg.inductionThreshold) then
        Ok(false)
      else if |window2| == 0 then
        Err(ValueError)
      else
        SliceMinBelow(ind2, early, time, -cfg.inductionThreshold);
        Ok(-1 * WindowMin(window2) > cfg.inductionThreshold)
  }

  /** First tick of the window opened at `t`: `prefix` is cut down to `t`
      so that the slice never reaches below tick 0. */
  function PrefixStart(cfg: Config, t: nat): (lo: nat)
    ensures lo <= t && t - lo <= cfg.prefix
    ensures lo > 0 ==> t - lo == cfg.prefix
  {
    var prefix := if t < cfg.prefix then t else cfg.prefix;
    t - prefix
  }

  /** End (exclusive) of the suffix added when closing at `t` in a record of
      `n` ticks: `suffix` is cut down to `n - t`. */
  function SuffixEnd(cfg: Config, n: nat, t: nat): (hi: nat)
    requires t < n
    ensures t <= hi <= n && hi - t <= cfg.suffix
    ensures hi < n ==> hi - t == cfg.suffix
    ensures cfg.suffix > 0 ==> t < hi
  {
    var suffix := if n < t + cfg.suffix then n - t else cfg.suffix;
    t + suffix
  }

  /** Adds the in-range ticks [lo, hi) to every running sum. */
  function AddWindow(s: Sums, w: seq<Triplet>, lo: nat, hi: nat): Sums
    requires lo <= hi <= |w|
  {
    Sums(s.low + ChannelSum(w, lo, hi, Low), s.center + ChannelSum(w, lo, hi, Center),
         s.high + ChannelSum(w, lo, hi, High), s.total + WindowTotal(w, lo, hi))
  }

  function AddTick(s: Sums, x: Triplet): Sums
  {
    Sums(s.low + x.low, s.center + x.center, s.high + x.high, s.total + TickTotal(x))
  }

  /** Appends a closed window's sums to the four area lists. */
  function Emit(t: Tally, s: Sums): Tally
  {
    t.(lowAreas := t.lowAreas + [s.low], centerAreas := t.centerAreas + [s.center],
       highAreas := t.highAreas + [s.high], totalAreas := t.totalAreas + [s.total])
  }

  /** The end-of-window branch at tick `t`: add the suffix and emit, or, when
      gated, emit only if the induction check accepts. */
  function Close(cfg: Config, rec: Record, t: nat, s: ScanState): Result<ScanState>
    requires t < |rec.wfs|
  {
    var closed := AddWindow(s.sums, rec.wfs, t, SuffixEnd(cfg, |rec.wfs|, t));
    if !cfg.induction then Ok(ScanState(NoSums, Emit(s.tally, closed)))
    else
      match CheckInduction(cfg, rec.ind1, rec.ind2, t)
      case Err(e) => Err(e)
      case Ok(accept) =>
        if accept then Ok(ScanState(NoSums, Emit(s.tally, closed)))
        else Ok(ScanState(NoSums, s.tally.(inductionSkip := s.tally.inductionSkip + 1)))
  }

  /** One iteration of the scan at tick `t`. The window is open exactly when
      the running center sum is non-zero. */
  function Step(cfg: Config, rec: Record, t: nat, s: ScanState): Result<ScanState>
    requires t < |rec.wfs|
  {
    var x := rec.wfs[t];
    if CheckMuon(cfg.threshold, x) then
      Ok(s.(tally := s.tally.(muonCount := s.tally.muonCount + 1)))
    else if x.center > cfg.threshold then
      if s.sums.center == 0 then Ok(s.(sums := AddWindow(s.sums, rec.wfs, PrefixStart(cfg, t), t + 1)))
      else Ok(s.(sums := AddTick(s.sums, x)))
    else if s.sums.center != 0 then Close(cfg, rec, t, s)
    else Ok(s)
  }

  /** A muon tick only bumps the muon counter: the sums, and with them the
      open or closed state, and the area lists stay as they were. */
  lemma MuonTickSkipped(cfg: Config, rec: Record, t: nat, s: ScanState)
    requires t < |rec.wfs|
    requires rec.wfs[t].low > cfg.threshold && rec.wfs[t].center > cfg.threshold && rec.wfs[t].high > cfg.threshold
    ensures Step(cfg, rec, t, s) == Ok(ScanState(s.sums, s.tally.(muonCount := s.tally.muonCount + 1)))
  {
  }

  /** With no window open, a center sample at or below threshold (equal to
      it included) changes nothing. */
  lemma NoOpenAtOrBelowThreshold(cfg: Config, rec: Record, t: nat, s: ScanState)
    requires t < |rec.wfs| && !CheckMuon(cfg.threshold, rec.wfs[t])
    requires rec.wfs[t].center <= cfg.threshold && s.sums.center == 0
    ensures Step(cfg, rec, t, s) == Ok(s)
  {
  }

  /** Opening at tick `t` adds exactly the ticks [t - min(prefix, t), t]. */
  lemma OpenAddsClampedPrefix(cfg: Config, rec: Record, t: nat, s: ScanState)
    requires t < |rec.wfs| && !CheckMuon(cfg.threshold, rec.wfs[t])
    requires rec.wfs[t].center > cfg.threshold && s.sums.center == 0
    ensures 0 <= t - Min(cfg.prefix, t)
    ensures Step(cfg, rec, t, s) == Ok(ScanState(AddWindow(s.sums, rec.wfs, t - Min(cfg.prefix, t), t + 1), s.tally))
  {
  }

  /** An open window takes in each further tick whose center is above threshold. */
  lemma ContinueAddsTick(cfg: Config, rec: Record, t: nat, s: ScanState)
    requires t < |rec.wfs| && !CheckMuon(cfg.threshold, rec.wfs[t])
    requires rec.wfs[t].center > cfg.threshold && s.sums.center != 0
    ensures Step(cfg, rec, t, s) == Ok(ScanState(AddTick(s.sums, rec.wfs[t]), s.tally))
  {
  }

  /** Closing at tick `t` of an `n`-tick record adds exactly the ticks
      [t, t + min(suffix, n - t)), appends the four sums and resets them. */
  lemma CloseAddsClampedSuffix(cfg: Config, rec: Record, t: nat, s: ScanState)
    requires t < |rec.wfs| && !CheckMuon(cfg.threshold, rec.wfs[t])
    requires rec.wfs[t].center <= cfg.threshold && s.sums.center != 0
    requires cfg.induction ==> CheckInduction(cfg, rec.ind1, rec.ind2, t) == Ok(true)
    ensures t + Min(cfg.suffix, |rec.wfs| - t) <= |rec.wfs|
    ensures Step(cfg, rec, t, s)
            == Ok(ScanState(NoSums, Emit(s.tally, AddWindow(s.sums, rec.wfs, t, t + Min(cfg.suffix, |rec.wfs| - t)))))
  {
  }

  /** A gated close that the induction check rejects resets the sums and
      only bumps the induction-skip counter. */
  lemma GatedCloseRejects(cfg: Config, rec: Record, t: nat, s: ScanState)
    requires t < |rec.wfs| && !CheckMuon(cfg.threshold, rec.wfs[t])
    requires rec.wfs[t].center <= cfg.threshold && s.sums.center != 0
    requires cfg.induction && CheckInduction(cfg, rec.ind1, rec.ind2, t) == Ok(false)
    ensures Step(cfg, rec, t, s) == Ok(ScanState(NoSums, s.tally.(inductionSkip := s.tally.inductionSkip + 1)))
  {
  }

  /** A gated close whose induction window comes out empty raises. */
  lemma GatedCloseRaises(cfg: Config, rec: Record, t: nat, s: ScanState)
    requires t < |rec.wfs| && !CheckMuon(cfg.threshold, rec.wfs[t])
    requires rec.wfs[t].center <= cfg.threshold && s.sums.center != 0
    requires cfg.induction && CheckInduction(cfg, rec.ind1, rec.ind2, t).Err?
    ensures Step(cfg, rec, t, s) == Err(ValueError)
  {
  }

  /** The scan of a record after its first `n` ticks, starting from the
      tally accumulated over the earlier records. */
  function ScanUpTo(cfg: Config, rec: Record, start: Tally, n: nat): Progress
    requires n <= |rec.wfs|
  {
    if n == 0 then Scanning(ScanState(NoSums, start))
    else
      match ScanUpTo(cfg, rec, start, n - 1)
      case Raised(t, e) => Raised(t, e)
      case Scanning(s) =>
        match Step(cfg, rec, n - 1, s)
        case Err(e) => Raised(s.tally, e)
        case Ok(s') => Scanning(s')
  }

  /** The tally a scan leaves behind and whether it raised. A window still
      open when the ticks run out is dropped with the sums. */
  function Finish(p: Progress): (Tally, bool)
  {
    match p
    case Scanning(s) => (s.tally, false)
    case Raised(t, _) => (t, true)
  }

  /** The scan of one record, as the loop in `main` runs it: the four
      accumulators are re-zeroed at the start of the record, and the
      configured `prefix` and `suffix` are back in place after every tick. */
  method ScanRecord(cfg: Config, rec: Record, start: Tally) returns (tally: Tally, raised: bool)
    ensures (tally, raised) == Finish(ScanUpTo(cfg, rec, start, |rec.wfs|))
  {
    var prefix, suffix := cfg.prefix, cfg.suffix;
    tally := start;
    // low_sum, center_sum, high_sum and total_sum
    var sums := NoSums;
    for time := 0 to |rec.wfs|
      invariant prefix == cfg.prefix && suffix == cfg.suffix
      invariant ScanUpTo(cfg, rec, start, time) == Scanning(ScanState(sums, tally))
    {
      ghost var before := ScanState(sums, tally);
      sums, tally, prefix, suffix, raised := ScanTick(cfg, rec, time, sums, tally, prefix, suffix);
      if raised {
        ScanStopsAt(cfg, rec, start, time, before);
        return;
      }
      ScanAdvances(cfg, rec, start, time, before, ScanState(sums, tally));
    }
    raised := false;
  }

  /** One pass of the loop body at tick `time`. `prefix` and `suffix` are
      overwritten with their clamped values while a window is opened or
      closed and restored right after. The result is one `Step`; `raised`
      says that the induction check raised. */
  method ScanTick(cfg: Config, rec: Record, time: nat, sums: Sums, tally: Tally, prefix: nat, suffix: nat)
    returns (sums': Sums, tally': Tally, prefix': nat, suffix': nat, raised: bool)
    requires time < |rec.wfs| && prefix == cfg.prefix && suffix == cfg.suffix
    ensures prefix' == prefix && suffix' == suffix
    ensures raised <==> Step(cfg, rec, time, ScanState(sums, tally)).Err?
    ensures raised ==> tally' == tally
    ensures !raised ==> Step(cfg, rec, time, ScanState(sums, tally)) == Ok(ScanState(sums', tally'))
  {
    var wfs := rec.wfs;
    ghost var before := ScanState(sums, tally);
    sums', tally', prefix', suffix', raised := sums, tally, prefix, suffix, false;
    var x := wfs[time];
    if CheckMuon(cfg.threshold, x) {
      MuonTickSkipped(cfg, rec, time, before);
      tally' := tally'.(muonCount := tally'.muonCount + 1);
      return;
    }
    if x.center > cfg.threshold {
      if sums'.center == 0 {
        // start a new window
        OpenAddsClampedPrefix(cfg, rec, time, before);
        if time < prefix' {
          prefix' := time;
        }
        assert time - prefix' == PrefixStart(cfg, time);
        sums' := AddWindow(sums', wfs, time - prefix', time + 1);
        prefix' := cfg.prefix;
      } else {
        // continue the window
        ContinueAddsTick(cfg, rec, time, before);
        sums' := AddTick(sums', x);
      }
    } else if sums'.center != 0 {
      // end the window
      var accept := true;
      if cfg.induction {
        var coincident := CheckInduction(cfg, rec.ind1, rec.ind2, time);
        if coincident.Err? {
          GatedCloseRaises(cfg, rec, time, before);
          raised := true;
          return;
        }
        accept := coincident.value;
      }
      if accept {
        CloseAddsClampedSuffix(cfg, rec, time, before);
        if |wfs| < time + suffix' {
          suffix' := |wfs| - time;
        }
        assert time + suffix' == SuffixEnd(cfg, |wfs|, time);
        sums' := AddWindow(sums', wfs, time, time + suffix');
        suffix' := cfg.suffix;
        tally' := Emit(tally', sums');
      } else {
        GatedCloseRejects(cfg, rec, time, before);
        tally' := tally'.(inductionSkip := tally'.inductionSkip + 1);
      }
      // reset
      sums' := NoSums;
    } else {
      NoOpenAtOrBelowThreshold(cfg, rec, time, before);
    }
  }

  lemma ScanAdvances(cfg: Config, rec: Record, start: Tally, n: nat, s: ScanState, s': ScanState)
    requires n < |rec.wfs|
    requires ScanUpTo(cfg, rec, start, n) == Scanning(s) && Step(cfg, rec, n, s) == Ok(s')
    ensures ScanUpTo(cfg, rec, start, n + 1) == Scanning(s')
  {
  }

  /** A step that raises ends the record's scan with the tally it had. */
  lemma ScanStopsAt(cfg: Config, rec: Record, start: Tally, n: nat, s: ScanState)
    requires n < |rec.wfs|
    requires ScanUpTo(cfg, rec, start, n) == Scanning(s) && Step(cfg, rec, n, s).Err?
    ensures Finish(ScanUpTo(cfg, rec, start, |rec.wfs|)) == (s.tally, true)
  {
    RaisedIsFinal(cfg, rec, start, n + 1, |rec.wfs|);
  }

  /** Once a record's scan has raised, later ticks change nothing. */
  lemma {:induction false} RaisedIsFinal(cfg: Config, rec: Record, start: Tally, k: nat, n: nat)
    requires k <= n <= |rec.wfs|
    requires ScanUpTo(cfg, rec, start, k).Raised?
    ensures ScanUpTo(cfg, rec, start, n) == ScanUpTo(cfg, rec, start, k)
    decreases n - k
  {
    if k < n {
      RaisedIsFinal(cfg, rec, start, k + 1, n);
    }
  }

  /** A record as the reader delivers it: its centred waveforms, or the
      `ValueError` raised while extracting them. */
  datatype Extraction = Extracted(rec: Record) | ExtractFailed

  /** The tally and the mismatch count after the first `n` records. A record
      whose extraction or scan raised counts as a mismatch; whatever its scan
      appended or counted before raising stays. */
  function RunUpTo(cfg: Config, records: seq<Extraction>, n: nat): (Tally, nat)
    requires n <= |records|
  {
    if n == 0 then (EmptyTally, 0)
    else
      var (tally, mismatch) := RunUpTo(cfg, records, n - 1);
      match records[n - 1]
      case ExtractFailed => (tally, mismatch + 1)
      case Extracted(rec) =>
        var (tally', raised) := Finish(ScanUpTo(cfg, rec, tally, |rec.wfs|));
        (tally', if raised then mismatch + 1 else mismatch)
  }

  /** The record loop of `main`: records are scanned in order into one
      shared tally, and records that failed count as mismatches. */
  method ProcessRecords(cfg: Config, records: seq<Extraction>) returns (tally: Tally, mismatch: nat)
    ensures (tally, mismatch) == RunUpTo(cfg, records, |records|)
    ensures Aligned(tally)
    ensures mismatch <= |records|
    ensures !cfg.induction || InductionCovers(records) ==> mismatch == ExtractFailures(records, |records|)
  {
    tally, mismatch := EmptyTally, 0;
    for i := 0 to |records|
      invariant (tally, mismatch) == RunUpTo(cfg, records, i)
    {
      match records[i]
      case ExtractFailed =>
        mismatch := mismatch + 1;
      case Extracted(rec) =>
        var raised;
        tally, raised := ScanRecord(cfg, rec, tally);
        if raised {
          mismatch := mismatch + 1;
        }
    }
    RunKeepsAligned(cfg, records, |records|);
    if !cfg.induction || InductionCovers(records) {
      MismatchesAreExtractFailures(cfg, records, |records|);
    }
  }

  // ---------------------------------------------------------------------
  // Invariants of the scan

  /** The running total equals the sum of the three channel sums. */
  predicate Consistent(s: Sums)
  {
    s.total == s.low + s.center + s.high
  }

  /** The four area lists have equal length and every total area is the
      sum of the other three. */
  predicate Aligned(t: Tally)
  {
    |t.lowAreas| == |t.centerAreas| == |t.highAreas| == |t.totalAreas| &&
    forall i | 0 <= i < |t.totalAreas| :: t.totalAreas[i] == t.lowAreas[i] + t.centerAreas[i] + t.highAreas[i]
  }

  lemma AddWindowKeepsConsistent(s: Sums, w: seq<Triplet>, lo: nat, hi: nat)
    requires lo <= hi <= |w| && Consistent(s)
    ensures Consistent(AddWindow(s, w, lo, hi))
  {
    WindowTotalSplits(w, lo, hi);
  }

  lemma EmitKeepsAligned(t: Tally, s: Sums)
    requires Aligned(t) && Consistent(s)
    ensures Aligned(Emit(t, s))
  {
    var t' := Emit(t, s);
    assert forall i | 0 <= i < |t.totalAreas| ::
      (t'.totalAreas[i] == t.totalAreas[i] && t'.lowAreas[i] == t.lowAreas[i]
       && t'.centerAreas[i] == t.centerAreas[i] && t'.highAreas[i] == t.highAreas[i]);
  }

  /** A window rejected by the induction check leaves the lists as they were. */
  lemma SkipKeepsAligned(t: Tally)
    requires Aligned(t)
    ensures Aligned(t.(inductionSkip := t.inductionSkip + 1))
  {
  }

  /** The three ways a close can end, with the induction check named once so
      that proofs about a close need not look inside it. */
  lemma CloseShape(cfg: Config, rec: Record, t: nat, s: ScanState)
    requires t < |rec.wfs|
    ensures var closed := AddWindow(s.sums, rec.wfs, t, SuffixEnd(cfg, |rec.wfs|, t));
      var c := CheckInduction(cfg, rec.ind1, rec.ind2, t);
      Close(cfg, rec, t, s) == if !cfg.induction || c == Ok(true) then Ok(ScanState(NoSums, Emit(s.tally, closed)))
      else if c.Err? then Err(c.error)
      else Ok(ScanState(NoSums, s.tally.(inductionSkip := s.tally.inductionSkip + 1)))
  {
  }

  /** A close that does not raise keeps the invariant: the suffix keeps the
      sums consistent, so the emitted areas keep the lists aligned, and a
      rejected window only bumps a counter. */
  lemma CloseKeepsInvariant(cfg: Config, rec: Record, t: nat, s: ScanState)
    requires t < |rec.wfs|
    requires Consistent(s.sums) && Aligned(s.tally)
    ensures Close(cfg, rec, t, s).Ok? ==>
      Consistent(Close(cfg, rec, t, s).value.sums) && Aligned(Close(cfg, rec, t, s).value.tally)
  {
    var hi := SuffixEnd(cfg, |rec.wfs|, t);
    var closed := AddWindow(s.sums, rec.wfs, t, hi);
    AddWindowKeepsConsistent(s.sums, rec.wfs, t, hi);
    EmitKeepsAligned(s.tally, closed);
    SkipKeepsAligned(s.tally);
    CloseShape(cfg, rec, t, s);
  }

  /** Every branch of a step, the resets included, keeps the sums
      consistent and the four lists aligned. */
  lemma StepKeepsInvariant(cfg: Config, rec: Record, t: nat, s: ScanState)
    requires t < |rec.wfs|
    requires Consistent(s.sums) && Aligned(s.tally)
    ensures Step(cfg, rec, t, s).Ok? ==>
      Consistent(Step(cfg, rec, t, s).value.sums) && Aligned(Step(cfg, rec, t, s).value.tally)
  {
    var x := rec.wfs[t];
    if CheckMuon(cfg.threshold, x) {
      assert Step(cfg, rec, t, s) == Ok(s.(tally := s.tally.(muonCount := s.tally.muonCount + 1)));
    } else if x.center > cfg.threshold {
      if s.sums.center == 0 {
        var lo := PrefixStart(cfg, t);
        assert Step(cfg, rec, t, s) == Ok(s.(sums := AddWindow(s.sums, rec.wfs, lo, t + 1)));
        AddWindowKeepsConsistent(s.sums, rec.wfs, lo, t + 1);
      } else {
        assert Step(cfg, rec, t, s) == Ok(s.(sums := AddTick(s.sums, x)));
      }
    } else if s.sums.center != 0 {
      assert Step(cfg, rec, t, s) == Close(cfg, rec, t, s);
      CloseKeepsInvariant(cfg, rec, t, s);
    } else {
      assert Step(cfg, rec, t, s) == Ok(s);
    }
  }

  /** The invariant of the scan: a scan in progress has consistent sums
      and aligned lists, and a raised scan leaves aligned lists. */
  predicate Sound(p: Progress)
  {
    match p
    case Scanning(s) => Consistent(s.sums) && Aligned(s.tally)
    case Raised(t, _) => Aligned(t)
  }

  lemma {:induction false} ScanKeepsInvariant(cfg: Config, rec: Record, start: Tally, n: nat)
    requires n <= |rec.wfs|
    requires Aligned(start)
    ensures Sound(ScanUpTo(cfg, rec, start, n))
  {
    if n > 0 {
      ScanKeepsInvariant(cfg, rec, start, n - 1);
      var p := ScanUpTo(cfg, rec, start, n - 1);
      if p.Scanning? {
        StepKeepsInvariant(cfg, rec, n - 1, p.state);
        var r := Step(cfg, rec, n - 1, p.state);
        if r.Ok? {
          ScanAdvances(cfg, rec, start, n - 1, p.state, r.value);
        } else {
          assert ScanUpTo(cfg, rec, start, n) == Raised(p.state.tally, r.error);
        }
      } else {
        assert ScanUpTo(cfg, rec, start, n) == p;
      }
    }
  }

  lemma {:induction false} RunKeepsAligned(cfg: Config, records: seq<Extraction>, n: nat)
    requires n <= |records|
    ensures Aligned(RunUpTo(cfg, records, n).0)
    ensures RunUpTo(cfg, records, n).1 <= n
  {
    if n > 0 {
      RunKeepsAligned(cfg, records, n - 1);
      if records[n - 1].Extracted? {
        var rec := records[n - 1].rec;
        ScanKeepsInvariant(cfg, rec, RunUpTo(cfg, records, n - 1).0, |rec.wfs|);
      }
    }
  }

  /** Number of muon ticks among the first `n` ticks. */
  function MuonTicks(threshold: int, wfs: seq<Triplet>, n: nat): nat
    requires n <= |wfs|
  {
    if n == 0 then 0
    else MuonTicks(threshold, wfs, n - 1) + if CheckMuon(threshold, wfs[n - 1]) then 1 else 0
  }

  /** Every tick is visited once, so a scan that did not raise has counted
      exactly the muon ticks of the record. */
  lemma {:induction false} ScanCountsMuons(cfg: Config, rec: Record, start: Tally, n: nat)
    requires n <= |rec.wfs|
    ensures ScanUpTo(cfg, rec, start, n).Scanning? ==>
      ScanUpTo(cfg, rec, start, n).state.tally.muonCount == start.muonCount + MuonTicks(cfg.threshold, rec.wfs, n)
  {
    if n > 0 {
      ScanCountsMuons(cfg, rec, start, n - 1);
      var p := ScanUpTo(cfg, rec, start, n - 1);
      if p.Scanning? {
        var t, s := n - 1, p.state;
        var x := rec.wfs[t];
        if CheckMuon(cfg.threshold, x) {
          MuonTickSkipped(cfg, rec, t, s);
        } else if x.center > cfg.threshold {
          if s.sums.center == 0 {
            OpenAddsClampedPrefix(cfg, rec, t, s);
          } else {
            ContinueAddsTick(cfg, rec, t, s);
          }
        } else if s.sums.center != 0 {
          if !cfg.induction || CheckInduction(cfg, rec.ind1, rec.ind2, t) == Ok(true) {
            CloseAddsClampedSuffix(cfg, rec, t, s);
          } else if CheckInduction(cfg, rec.ind1, rec.ind2, t) == Ok(false) {
            GatedCloseRejects(cfg, rec, t, s);
          }
        } else {
          NoOpenAtOrBelowThreshold(cfg, rec, t, s);
        }
      }
    }
  }

  /** The scan raises only through the induction check, and never when the
      induction waveforms are as long as the record (as they are when they
      come from the same record). Without gating nothing is ever skipped for
      induction. */
  lemma {:induction false} ScanRaisesOnlyWhenGated(cfg: Config, rec: Record, start: Tally, n: nat)
    requires n <= |rec.wfs|
    ensures !cfg.induction ==>
      (ScanUpTo(cfg, rec, start, n).Scanning? &&
       ScanUpTo(cfg, rec, start, n).state.tally.inductionSkip == start.inductionSkip)
    ensures |rec.ind1| >= |rec.wfs| && |rec.ind2| >= |rec.wfs| ==> ScanUpTo(cfg, rec, start, n).Scanning?
  {
    if n > 0 {
      ScanRaisesOnlyWhenGated(cfg, rec, start, n - 1);
      var p := ScanUpTo(cfg, rec, start, n - 1);
      if p.Scanning? {
        var t, s := n - 1, p.state;
        var x := rec.wfs[t];
        if CheckMuon(cfg.threshold, x) {
          MuonTickSkipped(cfg, rec, t, s);
        } else if x.center > cfg.threshold {
          if s.sums.center == 0 {
            OpenAddsClampedPrefix(cfg, rec, t, s);
          } else {
            ContinueAddsTick(cfg, rec, t, s);
          }
        } else if s.sums.center != 0 {
          if !cfg.induction {
            CloseAddsClampedSuffix(cfg, rec, t, s);
          }
        } else {
          NoOpenAtOrBelowThreshold(cfg, rec, t, s);
        }
      }
    }
  }

  /** `later` extends `earlier`: the area lists only grow at the end and the
      counters never decrease. */
  predicate Extends(earlier: Tally, later: Tally)
  {
    earlier.lowAreas <= later.lowAreas && earlier.centerAreas <= later.centerAreas &&
    earlier.highAreas <= later.highAreas && earlier.totalAreas <= later.totalAreas &&
    earlier.muonCount <= later.muonCount && earlier.inductionSkip <= later.inductionSkip
  }

  lemma StepExtends(cfg: Config, rec: Record, t: nat, s: ScanState)
    requires t < |rec.wfs|
    ensures Step(cfg, rec, t, s).Ok? ==> Extends(s.tally, Step(cfg, rec, t, s).value.tally)
  {
    var x := rec.wfs[t];
    if CheckMuon(cfg.threshold, x) {
      MuonTickSkipped(cfg, rec, t, s);
    } else if x.center > cfg.threshold {
      if s.sums.center == 0 {
        OpenAddsClampedPrefix(cfg, rec, t, s);
      } else {
        ContinueAddsTick(cfg, rec, t, s);
      }
    } else if s.sums.center != 0 {
      if !cfg.induction || CheckInduction(cfg, rec.ind1, rec.ind2, t) == Ok(true) {
        CloseAddsClampedSuffix(cfg, rec, t, s);
      } else if CheckInduction(cfg, rec.ind1, rec.ind2, t) == Ok(false) {
        GatedCloseRejects(cfg, rec, t, s);
      }
    } else {
      NoOpenAtOrBelowThreshold(cfg, rec, t, s);
    }
  }

  /** Results are only ever appended: what the scan has produced after `k`
      ticks is kept, in order, by every later tick, and by an exception. */
  lemma {:induction false} ScanOnlyAppends(cfg: Config, rec: Record, start: Tally, k: nat, n: nat)
    requires k <= n <= |rec.wfs|
    ensures Extends(Finish(ScanUpTo(cfg, rec, start, k)).0, Finish(ScanUpTo(cfg, rec, start, n)).0)
    decreases n - k
  {
    if k < n {
      ScanOnlyAppends(cfg, rec, start, k + 1, n);
      var p := ScanUpTo(cfg, rec, start, k);
      if p.Scanning? {
        StepExtends(cfg, rec, k, p.state);
      }
    }
  }

  /** A window still open when the ticks run out is discarded: if no tick
      from `k` on can close a window (each is a muon tick or has its center
      above threshold), the area lists and the induction-skip counter after
      the last tick are those after tick `k`. */
  lemma {:induction false} OpenWindowAtEndDiscarded(cfg: Config, rec: Record, start: Tally, k: nat, n: nat)
    requires k <= n <= |rec.wfs|
    requires ScanUpTo(cfg, rec, start, k).Scanning?
    requires forall t | k <= t < n :: CheckMuon(cfg.threshold, rec.wfs[t]) || rec.wfs[t].center > cfg.threshold
    ensures ScanUpTo(cfg, rec, start, n).Scanning?
    ensures var before, after := ScanUpTo(cfg, rec, start, k).state.tally, ScanUpTo(cfg, rec, start, n).state.tally;
      after == before.(muonCount := after.muonCount)
  {
    if k < n {
      OpenWindowAtEndDiscarded(cfg, rec, start, k, n - 1);
      var t, s := n - 1, ScanUpTo(cfg, rec, start, n - 1).state;
      if CheckMuon(cfg.threshold, rec.wfs[t]) {
        MuonTickSkipped(cfg, rec, t, s);
      } else if s.sums.center == 0 {
        OpenAddsClampedPrefix(cfg, rec, t, s);
      } else {
        ContinueAddsTick(cfg, rec, t, s);
      }
    }
  }

  /** Number of records whose extraction failed. */
  function ExtractFailures(records: seq<Extraction>, n: nat): nat
    requires n <= |records|
  {
    if n == 0 then 0 else ExtractFailures(records, n - 1) + if records[n - 1].ExtractFailed? then 1 else 0
  }

  /** Every extracted record has induction waveforms at least as long as
      its triplet. */
  predicate InductionCovers(records: seq<Extraction>)
  {
    forall i | 0 <= i < |records| :: records[i].Extracted? ==>
      |records[i].rec.ind1| >= |records[i].rec.wfs| && |records[i].rec.ind2| >= |records[i].rec.wfs|
  }

  /** Without gating, and with gating whenever every record's induction
      waveforms are as long as its triplet, the mismatches are exactly the
      records whose extraction failed. */
  lemma {:induction false} MismatchesAreExtractFailures(cfg: Config, records: seq<Extraction>, n: nat)
    requires n <= |records|
    requires !cfg.induction || InductionCovers(records)
    ensures RunUpTo(cfg, records, n).1 == ExtractFailures(records, n)
  {
    if n > 0 {
      MismatchesAreExtractFailures(cfg, records, n - 1);
      if records[n - 1].Extracted? {
        var rec := records[n - 1].rec;
        ScanRaisesOnlyWhenGated(cfg, rec, RunUpTo(cfg, records, n - 1).0, |rec.wfs|);
      }
    }
  }

  // ---------------------------------------------------------------------
  // Worked examples

  function Flat(center: seq<int>): seq<Triplet>
  {
    seq(|center|, i requires 0 <= i < |center| => Triplet(0, center[i], 0))
  }

  /** `n` ticks of all-zero samples. */
  function Silent(n: nat): seq<Triplet>
  {
    seq(n, _ => Triplet(0, 0, 0))
  }

  function Same(values: seq<int>): seq<Triplet>
  {
    seq(|values|, i requires 0 <= i < |values| => Triplet(values[i], values[i], values[i]))
  }

  /** Two ticks where all three channels read 150 are muon ticks: nothing is
      summed or emitted. */
  lemma MuonTicksRejectedExample()
    ensures Finish(ScanUpTo(DefaultConfig(false), Record(Same([0, 0, 0, 150, 150, 0, 0]), [], []), EmptyTally, 7))
            == (Tally([], [], [], [], 2, 0), false)
  {
  }

  /** Prefix 1 and suffix 1: the window opens at tick 2 (adding ticks 1 and
      2), continues at tick 3 and closes at tick 4 (adding tick 4 only), so
      the center area is 50 + 120 + 130 + 40. */
  lemma SinglePulseExample()
    ensures Finish(ScanUpTo(Config(THRESHOLD, 1, 1, false, INDUCTION_THRESHOLD, INDUCTION_WINDOW),
                            Record(Flat([0, 50, 120, 130, 40, 0, 0]), [], []), EmptyTally, 7))
            == (Tally([0], [340], [0], [340], 0, 0), false)
  {
    var cfg := Config(THRESHOLD, 1, 1, false, INDUCTION_THRESHOLD, INDUCTION_WINDOW);
    var rec := Record(Flat([0, 50, 120, 130, 40, 0, 0]), [], []);
    PulseScan(cfg, rec);
    var s := ScanState(Sums(0, 300, 0, 300), EmptyTally);
    CloseAddsClampedSuffix(cfg, rec, 4, s);
    assert Min(cfg.suffix, |rec.wfs| - 4) == 1;
    assert rec.wfs[4] == Triplet(0, 40, 0);
    assert AddWindow(s.sums, rec.wfs, 4, 5) == Sums(0, 340, 0, 340);
    assert Emit(EmptyTally, Sums(0, 340, 0, 340)) == Tally([0], [340], [0], [340], 0, 0);
    ScanAdvances(cfg, rec, EmptyTally, 4, s, ScanState(NoSums, Tally([0], [340], [0], [340], 0, 0)));
    QuietTail(cfg, rec, Tally([0], [340], [0], [340], 0, 0));
  }

  /** The first four ticks of the pulse record: the window opens at tick 2
      with tick 1 as its prefix and takes in tick 3. */
  lemma PulseScan(cfg: Config, rec: Record)
    requires cfg.threshold == THRESHOLD && cfg.prefix == 1 && rec.wfs == Flat([0, 50, 120, 130, 40, 0, 0])
    ensures ScanUpTo(cfg, rec, EmptyTally, 4) == Scanning(ScanState(Sums(0, 300, 0, 300), EmptyTally))
  {
    var empty := ScanState(NoSums, EmptyTally);
    NoOpenAtOrBelowThreshold(cfg, rec, 0, empty);
    ScanAdvances(cfg, rec, EmptyTally, 0, empty, empty);
    NoOpenAtOrBelowThreshold(cfg, rec, 1, empty);
    ScanAdvances(cfg, rec, EmptyTally, 1, empty, empty);
    OpenAddsClampedPrefix(cfg, rec, 2, empty);
    assert Min(cfg.prefix, 2) == 1;
    assert rec.wfs[1] == Triplet(0, 50, 0) && rec.wfs[2] == Triplet(0, 120, 0);
    assert AddWindow(NoSums, rec.wfs, 1, 3) == Sums(0, 170, 0, 170);
    var window := ScanState(Sums(0, 170, 0, 170), EmptyTally);
    ScanAdvances(cfg, rec, EmptyTally, 2, empty, window);
    ContinueAddsTick(cfg, rec, 3, window);
    assert rec.wfs[3] == Triplet(0, 130, 0);
    ScanAdvances(cfg, rec, EmptyTally, 3, window, ScanState(Sums(0, 300, 0, 300), EmptyTally));
  }

  /** Ticks 5 and 6 of the pulse record are quiet, so nothing changes after tick 5. */
  lemma QuietTail(cfg: Config, rec: Record, t: Tally)
    requires cfg.threshold == THRESHOLD && rec.wfs == Flat([0, 50, 120, 130, 40, 0, 0])
    requires ScanUpTo(cfg, rec, EmptyTally, 5) == Scanning(ScanState(NoSums, t))
    ensures Finish(ScanUpTo(cfg, rec, EmptyTally, 7)) == (t, false)
  {
    var s := ScanState(NoSums, t);
    NoOpenAtOrBelowThreshold(cfg, rec, 5, s);
    ScanAdvances(cfg, rec, EmptyTally, 5, s, s);
    NoOpenAtOrBelowThreshold(cfg, rec, 6, s);
    ScanAdvances(cfg, rec, EmptyTally, 6, s, s);
  }

  /** The same pulse with gating on and silent induction channels is
      skipped for induction. */
  lemma SilentInductionExample()
    ensures Finish(ScanUpTo(Config(THRESHOLD, 1, 1, true, INDUCTION_THRESHOLD, INDUCTION_WINDOW),
                            Record(Flat([0, 50, 120, 130, 40, 0, 0]), Silent(7), Silent(7)),
                            EmptyTally, 7))
            == (Tally([], [], [], [], 0, 1), false)
  {
    var cfg := Config(THRESHOLD, 1, 1, true, INDUCTION_THRESHOLD, INDUCTION_WINDOW);
    var silent := Silent(7);
    var rec := Record(Flat([0, 50, 120, 130, 40, 0, 0]), silent, silent);
    PulseScan(cfg, rec);
    assert !AnyAbove(silent, 0, 4, INDUCTION_THRESHOLD);
    assert CheckInduction(cfg, silent, silent, 4) == Ok(false);
    GatedCloseRejects(cfg, rec, 4, ScanState(Sums(0, 300, 0, 300), EmptyTally));
    QuietTail(cfg, rec, EmptyTally.(inductionSkip := 1));
  }

  /** A record that ends in the middle of a pulse emits nothing, whatever
      its induction waveforms. */
  lemma TruncatedTailExample(rec: Record)
    requires rec.wfs == Flat([50, 150, 150, 150])
    ensures Finish(ScanUpTo(DefaultConfig(false), rec, EmptyTally, 4)) == (EmptyTally, false)
  {
    var cfg := DefaultConfig(false);
    var empty := ScanState(NoSums, EmptyTally);
    NoOpenAtOrBelowThreshold(cfg, rec, 0, empty);
    ScanAdvances(cfg, rec, EmptyTally, 0, empty, empty);
    OpenWindowAtEndDiscarded(cfg, rec, EmptyTally, 1, 4);
    ScanCountsMuons(cfg, rec, EmptyTally, 4);
    forall t | 0 <= t < 4
      ensures !CheckMuon(cfg.threshold, rec.wfs[t])
    {
      assert rec.wfs[t].low == 0;
    }
    assert MuonTicks(cfg.threshold, rec.wfs, 1) == 0;
    assert MuonTicks(cfg.threshold, rec.wfs, 2) == 0;
    assert MuonTicks(cfg.threshold, rec.wfs, 3) == 0;
    assert MuonTicks(cfg.threshold, rec.wfs, 4) == 0;
  }
}
