/** The selective-extrema histogram tool.

    For every record it takes one channel of the centred ADC matrix, limited
    to the first 800 ticks, finds the waveform's maximum and the first tick
    where it is reached, and takes the minimum over the 50 ticks starting
    there. The per-record values are written into two zero-initialised
    arrays; a record whose processing raises `ValueError` leaves its slots
    at zero and is counted as a mismatch. Afterwards every zero entry is
    removed from each array, independently. */
module AdcExtremaHistogram {
  import opened Common

  /** Only the first 800 ticks of a waveform are examined. */
  const WINDOW: nat := 800
  /** The minimum is searched over this many ticks, starting at the maximum. */
  const MIN_SPAN: nat := 50

  datatype Frame = Frame(rows: seq<seq<int>>, width: nat)

  /** A two-dimensional integer array: every row has `width` entries. */
  type Matrix = f: Frame | forall i | 0 <= i < |f.rows| :: |f.rows[i]| == f.width
    witness Frame([], 0)

  predicate IsMax(m: int, s: seq<int>)
  {
    (exists i | 0 <= i < |s| :: s[i] == m) && forall i | 0 <= i < |s| :: s[i] <= m
  }

  predicate IsMin(m: int, s: seq<int>)
  {
    (exists i | 0 <= i < |s| :: s[i] == m) && forall i | 0 <= i < |s| :: m <= s[i]
  }

  /** `np.max` of a non-empty sequence. */
  function SeqMax(s: seq<int>): int
    requires |s| > 0
  {
    if |s| == 1 then s[0] else Max(SeqMax(s[..|s| - 1]), s[|s| - 1])
  }

  /** `np.min` of a non-empty sequence. */
  function SeqMin(s: seq<int>): int
    requires |s| > 0
  {
    if |s| == 1 then s[0] else Min(SeqMin(s[..|s| - 1]), s[|s| - 1])
  }

  lemma {:induction false} SeqMaxIsMax(s: seq<int>)
    requires |s| > 0
    ensures IsMax(SeqMax(s), s)
  {
    if |s| > 1 {
      SeqMaxIsMax(s[..|s| - 1]);
      assert forall i | 0 <= i < |s| - 1 :: s[..|s| - 1][i] == s[i];
    }
  }

  lemma {:induction false} SeqMinIsMin(s: seq<int>)
    requires |s| > 0
    ensures IsMin(SeqMin(s), s)
  {
    if |s| > 1 {
      SeqMinIsMin(s[..|s| - 1]);
      assert forall i | 0 <= i < |s| - 1 :: s[..|s| - 1][i] == s[i];
    }
  }

  /** The two operators `get_extrema` is called with. */
  datatype Reduction = Maximum | Minimum

  predicate IsExtremum(op: Reduction, m: int, s: seq<int>)
  {
    match op
    case Maximum => IsMax(m, s)
    case Minimum => IsMin(m, s)
  }

  function Reduce(op: Reduction, s: seq<int>): (m: int)
    requires |s| > 0
    ensures IsExtremum(op, m, s)
  {
    match op
    case Maximum => SeqMaxIsMax(s); SeqMax(s)
    case Minimum => SeqMinIsMin(s); SeqMin(s)
  }

  /** `get_extrema`: the operator applied along axis 1, one extremum per
      row. A reduction over rows of length zero has no identity and raises
      `ValueError`. */
  function GetExtrema(m: Matrix, op: Reduction): (r: Result<seq<int>>)
    ensures r.Err? <==> m.width == 0
    ensures r.Err? ==> r.error == ValueError
    ensures r.Ok? ==> |r.value| == |m.rows|
    ensures r.Ok? ==> forall i | 0 <= i < |m.rows| :: IsExtremum(op, r.value[i], m.rows[i])
  {
    if m.width == 0 then Err(ValueError)
    else Ok(seq(|m.rows|, i requires 0 <= i < |m.rows| => Reduce(op, m.rows[i])))
  }

  /** Whether a Python index names one of `width` columns. */
  predicate InRange(width: nat, channel: int)
  {
    0 <= width + channel && channel < width
  }

  /** The column a Python channel index names; a negative index counts from
      the last column. */
  function Lane(width: nat, channel: int): (k: nat)
    requires InRange(width, channel)
    ensures k < width
  {
    if channel < 0 then width + channel else channel
  }

  function ColumnOf(rows: seq<seq<int>>, k: nat): seq<int>
    requires forall t | 0 <= t < |rows| :: k < |rows[t]|
  {
    seq(|rows|, t requires 0 <= t < |rows| => rows[t][k])
  }

  /** `adcs[:800, channel]`: the chosen column of at most the first 800
      rows. */
  function Waveform(m: Matrix, channel: int): Result<seq<int>>
  {
    if InRange(m.width, channel) then
      Ok(ColumnOf(Slice(m.rows, 0, WINDOW), Lane(m.width, channel)))
    else Err(IndexError)
  }

  /** A channel outside the matrix raises `IndexError`; otherwise the
      waveform has one sample per row of at most the first 800 rows, taken
      from the column the channel names. */
  lemma WaveformSpec(m: Matrix, channel: int)
    ensures Waveform(m, channel).Ok? <==> InRange(m.width, channel)
    ensures Waveform(m, channel).Err? ==> Waveform(m, channel).error == IndexError
    ensures Waveform(m, channel).Ok? ==>
              |Waveform(m, channel).value| == Min(WINDOW, |m.rows|) <= WINDOW
    ensures Waveform(m, channel).Ok? ==>
              forall t | 0 <= t < |Waveform(m, channel).value| ::
                Waveform(m, channel).value[t] == m.rows[t][Lane(m.width, channel)]
  {
  }

  /** `np.where(s == v)[0][0]`: the first position holding `v`. */
  function FirstIndex(s: seq<int>, v: int): (i: nat)
    requires v in s
    ensures i < |s| && s[i] == v
  {
    if s[0] == v then 0 else 1 + FirstIndex(s[1..], v)
  }

  /** No earlier position holds `v`. */
  lemma {:induction false} FirstIndexIsFirst(s: seq<int>, v: int)
    requires v in s
    ensures forall j | 0 <= j < FirstIndex(s, v) :: s[j] != v
  {
    if s[0] != v {
      assert v in s[1..];
      FirstIndexIsFirst(s[1..], v);
      assert forall j | 1 <= j < |s| :: s[j] == s[1..][j - 1];
    }
  }

  /** The values one record contributes: its maximum, the tick of its
      first occurrence and the minimum that follows. */
  datatype Extrema = Extrema(max: int, peak: nat, min: int)

  /** What one waveform yields: the maximum, the first tick reaching
      it, and the minimum over the up to 50 ticks starting at that tick.
      An empty waveform makes `np.max` raise `ValueError`. */
  function ExtremaOf(wf: seq<int>): Result<Extrema>
  {
    if |wf| == 0 then Err(ValueError)
    else
      var top := SeqMax(wf);
      SeqMaxIsMax(wf);
      var peak := FirstIndex(wf, top);
      var after := Slice(wf, peak, peak + MIN_SPAN);
      Ok(Extrema(top, peak, SeqMin(after)))
  }

  /** An empty waveform raises `ValueError`. Otherwise the result holds the
      waveform's maximum, the first tick reaching it, and the minimum of
      the up to 50 ticks starting at that tick, clipped at the end of the
      waveform; that range holds the peak, so the minimum does not exceed
      the maximum. */
  lemma ExtremaOfSpec(wf: seq<int>)
    ensures ExtremaOf(wf).Err? <==> |wf| == 0
    ensures ExtremaOf(wf).Err? ==> ExtremaOf(wf).error == ValueError
    ensures ExtremaOf(wf).Ok? ==> IsMax(ExtremaOf(wf).value.max, wf)
    ensures ExtremaOf(wf).Ok? ==>
              var e := ExtremaOf(wf).value;
              e.peak < |wf| && wf[e.peak] == e.max && forall j | 0 <= j < e.peak :: wf[j] < e.max
    ensures ExtremaOf(wf).Ok? ==>
              var e := ExtremaOf(wf).value;
              IsMin(e.min, wf[e.peak..Min(e.peak + MIN_SPAN, |wf|)]) && e.min <= e.max
  {
    if |wf| > 0 {
      var top := SeqMax(wf);
      SeqMaxIsMax(wf);
      var peak := FirstIndex(wf, top);
      FirstIndexIsFirst(wf, top);
      var after := Slice(wf, peak, peak + MIN_SPAN);
      assert after == wf[peak..Min(peak + MIN_SPAN, |wf|)];
      SeqMinIsMin(after);
      assert after[0] == top;
    }
  }

  /** A record as `data.extract` delivers it: the centred matrix of ticks
      by channels, or a failure (a shape mismatch) that raises `ValueError`. */
  datatype Extraction = Extracted(adcs: Matrix) | ExtractFailed

  /** Everything the try block does for one record. `ValueError` is caught
      by the loop; `IndexError` is not. */
  function RecordOutcome(e: Extraction, channel: int): Result<Extrema>
  {
    match e
    case ExtractFailed => Err(ValueError)
    case Extracted(adcs) =>
      match Waveform(adcs, channel)
      case Err(error) => Err(error)
      case Ok(wf) => ExtremaOf(wf)
  }

  /** A record raises `IndexError` exactly when the channel is outside its
      matrix, and `ValueError` exactly when extraction failed or the matrix
      has no ticks; otherwise its maximum lies in the first 800 ticks and
      its minimum does not exceed it. */
  lemma RecordOutcomeCases(e: Extraction, channel: int)
    ensures RecordOutcome(e, channel) == Err(IndexError) <==>
              e.Extracted? && !InRange(e.adcs.width, channel)
    ensures RecordOutcome(e, channel) == Err(ValueError) <==>
              (e.ExtractFailed? || (InRange(e.adcs.width, channel) && |e.adcs.rows| == 0))
    ensures RecordOutcome(e, channel).Ok? ==>
              e.Extracted? && RecordOutcome(e, channel).value.peak < Min(WINDOW, |e.adcs.rows|)
    ensures RecordOutcome(e, channel).Ok? ==>
              RecordOutcome(e, channel).value.min <= RecordOutcome(e, channel).value.max
  {
    if e.Extracted? && InRange(e.adcs.width, channel) {
      WaveformSpec(e.adcs, channel);
      ExtremaOfSpec(Waveform(e.adcs, channel).value);
    }
  }

  /** The outcome of every record, in record order. The ensures gives only the
      length; the outcome at each index is stated by `OutcomesAt`. */
  function Outcomes(records: seq<Extraction>, channel: int): (os: seq<Result<Extrema>>)
    ensures |os| == |records|
  {
    if |records| == 0 then []
    else Outcomes(records[..|records| - 1], channel) + [RecordOutcome(records[|records| - 1], channel)]
  }

  lemma {:induction false} OutcomesAt(records: seq<Extraction>, channel: int, i: nat)
    requires i < |records|
    ensures Outcomes(records, channel)[i] == RecordOutcome(records[i], channel)
  {
    if i < |records| - 1 {
      OutcomesAt(records[..|records| - 1], channel, i);
    }
  }

  /** What a record leaves in `max_array`: its maximum, or the initial 0. */
  function SlotMax(o: Result<Extrema>): int
  {
    if o.Ok? then o.value.max else 0
  }

  /** What a record leaves in `min_array`: its minimum, or the initial 0. */
  function SlotMin(o: Result<Extrema>): int
  {
    if o.Ok? then o.value.min else 0
  }

  /** The `max_array` the record loop leaves. The ensures gives only the length;
      the slot at each index is stated by `SlotsAt`. */
  function MaxSlots(os: seq<Result<Extrema>>): (s: seq<int>)
    ensures |s| == |os|
  {
    if |os| == 0 then [] else MaxSlots(os[..|os| - 1]) + [SlotMax(os[|os| - 1])]
  }

  /** The `min_array` the record loop leaves. The ensures gives only the length;
      the slot at each index is stated by `SlotsAt`. */
  function MinSlots(os: seq<Result<Extrema>>): (s: seq<int>)
    ensures |s| == |os|
  {
    if |os| == 0 then [] else MinSlots(os[..|os| - 1]) + [SlotMin(os[|os| - 1])]
  }

  /** How many outcomes raised `ValueError`. The ensures gives only a bound; the
      exact split of the records is stated by `MismatchesPartition`. */
  function Mismatches(os: seq<Result<Extrema>>): (n: nat)
    ensures n <= |os|
  {
    if |os| == 0 then 0
    else Mismatches(os[..|os| - 1]) + if os[|os| - 1] == Err(ValueError) then 1 else 0
  }

  /** The extrema of the records that were processed, in record order. The ensures
      gives only a bound on the length; `MismatchesPartition` states how many
      survive, and `KeepProcessedAligned` relates them to the record slots. */
  function Survivors(os: seq<Result<Extrema>>): (es: seq<Extrema>)
    ensures |es| <= |os|
  {
    if |os| == 0 then []
    else Survivors(os[..|os| - 1]) + if os[|os| - 1].Ok? then [os[|os| - 1].value] else []
  }

  /** Appending one outcome appends its slot values, counts it if it is a
      mismatch and keeps its extrema if it was processed. */
  lemma AppendOutcome(os: seq<Result<Extrema>>, o: Result<Extrema>)
    ensures MaxSlots(os + [o]) == MaxSlots(os) + [SlotMax(o)]
    ensures MinSlots(os + [o]) == MinSlots(os) + [SlotMin(o)]
    ensures Mismatches(os + [o]) == Mismatches(os) + if o == Err(ValueError) then 1 else 0
    ensures Survivors(os + [o]) == Survivors(os) + if o.Ok? then [o.value] else []
  {
    assert (os + [o])[..|os|] == os;
  }

  lemma MismatchesAppend(os: seq<Result<Extrema>>, o: Result<Extrema>)
    ensures Mismatches(os + [o]) == Mismatches(os) + if o == Err(ValueError) then 1 else 0
  {
    assert (os + [o])[..|os|] == os;
  }

  /** Slot `i` of each array is what record `i` leaves there: its value
      when it was processed, and the initial 0 when it raised. */
  lemma {:induction false} SlotsAt(os: seq<Result<Extrema>>, i: nat)
    requires i < |os|
    ensures MaxSlots(os)[i] == SlotMax(os[i]) && MinSlots(os)[i] == SlotMin(os[i])
    ensures os[i].Err? ==> MaxSlots(os)[i] == 0 && MinSlots(os)[i] == 0
  {
    if i < |os| - 1 {
      SlotsAt(os[..|os| - 1], i);
    }
  }

  /** The record loop of `main`: two zero-filled arrays, one slot per
      record, written in place for every record that is processed; a
      `ValueError` only increments the mismatch count, and an `IndexError`
      ends the program. */
  method ExtremaArrays(records: seq<Extraction>, channel: int)
    returns (maxArray: array<int>, minArray: array<int>, mismatch: nat, raised: bool)
    ensures fresh(maxArray) && fresh(minArray)
    ensures maxArray.Length == |records| && minArray.Length == |records|
    ensures raised <==> Err(IndexError) in Outcomes(records, channel)
    ensures !raised ==> maxArray[..] == MaxSlots(Outcomes(records, channel))
    ensures !raised ==> minArray[..] == MinSlots(Outcomes(records, channel))
    ensures !raised ==> mismatch == Mismatches(Outcomes(records, channel))
  {
    ghost var os := Outcomes(records, channel);
    maxArray := new int[|records|](_ => 0);
    minArray := new int[|records|](_ => 0);
    mismatch := 0;
    for idx := 0 to |records|
      invariant Filled(maxArray, minArray, os, idx)
      invariant forall i | 0 <= i < idx :: os[i] != Err(IndexError)
      invariant mismatch == Mismatches(os[..idx])
    {
      var outcome := TryRecord(records, channel, idx);
      assert os[..idx + 1] == os[..idx] + [outcome];
      MismatchesAppend(os[..idx], outcome);
      if outcome == Err(IndexError) {
        raised := true;
        return;
      }
      mismatch := StoreOutcome(maxArray, minArray, idx, outcome, mismatch, os);
    }
    assert os[..|records|] == os;
    SlotsMatch(maxArray[..], minArray[..], os);
    raised := false;
  }

  /** Arrays holding, slot by slot, what each record leaves there are the
      slot sequences of the outcomes. */
  lemma SlotsMatch(maxes: seq<int>, mins: seq<int>, os: seq<Result<Extrema>>)
    requires |maxes| == |mins| == |os|
    requires forall i | 0 <= i < |os| :: maxes[i] == SlotMax(os[i]) && mins[i] == SlotMin(os[i])
    ensures maxes == MaxSlots(os) && mins == MinSlots(os)
  {
    forall i | 0 <= i < |os| ensures maxes[i] == MaxSlots(os)[i] && mins[i] == MinSlots(os)[i] {
      SlotsAt(os, i);
    }
  }

  /** The first `idx` slots of both arrays hold what their records leave
      there, and the remaining slots still hold the initial 0. */
  ghost predicate Filled(maxArray: array<int>, minArray: array<int>, os: seq<Result<Extrema>>, idx: nat)
    reads maxArray, minArray
  {
    idx <= |os| == maxArray.Length == minArray.Length && maxArray != minArray &&
    (forall i | 0 <= i < idx :: maxArray[i] == SlotMax(os[i]) && minArray[i] == SlotMin(os[i])) &&
    (forall i | idx <= i < |os| :: maxArray[i] == 0 && minArray[i] == 0)
  }

  /** The `max_array[idx] = ...`, `min_array[idx] = ...` writes of a
      processed record, or the `mismatch_cnt += 1` of a failed one, which
      leaves both slots as they were. */
  method StoreOutcome(maxArray: array<int>, minArray: array<int>, idx: nat,
                      outcome: Result<Extrema>, mismatch: nat, ghost os: seq<Result<Extrema>>)
    returns (mismatch': nat)
    requires idx < |os| && outcome == os[idx] && outcome != Err(IndexError)
    requires Filled(maxArray, minArray, os, idx)
    modifies maxArray, minArray
    ensures forall i | 0 <= i < maxArray.Length ::
              maxArray[i] == if i == idx && outcome.Ok? then outcome.value.max else old(maxArray[i])
    ensures forall i | 0 <= i < minArray.Length ::
              minArray[i] == if i == idx && outcome.Ok? then outcome.value.min else old(minArray[i])
    ensures mismatch' == mismatch + if outcome == Err(ValueError) then 1 else 0
    ensures Filled(maxArray, minArray, os, idx + 1)
  {
    mismatch' := mismatch;
    match outcome
    case Ok(e) =>
      maxArray[idx] := e.max;
      minArray[idx] := e.min;
    case Err(ValueError) =>
      mismatch' := mismatch + 1;
  }

  /** The try block for record `idx`: extract the waveform, take its
      maximum and the first tick reaching it, then the minimum of the
      following ticks. */
  method TryRecord(records: seq<Extraction>, channel: int, idx: nat) returns (outcome: Result<Extrema>)
    requires idx < |records|
    ensures outcome == Outcomes(records, channel)[idx]
  {
    OutcomesAt(records, channel, idx);
    if records[idx].ExtractFailed? {
      return Err(ValueError);
    }
    var adcs := records[idx].adcs;
    var extracted := Waveform(adcs, channel);
    if extracted.Err? {
      return Err(extracted.error);
    }
    var wf := extracted.value;
    if |wf| == 0 {
      return Err(ValueError);
    }
    var maxVal := SeqMax(wf);
    SeqMaxIsMax(wf);
    var maxIdx := FirstIndex(wf, maxVal);
    var minVal := SeqMin(Slice(wf, maxIdx, maxIdx + MIN_SPAN));
    outcome := Ok(Extrema(maxVal, maxIdx, minVal));
  }

  /** Every record the loop finishes is either a mismatch or processed. */
  lemma {:induction false} MismatchesPartition(os: seq<Result<Extrema>>)
    requires Err(IndexError) !in os
    ensures Mismatches(os) + |Survivors(os)| == |os|
  {
    if |os| > 0 {
      var init, last := os[..|os| - 1], os[|os| - 1];
      assert os == init + [last];
      assert last in os;
      MismatchesPartition(init);
      AppendOutcome(init, last);
      if last.Err? {
        assert last == Err(last.error);
        assert last.error != IndexError;
        assert last.error == ValueError;
        assert Mismatches(os) == Mismatches(init) + 1;
        assert Survivors(os) == Survivors(init);
      }
    }
  }

  /** `a[a != 0]`: the entries that are not zero, in order. */
  function NonzeroFilter(s: seq<int>): (r: seq<int>)
    ensures |r| <= |s|
  {
    if |s| == 0 then []
    else NonzeroFilter(s[..|s| - 1]) + if s[|s| - 1] != 0 then [s[|s| - 1]] else []
  }

  /** The filter works piecewise, so it keeps the order of the entries. */
  lemma {:induction false} NonzeroFilterSplits(a: seq<int>, b: seq<int>)
    ensures NonzeroFilter(a + b) == NonzeroFilter(a) + NonzeroFilter(b)
  {
    if |b| == 0 {
      assert a + b == a;
    } else {
      NonzeroFilterSplits(a, b[..|b| - 1]);
      assert (a + b)[..|a + b| - 1] == a + b[..|b| - 1];
    }
  }

  /** The filter keeps each nonzero value as often as it occurs and drops
      every zero. */
  lemma {:induction false} NonzeroFilterKeepsNonzero(s: seq<int>)
    ensures forall x :: multiset(NonzeroFilter(s))[x] == if x == 0 then 0 else multiset(s)[x]
  {
    if |s| > 0 {
      NonzeroFilterKeepsNonzero(s[..|s| - 1]);
      assert s == s[..|s| - 1] + [s[|s| - 1]];
    }
  }

  /** Filtering twice removes nothing more. */
  lemma {:induction false} NonzeroFilterIdempotent(s: seq<int>)
    ensures NonzeroFilter(NonzeroFilter(s)) == NonzeroFilter(s)
  {
    if |s| > 0 {
      var init := s[..|s| - 1];
      NonzeroFilterIdempotent(init);
      var tail := if s[|s| - 1] != 0 then [s[|s| - 1]] else [];
      NonzeroFilterSplits(NonzeroFilter(init), tail);
      if s[|s| - 1] != 0 {
        assert tail[..0] == [];
      }
    }
  }

  function MaxesOf(es: seq<Extrema>): (s: seq<int>)
    ensures |s| == |es|
  {
    if |es| == 0 then [] else MaxesOf(es[..|es| - 1]) + [es[|es| - 1].max]
  }

  function MinsOf(es: seq<Extrema>): (s: seq<int>)
    ensures |s| == |es|
  {
    if |es| == 0 then [] else MinsOf(es[..|es| - 1]) + [es[|es| - 1].min]
  }

  lemma AppendExtrema(es: seq<Extrema>, e: Extrema)
    ensures MaxesOf(es + [e]) == MaxesOf(es) + [e.max]
    ensures MinsOf(es + [e]) == MinsOf(es) + [e.min]
  {
    assert (es + [e])[..|es|] == es;
  }

  lemma AppendNonzero(s: seq<int>, x: int)
    ensures NonzeroFilter(s + [x]) == NonzeroFilter(s) + if x != 0 then [x] else []
  {
    assert (s + [x])[..|s|] == s;
  }

  /** The filter as written removes the mismatch slots, but it also filters
      the processed records' own values. */
  lemma AsWrittenFiltersSurvivors(os: seq<Result<Extrema>>)
    ensures NonzeroFilter(MaxSlots(os)) == NonzeroFilter(MaxesOf(Survivors(os)))
    ensures NonzeroFilter(MinSlots(os)) == NonzeroFilter(MinsOf(Survivors(os)))
  {
    MaxFilterSurvivors(os);
    MinFilterSurvivors(os);
  }

  lemma {:induction false} MaxFilterSurvivors(os: seq<Result<Extrema>>)
    ensures NonzeroFilter(MaxSlots(os)) == NonzeroFilter(MaxesOf(Survivors(os)))
  {
    if |os| > 0 {
      var init, last := os[..|os| - 1], os[|os| - 1];
      assert os == init + [last];
      MaxFilterSurvivors(init);
      AppendOutcome(init, last);
      var es := Survivors(init);
      AppendNonzero(MaxSlots(init), SlotMax(last));
      if last.Ok? {
        AppendExtrema(es, last.value);
        AppendNonzero(MaxesOf(es), last.value.max);
        var x := last.value.max;
        var t := if x != 0 then [x] else [];
        assert NonzeroFilter(MaxSlots(os)) == NonzeroFilter(MaxSlots(init) + [x]);
        assert NonzeroFilter(MaxSlots(init) + [x]) == NonzeroFilter(MaxSlots(init)) + t;
        assert NonzeroFilter(MaxSlots(init)) + t == NonzeroFilter(MaxesOf(es)) + t;
        assert NonzeroFilter(MaxesOf(es)) + t == NonzeroFilter(MaxesOf(es) + [x]);
        assert MaxesOf(es) + [x] == MaxesOf(Survivors(os));
      } else {
        assert NonzeroFilter(MaxSlots(os)) == NonzeroFilter(MaxSlots(init) + [0]);
        assert NonzeroFilter(MaxSlots(init) + [0]) == NonzeroFilter(MaxSlots(init));
        assert Survivors(os) == es;
      }
    }
  }

  lemma {:induction false} MinFilterSurvivors(os: seq<Result<Extrema>>)
    ensures NonzeroFilter(MinSlots(os)) == NonzeroFilter(MinsOf(Survivors(os)))
  {
    if |os| > 0 {
      var init, last := os[..|os| - 1], os[|os| - 1];
      assert os == init + [last];
      MinFilterSurvivors(init);
      AppendOutcome(init, last);
      var es := Survivors(init);
      AppendNonzero(MinSlots(init), SlotMin(last));
      if last.Ok? {
        AppendExtrema(es, last.value);
        AppendNonzero(MinsOf(es), last.value.min);
        var x := last.value.min;
        var t := if x != 0 then [x] else [];
        assert NonzeroFilter(MinSlots(os)) == NonzeroFilter(MinSlots(init) + [x]);
        assert NonzeroFilter(MinSlots(init) + [x]) == NonzeroFilter(MinSlots(init)) + t;
        assert NonzeroFilter(MinSlots(init)) + t == NonzeroFilter(MinsOf(es)) + t;
        assert NonzeroFilter(MinsOf(es)) + t == NonzeroFilter(MinsOf(es) + [x]);
        assert MinsOf(es) + [x] == MinsOf(Survivors(os));
      } else {
        assert NonzeroFilter(MinSlots(os)) == NonzeroFilter(MinSlots(init) + [0]);
        assert NonzeroFilter(MinSlots(init) + [0]) == NonzeroFilter(MinSlots(init));
        assert Survivors(os) == es;
      }
    }
  }

  /** A record whose channel reads 5, 0, 0 (median 0, so centring leaves
      it as it is) is processed without error: maximum 5 at tick 0 and
      minimum 0 over the ticks from there. */
  lemma ZeroMinimumRecord(m: Matrix)
    requires m == Frame([[5], [0], [0]], 1)
    ensures RecordOutcome(Extracted(m), 0) == Ok(Extrema(5, 0, 0))
    ensures Outcomes([Extracted(m)], 0) == [Ok(Extrema(5, 0, 0))]
  {
    var wf := [5, 0, 0];
    assert Slice(m.rows, 0, WINDOW) == m.rows;
    assert ColumnOf(m.rows, 0) == wf;
    assert Waveform(m, 0) == Ok(wf);
    assert wf[..2] == [5, 0] && wf[..1] == [5];
    assert SeqMax(wf) == 5;
    assert FirstIndex(wf, 5) == 0;
    assert Slice(wf, 0, MIN_SPAN) == wf;
    assert SeqMin(wf) == 0;
    assert [Extracted(m)][..0] == [];
  }

  /** That record is not a mismatch, yet the filter removes its minimum of
      0 while keeping its maximum: the two filtered arrays no longer pair
      up. */
  lemma GenuineZeroDropped(m: Matrix)
    requires m == Frame([[5], [0], [0]], 1)
    ensures RecordOutcome(Extracted(m), 0) == Ok(Extrema(5, 0, 0))
    ensures Mismatches(Outcomes([Extracted(m)], 0)) == 0
    ensures NonzeroFilter(MaxSlots(Outcomes([Extracted(m)], 0))) == [5]
    ensures NonzeroFilter(MinSlots(Outcomes([Extracted(m)], 0))) == []
  {
    ZeroMinimumRecord(m);
    var o := Ok(Extrema(5, 0, 0));
    assert [] + [o] == [o];
    AppendOutcome([], o);
    AppendNonzero([], 5);
    AppendNonzero([], 0);
  }

  /** The intended filter: keep the slots of the records that were
      processed, whatever their value. */
  function KeepProcessed(values: seq<int>, os: seq<Result<Extrema>>): (r: seq<int>)
    requires |values| == |os|
    ensures |r| <= |values|
  {
    if |os| == 0 then []
    else
      KeepProcessed(values[..|values| - 1], os[..|os| - 1])
        + if os[|os| - 1].Ok? then [values[|values| - 1]] else []
  }

  lemma AppendKept(values: seq<int>, os: seq<Result<Extrema>>, v: int, o: Result<Extrema>)
    requires |values| == |os|
    ensures KeepProcessed(values + [v], os + [o]) == KeepProcessed(values, os) + if o.Ok? then [v] else []
  {
    assert (values + [v])[..|values|] == values;
    assert (os + [o])[..|os|] == os;
  }

  /** Filtering by the processed records keeps, for the max and the min
      arrays alike, exactly the processed records' values in record order,
      so the two results have equal length and pair up entry by entry. */
  lemma {:induction false} KeepProcessedAligned(os: seq<Result<Extrema>>)
    ensures KeepProcessed(MaxSlots(os), os) == MaxesOf(Survivors(os))
    ensures KeepProcessed(MinSlots(os), os) == MinsOf(Survivors(os))
  {
    if |os| > 0 {
      var init, last := os[..|os| - 1], os[|os| - 1];
      assert os == init + [last];
      KeepProcessedAligned(init);
      AppendOutcome(init, last);
      AppendKept(MaxSlots(init), init, SlotMax(last), last);
      AppendKept(MinSlots(init), init, SlotMin(last), last);
      var es := Survivors(init);
      if last.Ok? {
        AppendExtrema(es, last.value);
        calc {
          KeepProcessed(MaxSlots(os), os);
          KeepProcessed(MaxSlots(init) + [SlotMax(last)], init + [last]);
          MaxesOf(es) + [last.value.max];
          MaxesOf(Survivors(os));
        }
        calc {
          KeepProcessed(MinSlots(os), os);
          KeepProcessed(MinSlots(init) + [SlotMin(last)], init + [last]);
          MinsOf(es) + [last.value.min];
          MinsOf(Survivors(os));
        }
      } else {
        assert Survivors(os) == es;
        assert KeepProcessed(MaxSlots(os), os) == KeepProcessed(MaxSlots(init), init);
        assert KeepProcessed(MinSlots(os), os) == KeepProcessed(MinSlots(init), init);
      }
    }
  }

  /** The histograms `main` passes on, with the corrected filter. */
  function Histograms(os: seq<Result<Extrema>>): (h: (seq<int>, seq<int>))
    ensures |h.0| == |h.1| == |Survivors(os)|
  {
    KeepProcessedAligned(os);
    (KeepProcessed(MaxSlots(os), os), KeepProcessed(MinSlots(os), os))
  }

  /** With the corrected filter the record above keeps both of its values. */
  lemma GenuineZeroKept(m: Matrix)
    requires m == Frame([[5], [0], [0]], 1)
    ensures Histograms(Outcomes([Extracted(m)], 0)) == ([5], [0])
  {
    ZeroMinimumRecord(m);
    var e := Extrema(5, 0, 0);
    var os := [Ok(e)];
    KeepProcessedAligned(os);
    assert [] + [Ok(e)] == os;
    AppendOutcome([], Ok(e));
    assert Survivors(os) == [e];
    AppendExtrema([], e);
    assert [] + [e] == [e];
    assert MaxesOf([e]) == [5] && MinsOf([e]) == [0];
  }
}
