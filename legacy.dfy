/**
 * The legacy calibration path the command-line tool runs (src/calibrate.rs).
 *
 * It differs from the library engine in four ways that are modelled here:
 * `subsample` refuses, without drawing, a read whose mate starts before it;
 * `choose_from` fails when asked for more indices than there are, and the
 * caller then takes every read starting in the window; `window_starts` clips
 * the flank itself and stops one window short of the clipped end; and the
 * mean depth is assembled from a position-to-depth map into a dense
 * histogram.
 *
 * Every failure of this path is a panic (`unwrap` on a fetch or on a map
 * lookup, or checked arithmetic); an `Err(e)` outcome of a member below means
 * the legacy code panics, for the reason `e`. The pileup columns htslib yields
 * for a region are a parameter of `MeanDepth`.
 */
module LegacyCalibrate {
  import opened Wrappers
  import opened Alignment
  import opened Regions
  import opened Stats
  import opened Reservoir
  import C = Calibration

  // ---------------------------------------------------------------------------
  // Machine integers

  const U32_MAX: int := 0xFFFF_FFFF
  const I32_MAX: int := 0x7FFF_FFFF
  type u32 = x: int | 0 <= x <= U32_MAX
  type i32 = x: int | -0x8000_0000 <= x <= I32_MAX

  /** `x as u32` for a value in i32 or u64 range: the low 32 bits. */
  function AsU32(x: int): (r: u32)
    ensures 0 <= x <= U32_MAX ==> r == x
    ensures -0x8000_0000 <= x < 0 ==> r == x + 0x1_0000_0000
  {
    x % 0x1_0000_0000
  }

  /** `x as u64` for an i32: negative values wrap around. */
  function AsU64(x: i32): (r: u64)
    ensures x >= 0 ==> r == x
    ensures x < 0 ==> r == x + U64_MAX + 1
  {
    if x >= 0 then x else x + U64_MAX + 1
  }

  /** `x as i32` for a u32: values above i32::MAX wrap to negatives. */
  function U32AsI32(x: u32): (r: i32)
    ensures x <= I32_MAX ==> r == x
    ensures AsU32(r) == x
  {
    if x <= I32_MAX then x else x - 0x1_0000_0000
  }

  // ---------------------------------------------------------------------------
  // subsample (legacy)

  /** Legacy `subsample`: the decision for one record. A name already kept is
      kept again; a read whose mate starts before it is refused without a
      draw, since its mate was already considered and not kept. */
  function SubsampleSpec(keep: set<string>, drawn: nat, rec: Record, threshold: real, draws: nat -> real): (d: C.Decision)
    ensures IsDuplicate(rec) ==> !d.kept && d.keep == keep && d.drawn == drawn
    ensures !IsDuplicate(rec) && rec.qname in keep ==> d.kept && d.keep == keep && d.drawn == drawn
    ensures !IsDuplicate(rec) && rec.qname !in keep && rec.pos > rec.mpos ==> !d.kept && d.keep == keep && d.drawn == drawn
    ensures !IsDuplicate(rec) && rec.qname !in keep && rec.pos <= rec.mpos ==>
      d.drawn == drawn + 1 && (d.kept <==> draws(drawn) <= threshold)
    ensures d.kept <==> !IsDuplicate(rec) && rec.qname in d.keep
    ensures keep <= d.keep <= keep + {rec.qname}
  {
    if IsDuplicate(rec) then C.Decision(false, keep, drawn)
    else if rec.qname in keep then C.Decision(true, keep, drawn)
    else if rec.pos > rec.mpos then C.Decision(false, keep, drawn)
    else if draws(drawn) <= threshold then C.Decision(true, keep + {rec.qname}, drawn + 1)
    else C.Decision(false, keep, drawn + 1)
  }

  /** The name hash and the generator position of a legacy scan. */
  class Sampler {
    var keep: set<string>
    var drawn: nat
    const draws: nat -> real

    constructor (draws: nat -> real)
      ensures keep == {} && drawn == 0 && this.draws == draws
    {
      keep := {};
      drawn := 0;
      this.draws := draws;
    }

    method Subsample(rec: Record, threshold: real) returns (kept: bool)
      modifies this
      ensures C.Decision(kept, keep, drawn) == SubsampleSpec(old(keep), old(drawn), rec, threshold, draws)
    {
      if IsDuplicate(rec) {
        return false;
      }
      if rec.qname in keep {
        return true;
      }
      if rec.pos > rec.mpos {
        return false;
      }
      var rand := draws(drawn);
      drawn := drawn + 1;
      if rand <= threshold {
        keep := keep + {rec.qname};
        return true;
      }
      return false;
    }
  }

  /**
   * A pair is kept whole: when the first mate (starting at or before its mate)
   * is decided before the second (starting after its mate), the second is kept
   * exactly when the first was, and costs no draw.
   */
  lemma PairKeptWhole(keep: set<string>, drawn: nat, first: Record, second: Record, t1: real, t2: real, draws: nat -> real)
    requires first.qname == second.qname && first.qname !in keep
    requires !IsDuplicate(first) && !IsDuplicate(second)
    requires first.pos <= first.mpos && second.pos > second.mpos
    ensures var d1 := SubsampleSpec(keep, drawn, first, t1, draws);
      var d2 := SubsampleSpec(d1.keep, d1.drawn, second, t2, draws);
      (d2.kept <==> d1.kept) && d2.drawn == d1.drawn && d2.keep == d1.keep
  {
  }

  // ---------------------------------------------------------------------------
  // choose_from (legacy)

  /** Legacy `choose_from`: exactly `n` distinct indices below `size`, or an
      error when there are fewer than `n` to choose from. */
  function ChooseFrom(size: nat, n: nat, choices: nat -> (nat -> nat)): (r: Result<seq<nat>, string>)
    ensures r.Ok? <==> n <= size
    ensures r.Ok? ==> |r.value| == n && Distinct(r.value) && forall i :: 0 <= i < n ==> r.value[i] < size
    ensures r.Err? ==> r.error == "sample size is too big, wanted " + Dec(n) + " from " + Dec(size)
  {
    var xs := ChooseMultiple(size, n, choices(n));
    if |xs| == n then Ok(xs)
    else Err("sample size is too big, wanted " + Dec(n) + " from " + Dec(size))
  }

  /** The legacy and the library `choose_from` make the same choice whenever
      the legacy one succeeds; when it fails the library one returns every
      index. */
  lemma ChooseFromAgrees(size: nat, n: nat, choices: nat -> (nat -> nat))
    ensures ChooseFrom(size, n, choices).Ok? ==> ChooseFrom(size, n, choices).value == C.ChooseFrom(size, n, choices)
    ensures ChooseFrom(size, n, choices).Err? ==> |C.ChooseFrom(size, n, choices)| == size
  {
  }

  /** The indices 0 .. size-1, the fallback selection. */
  function AllIndices(size: nat): (r: seq<nat>)
    ensures |r| == size && forall i :: 0 <= i < size ==> r[i] == i
  {
    seq(size, i => i)
  }

  /** The indices a window selects: the choice, or every read when the choice
      fails (`SelectionMeaning`). */
  function Selection(size: nat, n: nat, choices: nat -> (nat -> nat)): (r: seq<nat>)
    ensures forall j :: 0 <= j < |r| ==> r[j] < size
  {
    if n <= size then ChooseMultiple(size, n, choices(n)) else AllIndices(size)
  }

  lemma SelectionMeaning(size: nat, n: nat, choices: nat -> (nat -> nat))
    ensures Selection(size, n, choices) == match ChooseFrom(size, n, choices) case Ok(xs) => xs case Err(_) => AllIndices(size)
  {
  }

  /** The names picked in window [wb, we] with quota `n`. */
  function WindowPicks(records: seq<Record>, wb: int, we: int, n: nat, choices: nat -> (nat -> nat)): (names: set<string>)
    ensures names <= C.Names(C.StartFilter(records, wb, we))
  {
    var wrecs := C.StartFilter(records, wb, we);
    C.PickedNames(wrecs, Selection(|wrecs|, n, choices))
  }

  /** With a quota above the number of reads starting in the window, every one
      of their names is picked. */
  lemma WindowPicksFallback(records: seq<Record>, wb: int, we: int, n: nat, choices: nat -> (nat -> nat))
    requires n > |C.StartFilter(records, wb, we)|
    ensures WindowPicks(records, wb, we, n, choices) == C.Names(C.StartFilter(records, wb, we))
  {
    var wrecs := C.StartFilter(records, wb, we);
    var idx := AllIndices(|wrecs|);
    forall q | q in C.Names(wrecs) ensures q in C.PickedNames(wrecs, idx) {
      var i :| 0 <= i < |wrecs| && wrecs[i].qname == q;
      assert idx[i] == i;
    }
  }

  /** A window contributes at most as many names as reads start in it, and at
      most its quota when the choice succeeds. */
  lemma WindowPicksAtMost(records: seq<Record>, wb: int, we: int, n: nat, choices: nat -> (nat -> nat))
    ensures |WindowPicks(records, wb, we, n, choices)| <= |C.StartFilter(records, wb, we)|
    ensures n <= |C.StartFilter(records, wb, we)| ==> |WindowPicks(records, wb, we, n, choices)| <= n
  {
    var wrecs := C.StartFilter(records, wb, we);
    C.PickedNamesAtMost(wrecs, Selection(|wrecs|, n, choices));
  }

  function PickRule(records: seq<Record>, ws: nat, choices: nat -> (nat -> nat)): (int, nat) -> set<string> {
    (wb: int, n: nat) => WindowPicks(records, wb, wb + ws - 1, n, choices)
  }

  // ---------------------------------------------------------------------------
  // window_starts (legacy)

  /** The panic, if any, of computing the legacy window range
      [beg + flank, end - flank - ws) in u64: an overflowing begin or an
      underflowing end. */
  function RangePanic(beg: int, end: int, flank: u64, ws: u64): (r: Option<C.CalError>)
    ensures r.None? <==> beg + flank <= U64_MAX && flank + ws <= end
    ensures r.Some? ==> r.value.Panic?
  {
    if beg + flank > U64_MAX then Some(C.Panic(C.AddOverflow))
    else if end < flank then Some(C.Panic(C.SubOverflow))
    else if end - flank < ws then Some(C.Panic(C.SubOverflow))
    else None
  }

  /** What legacy `window_starts` returns: the start counts of the windows of
      the legacy range. */
  function WindowStartsSpec(reader: Reader, region: Region, flank: u64, ws: u64, minMapq: u8): Result<seq<nat>, C.CalError> {
    match RangePanic(region.beg, region.end, flank, ws)
    case Some(e) => Err(e)
    case None =>
      if ws == 0 then Err(C.Panic(C.StepByZero))
      else C.StartsOver([], reader, region.contig, C.WindowBegs(region.beg + flank, region.end - flank - ws, ws), ws, minMapq)
  }

  /** Legacy `window_starts`. */
  method WindowStarts(reader: Reader, region: Region, flank: u64, ws: u64, minMapq: u8) returns (r: Result<seq<nat>, C.CalError>)
    ensures r == WindowStartsSpec(reader, region, flank, ws, minMapq)
  {
    var panic := RangePanic(region.beg, region.end, flank, ws);
    if panic.Some? {
      return Err(panic.value);
    }
    var rb, re := region.beg + flank, region.end - flank - ws;
    if ws == 0 {
      return Err(C.Panic(C.StepByZero));
    }
    ghost var whole := C.StartsOver([], reader, region.contig, C.WindowBegs(rb, re, ws), ws, minMapq);
    assert WindowStartsSpec(reader, region, flank, ws, minMapq) == whole;
    var starts: seq<nat> := [];
    var b := rb;
    while b < re
      invariant whole == C.StartsOver(starts, reader, region.contig, C.WindowBegs(b, re, ws), ws, minMapq)
      decreases re - b
    {
      var n := C.StartsIn(reader, region.contig, b, b + ws - 1, minMapq);
      if n.Err? {
        assert whole == Err(n.error) by {
          C.StartsOverWindow(starts, reader, region.contig, b, re, ws, minMapq);
        }
        return Err(n.error);
      }
      assert whole == C.StartsOver(starts + [n.value], reader, region.contig, C.WindowBegs(b + ws, re, ws), ws, minMapq) by {
        C.StartsOverWindow(starts, reader, region.contig, b, re, ws, minMapq);
      }
      starts := starts + [n.value];
      b := b + ws;
    }
    assert C.WindowBegs(b, re, ws) == [];
    return Ok(starts);
  }

  /** Stopping `ws` short of the end drops exactly the last window. */
  lemma {:induction false} WindowsDropLast(beg: int, end: int, ws: nat)
    requires ws > 0 && beg < end
    ensures var all := C.WindowBegs(beg, end, ws);
      C.WindowBegs(beg, end - ws, ws) == all[..|all| - 1]
    decreases end - beg
  {
    var all := C.WindowBegs(beg, end, ws);
    if beg + ws < end {
      WindowsDropLast(beg + ws, end, ws);
      var rest := C.WindowBegs(beg + ws, end, ws);
      assert all == [beg] + rest;
      assert C.WindowBegs(beg, end - ws, ws) == [beg] + C.WindowBegs(beg + ws, end - ws, ws);
      assert all[..|all| - 1] == [beg] + rest[..|rest| - 1];
    } else {
      assert all == [beg] + C.WindowBegs(beg + ws, end, ws);
    }
  }

  /** The number of windows of [beg, end) is its length over `ws`, rounded up. */
  lemma {:induction false} WindowCount(beg: int, end: int, ws: nat)
    requires ws > 0 && beg < end
    ensures var n := |C.WindowBegs(beg, end, ws)|;
      (n - 1) * ws < end - beg <= n * ws
    decreases end - beg
  {
    var rest := C.WindowBegs(beg + ws, end, ws);
    assert C.WindowBegs(beg, end, ws) == [beg] + rest;
    if beg + ws < end {
      WindowCount(beg + ws, end, ws);
      var m := |rest|;
      MulSucc(m - 1, ws);
      MulSucc(m, ws);
    } else {
      assert rest == [];
    }
  }

  lemma MulSucc(m: int, ws: nat)
    ensures (m + 1) * ws == m * ws + ws
  {
  }

  /**
   * Legacy `window_starts`: one count per window of [beg + flank, end - flank - ws),
   * each the number of the contig's records at or above the quality floor that
   * start in the window before its last base. By `WindowsDropLast` these are
   * the windows of the flank-clipped region, less the last one.
   */
  lemma LegacyWindowStartsMeaning(reader: Reader, region: Region, flank: u64, ws: u64, minMapq: u8)
    requires WindowStartsSpec(reader, region, flank, ws, minMapq).Ok?
    ensures ws > 0 && region.beg + flank <= U64_MAX && flank + ws <= region.end
    ensures var s := WindowStartsSpec(reader, region, flank, ws, minMapq).value;
      var begs := C.WindowBegs(region.beg + flank, region.end - flank - ws, ws);
      && |s| == |begs|
      && (begs != [] ==>
            region.contig in reader.header && C.CountsMatch(s, 0, reader.records, Tid(reader.header, region.contig).value, begs, ws, minMapq))
  {
    WindowStartsUnfold(reader, region, flank, ws, minMapq);
    C.StartsOverMeaning([], reader, region.contig, C.WindowBegs(region.beg + flank, region.end - flank - ws, ws), ws, minMapq);
  }

  lemma WindowStartsUnfold(reader: Reader, region: Region, flank: u64, ws: u64, minMapq: u8)
    requires WindowStartsSpec(reader, region, flank, ws, minMapq).Ok?
    ensures ws > 0 && region.beg + flank <= U64_MAX && flank + ws <= region.end
    ensures WindowStartsSpec(reader, region, flank, ws, minMapq)
      == C.StartsOver([], reader, region.contig, C.WindowBegs(region.beg + flank, region.end - flank - ws, ws), ws, minMapq)
  {
  }

  /** The region 99..199 with no flank and windows of 10 has nine windows, not ten. */
  lemma NineWindows(reader: Reader, contig: string, name: string, minMapq: u8)
    requires WindowStartsSpec(reader, Region(contig, 99, 199, name), 0, 10, minMapq).Ok?
    ensures |WindowStartsSpec(reader, Region(contig, 99, 199, name), 0, 10, minMapq).value| == 9
  {
    WindowStartsUnfold(reader, Region(contig, 99, 199, name), 0, 10, minMapq);
    C.StartsOverMeaning([], reader, contig, C.WindowBegs(99, 189, 10), 10, minMapq);
    WindowCount(99, 189, 10);
  }

  // ---------------------------------------------------------------------------
  // calibrate_regions (legacy)

  /** What legacy `calibrate_regions` writes for one region: the sample's start
      counts, reversed, give each window of the legacy range its quota; the
      records starting anywhere in the (unclipped) region whose name was
      picked are written in order. */
  function CalibrateRegionSpec(reader: Reader, region: Region, sampleMap: map<string, Region>, flank: u64, ws: u64,
                               minMapq: u8, choices: nat -> (nat -> nat)): Result<seq<Record>, C.CalError>
  {
    if region.name !in sampleMap then Err(C.NoSampleRegion(region.name))
    else
      match WindowStartsSpec(reader, sampleMap[region.name], flank, ws, minMapq)
      case Err(e) => Err(e)
      case Ok(starts) =>
        match RangePanic(region.beg, region.end, flank, ws)
        case Some(e) => Err(e)
        case None =>
          match C.RecordsStartingInSpec(reader, region.contig, region.beg, region.end)
          case Err(e) => Err(e)
          case Ok(records) =>
            if ws == 0 then Err(C.Panic(C.StepByZero))
            else
              var rb, re := region.beg + flank, region.end - flank - ws;
              match C.KeepFrom({}, rb, re, 0, ws, C.Reverse(starts), PickRule(records, ws, choices))
              case Err(e) => Err(e)
              case Ok(names) => Ok(C.WithNames(records, names))
  }

  /** Adds the names picked in the window [wb, wb + ws - 1] with quota `n` to
      `names`. */
  method AddWindowPicks(names: set<string>, records: seq<Record>, wb: int, ws: nat, n: nat, choices: nat -> (nat -> nat))
    returns (out: set<string>)
    ensures out == names + PickRule(records, ws, choices)(wb, n)
  {
    var we := wb + ws - 1;
    var wrecs := C.StartFilter(records, wb, we);
    var idx := WindowSelection(|wrecs|, n, choices);
    out := C.AddPicks(names, wrecs, idx);
    assert PickRule(records, ws, choices)(wb, n) == WindowPicks(records, wb, we, n, choices);
  }

  /** The indices a window keeps: the legacy choice, or every index when the
      choice fails. */
  method WindowSelection(size: nat, n: nat, choices: nat -> (nat -> nat)) returns (idx: seq<nat>)
    ensures idx == Selection(size, n, choices)
  {
    var chosen := ChooseFrom(size, n, choices);
    idx := if chosen.Ok? then chosen.value else AllIndices(size);
    SelectionMeaning(size, n, choices);
  }

  /** The window loop of legacy `calibrate_regions`: the names kept. The range
      stops `ws` short of a u64 value, so `wb + ws - 1` never overflows. */
  method KeepNames(records: seq<Record>, rb: int, re: int, ws: u64, rev: seq<nat>, choices: nat -> (nat -> nat))
    returns (r: Result<set<string>, C.CalError>)
    requires ws > 0 && re + ws <= U64_MAX
    ensures r == C.KeepFrom({}, rb, re, 0, ws, rev, PickRule(records, ws, choices))
  {
    ghost var pick := PickRule(records, ws, choices);
    ghost var whole := C.KeepFrom({}, rb, re, 0, ws, rev, pick);
    var keepNames: set<string> := {};
    var wb := rb;
    var k: nat := 0;
    while wb < re
      invariant whole == C.KeepFrom(keepNames, wb, re, k, ws, rev, pick)
      decreases re - wb
    {
      C.KeepFromUnfold(keepNames, wb, re, k, ws, rev, pick);
      if k >= |rev| {
        return Err(C.Panic(C.IndexOutOfBounds));
      }
      keepNames := AddWindowPicks(keepNames, records, wb, ws, rev[k] / 2, choices);
      wb := wb + ws;
      k := k + 1;
    }
    return Ok(keepNames);
  }

  /** Legacy `calibrate_regions` for one region. */
  method CalibrateRegion(reader: Reader, region: Region, sampleMap: map<string, Region>, flank: u64, ws: u64,
                         minMapq: u8, choices: nat -> (nat -> nat)) returns (r: Result<seq<Record>, C.CalError>)
    ensures r == CalibrateRegionSpec(reader, region, sampleMap, flank, ws, minMapq, choices)
  {
    if region.name !in sampleMap {
      return Err(C.NoSampleRegion(region.name));
    }
    var sampleStarts := WindowStarts(reader, sampleMap[region.name], flank, ws, minMapq);
    if sampleStarts.Err? {
      return Err(sampleStarts.error);
    }
    var rev := C.Reverse(sampleStarts.value);
    var panic := RangePanic(region.beg, region.end, flank, ws);
    if panic.Some? {
      return Err(panic.value);
    }
    var rb, re := region.beg + flank, region.end - flank - ws;
    var fetched := C.RecordsThatStartInRegion(reader, region.contig, region.beg, region.end);
    if fetched.Err? {
      return Err(fetched.error);
    }
    if ws == 0 {
      return Err(C.Panic(C.StepByZero));
    }
    var keepNames := KeepNames(fetched.value, rb, re, ws, rev, choices);
    if keepNames.Err? {
      return Err(keepNames.error);
    }
    var out := C.WriteKept(fetched.value, keepNames.value);
    return Ok(out);
  }

  /**
   * What legacy `calibrate_regions` writes for one region: records of the file
   * on the region's contig that start inside the unclipped region.
   */
  lemma CalibrateRegionWrites(reader: Reader, region: Region, sampleMap: map<string, Region>, flank: u64, ws: u64,
                              minMapq: u8, choices: nat -> (nat -> nat))
    requires CalibrateRegionSpec(reader, region, sampleMap, flank, ws, minMapq, choices).Ok?
    ensures forall x :: x in CalibrateRegionSpec(reader, region, sampleMap, flank, ws, minMapq, choices).value ==>
      && x in reader.records && region.contig in reader.header && x.tid == Tid(reader.header, region.contig).value
      && region.beg <= x.pos < region.end
  {
    CalibrateRegionUnfold(reader, region, sampleMap, flank, ws, minMapq, choices);
    var out := CalibrateRegionSpec(reader, region, sampleMap, flank, ws, minMapq, choices).value;
    var records := C.RecordsStartingInSpec(reader, region.contig, region.beg, region.end).value;
    assert forall x :: x in out ==> x in records;
    var tid := Tid(reader.header, region.contig).value;
    C.RecordsStartingMeaning(reader, tid, region.beg, region.end);
    C.OnContigStartingMembers(reader.records, tid, region.beg, region.end - 1);
  }

  /** When the sample's window counts exist and the window loop over the
      region's legacy range succeeds (as `CalibrateRegionUnfold` shows they do
      whenever legacy `calibrate_regions` succeeds), the region's legacy range
      has no more windows than the sample's. */
  lemma CalibrateRegionWindows(reader: Reader, region: Region, sample: Region, flank: u64, ws: u64, minMapq: u8,
                               records: seq<Record>, choices: nat -> (nat -> nat))
    requires WindowStartsSpec(reader, sample, flank, ws, minMapq).Ok?
    requires ws > 0 && flank + ws <= region.end
    requires C.KeepFrom({}, region.beg + flank, region.end - flank - ws, 0, ws,
                        C.Reverse(WindowStartsSpec(reader, sample, flank, ws, minMapq).value), PickRule(records, ws, choices)).Ok?
    ensures region.beg + flank < region.end - flank - ws ==>
      |C.WindowBegs(region.beg + flank, region.end - flank - ws, ws)|
      <= |C.WindowBegs(sample.beg + flank, sample.end - flank - ws, ws)|
  {
    var starts := WindowStartsSpec(reader, sample, flank, ws, minMapq).value;
    WindowStartsLength(reader, sample, flank, ws, minMapq);
    C.KeepFromWindows({}, region.beg + flank, region.end - flank - ws, 0, ws, C.Reverse(starts), PickRule(records, ws, choices));
  }

  lemma WindowStartsLength(reader: Reader, region: Region, flank: u64, ws: u64, minMapq: u8)
    requires WindowStartsSpec(reader, region, flank, ws, minMapq).Ok?
    ensures ws > 0 && region.beg + flank <= U64_MAX && flank + ws <= region.end
    ensures |WindowStartsSpec(reader, region, flank, ws, minMapq).value|
      == |C.WindowBegs(region.beg + flank, region.end - flank - ws, ws)|
  {
    LegacyWindowStartsMeaning(reader, region, flank, ws, minMapq);
  }

  /** The successful outcome of legacy `calibrate_regions` for one region, step by step. */
  lemma CalibrateRegionUnfold(reader: Reader, region: Region, sampleMap: map<string, Region>, flank: u64, ws: u64,
                              minMapq: u8, choices: nat -> (nat -> nat))
    requires CalibrateRegionSpec(reader, region, sampleMap, flank, ws, minMapq, choices).Ok?
    ensures region.name in sampleMap && ws > 0
    ensures WindowStartsSpec(reader, sampleMap[region.name], flank, ws, minMapq).Ok?
    ensures RangePanic(region.beg, region.end, flank, ws).None?
    ensures C.RecordsStartingInSpec(reader, region.contig, region.beg, region.end).Ok?
    ensures var starts := WindowStartsSpec(reader, sampleMap[region.name], flank, ws, minMapq).value;
      var records := C.RecordsStartingInSpec(reader, region.contig, region.beg, region.end).value;
      var keep := C.KeepFrom({}, region.beg + flank, region.end - flank - ws, 0, ws, C.Reverse(starts), PickRule(records, ws, choices));
      keep.Ok? && CalibrateRegionSpec(reader, region, sampleMap, flank, ws, minMapq, choices).value == C.WithNames(records, keep.value)
  {
  }

  /** What legacy `calibrate_regions` writes for the regions, appended to `acc`. */
  function CalRegionsSpec(acc: seq<Record>, reader: Reader, regions: seq<Region>, sampleMap: map<string, Region>,
                          flank: u64, ws: u64, minMapq: u8, choices: nat -> (nat -> nat)): Result<seq<Record>, C.CalError>
    decreases |regions|
  {
    if regions == [] then Ok(acc)
    else
      match CalibrateRegionSpec(reader, regions[0], sampleMap, flank, ws, minMapq, choices)
      case Err(e) => Err(e)
      case Ok(out) => CalRegionsSpec(acc + out, reader, regions[1..], sampleMap, flank, ws, minMapq, choices)
  }

  /** Legacy `calibrate_regions`: every region in order. The flank is the
      command line's i32, taken `as u64` (a negative flank wraps to a value
      near 2^64, so adding it to a begin panics). */
  method CalibrateRegions(reader: Reader, regions: seq<Region>, sampleMap: map<string, Region>, argFlank: i32, ws: u64,
                          minMapq: u8, choices: nat -> (nat -> nat)) returns (r: Result<seq<Record>, C.CalError>)
    ensures r == CalRegionsSpec([], reader, regions, sampleMap, AsU64(argFlank), ws, minMapq, choices)
  {
    var flank := AsU64(argFlank);
    ghost var whole := CalRegionsSpec([], reader, regions, sampleMap, flank, ws, minMapq, choices);
    var written: seq<Record> := [];
    var i := 0;
    while i < |regions|
      invariant 0 <= i <= |regions|
      invariant whole == CalRegionsSpec(written, reader, regions[i..], sampleMap, flank, ws, minMapq, choices)
    {
      assert regions[i..][0] == regions[i] && regions[i..][1..] == regions[i + 1..];
      var out := CalibrateRegion(reader, regions[i], sampleMap, flank, ws, minMapq, choices);
      if out.Err? {
        return Err(out.error);
      }
      written := written + out.value;
      i := i + 1;
    }
    return Ok(written);
  }

  /** Every record legacy `calibrate_regions` writes comes from the file and
      lies on the contig of one of the regions. */
  lemma {:induction false} CalRegionsFromInput(acc: seq<Record>, reader: Reader, regions: seq<Region>, sampleMap: map<string, Region>,
                                               flank: u64, ws: u64, minMapq: u8, choices: nat -> (nat -> nat))
    requires CalRegionsSpec(acc, reader, regions, sampleMap, flank, ws, minMapq, choices).Ok?
    ensures forall x :: x in CalRegionsSpec(acc, reader, regions, sampleMap, flank, ws, minMapq, choices).value ==>
      x in acc || (x in reader.records && exists t :: t in regions && t.contig in reader.header && x.tid == Tid(reader.header, t.contig).value)
    decreases |regions|
  {
    if regions != [] {
      var out := CalibrateRegionSpec(reader, regions[0], sampleMap, flank, ws, minMapq, choices).value;
      CalibrateRegionWrites(reader, regions[0], sampleMap, flank, ws, minMapq, choices);
      CalRegionsFromInput(acc + out, reader, regions[1..], sampleMap, flank, ws, minMapq, choices);
      forall x | x in CalRegionsSpec(acc, reader, regions, sampleMap, flank, ws, minMapq, choices).value && x !in acc
        ensures x in reader.records && exists t :: t in regions && t.contig in reader.header && x.tid == Tid(reader.header, t.contig).value
      {
        if x in out {
          assert regions[0] in regions;
        } else {
          var t :| t in regions[1..] && t.contig in reader.header && x.tid == Tid(reader.header, t.contig).value;
          assert t in regions;
        }
      }
    }
  }

  // ---------------------------------------------------------------------------
  // mean_depth: the column filter and the histogram

  /** 0xF04: unmapped, secondary, QC-failed, duplicate, supplementary. */
  const EXCLUDE_FLAGS: bv16 := 0xF04
  const INCLUDE_FLAGS: bv16 := 0

  /** The per-alignment filter of a pileup column. */
  predicate CountsTowardDepth(r: Record, minMapq: u8) {
    (!r.flags) & INCLUDE_FLAGS == 0 && r.flags & EXCLUDE_FLAGS == 0 && r.mapq >= minMapq
  }

  /** The filter excludes exactly the five flags and the low-quality alignments. */
  lemma CountsTowardDepthMeaning(r: Record, minMapq: u8)
    ensures CountsTowardDepth(r, minMapq) <==>
      && !IsUnmapped(r) && !IsSecondary(r) && r.flags & FLAG_QCFAIL == 0 && !IsDuplicate(r) && !IsSupplementary(r)
      && r.mapq >= minMapq
  {
    var f := r.flags;
    assert f & EXCLUDE_FLAGS == 0 <==>
      f & FLAG_UNMAPPED == 0 && f & FLAG_SECONDARY == 0 && f & FLAG_QCFAIL == 0 && f & FLAG_DUPLICATE == 0 && f & FLAG_SUPPLEMENTARY == 0;
  }

  /** A pileup column: its position and the alignments htslib piles up there. */
  datatype Column = Column(pos: u32, alignments: seq<Record>)

  /** The alignments of a column that pass the filter. */
  function ColumnDepth(alignments: seq<Record>, minMapq: u8): (d: nat)
    ensures d <= |alignments|
  {
    if alignments == [] then 0
    else ColumnDepth(alignments[..|alignments| - 1], minMapq) + (if CountsTowardDepth(alignments[|alignments| - 1], minMapq) then 1 else 0)
  }

  /** The pileup depth limit: 0 stands for i32::MAX, the largest depth htslib
      can hold, i.e. no limit. */
  function MaxDepthSetting(maxDepth: u32): (d: u32)
    ensures maxDepth == 0 ==> d == I32_MAX
    ensures maxDepth != 0 ==> d == maxDepth
    ensures d != 0
  {
    if maxDepth == 0 then I32_MAX else maxDepth
  }

  /** The column loop of `mean_depth` from the columns `cols` on: columns
      outside [beg, end) are skipped (comparing with `end - 1`, which panics
      for `end == 0`); the others record their depth, the last one at a
      position winning, and add it to the u32 total. */
  function ScanColumns(xs: map<u32, u32>, total: u32, cols: seq<Column>, beg: u32, end: u32, minMapq: u8)
    : Result<(map<u32, u32>, u32), C.CalError>
    decreases |cols|
  {
    if cols == [] then Ok((xs, total))
    else
      var c := cols[0];
      if c.pos < beg then ScanColumns(xs, total, cols[1..], beg, end, minMapq)
      else if end == 0 then Err(C.Panic(C.SubOverflow))
      else if c.pos > end - 1 then ScanColumns(xs, total, cols[1..], beg, end, minMapq)
      else
        var d := ColumnDepth(c.alignments, minMapq);
        if d > U32_MAX || total + d > U32_MAX then Err(C.Panic(C.AddOverflow))
        else ScanColumns(xs[c.pos := d], total + d, cols[1..], beg, end, minMapq)
  }

  /** The last column of `cols` at position `p`. */
  function LastAt(cols: seq<Column>, p: int): (r: Option<Column>)
    ensures r.Some? ==> r.value in cols && r.value.pos == p
  {
    if cols == [] then None
    else match LastAt(cols[1..], p)
      case Some(c) => Some(c)
      case None => if cols[0].pos == p then Some(cols[0]) else None
  }

  /** The depth the histogram reports at `p` of [beg, end): that of the last
      column there, or zero. */
  function DepthAt(cols: seq<Column>, p: int, minMapq: u8): nat {
    match LastAt(cols, p)
    case Some(c) => ColumnDepth(c.alignments, minMapq)
    case None => 0
  }

  /** The depths of the in-range columns, summed. */
  function InRangeTotal(cols: seq<Column>, beg: int, end: int, minMapq: u8): nat {
    if cols == [] then 0
    else (if beg <= cols[0].pos < end then ColumnDepth(cols[0].alignments, minMapq) else 0) + InRangeTotal(cols[1..], beg, end, minMapq)
  }

  /** What the column loop collects: for every position of [beg, end) the depth
      of its last column, if any, over what was there before; the total grows
      by the depths of all in-range columns. */
  lemma {:induction false} ScanColumnsMeaning(xs: map<u32, u32>, total: u32, cols: seq<Column>, beg: u32, end: u32, minMapq: u8)
    requires ScanColumns(xs, total, cols, beg, end, minMapq).Ok?
    ensures var (xs', total') := ScanColumns(xs, total, cols, beg, end, minMapq).value;
      && total' == total + InRangeTotal(cols, beg, end, minMapq)
      && (forall p :: p in xs' && !(beg <= p < end) ==> p in xs && xs'[p] == xs[p])
      && (forall p: u32 :: beg <= p < end ==>
            if LastAt(cols, p).Some? then p in xs' && xs'[p] == DepthAt(cols, p, minMapq)
            else (p in xs' <==> p in xs) && (p in xs ==> xs'[p] == xs[p]))
    decreases |cols|
  {
    if cols != [] {
      var c := cols[0];
      if c.pos < beg || c.pos > end - 1 {
        ScanColumnsMeaning(xs, total, cols[1..], beg, end, minMapq);
        forall p: u32 | beg <= p < end && LastAt(cols[1..], p).None?
          ensures LastAt(cols, p).None?
        {
        }
      } else {
        var d := ColumnDepth(c.alignments, minMapq);
        ScanColumnsMeaning(xs[c.pos := d], total + d, cols[1..], beg, end, minMapq);
      }
    }
  }

  /** `DepthResult`: the histogram of (position, depth) pairs, the total and the length. */
  datatype DepthResult = DepthResult(histogram: seq<(u32, u32)>, total: u32, len: u32)
  {
    /** The depths as i32, as `min`, `max` and `mean` read them. */
    function Depths(): (s: seq<int>)
      ensures |s| == |histogram|
      ensures forall i :: 0 <= i < |s| ==> s[i] == U32AsI32(histogram[i].1)
    {
      seq(|histogram|, i requires 0 <= i < |histogram| => U32AsI32(histogram[i].1))
    }

    /** Lowest depth: absent exactly for an empty histogram. */
    function Min(): (r: Option<int>)
      ensures r.None? <==> histogram == []
      ensures r.Some? ==> exists i :: 0 <= i < |histogram| && r.value == U32AsI32(histogram[i].1)
      ensures r.Some? ==> forall i :: 0 <= i < |histogram| ==> r.value <= U32AsI32(histogram[i].1)
    {
      Stats.Min(Depths())
    }

    /** Highest depth: absent exactly for an empty histogram. */
    function Max(): (r: Option<int>)
      ensures r.None? <==> histogram == []
      ensures r.Some? ==> exists i :: 0 <= i < |histogram| && r.value == U32AsI32(histogram[i].1)
      ensures r.Some? ==> forall i :: 0 <= i < |histogram| ==> U32AsI32(histogram[i].1) <= r.value
    {
      Stats.Max(Depths())
    }

    /** Mean depth: absent exactly for an empty histogram. */
    function Mean(): (r: Option<real>)
      ensures r.None? <==> histogram == []
      ensures r.Some? ==> r.value * |histogram| as real == Sum(Depths()) as real
    {
      if |histogram| == 0 then None else Some(Sum(Depths()) as real / |histogram| as real)
    }
  }

  /** The histogram over [beg, beg + len): every position, its recorded depth or zero. */
  function Histogram(xs: map<u32, u32>, beg: u32, len: u32): (h: seq<(u32, u32)>)
    requires beg + len <= U32_MAX + 1
  {
    seq(len, i requires 0 <= i < len => (beg + i, if beg + i in xs then xs[beg + i] else 0))
  }

  /** What `mean_depth` returns for the pileup columns `cols`: the clipped
      bounds in u32 (the region's coordinates and the flank truncated to 32
      bits), the fetch, the length, the column loop, then the histogram. */
  function MeanDepthSpec(reader: Reader, region: Region, flank: i32, minMapq: u8, cols: seq<Column>): Result<DepthResult, C.CalError> {
    var b, f, e := AsU32(region.beg), AsU32(flank), AsU32(region.end);
    if b + f > U32_MAX then Err(C.Panic(C.AddOverflow))
    else if e < f then Err(C.Panic(C.SubOverflow))
    else
      var beg, end := b + f, e - f;
      match C.FetchRecords(reader, region.contig, beg, end)
      case Err(err) => Err(err)
      case Ok(_) =>
        if end < beg then Err(C.Panic(C.SubOverflow))
        else
          match ScanColumns(map[], 0, cols, beg, end, minMapq)
          case Err(err) => Err(err)
          case Ok((xs, total)) => Ok(DepthResult(Histogram(xs, beg, end - beg), total, end - beg))
  }

  /** The column loop: the depth map and the total. */
  method DepthMap(cols: seq<Column>, beg: u32, end: u32, minMapq: u8) returns (r: Result<(map<u32, u32>, u32), C.CalError>)
    ensures r == ScanColumns(map[], 0, cols, beg, end, minMapq)
  {
    var xs: map<u32, u32> := map[];
    var total: u32 := 0;
    var i := 0;
    while i < |cols|
      invariant 0 <= i <= |cols|
      invariant ScanColumns(map[], 0, cols, beg, end, minMapq) == ScanColumns(xs, total, cols[i..], beg, end, minMapq)
    {
      var c := cols[i];
      assert cols[i..][0] == c && cols[i..][1..] == cols[i + 1..];
      if c.pos < beg {
        i := i + 1;
        continue;
      }
      if end == 0 {
        return Err(C.Panic(C.SubOverflow));
      }
      if c.pos > end - 1 {
        i := i + 1;
        continue;
      }
      var depth := CountDepth(c.alignments, minMapq);
      if depth > U32_MAX || total + depth > U32_MAX {
        return Err(C.Panic(C.AddOverflow));
      }
      xs := xs[c.pos := depth];
      total := total + depth;
      i := i + 1;
    }
    assert cols[i..] == [];
    return Ok((xs, total));
  }

  /** The filtered count of one column. */
  method CountDepth(alignments: seq<Record>, minMapq: u8) returns (d: nat)
    ensures d == ColumnDepth(alignments, minMapq)
  {
    d := 0;
    var j := 0;
    while j < |alignments|
      invariant 0 <= j <= |alignments|
      invariant d == ColumnDepth(alignments[..j], minMapq)
    {
      assert alignments[..j + 1][..j] == alignments[..j];
      if CountsTowardDepth(alignments[j], minMapq) {
        d := d + 1;
      }
      j := j + 1;
    }
    assert alignments[..j] == alignments;
  }

  /** The histogram loop: a zeroed vector of `len` pairs, the i-th set to
      position `beg + i` and its depth. */
  method FillHistogram(xs: map<u32, u32>, beg: u32, len: u32) returns (hist: array<(u32, u32)>)
    requires beg + len <= U32_MAX + 1
    ensures fresh(hist)
    ensures hist[..] == Histogram(xs, beg, len)
  {
    hist := new (u32, u32)[len](_ => (0, 0));
    var i := 0;
    while i < len
      invariant 0 <= i <= len
      invariant forall j :: 0 <= j < i ==> hist[j] == (beg + j, if beg + j in xs then xs[beg + j] else 0)
      modifies hist
    {
      var pos := beg + i;
      hist[i] := (pos, if pos in xs then xs[pos] else 0);
      i := i + 1;
    }
  }

  /** `mean_depth` over the pileup columns `cols`. */
  method MeanDepth(reader: Reader, region: Region, flank: i32, minMapq: u8, cols: seq<Column>)
    returns (r: Result<DepthResult, C.CalError>)
    ensures r == MeanDepthSpec(reader, region, flank, minMapq, cols)
  {
    var b, f, e := AsU32(region.beg), AsU32(flank), AsU32(region.end);
    if b + f > U32_MAX {
      return Err(C.Panic(C.AddOverflow));
    }
    if e < f {
      return Err(C.Panic(C.SubOverflow));
    }
    var beg: u32, end: u32 := b + f, e - f;
    var fetched := C.FetchRecords(reader, region.contig, beg, end);
    if fetched.Err? {
      return Err(fetched.error);
    }
    if end < beg {
      return Err(C.Panic(C.SubOverflow));
    }
    var len: u32 := end - beg;
    var scanned := DepthMap(cols, beg, end, minMapq);
    if scanned.Err? {
      return Err(scanned.error);
    }
    var (xs, total) := scanned.value;
    var hist := FillHistogram(xs, beg, len);
    return Ok(DepthResult(hist[..], total, len));
  }

  /**
   * What `mean_depth` reports: one entry per position of the clipped region,
   * in order, each the depth of the last pileup column at that position or
   * zero where there is none; columns outside the clipped region count for
   * nothing, and the total is the sum of the in-range columns' depths.
   */
  lemma MeanDepthMeaning(reader: Reader, region: Region, flank: i32, minMapq: u8, cols: seq<Column>)
    requires MeanDepthSpec(reader, region, flank, minMapq, cols).Ok?
    ensures var res := MeanDepthSpec(reader, region, flank, minMapq, cols).value;
      var beg, end := AsU32(region.beg) + AsU32(flank), AsU32(region.end) - AsU32(flank);
      && res.len == end - beg && |res.histogram| == end - beg
      && res.total == InRangeTotal(cols, beg, end, minMapq)
      && forall i :: 0 <= i < |res.histogram| ==>
           res.histogram[i] == (beg + i, DepthAt(cols, beg + i, minMapq))
  {
    var beg: u32, end: u32 := AsU32(region.beg) + AsU32(flank), AsU32(region.end) - AsU32(flank);
    ScanColumnsMeaning(map[], 0, cols, beg, end, minMapq);
  }

  // ---------------------------------------------------------------------------
  // calibrated_contigs

  /** `calibrated_contigs`: the contig names of the regions of a BED text. */
  method CalibratedContigs(bed: string) returns (r: Result<set<string>, BedError>)
    ensures r.Ok? <==> AllLinesParse(Lines(bed))
    ensures r.Ok? ==> forall c :: c in r.value <==>
      exists i :: 0 <= i < |Lines(bed)| && ParseLine(Lines(bed)[i], i + 1).value.contig == c
  {
    var loaded := LoadFromBed(bed);
    if loaded.Err? {
      return Err(loaded.error);
    }
    var regions := loaded.value;
    var contigs := ContigSet(regions);
    forall c ensures c in contigs <==> exists k :: 0 <= k < |Lines(bed)| && ParseLine(Lines(bed)[k], k + 1).value.contig == c {
      if c in contigs {
        var j :| 0 <= j < |regions| && regions[j].contig == c;
        assert ParseLine(Lines(bed)[j], j + 1) == Ok(regions[j]);
      }
      if exists k :: 0 <= k < |Lines(bed)| && ParseLine(Lines(bed)[k], k + 1).value.contig == c {
        var k :| 0 <= k < |Lines(bed)| && ParseLine(Lines(bed)[k], k + 1).value.contig == c;
        assert regions[k].contig == c;
      }
    }
    return Ok(contigs);
  }

  /** The set of the regions' contigs. */
  method ContigSet(regions: seq<Region>) returns (contigs: set<string>)
    ensures forall c :: c in contigs <==> exists j :: 0 <= j < |regions| && regions[j].contig == c
  {
    contigs := {};
    var i := 0;
    while i < |regions|
      invariant 0 <= i <= |regions|
      invariant forall c :: c in contigs <==> exists j :: 0 <= j < i && regions[j].contig == c
    {
      contigs := contigs + {regions[i].contig};
      i := i + 1;
    }
  }
}
