/**
 * The library calibration engine (src/calibration.rs).
 *
 * Fixed and sample-mean modes derive a keep probability per target region and
 * scan the records of every target region, drawing at most once per query
 * name; the sample-profile mode mirrors the read-start profile of each sample
 * region onto its target region, window by window; a final pass writes the
 * kept read groups and the reads whose mate is not on a sequin contig.
 *
 * The random generator is a parameter. `draws(j)` is the j-th `f64` drawn by
 * the generator seeded for the scan; `choices(n)` is the stream a generator
 * freshly seeded for `choose_from` yields when asked for `n` indices (every
 * call reseeds, so the stream depends only on `n`). Arithmetic that Rust
 * checks (u64 overflow, `step_by(0)`, out-of-bounds indexing) ends in an
 * explicit `Panic` outcome.
 */
module Calibration {
  import opened Wrappers
  import opened Alignment
  import opened Stats
  import opened Regions
  import opened Coverage
  import opened Reservoir

  // ---------------------------------------------------------------------------
  // Failures

  /** Why one target region has no keep probability. */
  datatype ProbFailure =
    | NoSampleMean(name: string)
    | ZeroTargetMean(name: string)
    | TargetBelowSample(name: string)

  datatype PanicReason = AddOverflow | SubOverflow | StepByZero | IndexOutOfBounds

  datatype CalError =
    | FetchFailed(contig: string)
    | CoverageFailed(cause: CoverageError)
    /** The failing target regions; the source reports whichever of them its
        hash map yields first. */
    | ProbabilityFailures(failures: set<ProbFailure>)
    | NoProbability(name: string)
    | NoSampleRegion(name: string)
    | Panic(reason: PanicReason)

  function FailureMessage(f: ProbFailure): string {
    match f
    case NoSampleMean(n) => "No sample mean coverage found for target region " + n
    case ZeroTargetMean(n) => "Target mean coverage for region " + n + " is zero"
    case TargetBelowSample(n) => "Target mean coverage for region " + n + " is less than sample mean coverage"
  }

  /** A fetch whose failure (contig not in the header) becomes a calibration error. */
  function FetchRecords(reader: Reader, contig: string, beg: int, end: int): (r: Result<seq<Record>, CalError>)
    ensures r.Err? <==> contig !in reader.header
    ensures r.Err? ==> r.error == FetchFailed(contig)
    ensures r.Ok? ==> r.value == FetchTid(reader, Tid(reader.header, contig).value, beg, end)
  {
    match Fetch(reader, contig, beg, end)
    case Err(_) => Err(FetchFailed(contig))
    case Ok(rs) => Ok(rs)
  }

  function Names(rs: seq<Record>): set<string> {
    set i | 0 <= i < |rs| :: rs[i].qname
  }

  function Contigs(regions: seq<Region>): set<string> {
    set i | 0 <= i < |regions| :: regions[i].contig
  }

  function RegionNames(regions: seq<Region>): set<string> {
    set i | 0 <= i < |regions| :: regions[i].name
  }

  lemma RegionNamesSnoc(regions: seq<Region>)
    requires regions != []
    ensures RegionNames(regions) == RegionNames(regions[..|regions| - 1]) + {regions[|regions| - 1].name}
  {
    var init := regions[..|regions| - 1];
    forall n | n in RegionNames(regions) ensures n in RegionNames(init) + {regions[|regions| - 1].name} {
      var i :| 0 <= i < |regions| && regions[i].name == n;
      if i < |init| {
        assert init[i].name == n;
      }
    }
    forall n | n in RegionNames(init) ensures n in RegionNames(regions) {
      var i :| 0 <= i < |init| && init[i].name == n;
      assert regions[i].name == n;
    }
  }

  // ---------------------------------------------------------------------------
  // Downsampling probabilities

  /** The mean depth of a coverage vector, zero when it is empty. */
  function MeanOrZero(rc: RegionCoverage): (m: real)
    ensures m >= 0.0
    ensures rc.coverage != [] ==> m * |rc.coverage| as real == Sum(rc.coverage) as real
  {
    assert AllNonNegative(rc.coverage);
    SumZeroIffAllZero(rc.coverage);
    match rc.Mean()
    case None => 0.0
    case Some(m) => m
  }

  /** `regions_coverage`: each region's mean depth with no quality floor and no
      flank, keyed by name (a later region with the same name replaces an
      earlier one); the first region that fails fails the whole map. */
  function MeanCoverages(reader: Reader, regions: seq<Region>): (r: Result<map<string, real>, CalError>)
    ensures r.Ok? <==> forall i :: 0 <= i < |regions| ==> CoverageSpec(reader, regions[i], 0, 0).Ok?
    ensures r.Ok? ==> r.value.Keys == RegionNames(regions)
    ensures r.Ok? ==> forall k :: k in r.value ==> r.value[k] >= 0.0
  {
    if regions == [] then Ok(map[])
    else
      var init, last := regions[..|regions| - 1], regions[|regions| - 1];
      assert forall i :: 0 <= i < |init| ==> init[i] == regions[i];
      match MeanCoverages(reader, init)
      case Err(e) => Err(e)
      case Ok(m) =>
        match CoverageSpec(reader, last, 0, 0)
        case Err(e) => Err(CoverageFailed(e))
        case Ok(rc) =>
          RegionNamesSnoc(regions);
          Ok(m[last.name := MeanOrZero(rc)])
  }

  /** The first check a target region fails, if any. */
  function Failure(name: string, target: real, sample: Option<real>): Option<ProbFailure> {
    if sample.None? then Some(NoSampleMean(name))
    else if target == 0.0 then Some(ZeroTargetMean(name))
    else if target < sample.value then Some(TargetBelowSample(name))
    else None
  }

  function Lookup(m: map<string, real>, k: string): Option<real> {
    if k in m then Some(m[k]) else None
  }

  /** Keep probability of each target region: sample mean over target mean. */
  function Probabilities(targetMeans: map<string, real>, sampleMeans: map<string, real>): (r: Result<map<string, real>, CalError>)
    ensures r.Ok? <==> forall n :: n in targetMeans ==>
      n in sampleMeans && targetMeans[n] != 0.0 && sampleMeans[n] <= targetMeans[n]
    ensures r.Ok? ==> r.value.Keys == targetMeans.Keys
    ensures r.Ok? ==> forall n :: n in r.value ==> r.value[n] * targetMeans[n] == sampleMeans[n]
    ensures r.Err? ==> r.error.ProbabilityFailures? && r.error.failures != {}
    ensures r.Err? ==> forall f :: f in r.error.failures ==>
      f.name in targetMeans && Failure(f.name, targetMeans[f.name], Lookup(sampleMeans, f.name)) == Some(f)
  {
    var failures := Failures(targetMeans, sampleMeans);
    FailuresEmpty(targetMeans, sampleMeans);
    if failures == {} then
      Ok(map n | n in targetMeans && n in sampleMeans :: sampleMeans[n] / targetMeans[n])
    else
      Err(ProbabilityFailures(failures))
  }

  /** The failures of all target regions. */
  function Failures(targetMeans: map<string, real>, sampleMeans: map<string, real>): set<ProbFailure> {
    set n | n in targetMeans && Failure(n, targetMeans[n], Lookup(sampleMeans, n)).Some?
      :: Failure(n, targetMeans[n], Lookup(sampleMeans, n)).value
  }

  lemma FailuresEmpty(targetMeans: map<string, real>, sampleMeans: map<string, real>)
    ensures Failures(targetMeans, sampleMeans) == {} <==>
      forall n :: n in targetMeans ==> Failure(n, targetMeans[n], Lookup(sampleMeans, n)).None?
  {
    if !(forall n :: n in targetMeans ==> Failure(n, targetMeans[n], Lookup(sampleMeans, n)).None?) {
      var n :| n in targetMeans && Failure(n, targetMeans[n], Lookup(sampleMeans, n)).Some?;
      assert Failure(n, targetMeans[n], Lookup(sampleMeans, n)).value in Failures(targetMeans, sampleMeans);
    }
  }

  lemma RatioBounds(p: real, t: real, s: real)
    requires t > 0.0 && 0.0 <= s <= t && p * t == s
    ensures 0.0 <= p <= 1.0 && (p > 0.0 <==> s > 0.0)
  {
  }

  /** Each probability lies in [0, 1] when the sample means are non-negative,
      and is positive exactly when the sample mean is. */
  lemma ProbabilitiesInUnitInterval(targetMeans: map<string, real>, sampleMeans: map<string, real>)
    requires forall n :: n in sampleMeans ==> sampleMeans[n] >= 0.0
    requires Probabilities(targetMeans, sampleMeans).Ok?
    ensures var p := Probabilities(targetMeans, sampleMeans).value;
      forall n :: n in p ==> 0.0 <= p[n] <= 1.0 && (p[n] > 0.0 <==> sampleMeans[n] > 0.0)
  {
    var p := Probabilities(targetMeans, sampleMeans).value;
    forall n | n in p ensures 0.0 <= p[n] <= 1.0 && (p[n] > 0.0 <==> sampleMeans[n] > 0.0) {
      RatioBounds(p[n], targetMeans[n], sampleMeans[n]);
    }
  }

  /** `determine_downsampling_probabilities`: target means, then sample means
      (or the fixed fold coverage for every target when there are no sample
      regions), then the ratio. */
  function DetermineProbabilities(reader: Reader, targets: seq<Region>, samples: Option<seq<Region>>, fold: u64): Result<map<string, real>, CalError> {
    match MeanCoverages(reader, targets)
    case Err(e) => Err(e)
    case Ok(targetMeans) =>
      var sampleMeans := if samples.Some? then MeanCoverages(reader, samples.value) else Ok(FoldMeans(targetMeans, fold));
      match sampleMeans
      case Err(e) => Err(e)
      case Ok(sm) => Probabilities(targetMeans, sm)
  }

  /** The fold coverage for every target region. */
  function FoldMeans(targetMeans: map<string, real>, fold: u64): map<string, real> {
    map n | n in targetMeans :: fold as real
  }

  /** Without sample regions every target's sample mean is the fold coverage. */
  lemma FixedFoldProbabilities(reader: Reader, targets: seq<Region>, fold: u64, tm: map<string, real>)
    requires MeanCoverages(reader, targets) == Ok(tm)
    ensures DetermineProbabilities(reader, targets, None, fold) == Probabilities(tm, FoldMeans(tm, fold))
  {
  }

  /** With the fold coverage as every sample mean, each probability is the fold
      coverage over the target's mean depth, and the three failures reduce to a
      zero mean or a mean below the fold coverage. */
  lemma ConstantSampleProbabilities(tm: map<string, real>, fold: u64)
    ensures var r := Probabilities(tm, FoldMeans(tm, fold));
      && (r.Ok? <==> forall n :: n in tm ==> tm[n] != 0.0 && fold as real <= tm[n])
      && (r.Ok? ==> forall n :: n in r.value ==> r.value[n] * tm[n] == fold as real)
  {
  }

  // ---------------------------------------------------------------------------
  // One record's keep decision

  /** The decision and the sampler's next state: names kept so far and draws
      consumed. */
  datatype Decision = Decision(kept: bool, keep: set<string>, drawn: nat)

  /** A draw is made only for a non-duplicate whose name is neither kept nor
      already considered. */
  predicate NeedsDraw(keep: set<string>, considered: set<string>, rec: Record) {
    !IsDuplicate(rec) && rec.qname !in keep && rec.qname !in considered
  }

  /** `subsample`: the decision for one record. */
  function SubsampleSpec(keep: set<string>, drawn: nat, considered: set<string>, rec: Record, threshold: real, draws: nat -> real): (d: Decision)
    ensures IsDuplicate(rec) ==> !d.kept && d.keep == keep && d.drawn == drawn
    ensures !IsDuplicate(rec) && rec.qname in keep ==> d.kept && d.keep == keep && d.drawn == drawn
    ensures !IsDuplicate(rec) && rec.qname !in keep && rec.qname in considered ==> !d.kept && d.keep == keep && d.drawn == drawn
    ensures NeedsDraw(keep, considered, rec) ==> d.drawn == drawn + 1 && (d.kept <==> draws(drawn) <= threshold)
    ensures d.kept <==> !IsDuplicate(rec) && rec.qname in d.keep
    ensures keep <= d.keep <= keep + {rec.qname}
  {
    if IsDuplicate(rec) then Decision(false, keep, drawn)
    else if rec.qname in keep then Decision(true, keep, drawn)
    else if rec.qname in considered then Decision(false, keep, drawn)
    else if draws(drawn) <= threshold then Decision(true, keep + {rec.qname}, drawn + 1)
    else Decision(false, keep, drawn + 1)
  }

  /** The keep set and the generator position shared by a whole scan. */
  class Sampler {
    var keep: set<string>
    var drawn: nat
    const draws: nat -> real

    constructor (draws: nat -> real)
      ensures keep == {} && drawn == 0 && this.draws == draws
    {
      keep := {};
      drawn := 0;
      this.draws := draws;
    }

    method Subsample(rec: Record, considered: set<string>, threshold: real) returns (kept: bool)
      modifies this
      ensures Decision(kept, keep, drawn) == SubsampleSpec(old(keep), old(drawn), considered, rec, threshold, draws)
    {
      if IsDuplicate(rec) {
        return false;
      }
      if rec.qname in keep {
        return true;
      }
      if rec.qname in considered {
        return false;
      }
      var rand := draws(drawn);
      drawn := drawn + 1;
      if rand <= threshold {
        keep := keep + {rec.qname};
        return true;
      }
      return false;
    }
  }

  // ---------------------------------------------------------------------------
  // The fixed / sample-mean scan

  datatype ScanState = ScanState(keep: set<string>, drawn: nat, considered: set<string>)

  /** One record of the scan: subsample it when its mate is on a sequin
      contig, then mark its name considered. */
  function Step(st: ScanState, rec: Record, name: string, probs: map<string, real>,
                sequinTids: set<int>, draws: nat -> real): (st': ScanState)
    requires rec.mtid in sequinTids ==> name in probs
    ensures st.keep <= st'.keep <= st.keep + {rec.qname}
    ensures st'.considered == st.considered + {rec.qname}
    ensures forall q :: q in st.considered ==> (q in st'.keep <==> q in st.keep)
    ensures st'.drawn == st.drawn || (st'.drawn == st.drawn + 1 && rec.qname !in st.considered)
  {
    var st1 := if rec.mtid in sequinTids then
        var d := SubsampleSpec(st.keep, st.drawn, st.considered, rec, probs[name], draws);
        ScanState(d.keep, d.drawn, st.considered)
      else st;
    st1.(considered := st1.considered + {rec.qname})
  }

  /** The scan over the records fetched for one target region. */
  function ScanRecords(st: ScanState, recs: seq<Record>, name: string, probs: map<string, real>,
                       sequinTids: set<int>, draws: nat -> real): Result<ScanState, CalError>
    decreases |recs|
  {
    if recs == [] then Ok(st)
    else if recs[0].mtid in sequinTids && name !in probs then Err(NoProbability(name))
    else ScanRecords(Step(st, recs[0], name, probs, sequinTids, draws), recs[1..], name, probs, sequinTids, draws)
  }

  /** The scan over the target regions, in order. */
  function ScanRegions(st: ScanState, reader: Reader, regions: seq<Region>, probs: map<string, real>,
                       sequinTids: set<int>, draws: nat -> real): Result<ScanState, CalError>
    decreases |regions|
  {
    if regions == [] then Ok(st)
    else
      var region := regions[0];
      match FetchRecords(reader, region.contig, region.beg, region.end)
      case Err(e) => Err(e)
      case Ok(recs) =>
        match ScanRecords(st, recs, region.name, probs, sequinTids, draws)
        case Err(e) => Err(e)
        case Ok(st1) => ScanRegions(st1, reader, regions[1..], probs, sequinTids, draws)
  }

  /** What `calibrate_by_fixed_coverage` computes from a keep set and a
      generator position. */
  function FixedCoverageSpec(keep: set<string>, drawn: nat, reader: Reader, targets: seq<Region>,
                             samples: Option<seq<Region>>, sequinTids: set<int>, fold: u64,
                             draws: nat -> real): Result<ScanState, CalError>
  {
    match DetermineProbabilities(reader, targets, samples, fold)
    case Err(e) => Err(e)
    case Ok(probs) => ScanRegions(ScanState(keep, drawn, {}), reader, targets, probs, sequinTids, draws)
  }

  lemma NamesCons(recs: seq<Record>)
    requires recs != []
    ensures Names(recs) == {recs[0].qname} + Names(recs[1..])
  {
    forall q | q in Names(recs) ensures q in {recs[0].qname} + Names(recs[1..]) {
      var i :| 0 <= i < |recs| && recs[i].qname == q;
      if i > 0 { assert recs[1..][i - 1] == recs[i]; }
    }
    forall q | q in Names(recs[1..]) ensures q in Names(recs) {
      var i :| 0 <= i < |recs[1..]| && recs[1..][i].qname == q;
      assert recs[i + 1] == recs[1..][i];
    }
    assert recs[0].qname in Names(recs);
  }

  /**
   * What a stretch of the scan may do to the sampler state when it considers
   * the names `names`: the keep set only grows, and only by those names; the
   * names become considered; a name considered before keeps its membership;
   * and the draws made are at most the number of newly considered names.
   */
  ghost predicate Progress(st: ScanState, st': ScanState, names: set<string>) {
    && st.keep <= st'.keep <= st.keep + names
    && st'.considered == st.considered + names
    && (forall q :: q in st.considered ==> (q in st'.keep <==> q in st.keep))
    && st.drawn <= st'.drawn
    && st'.drawn - st.drawn <= |st'.considered - st.considered|
  }

  lemma ProgressCompose(st0: ScanState, st1: ScanState, st2: ScanState, n1: set<string>, n2: set<string>)
    requires Progress(st0, st1, n1) && Progress(st1, st2, n2)
    ensures Progress(st0, st2, n1 + n2)
  {
    var c0, c1, c2 := st0.considered, st1.considered, st2.considered;
    assert c2 - c0 == (c2 - c1) + (c1 - c0);
    assert (c2 - c1) * (c1 - c0) == {};
  }

  lemma StepProgress(st: ScanState, rec: Record, name: string, probs: map<string, real>,
                     sequinTids: set<int>, draws: nat -> real)
    requires rec.mtid in sequinTids ==> name in probs
    ensures Progress(st, Step(st, rec, name, probs, sequinTids, draws), {rec.qname})
  {
    var st' := Step(st, rec, name, probs, sequinTids, draws);
    if st'.drawn == st.drawn + 1 {
      assert st'.considered - st.considered == {rec.qname};
    }
  }

  /** Over one region's records the scan makes progress over their names: in
      particular no name is drawn for twice. */
  lemma {:induction false} ScanRecordsInvariant(st: ScanState, recs: seq<Record>, name: string,
                                                probs: map<string, real>, sequinTids: set<int>, draws: nat -> real)
    requires ScanRecords(st, recs, name, probs, sequinTids, draws).Ok?
    ensures Progress(st, ScanRecords(st, recs, name, probs, sequinTids, draws).value, Names(recs))
    decreases |recs|
  {
    if recs == [] {
      assert Names(recs) == {};
    } else {
      var rec := recs[0];
      var st2 := Step(st, rec, name, probs, sequinTids, draws);
      assert ScanRecords(st, recs, name, probs, sequinTids, draws) == ScanRecords(st2, recs[1..], name, probs, sequinTids, draws);
      StepProgress(st, rec, name, probs, sequinTids, draws);
      ScanRecordsInvariant(st2, recs[1..], name, probs, sequinTids, draws);
      ProgressCompose(st, st2, ScanRecords(st2, recs[1..], name, probs, sequinTids, draws).value, {rec.qname}, Names(recs[1..]));
      NamesCons(recs);
    }
  }

  /** The same over all target regions: across the whole scan no name is drawn
      for twice, and a name's keep membership is settled once it has been
      considered. */
  lemma {:induction false} ScanRegionsInvariant(st: ScanState, reader: Reader, regions: seq<Region>,
                                                probs: map<string, real>, sequinTids: set<int>, draws: nat -> real)
    requires ScanRegions(st, reader, regions, probs, sequinTids, draws).Ok?
    ensures var st' := ScanRegions(st, reader, regions, probs, sequinTids, draws).value;
      Progress(st, st', st'.considered - st.considered)
    decreases |regions|
  {
    if regions != [] {
      var region := regions[0];
      var recs := FetchRecords(reader, region.contig, region.beg, region.end).value;
      ScanRecordsInvariant(st, recs, region.name, probs, sequinTids, draws);
      var st1 := ScanRecords(st, recs, region.name, probs, sequinTids, draws).value;
      ScanRegionsInvariant(st1, reader, regions[1..], probs, sequinTids, draws);
      var st' := ScanRegions(st1, reader, regions[1..], probs, sequinTids, draws).value;
      ProgressCompose(st, st1, st', Names(recs), st'.considered - st1.considered);
      assert st'.considered - st.considered == Names(recs) + (st'.considered - st1.considered) - st.considered;
      assert st.considered + (Names(recs) + (st'.considered - st1.considered)) == st.considered + (st'.considered - st.considered);
    }
  }

  /** The inner loop of `calibrate_by_fixed_coverage` over one region's records. */
  method ScanRegionRecords(sampler: Sampler, recs: seq<Record>, name: string, probs: map<string, real>,
                           sequinTids: set<int>, considered0: set<string>)
    returns (r: Result<set<string>, CalError>)
    modifies sampler
    ensures var spec := ScanRecords(ScanState(old(sampler.keep), old(sampler.drawn), considered0), recs, name, probs, sequinTids, sampler.draws);
      && (r.Ok? <==> spec.Ok?)
      && (r.Err? ==> r.error == spec.error)
      && (spec.Ok? ==> spec.value == ScanState(sampler.keep, sampler.drawn, r.value))
  {
    ghost var whole := ScanRecords(ScanState(sampler.keep, sampler.drawn, considered0), recs, name, probs, sequinTids, sampler.draws);
    var considered := considered0;
    var j := 0;
    while j < |recs|
      invariant 0 <= j <= |recs|
      invariant whole == ScanRecords(ScanState(sampler.keep, sampler.drawn, considered), recs[j..], name, probs, sequinTids, sampler.draws)
    {
      var rec := recs[j];
      assert recs[j..][0] == rec && recs[j..][1..] == recs[j + 1..];
      if rec.mtid in sequinTids {
        if name !in probs {
          return Err(NoProbability(name));
        }
        var _ := sampler.Subsample(rec, considered, probs[name]);
      }
      considered := considered + {rec.qname};
      j := j + 1;
    }
    return Ok(considered);
  }

  /** `calibrate_by_fixed_coverage`: probabilities first, then every record of
      every target region, subsampling those whose mate lies on a sequin contig
      and marking every name considered. */
  method CalibrateByFixedCoverage(sampler: Sampler, reader: Reader, targets: seq<Region>,
                                  samples: Option<seq<Region>>, sequinTids: set<int>, fold: u64)
    returns (r: Result<(), CalError>)
    modifies sampler
    ensures var spec := FixedCoverageSpec(old(sampler.keep), old(sampler.drawn), reader, targets, samples, sequinTids, fold, sampler.draws);
      && (r.Ok? <==> spec.Ok?)
      && (r.Err? ==> r.error == spec.error)
      && (spec.Ok? ==> sampler.keep == spec.value.keep && sampler.drawn == spec.value.drawn)
  {
    var probabilities := DetermineProbabilities(reader, targets, samples, fold);
    if probabilities.Err? {
      return Err(probabilities.error);
    }
    var probs := probabilities.value;
    ghost var whole := ScanRegions(ScanState(sampler.keep, sampler.drawn, {}), reader, targets, probs, sequinTids, sampler.draws);
    var considered: set<string> := {};
    var i := 0;
    while i < |targets|
      invariant 0 <= i <= |targets|
      invariant whole == ScanRegions(ScanState(sampler.keep, sampler.drawn, considered), reader, targets[i..], probs, sequinTids, sampler.draws)
    {
      var region := targets[i];
      assert targets[i..][0] == region && targets[i..][1..] == targets[i + 1..];
      var fetched := FetchRecords(reader, region.contig, region.beg, region.end);
      if fetched.Err? {
        return Err(fetched.error);
      }
      var scanned := ScanRegionRecords(sampler, fetched.value, region.name, probs, sequinTids, considered);
      if scanned.Err? {
        return Err(scanned.error);
      }
      considered := scanned.value;
      i := i + 1;
    }
    return Ok(());
  }

  // ---------------------------------------------------------------------------
  // Flank clipping

  /** `clip_regions`: every region shrunk by `flank` at both ends, in order; a
      begin that overflows or an end that underflows panics; no begin < end
      check is made. */
  function ClipRegions(regions: seq<Region>, flank: u64): (r: Result<seq<Region>, CalError>)
    ensures r.Ok? <==> forall i :: 0 <= i < |regions| ==> regions[i].beg + flank <= U64_MAX && flank <= regions[i].end
    ensures r.Err? ==> r.error.Panic?
    ensures r.Ok? ==> |r.value| == |regions|
    ensures r.Ok? ==> forall i :: 0 <= i < |regions| ==>
      && r.value[i].contig == regions[i].contig && r.value[i].name == regions[i].name
      && r.value[i].beg == regions[i].beg + flank && r.value[i].end == regions[i].end - flank
  {
    if regions == [] then Ok([])
    else
      var head := regions[0];
      if head.beg + flank > U64_MAX then Err(Panic(AddOverflow))
      else if head.end < flank then Err(Panic(SubOverflow))
      else
        match ClipRegions(regions[1..], flank)
        case Err(e) => Err(e)
        case Ok(rest) => Ok([Region(head.contig, head.beg + flank, head.end - flank, head.name)] + rest)
  }

  /** Clipping by zero changes nothing. */
  lemma ClipByZero(regions: seq<Region>)
    ensures ClipRegions(regions, 0) == Ok(regions)
  {
    var r := ClipRegions(regions, 0).value;
    forall i | 0 <= i < |regions| ensures r[i] == regions[i] {
      assert r[i].contig == regions[i].contig && r[i].name == regions[i].name;
      assert r[i].beg == regions[i].beg && r[i].end == regions[i].end;
    }
    assert r == regions;
  }

  /** Clipping twice is clipping once by the sum. */
  lemma ClipTwice(regions: seq<Region>, a: u64, b: u64)
    requires a + b <= U64_MAX
    requires ClipRegions(regions, a).Ok? && ClipRegions(ClipRegions(regions, a).value, b).Ok?
    ensures ClipRegions(regions, a + b) == ClipRegions(ClipRegions(regions, a).value, b)
  {
    var once := ClipRegions(regions, a).value;
    var twice := ClipRegions(once, b).value;
    assert forall i :: 0 <= i < |regions| ==> regions[i].beg + (a + b) <= U64_MAX && a + b <= regions[i].end by {
      forall i | 0 <= i < |regions| ensures regions[i].beg + (a + b) <= U64_MAX && a + b <= regions[i].end {
        assert once[i].beg + b <= U64_MAX && b <= once[i].end;
      }
    }
    var direct := ClipRegions(regions, a + b).value;
    assert forall i :: 0 <= i < |regions| ==> direct[i] == twice[i];
  }

  // ---------------------------------------------------------------------------
  // Windows and read starts

  /** The window begins of `(beg..end).step_by(ws)`: beg, beg + ws, ... while
      below end; the last window may run past end. */
  function WindowBegs(beg: int, end: int, ws: nat): (r: seq<int>)
    requires ws > 0
    ensures beg < end <==> r != []
    ensures r != [] ==> r[0] == beg && r[|r| - 1] + ws >= end
    ensures forall k :: 0 <= k < |r| ==> beg <= r[k] < end
    decreases end - beg
  {
    if beg >= end then [] else [beg] + WindowBegs(beg + ws, end, ws)
  }

  /** The windows cover [beg, end): every position lies in one of them. */
  lemma {:induction false} WindowsCover(beg: int, end: int, ws: nat, p: int)
    requires ws > 0 && beg <= p < end
    ensures exists k :: 0 <= k < |WindowBegs(beg, end, ws)| && WindowBegs(beg, end, ws)[k] <= p < WindowBegs(beg, end, ws)[k] + ws
    decreases end - beg
  {
    var r := WindowBegs(beg, end, ws);
    if p >= beg + ws {
      WindowsCover(beg + ws, end, ws, p);
      var rest := WindowBegs(beg + ws, end, ws);
      assert r == [beg] + rest;
      var k :| 0 <= k < |rest| && rest[k] <= p < rest[k] + ws;
      assert r[k + 1] == rest[k];
    } else {
      assert r[0] <= p < r[0] + ws;
    }
  }

  /** The k-th window begins k window sizes after the region. */
  lemma {:induction false} WindowsEvenlySpaced(beg: int, end: int, ws: nat)
    requires ws > 0
    ensures forall k :: 0 <= k < |WindowBegs(beg, end, ws)| ==> WindowBegs(beg, end, ws)[k] == beg + k * ws
    decreases end - beg
  {
    if beg < end {
      var r, rest := WindowBegs(beg, end, ws), WindowBegs(beg + ws, end, ws);
      WindowsEvenlySpaced(beg + ws, end, ws);
      assert r == [beg] + rest;
      forall k | 0 < k < |r| ensures r[k] == beg + k * ws {
        assert r[k] == rest[k - 1] == beg + ws + (k - 1) * ws;
      }
    }
  }

  /** The windows do not overlap: each begins at or after the end of every earlier one. */
  lemma {:induction false} WindowsDisjoint(beg: int, end: int, ws: nat)
    requires ws > 0
    ensures forall k, l :: 0 <= k < l < |WindowBegs(beg, end, ws)| ==> WindowBegs(beg, end, ws)[k] + ws <= WindowBegs(beg, end, ws)[l]
    decreases end - beg
  {
    if beg < end {
      var r, rest := WindowBegs(beg, end, ws), WindowBegs(beg + ws, end, ws);
      WindowsDisjoint(beg + ws, end, ws);
      assert r == [beg] + rest;
      forall k, l | 0 <= k < l < |r| ensures r[k] + ws <= r[l] {
        assert r[l] == rest[l - 1];
        if k > 0 {
          assert r[k] == rest[k - 1];
        }
      }
    }
  }

  /** Records starting in [beg, end], both ends included, at or above the
      quality floor. */
  function CountStarts(recs: seq<Record>, beg: int, end: int, minMapq: u8): (n: nat)
    ensures n <= |recs|
  {
    if recs == [] then 0
    else
      var r := recs[|recs| - 1];
      CountStarts(recs[..|recs| - 1], beg, end, minMapq) + (if beg <= r.pos <= end && r.mapq >= minMapq then 1 else 0)
  }

  /** Records of the whole file on contig `tid` starting in [lo, hi] at or
      above the quality floor. */
  function CountOnContig(rs: seq<Record>, tid: int, lo: int, hi: int, minMapq: u8): nat {
    if rs == [] then 0
    else
      var r := rs[|rs| - 1];
      CountOnContig(rs[..|rs| - 1], tid, lo, hi, minMapq) + (if r.tid == tid && lo <= r.pos <= hi && r.mapq >= minMapq then 1 else 0)
  }

  /** Every record spans at least its first base. */
  lemma EndPosAfterPos(r: Record)
    ensures EndPos(r) > r.pos
  {
  }

  lemma {:induction false} CountStartsOfFilter(rs: seq<Record>, tid: int, beg: int, end: int, minMapq: u8)
    ensures CountStarts(Filter(rs, tid, beg, end), beg, end, minMapq) == CountOnContig(rs, tid, beg, end - 1, minMapq)
  {
    if rs != [] {
      var init, last := rs[..|rs| - 1], rs[|rs| - 1];
      CountStartsOfFilter(init, tid, beg, end, minMapq);
      var f := Filter(init, tid, beg, end);
      EndPosAfterPos(last);
      FilterSnoc(rs, tid, beg, end);
      if Overlaps(last, tid, beg, end) {
        CountStartsSnoc(f, last, beg, end, minMapq);
      }
    }
  }

  lemma FilterSnoc(rs: seq<Record>, tid: int, beg: int, end: int)
    requires rs != []
    ensures Filter(rs, tid, beg, end) == if Overlaps(rs[|rs| - 1], tid, beg, end)
      then Filter(rs[..|rs| - 1], tid, beg, end) + [rs[|rs| - 1]] else Filter(rs[..|rs| - 1], tid, beg, end)
  {
  }

  lemma CountStartsSnoc(f: seq<Record>, last: Record, beg: int, end: int, minMapq: u8)
    ensures CountStarts(f + [last], beg, end, minMapq)
      == CountStarts(f, beg, end, minMapq) + (if beg <= last.pos <= end && last.mapq >= minMapq then 1 else 0)
  {
    assert (f + [last])[..|f|] == f;
  }

  /**
   * What `starts_in` counts: the fetch is half-open, so of the records starting
   * in [beg, end] only those before `end` are ever seen; for a window
   * [b, b + ws - 1] a read starting on the window's last base is never counted.
   */
  lemma StartsInCountsHalfOpen(reader: Reader, tid: int, beg: int, end: int, minMapq: u8)
    ensures CountStarts(FetchTid(reader, tid, beg, end), beg, end, minMapq)
      == CountOnContig(reader.records, tid, beg, end - 1, minMapq)
  {
    CountStartsOfFilter(reader.records, tid, beg, end, minMapq);
  }

  function StartsInSpec(reader: Reader, contig: string, beg: int, end: int, minMapq: u8): Result<nat, CalError> {
    match FetchRecords(reader, contig, beg, end)
    case Err(e) => Err(e)
    case Ok(recs) => Ok(CountStarts(recs, beg, end, minMapq))
  }

  /** `starts_in`: fetch [beg, end), count the starts in [beg, end]. */
  method StartsIn(reader: Reader, contig: string, beg: int, end: int, minMapq: u8) returns (r: Result<nat, CalError>)
    ensures r == StartsInSpec(reader, contig, beg, end, minMapq)
  {
    var fetched := FetchRecords(reader, contig, beg, end);
    if fetched.Err? {
      return Err(fetched.error);
    }
    var recs := fetched.value;
    var n := 0;
    var j := 0;
    while j < |recs|
      invariant 0 <= j <= |recs|
      invariant n == CountStarts(recs[..j], beg, end, minMapq)
    {
      assert recs[..j + 1][..j] == recs[..j];
      var rec := recs[j];
      if rec.pos >= beg && rec.pos <= end && rec.mapq >= minMapq {
        n := n + 1;
      }
      j := j + 1;
    }
    assert recs[..j] == recs;
    return Ok(n);
  }

  /** The start counts of the windows `begs`, appended to `acc`. */
  function StartsOver(acc: seq<nat>, reader: Reader, contig: string, begs: seq<int>, ws: nat, minMapq: u8): Result<seq<nat>, CalError>
    decreases |begs|
  {
    if begs == [] then Ok(acc)
    else
      var b := begs[0];
      if b + ws > U64_MAX then Err(Panic(AddOverflow))
      else
        match StartsInSpec(reader, contig, b, b + ws - 1, minMapq)
        case Err(e) => Err(e)
        case Ok(n) => StartsOver(acc + [n], reader, contig, begs[1..], ws, minMapq)
  }

  /** One step of `StartsOver` over the windows of [b, end). */
  lemma StartsOverWindow(acc: seq<nat>, reader: Reader, contig: string, b: int, end: int, ws: nat, minMapq: u8)
    requires ws > 0 && b < end
    ensures StartsOver(acc, reader, contig, WindowBegs(b, end, ws), ws, minMapq)
      == if b + ws > U64_MAX then Err(Panic(AddOverflow))
         else match StartsInSpec(reader, contig, b, b + ws - 1, minMapq)
              case Err(e) => Err(e)
              case Ok(n) => StartsOver(acc + [n], reader, contig, WindowBegs(b + ws, end, ws), ws, minMapq)
  {
    assert WindowBegs(b, end, ws)[1..] == WindowBegs(b + ws, end, ws);
  }

  /** What `window_starts` returns. */
  function WindowStartsSpec(reader: Reader, region: Region, ws: nat, minMapq: u8): Result<seq<nat>, CalError> {
    if ws == 0 then Err(Panic(StepByZero))
    else StartsOver([], reader, region.contig, WindowBegs(region.beg, region.end, ws), ws, minMapq)
  }

  /** Every count of `s` from `off` on is the whole-file count of its window. */
  ghost predicate CountsMatch(s: seq<nat>, off: nat, records: seq<Record>, tid: nat, begs: seq<int>, ws: nat, minMapq: u8)
    requires off + |begs| <= |s|
  {
    forall k :: 0 <= k < |begs| ==> s[off + k] == CountOnContig(records, tid, begs[k], begs[k] + ws - 2, minMapq)
  }

  lemma StartsOverStep(acc: seq<nat>, reader: Reader, contig: string, begs: seq<int>, ws: nat, minMapq: u8)
    requires begs != [] && StartsOver(acc, reader, contig, begs, ws, minMapq).Ok?
    ensures begs[0] + ws <= U64_MAX && contig in reader.header
    ensures var n := CountOnContig(reader.records, Tid(reader.header, contig).value, begs[0], begs[0] + ws - 2, minMapq);
      StartsOver(acc, reader, contig, begs, ws, minMapq) == StartsOver(acc + [n], reader, contig, begs[1..], ws, minMapq)
  {
    StartsInCountsHalfOpen(reader, Tid(reader.header, contig).value, begs[0], begs[0] + ws - 1, minMapq);
  }

  lemma {:induction false} StartsOverMeaning(acc: seq<nat>, reader: Reader, contig: string, begs: seq<int>, ws: nat, minMapq: u8)
    requires StartsOver(acc, reader, contig, begs, ws, minMapq).Ok?
    ensures var s := StartsOver(acc, reader, contig, begs, ws, minMapq).value;
      && |s| == |acc| + |begs| && s[..|acc|] == acc
      && (begs != [] ==> contig in reader.header && CountsMatch(s, |acc|, reader.records, Tid(reader.header, contig).value, begs, ws, minMapq))
    decreases |begs|
  {
    if begs == [] {
      assert StartsOver(acc, reader, contig, begs, ws, minMapq).value == acc;
    } else {
      StartsOverStep(acc, reader, contig, begs, ws, minMapq);
      var t := Tid(reader.header, contig).value;
      var n := CountOnContig(reader.records, t, begs[0], begs[0] + ws - 2, minMapq);
      var acc' := acc + [n];
      StartsOverMeaning(acc', reader, contig, begs[1..], ws, minMapq);
      var s := StartsOver(acc', reader, contig, begs[1..], ws, minMapq).value;
      assert s[..|acc'|] == acc';
      assert s[|acc|] == acc'[|acc|];
      assert s[..|acc|] == acc'[..|acc|];
      forall k | 0 <= k < |begs|
        ensures s[|acc| + k] == CountOnContig(reader.records, t, begs[k], begs[k] + ws - 2, minMapq)
      {
        if k > 0 {
          if begs[1..] != [] {
            assert CountsMatch(s, |acc'|, reader.records, t, begs[1..], ws, minMapq);
          }
          assert begs[1..][k - 1] == begs[k];
          assert |acc'| + (k - 1) == |acc| + k;
        }
      }
      assert CountsMatch(s, |acc|, reader.records, t, begs, ws, minMapq);
    }
  }

  /** `window_starts`: one count per window of the region, each the number of
      the contig's records at or above the quality floor that start in the
      window before its last base. */
  lemma WindowStartsMeaning(reader: Reader, region: Region, ws: nat, minMapq: u8)
    requires WindowStartsSpec(reader, region, ws, minMapq).Ok?
    ensures ws > 0
    ensures var s := WindowStartsSpec(reader, region, ws, minMapq).value;
      var begs := WindowBegs(region.beg, region.end, ws);
      && |s| == |begs|
      && (region.beg < region.end ==>
            region.contig in reader.header && CountsMatch(s, 0, reader.records, Tid(reader.header, region.contig).value, begs, ws, minMapq))
  {
    var begs := WindowBegs(region.beg, region.end, ws);
    StartsOverMeaning([], reader, region.contig, begs, ws, minMapq);
  }

  /** `window_starts`: the start count of every window of the region, in order. */
  method WindowStarts(reader: Reader, region: Region, ws: u64, minMapq: u8) returns (r: Result<seq<nat>, CalError>)
    ensures r == WindowStartsSpec(reader, region, ws, minMapq)
  {
    if ws == 0 {
      return Err(Panic(StepByZero));
    }
    ghost var whole := StartsOver([], reader, region.contig, WindowBegs(region.beg, region.end, ws), ws, minMapq);
    var starts: seq<nat> := [];
    var b := region.beg;
    while b < region.end
      invariant whole == StartsOver(starts, reader, region.contig, WindowBegs(b, region.end, ws), ws, minMapq)
      decreases region.end - b
    {
      if b + ws > U64_MAX {
        assert whole == Err(Panic(AddOverflow)) by {
          StartsOverWindow(starts, reader, region.contig, b, region.end, ws, minMapq);
        }
        return Err(Panic(AddOverflow));
      }
      var n := StartsIn(reader, region.contig, b, b + ws - 1, minMapq);
      if n.Err? {
        assert whole == Err(n.error) by {
          StartsOverWindow(starts, reader, region.contig, b, region.end, ws, minMapq);
        }
        return Err(n.error);
      }
      assert whole == StartsOver(starts + [n.value], reader, region.contig, WindowBegs(b + ws, region.end, ws), ws, minMapq) by {
        StartsOverWindow(starts, reader, region.contig, b, region.end, ws, minMapq);
      }
      starts := starts + [n.value];
      b := b + ws;
    }
    return Ok(starts);
  }

  /** The records of `recs` starting in [beg, end], in order. */
  function StartFilter(recs: seq<Record>, beg: int, end: int): (r: seq<Record>)
    ensures |r| <= |recs|
    ensures forall x :: x in r <==> x in recs && beg <= x.pos <= end
  {
    if recs == [] then []
    else
      var init, last := recs[..|recs| - 1], recs[|recs| - 1];
      assert recs == init + [last];
      StartFilter(init, beg, end) + (if beg <= last.pos <= end then [last] else [])
  }

  lemma StartFilterStep(recs: seq<Record>, j: nat, beg: int, end: int)
    requires j < |recs|
    ensures StartFilter(recs[..j + 1], beg, end)
      == StartFilter(recs[..j], beg, end) + (if beg <= recs[j].pos <= end then [recs[j]] else [])
  {
    assert recs[..j + 1][..j] == recs[..j];
  }

  /** The records of the whole file on contig `tid` starting in [lo, hi], in file order. */
  function OnContigStarting(rs: seq<Record>, tid: int, lo: int, hi: int): seq<Record> {
    if rs == [] then []
    else
      var last := rs[|rs| - 1];
      OnContigStarting(rs[..|rs| - 1], tid, lo, hi) + (if last.tid == tid && lo <= last.pos <= hi then [last] else [])
  }

  lemma {:induction false} StartFilterOfFilter(rs: seq<Record>, tid: int, beg: int, end: int)
    ensures StartFilter(Filter(rs, tid, beg, end), beg, end) == OnContigStarting(rs, tid, beg, end - 1)
  {
    if rs != [] {
      var init, last := rs[..|rs| - 1], rs[|rs| - 1];
      StartFilterOfFilter(init, tid, beg, end);
      var f := Filter(init, tid, beg, end);
      EndPosAfterPos(last);
      if Overlaps(last, tid, beg, end) {
        assert (f + [last])[..|f|] == f;
      }
    }
  }

  /**
   * What `records_that_start_in_region` returns: exactly the file's records on
   * the contig that start in [beg, end), in file order (the fetch is half-open,
   * so the inclusive bound on `end` never adds a record).
   */
  lemma RecordsStartingMeaning(reader: Reader, tid: int, beg: int, end: int)
    ensures StartFilter(FetchTid(reader, tid, beg, end), beg, end) == OnContigStarting(reader.records, tid, beg, end - 1)
  {
    StartFilterOfFilter(reader.records, tid, beg, end);
  }

  function RecordsStartingInSpec(reader: Reader, contig: string, beg: int, end: int): Result<seq<Record>, CalError> {
    match FetchRecords(reader, contig, beg, end)
    case Err(e) => Err(e)
    case Ok(recs) => Ok(StartFilter(recs, beg, end))
  }

  /** `records_that_start_in_region`: fetch [beg, end), keep the records starting in [beg, end]. */
  method RecordsThatStartInRegion(reader: Reader, contig: string, beg: int, end: int) returns (r: Result<seq<Record>, CalError>)
    ensures r == RecordsStartingInSpec(reader, contig, beg, end)
  {
    var fetched := FetchRecords(reader, contig, beg, end);
    if fetched.Err? {
      return Err(fetched.error);
    }
    var records := StartingIn(fetched.value, beg, end);
    return Ok(records);
  }

  /** The filter loop of `records_that_start_in_region`. */
  method StartingIn(recs: seq<Record>, beg: int, end: int) returns (records: seq<Record>)
    ensures records == StartFilter(recs, beg, end)
  {
    records := [];
    var j := 0;
    while j < |recs|
      invariant 0 <= j <= |recs|
      invariant records == StartFilter(recs[..j], beg, end)
    {
      var rec := recs[j];
      assert StartFilter(recs[..j + 1], beg, end) == records + (if beg <= rec.pos <= end then [rec] else []) by {
        StartFilterStep(recs, j, beg, end);
      }
      if !(rec.pos < beg || rec.pos > end) {
        records := records + [rec];
      }
      j := j + 1;
    }
    assert recs[..j] == recs;
  }

  /** `choose_from`: distinct indices below `size`, min(size, n) of them. */
  function ChooseFrom(size: nat, n: nat, choices: nat -> (nat -> nat)): (r: seq<nat>)
    ensures |r| == MinNat(size, n) && Distinct(r)
    ensures forall i :: 0 <= i < |r| ==> r[i] < size
    ensures n == 0 ==> r == []
  {
    ChooseMultiple(size, n, choices(n))
  }

  function Reverse(s: seq<nat>): (r: seq<nat>)
    ensures |r| == |s|
    ensures forall i :: 0 <= i < |s| ==> r[i] == s[|s| - 1 - i]
  {
    if s == [] then [] else Reverse(s[1..]) + [s[0]]
  }

  /** The names of the records of `wrecs` at the indices `idx`. */
  function PickedNames(wrecs: seq<Record>, idx: seq<nat>): (names: set<string>)
    requires forall j :: 0 <= j < |idx| ==> idx[j] < |wrecs|
    ensures names <= Names(wrecs)
    ensures forall j :: 0 <= j < |idx| ==> wrecs[idx[j]].qname in names
  {
    if idx == [] then {}
    else
      var rest := PickedNames(wrecs, idx[..|idx| - 1]);
      var i := idx[|idx| - 1];
      assert wrecs[i].qname in Names(wrecs);
      rest + {wrecs[i].qname}
  }

  /** The names picked in window [wb, we]: at most `n`, all of reads starting there. */
  function WindowPicks(records: seq<Record>, wb: int, we: int, n: nat, choices: nat -> (nat -> nat)): (names: set<string>)
    ensures names <= Names(StartFilter(records, wb, we))
  {
    var wrecs := StartFilter(records, wb, we);
    PickedNames(wrecs, ChooseFrom(|wrecs|, n, choices))
  }

  lemma {:induction false} PickedNamesAtMost(wrecs: seq<Record>, idx: seq<nat>)
    requires forall j :: 0 <= j < |idx| ==> idx[j] < |wrecs|
    ensures |PickedNames(wrecs, idx)| <= |idx|
  {
    if idx != [] {
      PickedNamesAtMost(wrecs, idx[..|idx| - 1]);
    }
  }

  /** A window contributes at most `n` names, and fewer only when fewer reads start in it. */
  lemma WindowPicksAtMost(records: seq<Record>, wb: int, we: int, n: nat, choices: nat -> (nat -> nat))
    ensures |WindowPicks(records, wb, we, n, choices)| <= n
    ensures |WindowPicks(records, wb, we, n, choices)| <= |StartFilter(records, wb, we)|
  {
    var wrecs := StartFilter(records, wb, we);
    PickedNamesAtMost(wrecs, ChooseFrom(|wrecs|, n, choices));
  }

  /** How a target region picks names: the window [wb, wb + ws - 1] with quota n. */
  function PickRule(records: seq<Record>, ws: nat, choices: nat -> (nat -> nat)): (int, nat) -> set<string> {
    (wb: int, n: nat) => WindowPicks(records, wb, wb + ws - 1, n, choices)
  }

  /** The keep names of the windows from `wb` to `end`, the k-th with quota
      `rev[k] / 2`, added to `acc`. */
  function KeepFrom(acc: set<string>, wb: int, end: int, k: nat, ws: nat, rev: seq<nat>,
                    pick: (int, nat) -> set<string>): Result<set<string>, CalError>
    requires ws > 0
    decreases end - wb
  {
    if wb >= end then Ok(acc)
    else if wb + ws > U64_MAX then Err(Panic(AddOverflow))
    else if k >= |rev| then Err(Panic(IndexOutOfBounds))
    else KeepFrom(acc + pick(wb, rev[k] / 2), wb + ws, end, k + 1, ws, rev, pick)
  }

  lemma KeepFromUnfold(acc: set<string>, wb: int, end: int, k: nat, ws: nat, rev: seq<nat>, pick: (int, nat) -> set<string>)
    requires ws > 0 && wb < end
    ensures wb + ws > U64_MAX ==> KeepFrom(acc, wb, end, k, ws, rev, pick) == Err(Panic(AddOverflow))
    ensures wb + ws <= U64_MAX && k >= |rev| ==> KeepFrom(acc, wb, end, k, ws, rev, pick) == Err(Panic(IndexOutOfBounds))
    ensures wb + ws <= U64_MAX && k < |rev| ==>
      KeepFrom(acc, wb, end, k, ws, rev, pick) == KeepFrom(acc + pick(wb, rev[k] / 2), wb + ws, end, k + 1, ws, rev, pick)
  {
  }

  lemma NamesMonotone(a: seq<Record>, b: seq<Record>)
    requires forall x :: x in a ==> x in b
    ensures Names(a) <= Names(b)
  {
    forall n | n in Names(a) ensures n in Names(b) {
      var i :| 0 <= i < |a| && a[i].qname == n;
      assert a[i] in b;
      var j :| 0 <= j < |b| && b[j] == a[i];
    }
  }

  /** The keep names only come from what the windows pick. */
  lemma {:induction false} KeepFromNames(acc: set<string>, wb: int, end: int, k: nat, ws: nat, rev: seq<nat>,
                                         pick: (int, nat) -> set<string>, names: set<string>)
    requires ws > 0 && KeepFrom(acc, wb, end, k, ws, rev, pick).Ok?
    requires forall b, n :: pick(b, n) <= names
    ensures acc <= KeepFrom(acc, wb, end, k, ws, rev, pick).value <= acc + names
    decreases end - wb
  {
    if wb < end {
      KeepFromUnfold(acc, wb, end, k, ws, rev, pick);
      KeepFromNames(acc + pick(wb, rev[k] / 2), wb + ws, end, k + 1, ws, rev, pick, names);
    }
  }

  /** A target with more windows than its sample region panics. */
  lemma {:induction false} KeepFromWindows(acc: set<string>, wb: int, end: int, k: nat, ws: nat, rev: seq<nat>,
                                           pick: (int, nat) -> set<string>)
    requires ws > 0 && KeepFrom(acc, wb, end, k, ws, rev, pick).Ok?
    ensures wb < end ==> k + |WindowBegs(wb, end, ws)| <= |rev|
    decreases end - wb
  {
    if wb < end {
      KeepFromUnfold(acc, wb, end, k, ws, rev, pick);
      KeepFromWindows(acc + pick(wb, rev[k] / 2), wb + ws, end, k + 1, ws, rev, pick);
      assert WindowBegs(wb, end, ws) == [wb] + WindowBegs(wb + ws, end, ws);
    }
  }

  /** The records of `records` whose name is kept, in order. */
  function WithNames(records: seq<Record>, names: set<string>): (r: seq<Record>)
    ensures |r| <= |records|
    ensures forall x :: x in r <==> x in records && x.qname in names
  {
    if records == [] then []
    else
      var init, last := records[..|records| - 1], records[|records| - 1];
      assert records == init + [last];
      WithNames(init, names) + (if last.qname in names then [last] else [])
  }

  /** What `calibrate_regions` writes for one target region. */
  function CalibrateRegionSpec(reader: Reader, target: Region, sampleMap: map<string, Region>, ws: u64, minMapq: u8,
                               choices: nat -> (nat -> nat)): Result<seq<Record>, CalError>
  {
    if target.name !in sampleMap then Err(NoSampleRegion(target.name))
    else
      match WindowStartsSpec(reader, sampleMap[target.name], ws, minMapq)
      case Err(e) => Err(e)
      case Ok(starts) =>
        match RecordsStartingInSpec(reader, target.contig, target.beg, target.end)
        case Err(e) => Err(e)
        case Ok(records) =>
          if ws == 0 then Err(Panic(StepByZero))
          else
            match KeepFrom({}, target.beg, target.end, 0, ws, Reverse(starts), PickRule(records, ws, choices))
            case Err(e) => Err(e)
            case Ok(names) => Ok(WithNames(records, names))
  }

  /** Adds the names of the records of `wrecs` at the indices `idx` to `names`. */
  method AddPicks(names: set<string>, wrecs: seq<Record>, idx: seq<nat>) returns (out: set<string>)
    requires forall j :: 0 <= j < |idx| ==> idx[j] < |wrecs|
    ensures out == names + PickedNames(wrecs, idx)
  {
    out := names;
    var j := 0;
    while j < |idx|
      invariant 0 <= j <= |idx|
      invariant out == names + PickedNames(wrecs, idx[..j])
    {
      assert idx[..j + 1][..j] == idx[..j];
      out := out + {wrecs[idx[j]].qname};
      j := j + 1;
    }
    assert idx[..j] == idx;
  }

  /** Adds the names picked in window [wb, we] to `names`. */
  method AddWindowPicks(names: set<string>, records: seq<Record>, wb: int, we: int, n: nat, choices: nat -> (nat -> nat))
    returns (out: set<string>)
    ensures out == names + WindowPicks(records, wb, we, n, choices)
  {
    var wrecs := StartFilter(records, wb, we);
    var idx := ChooseFrom(|wrecs|, n, choices);
    out := AddPicks(names, wrecs, idx);
  }

  /** The window loop of `calibrate_regions`: the names kept in the target region. */
  method KeepNames(records: seq<Record>, target: Region, ws: u64, rev: seq<nat>, choices: nat -> (nat -> nat))
    returns (r: Result<set<string>, CalError>)
    requires ws > 0
    ensures r == KeepFrom({}, target.beg, target.end, 0, ws, rev, PickRule(records, ws, choices))
  {
    ghost var pick := PickRule(records, ws, choices);
    ghost var whole := KeepFrom({}, target.beg, target.end, 0, ws, rev, pick);
    var keepNames: set<string> := {};
    var wb := target.beg;
    var k: nat := 0;
    while wb < target.end
      invariant whole == KeepFrom(keepNames, wb, target.end, k, ws, rev, pick)
      decreases target.end - wb
    {
      if wb + ws > U64_MAX {
        assert whole == Err(Panic(AddOverflow)) by {
          KeepFromUnfold(keepNames, wb, target.end, k, ws, rev, pick);
        }
        return Err(Panic(AddOverflow));
      }
      var we := wb + ws - 1;
      if k >= |rev| {
        assert whole == Err(Panic(IndexOutOfBounds)) by {
          KeepFromUnfold(keepNames, wb, target.end, k, ws, rev, pick);
        }
        return Err(Panic(IndexOutOfBounds));
      }
      ghost var next := keepNames + pick(wb, rev[k] / 2);
      assert whole == KeepFrom(next, wb + ws, target.end, k + 1, ws, rev, pick) by {
        KeepFromUnfold(keepNames, wb, target.end, k, ws, rev, pick);
      }
      keepNames := AddWindowPicks(keepNames, records, wb, we, rev[k] / 2, choices);
      assert keepNames == next by {
        assert pick(wb, rev[k] / 2) == WindowPicks(records, wb, we, rev[k] / 2, choices);
      }
      wb := wb + ws;
      k := k + 1;
    }
    return Ok(keepNames);
  }

  /** The write loop of `calibrate_regions`: the records whose name is kept, in order. */
  method WriteKept(records: seq<Record>, keepNames: set<string>) returns (out: seq<Record>)
    ensures out == WithNames(records, keepNames)
  {
    out := [];
    var i := 0;
    while i < |records|
      invariant 0 <= i <= |records|
      invariant out == WithNames(records[..i], keepNames)
    {
      assert records[..i + 1][..i] == records[..i];
      if records[i].qname in keepNames {
        out := out + [records[i]];
      }
      i := i + 1;
    }
    assert records[..i] == records;
  }

  /** `calibrate_regions` for one target region: the records it writes. */
  method CalibrateRegion(reader: Reader, target: Region, sampleMap: map<string, Region>, ws: u64, minMapq: u8,
                         choices: nat -> (nat -> nat)) returns (r: Result<seq<Record>, CalError>)
    ensures r == CalibrateRegionSpec(reader, target, sampleMap, ws, minMapq, choices)
  {
    if target.name !in sampleMap {
      return Err(NoSampleRegion(target.name));
    }
    var sampleStarts := WindowStarts(reader, sampleMap[target.name], ws, minMapq);
    if sampleStarts.Err? {
      return Err(sampleStarts.error);
    }
    var rev := Reverse(sampleStarts.value);
    var fetched := RecordsThatStartInRegion(reader, target.contig, target.beg, target.end);
    if fetched.Err? {
      return Err(fetched.error);
    }
    assert ws != 0;
    var keepNames := KeepNames(fetched.value, target, ws, rev, choices);
    if keepNames.Err? {
      return Err(keepNames.error);
    }
    var out := WriteKept(fetched.value, keepNames.value);
    return Ok(out);
  }

  /**
   * What one target region's calibration writes: records of the file on the
   * target's contig that start inside the target, whose read names were picked;
   * the target has no more windows than its sample region.
   */
  lemma CalibrateRegionWrites(reader: Reader, target: Region, sampleMap: map<string, Region>, ws: u64, minMapq: u8,
                              choices: nat -> (nat -> nat))
    requires CalibrateRegionSpec(reader, target, sampleMap, ws, minMapq, choices).Ok?
    ensures target.name in sampleMap && ws > 0
    ensures target.beg < target.end ==>
      |WindowBegs(target.beg, target.end, ws)| <= |WindowBegs(sampleMap[target.name].beg, sampleMap[target.name].end, ws)|
    ensures forall x :: x in CalibrateRegionSpec(reader, target, sampleMap, ws, minMapq, choices).value ==>
      && x in reader.records && target.contig in reader.header && x.tid == Tid(reader.header, target.contig).value
      && target.beg <= x.pos < target.end
  {
    var sample := sampleMap[target.name];
    var starts := WindowStartsSpec(reader, sample, ws, minMapq).value;
    WindowStartsMeaning(reader, sample, ws, minMapq);
    var records := RecordsStartingInSpec(reader, target.contig, target.beg, target.end).value;
    var tid := Tid(reader.header, target.contig).value;
    RecordsStartingMeaning(reader, tid, target.beg, target.end);
    OnContigStartingMembers(reader.records, tid, target.beg, target.end - 1);
    KeepFromWindows({}, target.beg, target.end, 0, ws, Reverse(starts), PickRule(records, ws, choices));
  }

  lemma {:induction false} OnContigStartingMembers(rs: seq<Record>, tid: int, lo: int, hi: int)
    ensures forall x :: x in OnContigStarting(rs, tid, lo, hi) ==> x in rs && x.tid == tid && lo <= x.pos <= hi
  {
    if rs != [] {
      var init := rs[..|rs| - 1];
      OnContigStartingMembers(init, tid, lo, hi);
      assert rs == init + [rs[|rs| - 1]];
    }
  }

  /** What `calibrate_regions` writes for the targets, appended to `acc`. */
  function CalRegionsSpec(acc: seq<Record>, reader: Reader, targets: seq<Region>, sampleMap: map<string, Region>,
                          ws: u64, minMapq: u8, choices: nat -> (nat -> nat)): Result<seq<Record>, CalError>
    decreases |targets|
  {
    if targets == [] then Ok(acc)
    else
      match CalibrateRegionSpec(reader, targets[0], sampleMap, ws, minMapq, choices)
      case Err(e) => Err(e)
      case Ok(out) => CalRegionsSpec(acc + out, reader, targets[1..], sampleMap, ws, minMapq, choices)
  }

  /** `calibrate_regions`: the records written for the targets, in order. */
  method CalibrateRegions(reader: Reader, targets: seq<Region>, sampleMap: map<string, Region>, ws: u64, minMapq: u8,
                          choices: nat -> (nat -> nat)) returns (r: Result<seq<Record>, CalError>)
    ensures r == CalRegionsSpec([], reader, targets, sampleMap, ws, minMapq, choices)
  {
    var written: seq<Record> := [];
    var i := 0;
    while i < |targets|
      invariant 0 <= i <= |targets|
      invariant CalRegionsSpec([], reader, targets, sampleMap, ws, minMapq, choices)
        == CalRegionsSpec(written, reader, targets[i..], sampleMap, ws, minMapq, choices)
    {
      assert targets[i..][0] == targets[i] && targets[i..][1..] == targets[i + 1..];
      var out := CalibrateRegion(reader, targets[i], sampleMap, ws, minMapq, choices);
      if out.Err? {
        return Err(out.error);
      }
      written := written + out.value;
      i := i + 1;
    }
    return Ok(written);
  }

  /** `r` with `acc` written before it. */
  function After(acc: seq<Record>, r: Result<seq<Record>, CalError>): Result<seq<Record>, CalError> {
    match r
    case Err(e) => Err(e)
    case Ok(o) => Ok(acc + o)
  }

  /** What was written before does not affect what calibrating the targets writes. */
  lemma {:induction false} CalRegionsAfter(acc: seq<Record>, reader: Reader, targets: seq<Region>, sampleMap: map<string, Region>,
                                           ws: u64, minMapq: u8, choices: nat -> (nat -> nat))
    ensures CalRegionsSpec(acc, reader, targets, sampleMap, ws, minMapq, choices)
      == After(acc, CalRegionsSpec([], reader, targets, sampleMap, ws, minMapq, choices))
    decreases |targets|
  {
    if targets == [] {
      assert acc + [] == acc;
    } else {
      var first := CalibrateRegionSpec(reader, targets[0], sampleMap, ws, minMapq, choices);
      if first.Ok? {
        var out := first.value;
        assert [] + out == out;
        assert CalRegionsSpec([], reader, targets, sampleMap, ws, minMapq, choices)
          == CalRegionsSpec(out, reader, targets[1..], sampleMap, ws, minMapq, choices);
        CalRegionsAfter(acc + out, reader, targets[1..], sampleMap, ws, minMapq, choices);
        CalRegionsAfter(out, reader, targets[1..], sampleMap, ws, minMapq, choices);
        var tail := CalRegionsSpec([], reader, targets[1..], sampleMap, ws, minMapq, choices);
        if tail.Ok? {
          assert acc + out + tail.value == acc + (out + tail.value);
        }
      }
    }
  }

  /** Calibrating `a + b` writes what calibrating `a` writes, then what `b` does. */
  lemma {:induction false} CalRegionsConcat(reader: Reader, a: seq<Region>, b: seq<Region>, sampleMap: map<string, Region>,
                                            ws: u64, minMapq: u8, choices: nat -> (nat -> nat))
    ensures CalRegionsSpec([], reader, a + b, sampleMap, ws, minMapq, choices)
      == match CalRegionsSpec([], reader, a, sampleMap, ws, minMapq, choices)
         case Err(e) => Err(e)
         case Ok(o) => After(o, CalRegionsSpec([], reader, b, sampleMap, ws, minMapq, choices))
  {
    CalRegionsConcatFrom([], reader, a, b, sampleMap, ws, minMapq, choices);
  }

  lemma {:induction false} CalRegionsConcatFrom(acc: seq<Record>, reader: Reader, a: seq<Region>, b: seq<Region>,
                                                sampleMap: map<string, Region>, ws: u64, minMapq: u8, choices: nat -> (nat -> nat))
    ensures CalRegionsSpec(acc, reader, a + b, sampleMap, ws, minMapq, choices)
      == match CalRegionsSpec(acc, reader, a, sampleMap, ws, minMapq, choices)
         case Err(e) => Err(e)
         case Ok(o) => After(o, CalRegionsSpec([], reader, b, sampleMap, ws, minMapq, choices))
    decreases |a|
  {
    if a == [] {
      assert a + b == b;
      CalRegionsAfter(acc, reader, b, sampleMap, ws, minMapq, choices);
    } else {
      assert (a + b)[0] == a[0] && (a + b)[1..] == a[1..] + b;
      match CalibrateRegionSpec(reader, a[0], sampleMap, ws, minMapq, choices)
      case Err(_) =>
      case Ok(out) => CalRegionsConcatFrom(acc + out, reader, a[1..], b, sampleMap, ws, minMapq, choices);
    }
  }

  // ---------------------------------------------------------------------------
  // Sample-profile mode

  /** The sample regions by name; a later region replaces an earlier one of the same name. */
  function RegionMap(regions: seq<Region>): (m: map<string, Region>)
    ensures m.Keys == RegionNames(regions)
  {
    if regions == [] then map[]
    else
      var init, last := regions[..|regions| - 1], regions[|regions| - 1];
      RegionNamesSnoc(regions);
      RegionMap(init)[last.name := last]
  }

  /** Every name maps to one of the regions, of that name. */
  lemma {:induction false} RegionMapFrom(regions: seq<Region>)
    ensures forall n :: n in RegionMap(regions) ==> RegionMap(regions)[n].name == n && RegionMap(regions)[n] in regions
  {
    if regions != [] {
      var init, last := regions[..|regions| - 1], regions[|regions| - 1];
      RegionMapFrom(init);
      assert forall x :: x in init ==> x in regions;
    }
  }

  /** No later region has the name of `regions[i]`. */
  predicate LastWithName(regions: seq<Region>, i: nat)
    requires i < |regions|
  {
    forall j :: i < j < |regions| ==> regions[j].name != regions[i].name
  }

  /** When a name occurs more than once, its last occurrence wins. */
  lemma {:induction false} RegionMapLastWins(regions: seq<Region>, i: nat)
    requires i < |regions| && LastWithName(regions, i)
    ensures regions[i].name in RegionMap(regions) && RegionMap(regions)[regions[i].name] == regions[i]
  {
    var init, last := regions[..|regions| - 1], regions[|regions| - 1];
    RegionNamesSnoc(regions);
    if i < |init| {
      assert init[i] == regions[i];
      assert LastWithName(init, i) by {
        forall j | i < j < |init| ensures init[j].name != init[i].name {
          assert init[j] == regions[j];
        }
      }
      RegionMapLastWins(init, i);
      assert last.name != regions[i].name;
    }
  }

  /** `s` written `k` times over. */
  function Repeat<T>(s: seq<T>, k: nat): seq<T> {
    if k == 0 then [] else s + Repeat(s, k - 1)
  }

  /** How many header contigs hold a target region. */
  function CalibratedCount(header: seq<string>, contigs: set<string>): nat {
    if header == [] then 0 else (if header[0] in contigs then 1 else 0) + CalibratedCount(header[1..], contigs)
  }

  /** The order in which `calibrate_by_sample_profile`, as written, calibrates
      target regions: all of them once for every header contig holding one. */
  function PlanAsWritten(header: seq<string>, contigs: set<string>, targets: seq<Region>): seq<Region> {
    if header == [] then []
    else (if header[0] in contigs then targets else []) + PlanAsWritten(header[1..], contigs, targets)
  }

  lemma {:induction false} PlanAsWrittenRepeats(header: seq<string>, contigs: set<string>, targets: seq<Region>)
    ensures PlanAsWritten(header, contigs, targets) == Repeat(targets, CalibratedCount(header, contigs))
  {
    if header != [] {
      PlanAsWrittenRepeats(header[1..], contigs, targets);
      if header[0] !in contigs {
        assert [] + PlanAsWritten(header[1..], contigs, targets) == PlanAsWritten(header[1..], contigs, targets);
      }
    }
  }

  /** Calibrating the targets `k` times over writes their records `k` times over. */
  lemma {:induction false} CalRegionsRepeat(reader: Reader, targets: seq<Region>, sampleMap: map<string, Region>,
                                            ws: u64, minMapq: u8, choices: nat -> (nat -> nat), once: seq<Record>, k: nat)
    requires CalRegionsSpec([], reader, targets, sampleMap, ws, minMapq, choices) == Ok(once)
    ensures CalRegionsSpec([], reader, Repeat(targets, k), sampleMap, ws, minMapq, choices) == Ok(Repeat(once, k))
  {
    if k > 0 {
      CalRegionsRepeat(reader, targets, sampleMap, ws, minMapq, choices, once, k - 1);
      CalRegionsBoth(reader, targets, Repeat(targets, k - 1), sampleMap, ws, minMapq, choices, once, Repeat(once, k - 1));
    } else {
      assert Repeat(targets, 0) == [];
    }
  }

  /** Two successful runs, one after the other, write one output after the other. */
  lemma CalRegionsBoth(reader: Reader, a: seq<Region>, b: seq<Region>, sampleMap: map<string, Region>,
                       ws: u64, minMapq: u8, choices: nat -> (nat -> nat), outA: seq<Record>, outB: seq<Record>)
    requires CalRegionsSpec([], reader, a, sampleMap, ws, minMapq, choices) == Ok(outA)
    requires CalRegionsSpec([], reader, b, sampleMap, ws, minMapq, choices) == Ok(outB)
    ensures CalRegionsSpec([], reader, a + b, sampleMap, ws, minMapq, choices) == Ok(outA + outB)
  {
    CalRegionsConcat(reader, a, b, sampleMap, ws, minMapq, choices);
  }

  /** `calibrate_by_sample_profile` as written. */
  function SampleProfileAsWritten(reader: Reader, targets: seq<Region>, samples: seq<Region>, flank: u64, ws: u64,
                                  minMapq: u8, choices: nat -> (nat -> nat)): Result<seq<Record>, CalError>
  {
    match ClipRegions(targets, flank)
    case Err(e) => Err(e)
    case Ok(clipped) =>
      match ClipRegions(samples, flank)
      case Err(e) => Err(e)
      case Ok(clippedSamples) =>
        CalRegionsSpec([], reader, PlanAsWritten(reader.header, Contigs(targets), clipped), RegionMap(clippedSamples), ws, minMapq, choices)
  }

  /**
   * As written, the sample-profile mode writes every calibrated record once per
   * header contig that holds a target region: with targets on two contigs, each
   * selected read is written twice.
   */
  lemma AsWrittenRepeatsOutput(reader: Reader, targets: seq<Region>, samples: seq<Region>, flank: u64, ws: u64,
                               minMapq: u8, choices: nat -> (nat -> nat), once: seq<Record>)
    requires ClipRegions(targets, flank).Ok? && ClipRegions(samples, flank).Ok?
    requires CalRegionsSpec([], reader, ClipRegions(targets, flank).value, RegionMap(ClipRegions(samples, flank).value),
                            ws, minMapq, choices) == Ok(once)
    ensures SampleProfileAsWritten(reader, targets, samples, flank, ws, minMapq, choices)
      == Ok(Repeat(once, CalibratedCount(reader.header, Contigs(targets))))
  {
    var clipped := ClipRegions(targets, flank).value;
    PlanAsWrittenRepeats(reader.header, Contigs(targets), clipped);
    CalRegionsRepeat(reader, clipped, RegionMap(ClipRegions(samples, flank).value), ws, minMapq, choices, once,
                     CalibratedCount(reader.header, Contigs(targets)));
  }

  /** The target regions on contig `c`, in order. */
  function OnContig(targets: seq<Region>, c: string): (r: seq<Region>)
    ensures forall t :: multiset(r)[t] == if t.contig == c then multiset(targets)[t] else 0
  {
    if targets == [] then []
    else
      var rest := OnContig(targets[1..], c);
      assert targets == [targets[0]] + targets[1..];
      if targets[0].contig == c then [targets[0]] + rest else rest
  }

  /** The corrected order: for every header contig holding a target region, the
      target regions on that contig. */
  function PlanCorrected(header: seq<string>, contigs: set<string>, targets: seq<Region>): seq<Region> {
    if header == [] then []
    else (if header[0] in contigs then OnContig(targets, header[0]) else []) + PlanCorrected(header[1..], contigs, targets)
  }

  lemma {:induction false} PlanCorrectedCount(header: seq<string>, contigs: set<string>, targets: seq<Region>, t: Region)
    requires forall i, j :: 0 <= i < j < |header| ==> header[i] != header[j]
    ensures multiset(PlanCorrected(header, contigs, targets))[t]
      == if t.contig in header && t.contig in contigs then multiset(targets)[t] else 0
  {
    if header != [] {
      PlanCorrectedCount(header[1..], contigs, targets, t);
      var first := if header[0] in contigs then OnContig(targets, header[0]) else [];
      assert multiset(PlanCorrected(header, contigs, targets)) == multiset(first) + multiset(PlanCorrected(header[1..], contigs, targets));
      if t.contig == header[0] {
        assert t.contig !in header[1..];
      } else {
        assert t.contig in header <==> t.contig in header[1..];
      }
    }
  }

  lemma ContigOfTarget(targets: seq<Region>, t: Region)
    requires multiset(targets)[t] > 0
    ensures t.contig in Contigs(targets)
  {
    assert t in targets;
    var i :| 0 <= i < |targets| && targets[i] == t;
  }

  /**
   * Corrected: with distinct header names, every target region is calibrated
   * as many times as it is listed when its contig is in the header, and never
   * otherwise.
   */
  lemma CorrectedPlanOnce(header: seq<string>, targets: seq<Region>, t: Region)
    requires forall i, j :: 0 <= i < j < |header| ==> header[i] != header[j]
    ensures multiset(PlanCorrected(header, Contigs(targets), targets))[t]
      == if t.contig in header then multiset(targets)[t] else 0
  {
    PlanCorrectedCount(header, Contigs(targets), targets, t);
    if multiset(targets)[t] > 0 {
      ContigOfTarget(targets, t);
    }
  }

  /** The sample-profile mode with the calibration loop corrected. */
  function SampleProfileSpec(reader: Reader, targets: seq<Region>, samples: seq<Region>, flank: u64, ws: u64,
                             minMapq: u8, choices: nat -> (nat -> nat)): Result<seq<Record>, CalError>
  {
    match ClipRegions(targets, flank)
    case Err(e) => Err(e)
    case Ok(clipped) =>
      match ClipRegions(samples, flank)
      case Err(e) => Err(e)
      case Ok(clippedSamples) =>
        CalRegionsSpec([], reader, PlanCorrected(reader.header, Contigs(targets), clipped), RegionMap(clippedSamples), ws, minMapq, choices)
  }

  /** `calibrate_by_sample_profile`, each header contig calibrating the target regions on it. */
  method CalibrateBySampleProfile(reader: Reader, targets: seq<Region>, samples: seq<Region>, flank: u64, ws: u64,
                                  minMapq: u8, choices: nat -> (nat -> nat)) returns (r: Result<seq<Record>, CalError>)
    ensures r == SampleProfileSpec(reader, targets, samples, flank, ws, minMapq, choices)
  {
    var clipped := ClipRegions(targets, flank);
    if clipped.Err? {
      return Err(clipped.error);
    }
    var clippedSamples := ClipRegions(samples, flank);
    if clippedSamples.Err? {
      return Err(clippedSamples.error);
    }
    var sampleMap := RegionMap(clippedSamples.value);
    r := CalibrateContigs(reader, reader.header, Contigs(targets), clipped.value, sampleMap, ws, minMapq, choices);
  }

  /** The target regions the corrected loop calibrates for one header contig. */
  function ContigTargets(contig: string, contigs: set<string>, clipped: seq<Region>): seq<Region> {
    if contig in contigs then OnContig(clipped, contig) else []
  }

  /** What the corrected loop writes for the header contigs `header`. */
  ghost function ContigsSpec(reader: Reader, header: seq<string>, contigs: set<string>, clipped: seq<Region>,
                             sampleMap: map<string, Region>, ws: u64, minMapq: u8, choices: nat -> (nat -> nat))
    : Result<seq<Record>, CalError>
  {
    CalRegionsSpec([], reader, PlanCorrected(header, contigs, clipped), sampleMap, ws, minMapq, choices)
  }

  /** One header contig of the corrected loop: its targets' output, then the rest's. */
  lemma ContigsStep(reader: Reader, header: seq<string>, contigs: set<string>, clipped: seq<Region>,
                    sampleMap: map<string, Region>, ws: u64, minMapq: u8, choices: nat -> (nat -> nat))
    requires header != []
    ensures ContigsSpec(reader, header, contigs, clipped, sampleMap, ws, minMapq, choices)
      == match CalRegionsSpec([], reader, ContigTargets(header[0], contigs, clipped), sampleMap, ws, minMapq, choices)
         case Err(e) => Err(e)
         case Ok(o) => After(o, ContigsSpec(reader, header[1..], contigs, clipped, sampleMap, ws, minMapq, choices))
  {
    CalRegionsConcat(reader, ContigTargets(header[0], contigs, clipped), PlanCorrected(header[1..], contigs, clipped),
                     sampleMap, ws, minMapq, choices);
  }

  /** The header loop of `calibrate_by_sample_profile` (corrected). */
  method CalibrateContigs(reader: Reader, header: seq<string>, contigs: set<string>, clipped: seq<Region>,
                          sampleMap: map<string, Region>, ws: u64, minMapq: u8, choices: nat -> (nat -> nat))
    returns (r: Result<seq<Record>, CalError>)
    ensures r == ContigsSpec(reader, header, contigs, clipped, sampleMap, ws, minMapq, choices)
  {
    ghost var whole := ContigsSpec(reader, header, contigs, clipped, sampleMap, ws, minMapq, choices);
    var written: seq<Record> := [];
    var rest := header;
    AfterNothing(whole);
    while rest != []
      invariant whole == After(written, ContigsSpec(reader, rest, contigs, clipped, sampleMap, ws, minMapq, choices))
    {
      ContigsStep(reader, rest, contigs, clipped, sampleMap, ws, minMapq, choices);
      var out := CalibrateRegions(reader, ContigTargets(rest[0], contigs, clipped), sampleMap, ws, minMapq, choices);
      if out.Err? {
        return Err(out.error);
      }
      AfterAfter(written, out.value, ContigsSpec(reader, rest[1..], contigs, clipped, sampleMap, ws, minMapq, choices));
      written := written + out.value;
      rest := rest[1..];
    }
    assert written + [] == written;
    return Ok(written);
  }

  lemma AfterNothing(r: Result<seq<Record>, CalError>)
    ensures After([], r) == r
  {
    if r.Ok? {
      assert [] + r.value == r.value;
    }
  }

  lemma AfterAfter(a: seq<Record>, b: seq<Record>, r: Result<seq<Record>, CalError>)
    ensures After(a, After(b, r)) == After(a + b, r)
  {
    if r.Ok? {
      assert a + (b + r.value) == a + b + r.value;
    }
  }

  /** Every record calibrating the targets writes comes from the file, lies on
      a target's contig and starts inside that target. */
  lemma {:induction false} CalRegionsFromInput(acc: seq<Record>, reader: Reader, targets: seq<Region>, sampleMap: map<string, Region>,
                                               ws: u64, minMapq: u8, choices: nat -> (nat -> nat))
    requires CalRegionsSpec(acc, reader, targets, sampleMap, ws, minMapq, choices).Ok?
    ensures forall x :: x in CalRegionsSpec(acc, reader, targets, sampleMap, ws, minMapq, choices).value ==>
      x in acc || (x in reader.records && exists t :: t in targets && t.contig in reader.header && x.tid == Tid(reader.header, t.contig).value)
    decreases |targets|
  {
    if targets != [] {
      var out := CalibrateRegionSpec(reader, targets[0], sampleMap, ws, minMapq, choices).value;
      CalibrateRegionWrites(reader, targets[0], sampleMap, ws, minMapq, choices);
      CalRegionsFromInput(acc + out, reader, targets[1..], sampleMap, ws, minMapq, choices);
      forall x | x in CalRegionsSpec(acc, reader, targets, sampleMap, ws, minMapq, choices).value && x !in acc
        ensures x in reader.records && exists t :: t in targets && t.contig in reader.header && x.tid == Tid(reader.header, t.contig).value
      {
        if x in out {
          assert targets[0] in targets;
        } else {
          var t :| t in targets[1..] && t.contig in reader.header && x.tid == Tid(reader.header, t.contig).value;
          assert t in targets;
        }
      }
    }
  }

  // ---------------------------------------------------------------------------
  // The final pass and the entry point

  datatype CalibrationMode =
    | FixedCoverage(foldCoverage: u64)
    | SampleMeanCoverage(sampleRegions: seq<Region>)
    | SampleProfile(sampleRegions: seq<Region>, flank: u64, windowSize: u64, minMapq: u8)

  /** The header positions whose contig holds a target region. */
  function SequinTids(header: seq<string>, targets: seq<Region>): set<int> {
    set t | 0 <= t < |header| && header[t] in Contigs(targets)
  }

  /** A tid is a sequin tid exactly when some target region lies on a contig the
      header names at that position. */
  lemma SequinTidsMeaning(header: seq<string>, targets: seq<Region>, tid: int)
    ensures tid in SequinTids(header, targets) <==>
      0 <= tid < |header| && exists i :: 0 <= i < |targets| && targets[i].contig == header[tid]
  {
    if 0 <= tid < |header| && exists i :: 0 <= i < |targets| && targets[i].contig == header[tid] {
      var i :| 0 <= i < |targets| && targets[i].contig == header[tid];
      assert header[tid] in Contigs(targets);
    }
  }

  /** The first header position of every target's contig is a sequin tid. */
  lemma TargetTidIsSequin(header: seq<string>, targets: seq<Region>, i: nat)
    requires i < |targets| && targets[i].contig in header
    ensures Tid(header, targets[i].contig).value in SequinTids(header, targets)
  {
    assert targets[i].contig in Contigs(targets);
  }

  /** Whether the final pass writes a record: its read group was kept, or its
      mate is not on a sequin contig and uncalibrated reads are wanted. */
  predicate Written(rec: Record, keep: set<string>, sequinTids: set<int>, exclude: bool) {
    rec.qname in keep || (rec.mtid !in sequinTids && !exclude)
  }

  /** The records the final pass writes, in file order. */
  function FinalPassOutput(records: seq<Record>, keep: set<string>, sequinTids: set<int>, exclude: bool): (out: seq<Record>)
    ensures |out| <= |records|
    ensures forall x :: x in out <==> x in records && Written(x, keep, sequinTids, exclude)
  {
    if records == [] then []
    else
      var init, last := records[..|records| - 1], records[|records| - 1];
      assert records == init + [last];
      FinalPassOutput(init, keep, sequinTids, exclude) + (if Written(last, keep, sequinTids, exclude) then [last] else [])
  }

  /** The final pass of `calibrate` over every record of the file. */
  method FinalPass(records: seq<Record>, keep: set<string>, sequinTids: set<int>, exclude: bool) returns (out: seq<Record>)
    ensures out == FinalPassOutput(records, keep, sequinTids, exclude)
  {
    out := [];
    var j := 0;
    while j < |records|
      invariant 0 <= j <= |records|
      invariant out == FinalPassOutput(records[..j], keep, sequinTids, exclude)
    {
      var rec := records[j];
      assert records[..j + 1][..j] == records[..j] && records[..j + 1][j] == rec;
      if rec.qname in keep {
        out := out + [rec];
      } else if rec.mtid !in sequinTids && !exclude {
        out := out + [rec];
      }
      j := j + 1;
    }
    assert records[..j] == records;
  }

  /** What `calibrate` writes: in the fixed and sample-mean modes the final pass
      over the names the scan kept; in the sample-profile mode the profile's
      records, then the final pass with nothing kept. */
  function CalibrateSpec(reader: Reader, targets: seq<Region>, mode: CalibrationMode, exclude: bool,
                         draws: nat -> real, choices: nat -> (nat -> nat)): Result<seq<Record>, CalError>
  {
    var tids := SequinTids(reader.header, targets);
    match mode
    case SampleProfile(samples, flank, ws, minMapq) =>
      (match SampleProfileSpec(reader, targets, samples, flank, ws, minMapq, choices)
       case Err(e) => Err(e)
       case Ok(written) => Ok(written + FinalPassOutput(reader.records, {}, tids, exclude)))
    case FixedCoverage(fold) => FixedModeSpec(reader, targets, None, tids, fold, exclude, draws)
    case SampleMeanCoverage(samples) => FixedModeSpec(reader, targets, Some(samples), tids, 0, exclude, draws)
  }

  /** The fixed and sample-mean modes: the final pass over the names the scan kept. */
  function FixedModeSpec(reader: Reader, targets: seq<Region>, samples: Option<seq<Region>>, tids: set<int>,
                         fold: u64, exclude: bool, draws: nat -> real): Result<seq<Record>, CalError>
  {
    match FixedCoverageSpec({}, 0, reader, targets, samples, tids, fold, draws)
    case Err(e) => Err(e)
    case Ok(st) => Ok(FinalPassOutput(reader.records, st.keep, tids, exclude))
  }

  /** `calibrate`: the sequin tids, the chosen mode, then the final pass. */
  method Calibrate(reader: Reader, targets: seq<Region>, mode: CalibrationMode, exclude: bool,
                   draws: nat -> real, choices: nat -> (nat -> nat)) returns (r: Result<seq<Record>, CalError>)
    ensures r == CalibrateSpec(reader, targets, mode, exclude, draws, choices)
  {
    var sequinTids := SequinTids(reader.header, targets);
    var sampler := new Sampler(draws);
    var written: seq<Record> := [];
    match mode {
      case FixedCoverage(fold) =>
        var res := CalibrateByFixedCoverage(sampler, reader, targets, None, sequinTids, fold);
        if res.Err? {
          return Err(res.error);
        }
        assert sampler.keep == FixedCoverageSpec({}, 0, reader, targets, None, sequinTids, fold, draws).value.keep;
        assert CalibrateSpec(reader, targets, mode, exclude, draws, choices) == Ok(FinalPassOutput(reader.records, sampler.keep, sequinTids, exclude));
      case SampleMeanCoverage(samples) =>
        var res := CalibrateByFixedCoverage(sampler, reader, targets, Some(samples), sequinTids, 0);
        if res.Err? {
          return Err(res.error);
        }
        assert sampler.keep == FixedCoverageSpec({}, 0, reader, targets, Some(samples), sequinTids, 0, draws).value.keep;
        assert CalibrateSpec(reader, targets, mode, exclude, draws, choices) == Ok(FinalPassOutput(reader.records, sampler.keep, sequinTids, exclude));
      case SampleProfile(samples, flank, ws, minMapq) =>
        var res := CalibrateBySampleProfile(reader, targets, samples, flank, ws, minMapq, choices);
        if res.Err? {
          return Err(res.error);
        }
        written := res.value;
        assert CalibrateSpec(reader, targets, mode, exclude, draws, choices) == Ok(written + FinalPassOutput(reader.records, sampler.keep, sequinTids, exclude));
    }
    var rest := FinalPass(reader.records, sampler.keep, sequinTids, exclude);
    assert [] + rest == rest;
    return Ok(written + rest);
  }

  /**
   * The fixed and sample-mean modes write whole read groups: two records of
   * the file with the same name whose mates both lie on sequin contigs are
   * written together or not at all; every written record comes from the file;
   * and when uncalibrated reads are wanted, every record whose mate is not on a
   * sequin contig is written.
   */
  lemma FixedModesWriteReadGroups(reader: Reader, targets: seq<Region>, mode: CalibrationMode, exclude: bool,
                                  draws: nat -> real, choices: nat -> (nat -> nat), a: Record, b: Record)
    requires !mode.SampleProfile?
    requires CalibrateSpec(reader, targets, mode, exclude, draws, choices).Ok?
    ensures var out := CalibrateSpec(reader, targets, mode, exclude, draws, choices).value;
      && (forall x :: x in out ==> x in reader.records)
      && (a in reader.records && b in reader.records && a.qname == b.qname
          && a.mtid in SequinTids(reader.header, targets) && b.mtid in SequinTids(reader.header, targets)
          ==> (a in out <==> b in out))
      && (!exclude && a in reader.records && a.mtid !in SequinTids(reader.header, targets) ==> a in out)
  {
  }

  /**
   * In the sample-profile mode every written record comes from the file; a
   * record whose mate lies on a sequin contig is written only by the profile,
   * on a target's contig; and when uncalibrated reads are wanted, every record
   * whose mate is not on a sequin contig is written.
   */
  lemma ProfileModeWrites(reader: Reader, targets: seq<Region>, mode: CalibrationMode, exclude: bool,
                          draws: nat -> real, choices: nat -> (nat -> nat), a: Record)
    requires mode.SampleProfile?
    requires CalibrateSpec(reader, targets, mode, exclude, draws, choices).Ok?
    ensures var out := CalibrateSpec(reader, targets, mode, exclude, draws, choices).value;
      && (forall x :: x in out ==> x in reader.records)
      && (a in out && a.mtid in SequinTids(reader.header, targets) ==>
            exists i :: 0 <= i < |targets| && targets[i].contig in reader.header && a.tid == Tid(reader.header, targets[i].contig).value)
      && (!exclude && a in reader.records && a.mtid !in SequinTids(reader.header, targets) ==> a in out)
  {
    var tids := SequinTids(reader.header, targets);
    var out := CalibrateSpec(reader, targets, mode, exclude, draws, choices).value;
    var clipped := ClipRegions(targets, mode.flank).value;
    var plan := PlanCorrected(reader.header, Contigs(targets), clipped);
    var sampleMap := RegionMap(ClipRegions(mode.sampleRegions, mode.flank).value);
    var written := CalRegionsSpec([], reader, plan, sampleMap, mode.windowSize, mode.minMapq, choices).value;
    assert out == written + FinalPassOutput(reader.records, {}, tids, exclude);
    assert forall x :: x in written ==>
      x in reader.records && exists t :: t in plan && t.contig in reader.header && x.tid == Tid(reader.header, t.contig).value by {
      CalRegionsFromInput([], reader, plan, sampleMap, mode.windowSize, mode.minMapq, choices);
    }
    if a in written && a.mtid in tids {
      var t :| t in plan && t.contig in reader.header && a.tid == Tid(reader.header, t.contig).value;
      assert t in clipped by {
        PlanCorrectedFrom(reader.header, Contigs(targets), clipped);
      }
      ClippedFrom(targets, mode.flank, t);
    }
  }

  /** A clipped region lies on the contig of one of the regions it came from. */
  lemma ClippedFrom(regions: seq<Region>, flank: u64, t: Region)
    requires ClipRegions(regions, flank).Ok? && t in ClipRegions(regions, flank).value
    ensures exists i :: 0 <= i < |regions| && regions[i].contig == t.contig
  {
    var clipped := ClipRegions(regions, flank).value;
    var i :| 0 <= i < |clipped| && clipped[i] == t;
    assert regions[i].contig == t.contig;
  }

  /** The corrected plan only lists target regions. */
  lemma {:induction false} PlanCorrectedFrom(header: seq<string>, contigs: set<string>, targets: seq<Region>)
    ensures forall t :: t in PlanCorrected(header, contigs, targets) ==> t in targets
  {
    if header != [] {
      PlanCorrectedFrom(header[1..], contigs, targets);
      forall t | t in PlanCorrected(header, contigs, targets) ensures t in targets {
        if t !in PlanCorrected(header[1..], contigs, targets) {
          assert multiset(OnContig(targets, header[0]))[t] > 0;
        }
      }
    }
  }
}
