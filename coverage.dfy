/**
 * Per-base coverage of one region (src/coverage.rs).
 *
 * `CoverageForRegion` clips the region by the flank, fetches the overlapping
 * records and walks each qualifying record's CIGAR, adding one to a dense
 * zero-initialised array at every reference position a match block covers.
 * It is proved equal to `CoverageSpec`, whose entries are `Depth`: a sum over
 * the records of a per-record cursor walk. `DepthIsCoveringCount` ties that
 * walk to an independent reading: the number of qualifying records one of
 * whose aligned blocks contains the position.
 */
module Coverage {
  import opened Wrappers
  import opened Alignment
  import opened Stats
  import opened Regions

  // ---------------------------------------------------------------------------
  // Summary statistics of a coverage vector

  datatype RegionCoverage = RegionCoverage(region: Region, coverage: seq<nat>)
  {
    /** Lowest depth; absent exactly when the vector is empty. */
    function MinDepth(): (r: Option<int>)
      ensures r.None? <==> coverage == []
      ensures r.Some? ==> r.value in coverage && forall i :: 0 <= i < |coverage| ==> r.value <= coverage[i]
    {
      Min(coverage)
    }

    /** Highest depth; absent exactly when the vector is empty. */
    function MaxDepth(): (r: Option<int>)
      ensures r.None? <==> coverage == []
      ensures r.Some? ==> r.value in coverage && forall i :: 0 <= i < |coverage| ==> coverage[i] <= r.value
    {
      Max(coverage)
    }

    /** Mean depth; absent exactly when the vector is empty. */
    function Mean(): (r: Option<real>)
      ensures r.None? <==> coverage == []
      ensures r.Some? ==> r.value * |coverage| as real == Sum(coverage) as real
    {
      if |coverage| == 0 then None else Some(Sum(coverage) as real / |coverage| as real)
    }

    /** The coefficient of variation is reported only for a positive mean. */
    predicate HasCv() {
      Mean().Some? && Mean().value > 0.0
    }

    /** Fraction of positions whose depth is at least `threshold`; absent
        exactly when the vector is empty. */
    function PercentAboveThreshold(threshold: nat): (r: Option<real>)
      ensures r.None? <==> coverage == []
      ensures r.Some? ==> 0.0 <= r.value <= 1.0
      ensures r.Some? ==> r.value * |coverage| as real == CountAtLeast(coverage, threshold) as real
    {
      if |coverage| == 0 then None
      else Some(CountAtLeast(coverage, threshold) as real / |coverage| as real)
    }
  }

  /** The mean lies between the minimum and the maximum. */
  lemma MeanBetweenMinAndMax(rc: RegionCoverage)
    requires rc.coverage != []
    ensures rc.MinDepth().value as real <= rc.Mean().value <= rc.MaxDepth().value as real
  {
    AverageBetween(rc.coverage, rc.MinDepth().value, rc.MaxDepth().value);
  }

  /** A coefficient of variation exists exactly when the vector is non-empty and
      some position has non-zero depth. */
  lemma HasCvIff(rc: RegionCoverage)
    ensures rc.HasCv() <==> rc.coverage != [] && exists i :: 0 <= i < |rc.coverage| && rc.coverage[i] > 0
  {
    var s := rc.coverage;
    assert AllNonNegative(s);
    SumZeroIffAllZero(s);
    if s != [] {
      var n := |s| as real;
      assert rc.Mean().value * n == Sum(s) as real;
      if rc.Mean().value > 0.0 {
        assert Sum(s) > 0;
      } else {
        assert Sum(s) == 0;
      }
    }
  }

  /** Every position is at or above threshold zero. */
  lemma PercentAboveZero(rc: RegionCoverage)
    requires rc.coverage != []
    ensures rc.PercentAboveThreshold(0) == Some(1.0)
  {
    var s := rc.coverage;
    CountAtLeastAll(s, 0);
    assert CountAtLeast(s, 0) == |s|;
    var n := |s| as real;
    assert n / n == 1.0;
  }

  /** No position reaches a threshold above the maximum. */
  lemma PercentAboveMax(rc: RegionCoverage, t: nat)
    requires rc.coverage != [] && rc.MaxDepth().value < t
    ensures rc.PercentAboveThreshold(t) == Some(0.0)
  {
    CountAtLeastNone(rc.coverage, t);
  }

  /** Raising the threshold never raises the fraction. */
  lemma PercentAboveAntitone(rc: RegionCoverage, t: nat, u: nat)
    requires rc.coverage != [] && t <= u
    ensures rc.PercentAboveThreshold(u).value <= rc.PercentAboveThreshold(t).value
  {
    var s := rc.coverage;
    CountAtLeastAntitone(s, t, u);
    var a, b := CountAtLeast(s, u) as real, CountAtLeast(s, t) as real;
    var n := |s| as real;
    assert a <= b;
    DivMonotone(a, b, n);
  }

  lemma DivMonotone(a: real, b: real, n: real)
    requires a <= b && n > 0.0
    ensures a / n <= b / n
  {
  }

  // ---------------------------------------------------------------------------
  // Which records count, and where their match blocks fall

  /** Unmapped, secondary and supplementary records and those below the
      mapping-quality floor are skipped; duplicates are not. */
  predicate Counted(r: Record, minMapq: u8) {
    !IsUnmapped(r) && !IsSecondary(r) && !IsSupplementary(r) && r.mapq >= minMapq
  }

  /** One operation's contribution at `p` when the cursor stands at `start`. */
  function BlockHit(op: CigarOp, start: int, p: int): nat {
    if IsAlignedBlock(op) && start <= p < start + op.len then 1 else 0
  }

  /** The cursor walk: each operation starts where the reference span of the
      operations before it ends. */
  function Hits(c: seq<CigarOp>, start: int, p: int): nat {
    if c == [] then 0
    else Hits(c[..|c| - 1], start, p) + BlockHit(c[|c| - 1], start + RefSpan(c[..|c| - 1]), p)
  }

  /** Independent reading: some aligned block of the CIGAR contains `p`. */
  predicate Covers(c: seq<CigarOp>, start: int, p: int) {
    exists k :: 0 <= k < |c| && BlockCovers(c, k, start, p)
  }

  /** Operation `k` is an aligned block and covers `p`. */
  predicate BlockCovers(c: seq<CigarOp>, k: nat, start: int, p: int)
    requires k < |c|
  {
    IsAlignedBlock(c[k]) && start + RefSpan(c[..k]) <= p < start + RefSpan(c[..k]) + c[k].len
  }

  /** Whether operation `k` covers `p` depends only on the operations up to `k`. */
  lemma BlockCoversPrefix(c: seq<CigarOp>, n: nat, k: nat, start: int, p: int)
    requires k < n <= |c|
    ensures BlockCovers(c[..n], k, start, p) == BlockCovers(c, k, start, p)
  {
    assert c[..n][k] == c[k] && c[..n][..k] == c[..k];
  }

  lemma {:induction false} RefSpanPrefixMonotone(c: seq<CigarOp>, i: nat, j: nat)
    requires i <= j <= |c|
    ensures RefSpan(c[..i]) <= RefSpan(c[..j])
    decreases j
  {
    if i < j {
      assert c[..j][..j - 1] == c[..j - 1];
      RefSpanPrefixMonotone(c, i, j - 1);
    }
  }

  /** Extending a CIGAR by one operation adds that operation's block. */
  lemma CoversSnoc(c: seq<CigarOp>, start: int, p: int)
    requires c != []
    ensures Covers(c, start, p) <==>
      Covers(c[..|c| - 1], start, p) || BlockHit(c[|c| - 1], start + RefSpan(c[..|c| - 1]), p) == 1
  {
    var n := |c| - 1;
    var init := c[..n];
    if Covers(c, start, p) {
      var k :| 0 <= k < |c| && BlockCovers(c, k, start, p);
      if k < n {
        BlockCoversPrefix(c, n, k, start, p);
      }
    }
    if Covers(init, start, p) {
      var k :| 0 <= k < n && BlockCovers(init, k, start, p);
      BlockCoversPrefix(c, n, k, start, p);
    }
    if BlockHit(c[n], start + RefSpan(init), p) == 1 {
      assert BlockCovers(c, n, start, p);
    }
  }

  /** Every covered position lies before the end of the reference span. */
  lemma CoversBeforeEnd(c: seq<CigarOp>, start: int, p: int)
    requires Covers(c, start, p)
    ensures p < start + RefSpan(c)
  {
    var k :| 0 <= k < |c| && BlockCovers(c, k, start, p);
    BlockEndsInSpan(c, k);
  }

  /** An aligned block ends within the reference span. */
  lemma BlockEndsInSpan(c: seq<CigarOp>, k: nat)
    requires k < |c| && IsAlignedBlock(c[k])
    ensures RefSpan(c[..k]) + c[k].len <= RefSpan(c)
  {
    assert c[..k + 1][..k] == c[..k] && c[..k + 1][k] == c[k];
    assert RefSpan(c[..k + 1]) == RefSpan(c[..k]) + c[k].len;
    RefSpanPrefixMonotone(c, k + 1, |c|);
    assert c[..|c|] == c;
  }

  /** The walk hits a position at most once, and exactly when a block covers it. */
  lemma {:induction false} HitsIsCovers(c: seq<CigarOp>, start: int, p: int)
    ensures Hits(c, start, p) == if Covers(c, start, p) then 1 else 0
  {
    if c != [] {
      var init := c[..|c| - 1];
      HitsIsCovers(init, start, p);
      CoversSnoc(c, start, p);
      if Covers(init, start, p) {
        CoversBeforeEnd(init, start, p);
      }
    }
  }

  /** Depth at `p`: contributions of the counted records among `rs`. */
  function Depth(rs: seq<Record>, minMapq: u8, p: int): nat {
    if rs == [] then 0
    else
      var r := rs[|rs| - 1];
      Depth(rs[..|rs| - 1], minMapq, p) + (if Counted(r, minMapq) then Hits(r.cigar, r.pos, p) else 0)
  }

  /** Indices of the counted records whose blocks cover `p`. */
  function CoveringRecords(rs: seq<Record>, minMapq: u8, p: int): set<nat> {
    set i: nat | i < |rs| && Counted(rs[i], minMapq) && Covers(rs[i].cigar, rs[i].pos, p)
  }

  /** Depth is the number of counted records that cover the position. */
  lemma {:induction false} DepthIsCoveringCount(rs: seq<Record>, minMapq: u8, p: int)
    ensures Depth(rs, minMapq, p) == |CoveringRecords(rs, minMapq, p)|
  {
    if rs != [] {
      var n := |rs| - 1;
      DepthIsCoveringCount(rs[..n], minMapq, p);
      HitsIsCovers(rs[n].cigar, rs[n].pos, p);
      CoveringSnoc(rs, minMapq, p);
    }
  }

  /** The covering records of `rs`: those of all but its last record, and the
      last one when it counts and covers `p`. */
  lemma CoveringSnoc(rs: seq<Record>, minMapq: u8, p: int)
    requires rs != []
    ensures var n := |rs| - 1;
      var before := CoveringRecords(rs[..n], minMapq, p);
      && n !in before
      && CoveringRecords(rs, minMapq, p)
         == if Counted(rs[n], minMapq) && Covers(rs[n].cigar, rs[n].pos, p) then before + {n} else before
  {
    var n := |rs| - 1;
    var init := rs[..n];
    assert forall i :: 0 <= i < n ==> init[i] == rs[i];
  }

  /** The duplicate flag plays no part: clearing it changes no depth. */
  lemma DuplicatesCount(r: Record, minMapq: u8)
    requires IsDuplicate(r)
    ensures Counted(r, minMapq) == Counted(r.(flags := r.flags & !FLAG_DUPLICATE), minMapq)
  {
    var f := r.flags;
    assert f & !FLAG_DUPLICATE & FLAG_UNMAPPED == f & FLAG_UNMAPPED;
    assert f & !FLAG_DUPLICATE & FLAG_SECONDARY == f & FLAG_SECONDARY;
    assert f & !FLAG_DUPLICATE & FLAG_SUPPLEMENTARY == f & FLAG_SUPPLEMENTARY;
  }

  // ---------------------------------------------------------------------------
  // Coverage of one region

  datatype CoverageError =
    | FlankOverflow(region: Region)
    | FlankUnderflow(region: Region)
    | EmptyAfterFlank(region: Region)
    | ContigNotFound(contig: string)

  function Message(e: CoverageError): string {
    match e
    case FlankOverflow(r) => "Region start + flank overflowed for region: " + Display(r)
    case FlankUnderflow(r) => "Region end - flank underflowed for region: " + Display(r)
    case EmptyAfterFlank(r) => "Region start >= end after applying flank for region: " + Display(r)
    case ContigNotFound(c) => "Chromosome " + c + " not found in BAM header"
  }

  /** What `coverage_for_region` returns: the original region with the depth
      of every position of the clipped interval, or the first failure. */
  function CoverageSpec(reader: Reader, region: Region, minMapq: u8, flank: u64): Result<RegionCoverage, CoverageError> {
    if region.beg + flank > U64_MAX then Err(FlankOverflow(region))
    else if region.end < flank then Err(FlankUnderflow(region))
    else
      var beg, end := region.beg + flank, region.end - flank;
      if beg >= end then Err(EmptyAfterFlank(region))
      else match Tid(reader.header, region.contig)
        case None => Err(ContigNotFound(region.contig))
        case Some(tid) =>
          var rs := FetchTid(reader, tid, beg, end);
          var depths := seq<nat>(end - beg, i requires 0 <= i < end - beg => Depth(rs, minMapq, beg + i));
          Ok(RegionCoverage(region, depths))
  }

  /** Adds one at every position of [start, start + len) that falls in the
      array's window [beg, end). */
  method AddBlock(a: array<nat>, beg: int, end: int, start: int, len: nat)
    requires end == beg + a.Length
    modifies a
    ensures forall i :: 0 <= i < a.Length ==> a[i] == old(a[i]) + (if start <= beg + i < start + len then 1 else 0)
  {
    var m := 0;
    while m < len
      invariant 0 <= m <= len
      invariant forall i :: 0 <= i < a.Length ==> a[i] == old(a[i]) + (if start <= beg + i < start + m then 1 else 0)
    {
      var pos := start + m;
      if pos >= beg && pos < end {
        a[pos - beg] := a[pos - beg] + 1;
      }
      m := m + 1;
    }
  }

  /** Walks one record's CIGAR with a reference cursor. */
  method AddRecord(a: array<nat>, beg: int, end: int, rec: Record)
    requires end == beg + a.Length
    modifies a
    ensures forall i :: 0 <= i < a.Length ==> a[i] == old(a[i]) + Hits(rec.cigar, rec.pos, beg + i)
  {
    var c := rec.cigar;
    var refPos := rec.pos;
    var k := 0;
    assert forall p :: Hits(c[..0], rec.pos, p) == 0 by {
      assert c[..0] == [];
    }
    while k < |c|
      invariant 0 <= k <= |c|
      invariant refPos == rec.pos + RefSpan(c[..k])
      invariant forall i :: 0 <= i < a.Length ==> a[i] == old(a[i]) + Hits(c[..k], rec.pos, beg + i)
    {
      assert c[..k + 1][..k] == c[..k];
      match c[k] {
      case Match(len) =>
        AddBlock(a, beg, end, refPos, len);
        refPos := refPos + len;
      case Equal(len) =>
        AddBlock(a, beg, end, refPos, len);
        refPos := refPos + len;
      case Diff(len) =>
        AddBlock(a, beg, end, refPos, len);
        refPos := refPos + len;
      case Del(len) =>
        refPos := refPos + len;
      case RefSkip(len) =>
        refPos := refPos + len;
      case Ins(_) =>
      case SoftClip(_) =>
      case HardClip(_) =>
      case Pad(_) =>
      }
      k := k + 1;
    }
    assert c[..k] == c;
  }

  /** Fills a zero-initialised array for [beg, end) with every counted
      record's walk, one record at a time. */
  method CountDepths(records: seq<Record>, minMapq: u8, beg: int, end: int) returns (depths: seq<nat>)
    requires beg < end
    ensures |depths| == end - beg
    ensures forall i :: 0 <= i < end - beg ==> depths[i] == Depth(records, minMapq, beg + i)
  {
    var coverage := new nat[end - beg](_ => 0);
    var j := 0;
    assert forall p :: Depth(records[..0], minMapq, p) == 0 by {
      assert records[..0] == [];
    }
    while j < |records|
      invariant 0 <= j <= |records|
      invariant forall i :: 0 <= i < coverage.Length ==> coverage[i] == Depth(records[..j], minMapq, beg + i)
    {
      var rec := records[j];
      assert records[..j + 1][..j] == records[..j];
      if IsUnmapped(rec) || IsSecondary(rec) || IsSupplementary(rec) {
      } else if rec.mapq < minMapq {
      } else {
        AddRecord(coverage, beg, end, rec);
      }
      j := j + 1;
    }
    assert records[..j] == records;
    return coverage[..];
  }

  /** `coverage_for_region`: flank checks, then the dense array filled in place. */
  method CoverageForRegion(reader: Reader, region: Region, minMapq: u8, flank: u64)
    returns (r: Result<RegionCoverage, CoverageError>)
    ensures r == CoverageSpec(reader, region, minMapq, flank)
  {
    if region.beg + flank > U64_MAX {
      return Err(FlankOverflow(region));
    }
    if region.end < flank {
      return Err(FlankUnderflow(region));
    }
    var beg, end := region.beg + flank, region.end - flank;
    if beg >= end {
      return Err(EmptyAfterFlank(region));
    }
    var tid := Tid(reader.header, region.contig);
    if tid.None? {
      return Err(ContigNotFound(region.contig));
    }
    var records := FetchTid(reader, tid.value, beg, end);
    var depths := CountDepths(records, minMapq, beg, end);
    assert depths == seq<nat>(end - beg, i requires 0 <= i < end - beg => Depth(records, minMapq, beg + i));
    return Ok(RegionCoverage(region, depths));
  }

  // ---------------------------------------------------------------------------
  // Properties of the specification

  /** The three flank failures and the unknown contig, each exactly when its
      condition holds and the earlier checks pass. */
  lemma CoverageErrors(reader: Reader, region: Region, minMapq: u8, flank: u64)
    ensures CoverageSpec(reader, region, minMapq, flank) == Err(FlankOverflow(region))
      <==> region.beg + flank > U64_MAX
    ensures CoverageSpec(reader, region, minMapq, flank) == Err(FlankUnderflow(region))
      <==> region.beg + flank <= U64_MAX && region.end < flank
    ensures CoverageSpec(reader, region, minMapq, flank) == Err(EmptyAfterFlank(region))
      <==> region.beg + flank <= U64_MAX && flank <= region.end && region.beg + flank >= region.end - flank
    ensures CoverageSpec(reader, region, minMapq, flank).Ok?
      <==> region.beg + flank < region.end - flank && region.contig in reader.header
  {
  }

  /** On success: the original region, one entry per clipped position, each the
      number of counted fetched records covering it. */
  lemma CoverageMeaning(reader: Reader, region: Region, minMapq: u8, flank: u64)
    requires CoverageSpec(reader, region, minMapq, flank).Ok?
    ensures var rc := CoverageSpec(reader, region, minMapq, flank).value;
      var beg := region.beg + flank;
      var rs := FetchTid(reader, Tid(reader.header, region.contig).value, beg, region.end - flank);
      && rc.region == region
      && |rc.coverage| == (region.end - flank) - beg
      && forall i :: 0 <= i < |rc.coverage| ==> rc.coverage[i] == |CoveringRecords(rs, minMapq, beg + i)|
  {
    var rc := CoverageSpec(reader, region, minMapq, flank).value;
    var beg := region.beg + flank;
    var rs := FetchTid(reader, Tid(reader.header, region.contig).value, beg, region.end - flank);
    forall i | 0 <= i < |rc.coverage|
      ensures rc.coverage[i] == |CoveringRecords(rs, minMapq, beg + i)|
    {
      DepthIsCoveringCount(rs, minMapq, beg + i);
    }
  }

  /** With no records the vector is all zeros and its maximum is zero. */
  lemma NoRecordsNoCoverage(header: seq<string>, region: Region, minMapq: u8, flank: u64)
    requires CoverageSpec(Reader(header, []), region, minMapq, flank).Ok?
    ensures var rc := CoverageSpec(Reader(header, []), region, minMapq, flank).value;
      (forall i :: 0 <= i < |rc.coverage| ==> rc.coverage[i] == 0) && rc.MaxDepth() == Some(0)
  {
    var rc := CoverageSpec(Reader(header, []), region, minMapq, flank).value;
    var beg := region.beg + flank;
    assert FetchTid(Reader(header, []), Tid(header, region.contig).value, beg, region.end - flank) == [];
    assert forall p :: Depth([], minMapq, p) == 0;
    assert forall i :: 0 <= i < |rc.coverage| ==> rc.coverage[i] == 0;
    assert rc.coverage[0] == 0;
  }

  /** A record that is skipped (unmapped, secondary, supplementary or below the
      quality floor) adds nothing anywhere. */
  lemma SkippedRecordAddsNothing(rs: seq<Record>, r: Record, minMapq: u8, p: int)
    requires !Counted(r, minMapq)
    ensures Depth(rs + [r], minMapq, p) == Depth(rs, minMapq, p)
  {
    assert (rs + [r])[..|rs|] == rs;
  }
}
