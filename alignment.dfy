/**
 * Aligned-read records and the record source they are read from.
 *
 * The indexed alignment reader is an external collaborator; it is modelled as a
 * value: the header's contig names (index = tid) and the records of the file in
 * file order. A region fetch is the filter htslib applies: records on the
 * contig whose aligned span overlaps the half-open interval [beg, end).
 */
module Alignment {
  import opened Wrappers

  const U64_MAX: int := 0xFFFF_FFFF_FFFF_FFFF
  type u64 = x: int | 0 <= x <= U64_MAX
  type u8 = x: int | 0 <= x < 256

  /** One CIGAR operation with its length, as in the alignment format. */
  datatype CigarOp =
    | Match(len: nat)     // M
    | Ins(len: nat)       // I
    | Del(len: nat)       // D
    | RefSkip(len: nat)   // N
    | SoftClip(len: nat)  // S
    | HardClip(len: nat)  // H
    | Pad(len: nat)       // P
    | Equal(len: nat)     // =
    | Diff(len: nat)      // X

  /** An alignment record: query name, contig id, 0-based position, mate contig
      id and position, mapping quality, flag word and CIGAR. */
  datatype Record = Record(
    qname: string,
    tid: int,
    pos: int,
    mtid: int,
    mpos: int,
    mapq: u8,
    flags: bv16,
    cigar: seq<CigarOp>)

  const FLAG_UNMAPPED: bv16 := 0x4
  const FLAG_SECONDARY: bv16 := 0x100
  const FLAG_QCFAIL: bv16 := 0x200
  const FLAG_DUPLICATE: bv16 := 0x400
  const FLAG_SUPPLEMENTARY: bv16 := 0x800

  predicate IsUnmapped(r: Record) { r.flags & FLAG_UNMAPPED != 0 }
  predicate IsSecondary(r: Record) { r.flags & FLAG_SECONDARY != 0 }
  predicate IsDuplicate(r: Record) { r.flags & FLAG_DUPLICATE != 0 }
  predicate IsSupplementary(r: Record) { r.flags & FLAG_SUPPLEMENTARY != 0 }

  /** Match, sequence-equal and sequence-mismatch operations: the ones that
      place read bases on reference positions. */
  predicate IsAlignedBlock(op: CigarOp) {
    op.Match? || op.Equal? || op.Diff?
  }

  /** Reference bases an operation moves over: M, =, X, D and N consume the
      reference; I, S, H and P do not. */
  function RefLen(op: CigarOp): nat {
    match op
    case Match(n) => n
    case Equal(n) => n
    case Diff(n) => n
    case Del(n) => n
    case RefSkip(n) => n
    case _ => 0
  }

  /** Reference length of a CIGAR prefix (summed from the end, so that it
      extends by one operation at a time). */
  function RefSpan(c: seq<CigarOp>): nat {
    if c == [] then 0 else RefSpan(c[..|c| - 1]) + RefLen(c[|c| - 1])
  }

  /** End of the aligned span, as htslib computes it: a record with no
      reference-consuming operation (or an unmapped one) spans one base. */
  function EndPos(r: Record): int {
    var span := if IsUnmapped(r) then 0 else RefSpan(r.cigar);
    r.pos + (if span == 0 then 1 else span)
  }

  /** The indexed reader: contig names by tid, and the file's records. */
  datatype Reader = Reader(header: seq<string>, records: seq<Record>)

  datatype FetchError = UnknownContig(contig: string)

  /** First tid whose header name is `contig`. */
  function Tid(header: seq<string>, contig: string): (r: Option<nat>)
    ensures r.Some? ==> r.value < |header| && header[r.value] == contig
    ensures r.Some? ==> forall j :: 0 <= j < r.value ==> header[j] != contig
    ensures r.None? <==> contig !in header
  {
    if header == [] then None
    else if header[0] == contig then Some(0)
    else match Tid(header[1..], contig)
      case None => None
      case Some(t) => Some(t + 1)
  }

  /** A record overlaps the half-open interval [beg, end) of contig `tid`; an
      empty or inverted interval overlaps nothing. */
  predicate Overlaps(r: Record, tid: int, beg: int, end: int) {
    r.tid == tid && beg < end && r.pos < end && EndPos(r) > beg
  }

  /** The records a fetch of [beg, end) on contig `tid` yields, in file order. */
  function FetchTid(reader: Reader, tid: int, beg: int, end: int): (rs: seq<Record>)
    ensures |rs| <= |reader.records|
    ensures forall r :: r in rs <==> r in reader.records && Overlaps(r, tid, beg, end)
  {
    Filter(reader.records, tid, beg, end)
  }

  function Filter(rs: seq<Record>, tid: int, beg: int, end: int): (out: seq<Record>)
    ensures |out| <= |rs|
    ensures forall r :: r in out <==> r in rs && Overlaps(r, tid, beg, end)
  {
    if rs == [] then []
    else
      var rest := Filter(rs[..|rs| - 1], tid, beg, end);
      var last := rs[|rs| - 1];
      assert rs == rs[..|rs| - 1] + [last];
      if Overlaps(last, tid, beg, end) then rest + [last] else rest
  }

  /** A fetch by contig name: an error when the header does not name it. */
  function Fetch(reader: Reader, contig: string, beg: int, end: int): (r: Result<seq<Record>, FetchError>)
    ensures r.Err? <==> contig !in reader.header
    ensures r.Ok? ==> r.value == FetchTid(reader, Tid(reader.header, contig).value, beg, end)
  {
    match Tid(reader.header, contig)
    case None => Err(UnknownContig(contig))
    case Some(t) => Ok(FetchTid(reader, t, beg, end))
  }
}
