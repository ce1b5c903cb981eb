/**
 * Genomic regions and the BED-style region-list loader (src/region.rs).
 *
 * A region is a named interval on a contig. The loader takes the text of a
 * region list, splits it into lines, splits each line on whitespace and builds
 * one region per line from the first four columns, failing on the first line
 * that has too few columns or a begin/end that is not an unsigned 64-bit
 * integer. Reading the text from a file is not part of this model.
 */
module Regions {
  import opened Wrappers
  import opened Alignment

  datatype Region = Region(contig: string, beg: u64, end: u64, name: string)

  // ---------------------------------------------------------------------------
  // Decimal numerals

  predicate IsDigit(c: char) { '0' <= c <= '9' }

  predicate AllDigits(s: string) { forall i :: 0 <= i < |s| ==> IsDigit(s[i]) }

  function DigitChar(d: nat): (c: char)
    requires d < 10
    ensures IsDigit(c) && c as int - '0' as int == d
  {
    ('0' as int + d) as char
  }

  /** Decimal rendering of a natural number, as `{}` formats an integer. */
  function Dec(n: nat): (s: string)
    ensures s != [] && AllDigits(s)
  {
    if n < 10 then [DigitChar(n)] else Dec(n / 10) + [DigitChar(n % 10)]
  }

  /** Value of a digit string, most significant digit first. */
  function DecValue(s: string): nat
    requires AllDigits(s)
  {
    if s == [] then 0
    else DecValue(s[..|s| - 1]) * 10 + (s[|s| - 1] as int - '0' as int)
  }

  /** Reading back a rendered numeral gives the number. */
  lemma {:induction false} DecValueOfDec(n: nat)
    ensures DecValue(Dec(n)) == n
  {
    if n >= 10 {
      var s := Dec(n);
      assert s[..|s| - 1] == Dec(n / 10);
      DecValueOfDec(n / 10);
    }
  }

  /**
   * Parsing as Rust's `u64::from_str` does: an optional leading '+', then at
   * least one ASCII digit and nothing else; a value above 2^64 - 1 overflows.
   * A leading '-' is not accepted for an unsigned type.
   */
  function ParseU64(s: string): (r: Option<u64>)
    ensures r.Some? ==> s != [] && (s[0] == '+' || IsDigit(s[0]))
    ensures r.Some? ==> forall i :: 0 < i < |s| ==> IsDigit(s[i])
  {
    var digits := if s != [] && s[0] == '+' then s[1..] else s;
    if digits == [] || !AllDigits(digits) then None
    else
      var v := DecValue(digits);
      if v <= U64_MAX then Some(v) else None
  }

  /** Rendering a 64-bit value and parsing it back is the identity. */
  lemma ParseU64OfDec(n: u64)
    ensures ParseU64(Dec(n)) == Some(n)
    ensures ParseU64("+" + Dec(n)) == Some(n)
  {
    DecValueOfDec(n);
    assert ("+" + Dec(n))[1..] == Dec(n);
  }

  // ---------------------------------------------------------------------------
  // Display: contig:beg-end

  /** `Display for Region`: the contig, a colon, the begin, a dash, the end. */
  function Display(r: Region): (s: string)
    ensures |s| == |r.contig| + 1 + |Dec(r.beg)| + 1 + |Dec(r.end)|
  {
    r.contig + ":" + Dec(r.beg) + "-" + Dec(r.end)
  }

  function LastIndex(s: string, c: char): (r: Option<nat>)
    ensures r.Some? ==> r.value < |s| && s[r.value] == c && c !in s[r.value + 1..]
    ensures r.None? ==> c !in s
  {
    if s == [] then None
    else if s[|s| - 1] == c then Some(|s| - 1)
    else
      var r := LastIndex(s[..|s| - 1], c);
      assert s == s[..|s| - 1] + [s[|s| - 1]];
      r
  }

  function FirstIndex(s: string, c: char): (r: Option<nat>)
    ensures r.Some? ==> r.value < |s| && s[r.value] == c && c !in s[..r.value]
    ensures r.None? ==> c !in s
  {
    if s == [] then None
    else if s[0] == c then Some(0)
    else match FirstIndex(s[1..], c)
      case None => None
      case Some(k) => Some(k + 1)
  }

  /**
   * Reads `contig:beg-end` back: the contig is everything before the last
   * colon (contig names may themselves hold colons), the two numbers are
   * separated by the first dash after it.
   */
  function ParseDisplay(s: string): Option<(string, u64, u64)> {
    match LastIndex(s, ':')
    case None => None
    case Some(c) =>
      var rest := s[c + 1..];
      match FirstIndex(rest, '-')
      case None => None
      case Some(d) =>
        match (ParseU64(rest[..d]), ParseU64(rest[d + 1..]))
        case (Some(b), Some(e)) => Some((s[..c], b, e))
        case _ => None
  }

  lemma DigitsHaveNoSeparators(n: nat)
    ensures ':' !in Dec(n) && '-' !in Dec(n)
  {
    var s := Dec(n);
    assert forall i :: 0 <= i < |s| ==> s[i] != ':' && s[i] != '-' by {
      forall i | 0 <= i < |s| ensures s[i] != ':' && s[i] != '-' { assert IsDigit(s[i]); }
    }
  }

  /** The last occurrence of `c` in `a + [c] + t`, when `t` has none, is the one
      between them. */
  lemma {:induction false} LastIndexAfter(a: string, c: char, t: string)
    requires c !in t
    ensures LastIndex(a + [c] + t, c) == Some(|a|)
  {
    var s := a + [c] + t;
    if t != [] {
      assert s[|s| - 1] == t[|t| - 1];
      assert s[..|s| - 1] == a + [c] + t[..|t| - 1];
      LastIndexAfter(a, c, t[..|t| - 1]);
    }
  }

  /** The first occurrence of `c` in `a + [c] + t`, when `a` has none, is the one
      between them. */
  lemma {:induction false} FirstIndexBefore(a: string, c: char, t: string)
    requires c !in a
    ensures FirstIndex(a + [c] + t, c) == Some(|a|)
  {
    var s := a + [c] + t;
    if a != [] {
      assert s[0] == a[0];
      assert s[1..] == a[1..] + [c] + t;
      FirstIndexBefore(a[1..], c, t);
    }
  }

  /** `contig:b-e` splits back at its last colon and the first dash after it. */
  lemma ParseDisplayParts(contig: string, b: string, e: string)
    requires ':' !in b && ':' !in e && '-' !in b
    ensures ParseDisplay(contig + ":" + b + "-" + e)
      == match (ParseU64(b), ParseU64(e))
         case (Some(bv), Some(ev)) => Some((contig, bv, ev))
         case _ => None
  {
    var rest := b + ['-'] + e;
    var s := contig + ":" + b + "-" + e;
    assert s == contig + [':'] + rest;
    assert LastIndex(s, ':') == Some(|contig|) by {
      assert ':' !in rest;
      LastIndexAfter(contig, ':', rest);
    }
    assert s[|contig| + 1..] == rest && s[..|contig|] == contig;
    assert FirstIndex(rest, '-') == Some(|b|) by {
      FirstIndexBefore(b, '-', e);
    }
    assert rest[..|b|] == b && rest[|b| + 1..] == e;
  }

  /** The rendering is unambiguous: contig, begin and end can be read back. */
  lemma DisplayRoundTrip(r: Region)
    ensures ParseDisplay(Display(r)) == Some((r.contig, r.beg, r.end))
  {
    DigitsHaveNoSeparators(r.beg);
    DigitsHaveNoSeparators(r.end);
    ParseDisplayParts(r.contig, Dec(r.beg), Dec(r.end));
    ParseU64OfDec(r.beg);
    ParseU64OfDec(r.end);
  }

  // ---------------------------------------------------------------------------
  // Lines and whitespace-separated fields

  /** Rust's `char::is_whitespace`: the Unicode White_Space property. */
  predicate IsWhitespace(c: char) {
    || ('\U{9}' <= c <= '\U{D}') || c == '\U{20}' || c == '\U{85}' || c == '\U{A0}'
    || c == '\U{1680}' || ('\U{2000}' <= c <= '\U{200A}') || c == '\U{2028}' || c == '\U{2029}'
    || c == '\U{202F}' || c == '\U{205F}' || c == '\U{3000}'
  }

  predicate NoWhitespace(s: string) { forall i :: 0 <= i < |s| ==> !IsWhitespace(s[i]) }

  /**
   * `str::lines`: the text is cut after every '\n'; a line that ended in "\r\n"
   * loses the '\r' too; a final line without a terminator is kept; a trailing
   * terminator does not produce an extra empty line, and empty text has no lines.
   */
  function Lines(s: string): (r: seq<string>)
    ensures forall i :: 0 <= i < |r| ==> '\n' !in r[i]
    decreases |s|
  {
    match FirstIndex(s, '\n')
    case None => if s == [] then [] else [s]
    case Some(k) =>
      var line := s[..k];
      var stripped := if line != [] && line[|line| - 1] == '\r' then line[..|line| - 1] else line;
      assert forall c :: c in stripped ==> c in line;
      [stripped] + Lines(s[k + 1..])
  }

  /** Length of the run of non-whitespace characters that opens `s`. */
  function TokenLength(s: string): (k: nat)
    ensures k <= |s| && NoWhitespace(s[..k])
    ensures k < |s| ==> IsWhitespace(s[k])
  {
    if s == [] || IsWhitespace(s[0]) then 0
    else
      var k := 1 + TokenLength(s[1..]);
      assert s[..k] == [s[0]] + s[1..][..k - 1];
      k
  }

  /** `str::split_whitespace`: the maximal runs of non-whitespace characters. */
  function Fields(s: string): (r: seq<string>)
    ensures forall i :: 0 <= i < |r| ==> r[i] != [] && NoWhitespace(r[i])
    decreases |s|
  {
    if s == [] then []
    else if IsWhitespace(s[0]) then Fields(s[1..])
    else
      var k := TokenLength(s);
      [s[..k]] + Fields(s[k..])
  }

  // ---------------------------------------------------------------------------
  // Parsing a region list

  /** The loader's three failures, each carrying the 1-based line number. */
  datatype BedError =
    | WrongColumnCount(found: nat, line: nat)
    | BegNotInteger(text: string, line: nat)
    | EndNotInteger(text: string, line: nat)

  /** The message each failure is reported with. */
  function Message(e: BedError): string {
    match e
    case WrongColumnCount(k, i) =>
      "Incorrect number of columns detected, expected >= 4 found " + Dec(k) + " (line = " + Dec(i) + ")"
    case BegNotInteger(t, i) => "Beg column is not an integer: is " + t + " (line = " + Dec(i) + ")"
    case EndNotInteger(t, i) => "End column is not an integer: is " + t + " (line = " + Dec(i) + ")"
  }

  /**
   * One line of the list, numbered `lineNo` from 1: contig, begin, end and name
   * are its first four fields; further fields are ignored; begin is checked
   * before end; no begin < end check is made.
   */
  function ParseLine(line: string, lineNo: nat): (r: Result<Region, BedError>)
    ensures |Fields(line)| < 4 ==> r == Err(WrongColumnCount(|Fields(line)|, lineNo))
    ensures r.Err? ==> r.error.line == lineNo
    ensures r.Ok? <==> |Fields(line)| >= 4 && ParseU64(Fields(line)[1]).Some? && ParseU64(Fields(line)[2]).Some?
    ensures r.Ok? ==> r.value.contig == Fields(line)[0] && r.value.name == Fields(line)[3]
    ensures r.Ok? ==> r.value.beg == ParseU64(Fields(line)[1]).value && r.value.end == ParseU64(Fields(line)[2]).value
    ensures |Fields(line)| >= 4 && ParseU64(Fields(line)[1]).None? ==> r == Err(BegNotInteger(Fields(line)[1], lineNo))
    ensures |Fields(line)| >= 4 && ParseU64(Fields(line)[1]).Some? && ParseU64(Fields(line)[2]).None?
      ==> r == Err(EndNotInteger(Fields(line)[2], lineNo))
  {
    var bits := Fields(line);
    if |bits| < 4 then Err(WrongColumnCount(|bits|, lineNo))
    else match ParseU64(bits[1])
      case None => Err(BegNotInteger(bits[1], lineNo))
      case Some(beg) =>
        match ParseU64(bits[2])
        case None => Err(EndNotInteger(bits[2], lineNo))
        case Some(end) => Ok(Region(bits[0], beg, end, bits[3]))
  }

  /** Every line, numbered from 1, parses. */
  predicate AllLinesParse(lines: seq<string>) {
    forall i :: 0 <= i < |lines| ==> ParseLine(lines[i], i + 1).Ok?
  }

  /**
   * `load_from_bed` over the text already read: one region per line, in line
   * order, or the error of the first line that does not parse.
   */
  method LoadFromBed(contents: string) returns (r: Result<seq<Region>, BedError>)
    ensures r.Ok? <==> AllLinesParse(Lines(contents))
    ensures r.Ok? ==> |r.value| == |Lines(contents)|
    ensures r.Ok? ==> forall i :: 0 <= i < |r.value| ==> ParseLine(Lines(contents)[i], i + 1) == Ok(r.value[i])
    ensures r.Err? ==> exists k :: (0 <= k < |Lines(contents)| && ParseLine(Lines(contents)[k], k + 1) == Err(r.error)
      && forall i :: 0 <= i < k ==> ParseLine(Lines(contents)[i], i + 1).Ok?)
  {
    var lines := Lines(contents);
    var result: seq<Region> := [];
    var i := 0;
    while i < |lines|
      invariant 0 <= i <= |lines|
      invariant |result| == i
      invariant forall j :: 0 <= j < i ==> ParseLine(lines[j], j + 1) == Ok(result[j])
    {
      var parsed := ParseLine(lines[i], i + 1);
      if parsed.Err? {
        assert !AllLinesParse(lines) by {
          assert !ParseLine(lines[i], i + 1).Ok?;
        }
        return Err(parsed.error);
      }
      result := result + [parsed.value];
      i := i + 1;
    }
    return Ok(result);
  }

  // ---------------------------------------------------------------------------
  // A well-formed row reads back as the region it describes

  /** The tab-separated row `contig beg end name` for a region. */
  function BedRow(r: Region): string {
    r.contig + "\t" + Dec(r.beg) + "\t" + Dec(r.end) + "\t" + r.name
  }

  lemma DigitsHaveNoWhitespace(n: nat)
    ensures NoWhitespace(Dec(n))
  {
    var s := Dec(n);
    forall i | 0 <= i < |s| ensures !IsWhitespace(s[i]) { assert IsDigit(s[i]); }
  }

  /** A whitespace-free, non-empty token followed by a tab is split off whole. */
  lemma FieldsOfToken(a: string, t: string)
    requires a != [] && NoWhitespace(a)
    ensures Fields(a + "\t" + t) == [a] + Fields(t)
  {
    var s := a + "\t" + t;
    var rest := "\t" + t;
    assert s == a + rest;
    assert s[0] == a[0];
    TokenOfPrefix(a, rest);
    assert Fields(s) == [s[..|a|]] + Fields(s[|a|..]);
    assert s[..|a|] == a;
    assert s[|a|..] == rest;
    assert rest[1..] == t;
    assert Fields(rest) == Fields(t);
  }

  lemma {:induction false} TokenOfPrefix(a: string, t: string)
    requires NoWhitespace(a)
    requires t != [] && IsWhitespace(t[0])
    ensures TokenLength(a + t) == |a|
  {
    if a == [] {
      assert a + t == t;
    } else {
      assert (a + t)[0] == a[0];
      assert (a + t)[1..] == a[1..] + t;
      TokenOfPrefix(a[1..], t);
    }
  }

  lemma {:induction false} TokenOfWhole(a: string)
    requires NoWhitespace(a)
    ensures TokenLength(a) == |a|
  {
    if a != [] {
      TokenOfWhole(a[1..]);
    }
  }

  /** A last token with nothing after it is one field. */
  lemma FieldsOfLast(a: string)
    requires a != [] && NoWhitespace(a)
    ensures Fields(a) == [a]
  {
    TokenOfWhole(a);
    assert a[..|a|] == a;
    assert a[|a|..] == [];
  }

  /** Tab-separated whitespace-free tokens are exactly the row's fields. */
  lemma FieldsOfTwo(e: string, n: string)
    requires e != [] && NoWhitespace(e) && n != [] && NoWhitespace(n)
    ensures Fields(e + "\t" + n) == [e, n]
  {
    FieldsOfLast(n);
    FieldsOfToken(e, n);
  }

  lemma FieldsOfThree(b: string, e: string, n: string)
    requires b != [] && NoWhitespace(b)
    requires e != [] && NoWhitespace(e) && n != [] && NoWhitespace(n)
    ensures Fields(b + "\t" + (e + "\t" + n)) == [b, e, n]
  {
    FieldsOfTwo(e, n);
    FieldsOfToken(b, e + "\t" + n);
  }

  lemma FieldsOfRow(c: string, b: string, e: string, n: string)
    requires c != [] && NoWhitespace(c) && b != [] && NoWhitespace(b)
    requires e != [] && NoWhitespace(e) && n != [] && NoWhitespace(n)
    ensures Fields(c + "\t" + (b + "\t" + (e + "\t" + n))) == [c, b, e, n]
  {
    FieldsOfThree(b, e, n);
    FieldsOfToken(c, b + "\t" + (e + "\t" + n));
  }

  /**
   * Round trip: the row of a region whose contig and name are non-empty and
   * free of whitespace parses back to that region, whatever its line number,
   * and whether or not begin < end.
   */
  lemma ParseBedRow(r: Region, lineNo: nat)
    requires r.contig != [] && NoWhitespace(r.contig)
    requires r.name != [] && NoWhitespace(r.name)
    ensures ParseLine(BedRow(r), lineNo) == Ok(r)
  {
    DigitsHaveNoWhitespace(r.beg);
    DigitsHaveNoWhitespace(r.end);
    FieldsOfRow(r.contig, Dec(r.beg), Dec(r.end), r.name);
    assert BedRow(r) == r.contig + "\t" + (Dec(r.beg) + "\t" + (Dec(r.end) + "\t" + r.name));
    ParseU64OfDec(r.beg);
    ParseU64OfDec(r.end);
  }
}
