/**
 * The JPEG marker scan of the listing assets check
 * (scripts/ci/prepare-google-play-listing-assets.py), against the layout of sections B.1.1
 * and B.2.2 of ITU-T T.81.
 */
module JpegScan {
  import opened Options

  type byte = x: int | 0 <= x < 256

  type Bytes = seq<byte>

  datatype Size = Size(width: nat, height: nat)

  /** Markers that stand alone: TEM, RST0 to RST7, SOI. */
  predicate Standalone(marker: byte) {
    marker == 0x01 || 0xD0 <= marker <= 0xD8
  }

  /** EOI and SOS. */
  predicate Final(marker: byte) {
    marker == 0xD9 || marker == 0xDA
  }

  /** Start of frame; C4, C8 and CC are not. */
  predicate IsFrame(marker: byte) {
    0xC0 <= marker <= 0xCF && marker != 0xC4 && marker != 0xC8 && marker != 0xCC
  }

  function BigEndian(hi: byte, lo: byte): nat {
    hi * 256 + lo
  }

  // ---- the scan as a function ----

  function SkipToFF(data: Bytes, offset: nat): (r: nat)
    requires offset <= |data|
    ensures offset <= r <= |data| && (r < |data| ==> data[r] == 0xFF)
    decreases |data| - offset
  {
    if offset < |data| && data[offset] != 0xFF then SkipToFF(data, offset + 1) else offset
  }

  function SkipFF(data: Bytes, offset: nat): (r: nat)
    requires offset <= |data|
    ensures offset <= r <= |data| && (r < |data| ==> data[r] != 0xFF)
    decreases |data| - offset
  {
    if offset < |data| && data[offset] == 0xFF then SkipFF(data, offset + 1) else offset
  }

  /** Where the next marker's code is. */
  function MarkerAt(data: Bytes, offset: nat): (m: nat)
    requires offset <= |data|
    ensures offset <= m <= |data|
  {
    SkipFF(data, SkipToFF(data, offset))
  }

  /** What a marker leads to: the end of the scan, or a place to go on from. */
  datatype Step = Stop(found: Option<Size>) | GoOn(offset: nat)

  function AfterMarker(data: Bytes, m: nat): (s: Step)
    requires m < |data|
    ensures s.GoOn? ==> m < s.offset <= |data|
  {
    if Standalone(data[m]) then GoOn(m + 1)
    else if Final(data[m]) || m + 3 > |data| then Stop(None)
    else
      var length := BigEndian(data[m + 1], data[m + 2]);
      if length < 2 || m + 1 + length > |data| then Stop(None)
      else if !IsFrame(data[m]) then GoOn(m + 1 + length)
      else if length < 7 then Stop(None)
      else Stop(Some(Size(BigEndian(data[m + 6], data[m + 7]), BigEndian(data[m + 4], data[m + 5]))))
  }

  /** What is found from `offset` on. */
  function Scan(data: Bytes, offset: nat): Option<Size>
    requires offset <= |data|
    decreases |data| - offset
  {
    if MarkerAt(data, offset) == |data| then None
    else match AfterMarker(data, MarkerAt(data, offset))
      case Stop(found) => found
      case GoOn(next) => Scan(data, next)
  }

  function Dimensions(data: Bytes): Option<Size> {
    if [0xFF, 0xD8] <= data then Scan(data, 2) else None
  }

  // ---- the scan as written ----

  /** The two inner loops. */
  method FindMarker(data: Bytes, start: nat) returns (offset: nat)
    requires start <= |data|
    ensures offset == MarkerAt(data, start)
  {
    offset := start;
    while offset < |data| && data[offset] != 0xFF
      invariant start <= offset <= |data| && SkipToFF(data, start) == SkipToFF(data, offset)
    {
      offset := offset + 1;
    }
    ghost var f := offset;
    while offset < |data| && data[offset] == 0xFF
      invariant f <= offset <= |data| && SkipFF(data, f) == SkipFF(data, offset)
    {
      offset := offset + 1;
    }
  }

  method JpegDimensions(data: Bytes) returns (r: Option<Size>)
    ensures r == Dimensions(data)
  {
    if !([0xFF, 0xD8] <= data) { return None; }
    var offset := 2;
    while offset < |data|
      invariant 2 <= offset <= |data| && Scan(data, 2) == Scan(data, offset)
      decreases |data| - offset
    {
      ghost var o := offset;
      offset := FindMarker(data, offset);
      if offset >= |data| { return None; }
      ghost var step := AfterMarker(data, offset);
      var marker := data[offset];
      offset := offset + 1;
      if Standalone(marker) {
        ScanGoesOn(data, o, offset);
        continue;
      }
      if Final(marker) { return None; }
      if offset + 2 > |data| { return None; }
      var segmentLength := BigEndian(data[offset], data[offset + 1]);
      if segmentLength < 2 { return None; }
      var segmentStart, segmentEnd := offset + 2, offset + segmentLength;
      if segmentEnd > |data| { return None; }
      if IsFrame(marker) {
        if segmentStart + 5 > segmentEnd { return None; }
        var height := BigEndian(data[segmentStart + 1], data[segmentStart + 2]);
        var width := BigEndian(data[segmentStart + 3], data[segmentStart + 4]);
        assert step == Stop(Some(Size(width, height)));
        return Some(Size(width, height));
      }
      ScanGoesOn(data, o, segmentEnd);
      offset := segmentEnd;
    }
    r := None;
  }

  // ---- the layout ----

  /** Bytes up to a marker: anything but FF, then one or more FF. */
  datatype AnyLead = Lead(skipped: Bytes, fill: nat)

  type Lead = l: AnyLead | l.fill >= 1 && 0xFF !in l.skipped
    witness Lead([], 1)

  datatype AnyPart =
    | Alone(lead: Lead, marker: byte)
    | Segment(lead: Lead, marker: byte, body: Bytes)

  /** A part that tells no size: a marker that stands alone, or a segment of another kind. */
  type Part = p: AnyPart | GoodPart(p)
    witness Alone(Lead([], 1), 0x01)

  predicate GoodPart(p: AnyPart) {
    match p
    case Alone(_, marker) => Standalone(marker)
    case Segment(_, marker, body) =>
      !Standalone(marker) && !Final(marker) && !IsFrame(marker) && marker != 0xFF && |body| + 2 < 0x10000
  }

  /** A start of frame segment: precision, height, width and the rest. */
  datatype AnyFrame = Frame(lead: Lead, marker: byte, precision: byte, size: Size, others: Bytes)

  type Frame = f: AnyFrame | GoodFrame(f)
    witness Frame(Lead([], 1), 0xC0, 0, Size(0, 0), [])

  predicate GoodFrame(f: AnyFrame) {
    IsFrame(f.marker) && f.size.width < 0x10000 && f.size.height < 0x10000 && |f.others| + 7 < 0x10000
  }

  function Fill(n: nat): (r: Bytes)
    ensures |r| == n
  {
    if n == 0 then [] else [0xFF] + Fill(n - 1)
  }

  function TwoBytes(n: nat): (r: Bytes)
    requires n < 0x10000
    ensures |r| == 2 && BigEndian(r[0], r[1]) == n
  {
    [n / 256, n % 256]
  }

  function LeadBytes(l: Lead): Bytes {
    l.skipped + Fill(l.fill)
  }

  /** What follows the marker code of a part. */
  function PartBody(p: Part): Bytes
  {
    match p
    case Alone(_, _) => []
    case Segment(_, _, body) => TwoBytes(|body| + 2) + body
  }

  function PartBytes(p: Part): (r: Bytes)
    ensures |r| == |LeadBytes(p.lead)| + 1 + |PartBody(p)|
  {
    LeadBytes(p.lead) + [p.marker] + PartBody(p)
  }

  function FrameBody(f: Frame): (r: Bytes)
    ensures |r| == |f.others| + 7
  {
    TwoBytes(|f.others| + 7) + [f.precision] + TwoBytes(f.size.height) + TwoBytes(f.size.width) + f.others
  }

  function FrameBytes(f: Frame): Bytes
  {
    LeadBytes(f.lead) + [f.marker] + FrameBody(f)
  }

  function AllBytes(parts: seq<Part>): Bytes
  {
    if parts == [] then [] else PartBytes(parts[0]) + AllBytes(parts[1..])
  }

  /** A file: SOI, parts that tell no size, the first frame header, and whatever follows. */
  function File(parts: seq<Part>, frame: Frame, rest: Bytes): Bytes
  {
    [0xFF, 0xD8] + (AllBytes(parts) + FrameBytes(frame)) + rest
  }

  // ---- from layout to scan ----

  /** `bytes` lie in the data at `offset`. */
  predicate At(data: Bytes, offset: nat, bytes: Bytes) {
    offset + |bytes| <= |data| && data[offset..offset + |bytes|] == bytes
  }

  lemma AtSplits(data: Bytes, offset: nat, a: Bytes, b: Bytes)
    requires At(data, offset, a + b)
    ensures At(data, offset, a) && At(data, offset + |a|, b)
  {
    assert data[offset..offset + |a|] == (a + b)[..|a|];
    assert data[offset + |a|..offset + |a| + |b|] == (a + b)[|a|..];
  }

  lemma AtJoins(data: Bytes, offset: nat, a: Bytes, b: Bytes)
    requires At(data, offset, a) && At(data, offset + |a|, b)
    ensures At(data, offset, a + b)
  {
    assert data[offset..offset + |a + b|] == data[offset..offset + |a|] + data[offset + |a|..offset + |a| + |b|];
  }

  lemma AtIndex(data: Bytes, offset: nat, bytes: Bytes, i: nat)
    requires At(data, offset, bytes) && i < |bytes|
    ensures data[offset + i] == bytes[i]
  {
    assert data[offset..offset + |bytes|][i] == bytes[i];
  }

  lemma {:induction false} SkipsGarbage(data: Bytes, offset: nat, skipped: Bytes)
    requires At(data, offset, skipped) && 0xFF !in skipped
    requires offset + |skipped| < |data| && data[offset + |skipped|] == 0xFF
    ensures SkipToFF(data, offset) == offset + |skipped|
    decreases |skipped|
  {
    if skipped != [] {
      AtIndex(data, offset, skipped, 0);
      AtSplits(data, offset, [skipped[0]], skipped[1..]);
      SkipsGarbage(data, offset + 1, skipped[1..]);
    }
  }

  lemma {:induction false} SkipsFill(data: Bytes, offset: nat, fill: nat)
    requires At(data, offset, Fill(fill)) && offset + fill < |data| && data[offset + fill] != 0xFF
    ensures SkipFF(data, offset) == offset + fill
    decreases fill
  {
    if fill > 0 {
      AtIndex(data, offset, Fill(fill), 0);
      AtSplits(data, offset, [0xFF], Fill(fill - 1));
      SkipsFill(data, offset + 1, fill - 1);
    }
  }

  /** A lead is skipped up to the marker code behind it. */
  lemma LeadFindsMarker(data: Bytes, offset: nat, l: Lead)
    requires At(data, offset, LeadBytes(l))
    requires offset + |LeadBytes(l)| < |data| && data[offset + |LeadBytes(l)|] != 0xFF
    ensures MarkerAt(data, offset) == offset + |LeadBytes(l)|
  {
    AtSplits(data, offset, l.skipped, Fill(l.fill));
    AtIndex(data, offset + |l.skipped|, Fill(l.fill), 0);
    SkipsGarbage(data, offset, l.skipped);
    SkipsFill(data, offset + |l.skipped|, l.fill);
  }

  lemma StepOverPart(data: Bytes, m: nat, p: Part)
    requires m < |data| && data[m] == p.marker && At(data, m + 1, PartBody(p))
    ensures AfterMarker(data, m) == GoOn(m + 1 + |PartBody(p)|)
  {
    if p.Segment? {
      AtIndex(data, m + 1, PartBody(p), 0);
      AtIndex(data, m + 1, PartBody(p), 1);
    }
  }

  lemma StopAtFrame(data: Bytes, m: nat, f: Frame)
    requires m < |data| && data[m] == f.marker && At(data, m + 1, FrameBody(f))
    ensures AfterMarker(data, m) == Stop(Some(f.size))
  {
    var b := FrameBody(f);
    forall i | 0 <= i < 7 ensures data[m + 1 + i] == b[i] { AtIndex(data, m + 1, b, i); }
    var h, w := TwoBytes(f.size.height), TwoBytes(f.size.width);
    assert b[3] == h[0] && b[4] == h[1] && b[5] == w[0] && b[6] == w[1];
    assert data[m + 1] == b[0] && data[m + 2] == b[1];
    assert data[m + 4] == b[3] && data[m + 5] == b[4] && data[m + 6] == b[5] && data[m + 7] == b[6];
  }

  /** A lead, a marker code and its body: the marker is found, and the body lies behind it. */
  lemma MarkerAndBody(data: Bytes, offset: nat, l: Lead, marker: byte, body: Bytes)
    requires marker != 0xFF && At(data, offset, LeadBytes(l) + [marker] + body)
    ensures var m := offset + |LeadBytes(l)|;
      MarkerAt(data, offset) == m && m < |data| && data[m] == marker && At(data, m + 1, body)
  {
    AtSplits(data, offset, LeadBytes(l) + [marker], body);
    AtSplits(data, offset, LeadBytes(l), [marker]);
    AtIndex(data, offset + |LeadBytes(l)|, [marker], 0);
    LeadFindsMarker(data, offset, l);
  }

  lemma ScanGoesOn(data: Bytes, offset: nat, next: nat)
    requires offset <= |data| && MarkerAt(data, offset) < |data| && AfterMarker(data, MarkerAt(data, offset)) == GoOn(next)
    ensures next <= |data| && Scan(data, offset) == Scan(data, next)
  {
  }

  lemma ScanSkipsPart(data: Bytes, offset: nat, p: Part)
    requires At(data, offset, PartBytes(p))
    ensures Scan(data, offset) == Scan(data, offset + |PartBytes(p)|)
  {
    MarkerAndBody(data, offset, p.lead, p.marker, PartBody(p));
    StepOverPart(data, offset + |LeadBytes(p.lead)|, p);
    ScanGoesOn(data, offset, offset + |PartBytes(p)|);
  }

  lemma PartThenSize(data: Bytes, offset: nat, p: Part, next: nat, size: Size)
    requires At(data, offset, PartBytes(p)) && next == offset + |PartBytes(p)| && Scan(data, next) == Some(size)
    ensures Scan(data, offset) == Some(size)
  {
    ScanSkipsPart(data, offset, p);
  }

  lemma ScanReadsFrame(data: Bytes, offset: nat, f: Frame)
    requires At(data, offset, FrameBytes(f))
    ensures Scan(data, offset) == Some(f.size)
  {
    MarkerAndBody(data, offset, f.lead, f.marker, FrameBody(f));
    StopAtFrame(data, offset + |LeadBytes(f.lead)|, f);
  }

  // ---- from scan to layout ----

  lemma {:induction false} SkippedIsGarbage(data: Bytes, offset: nat)
    requires offset <= |data|
    ensures 0xFF !in data[offset..SkipToFF(data, offset)]
    decreases |data| - offset
  {
    var r := SkipToFF(data, offset);
    if r != offset {
      SkippedIsGarbage(data, offset + 1);
      assert data[offset..r] == [data[offset]] + data[offset + 1..r];
    }
  }

  lemma {:induction false} SkippedIsFill(data: Bytes, offset: nat)
    requires offset <= |data|
    ensures At(data, offset, Fill(SkipFF(data, offset) - offset))
    decreases |data| - offset
  {
    var r := SkipFF(data, offset);
    if r != offset {
      SkippedIsFill(data, offset + 1);
      AtJoins(data, offset, [0xFF], Fill(r - offset - 1));
    }
  }

  /** The bytes in front of a marker, as a lead. */
  lemma LeadOf(data: Bytes, offset: nat) returns (l: Lead)
    requires offset <= |data| && MarkerAt(data, offset) < |data|
    ensures offset + |LeadBytes(l)| == MarkerAt(data, offset) && At(data, offset, LeadBytes(l))
    ensures data[MarkerAt(data, offset)] != 0xFF
  {
    var a, m := SkipToFF(data, offset), MarkerAt(data, offset);
    SkippedIsGarbage(data, offset);
    SkippedIsFill(data, a);
    assert a < |data| && m > a;
    l := Lead(data[offset..a], m - a);
    AtJoins(data, offset, l.skipped, Fill(l.fill));
  }

  /** A step over a marker has a part there. */
  lemma PartOf(data: Bytes, m: nat, l: Lead) returns (p: Part)
    requires m < |data| && AfterMarker(data, m).GoOn? && data[m] != 0xFF
    ensures p.lead == l && p.marker == data[m]
    ensures At(data, m + 1, PartBody(p)) && AfterMarker(data, m).offset == m + 1 + |PartBody(p)|
  {
    if Standalone(data[m]) {
      p := Alone(l, data[m]);
    } else {
      var length := BigEndian(data[m + 1], data[m + 2]);
      var body := data[m + 3..m + 1 + length];
      p := Segment(l, data[m], body);
      assert TwoBytes(length) == data[m + 1..m + 3];
      assert data[m + 1..m + 1 + length] == data[m + 1..m + 3] + body;
    }
  }

  /** A size was read from a frame. */
  lemma FrameOf(data: Bytes, m: nat, l: Lead) returns (f: Frame)
    requires m < |data| && AfterMarker(data, m).Stop? && AfterMarker(data, m).found.Some?
    ensures f.lead == l && f.marker == data[m] && f.size == AfterMarker(data, m).found.value
    ensures At(data, m + 1, FrameBody(f))
  {
    var length := BigEndian(data[m + 1], data[m + 2]);
    var size := AfterMarker(data, m).found.value;
    f := Frame(l, data[m], data[m + 3], size, data[m + 8..m + 1 + length]);
    assert TwoBytes(length) == data[m + 1..m + 3];
    assert TwoBytes(size.height) == data[m + 4..m + 6] && TwoBytes(size.width) == data[m + 6..m + 8];
    assert data[m + 1..m + 1 + length] == FrameBody(f);
  }

  lemma Assemble(data: Bytes, offset: nat, l: Lead, marker: byte, body: Bytes)
    requires At(data, offset, LeadBytes(l)) && At(data, offset + |LeadBytes(l)| + 1, body)
    requires offset + |LeadBytes(l)| < |data| && data[offset + |LeadBytes(l)|] == marker
    ensures At(data, offset, LeadBytes(l) + [marker] + body)
  {
    AtJoins(data, offset, LeadBytes(l), [marker]);
    AtJoins(data, offset, LeadBytes(l) + [marker], body);
  }

  /** The last marker of a scan that finds a size. */
  lemma LastFrame(data: Bytes, offset: nat) returns (f: Frame)
    requires offset <= |data| && MarkerAt(data, offset) < |data|
    requires AfterMarker(data, MarkerAt(data, offset)).Stop? && AfterMarker(data, MarkerAt(data, offset)).found.Some?
    ensures f.size == AfterMarker(data, MarkerAt(data, offset)).found.value && At(data, offset, FrameBytes(f))
  {
    var m := MarkerAt(data, offset);
    var l := LeadOf(data, offset);
    f := FrameOf(data, m, l);
    Assemble(data, offset, l, f.marker, FrameBody(f));
  }

  /** A marker the scan steps over. */
  lemma NextPart(data: Bytes, offset: nat) returns (p: Part)
    requires offset <= |data| && MarkerAt(data, offset) < |data| && AfterMarker(data, MarkerAt(data, offset)).GoOn?
    ensures At(data, offset, PartBytes(p)) && AfterMarker(data, MarkerAt(data, offset)).offset == offset + |PartBytes(p)|
  {
    var m := MarkerAt(data, offset);
    var l := LeadOf(data, offset);
    p := PartOf(data, m, l);
    Assemble(data, offset, l, p.marker, PartBody(p));
  }

  /** Parts and a frame lie in the data one after the other. */
  predicate Laid(data: Bytes, offset: nat, parts: seq<Part>, f: Frame)
    decreases |parts|
  {
    if parts == [] then At(data, offset, FrameBytes(f))
    else At(data, offset, PartBytes(parts[0])) && Laid(data, offset + |PartBytes(parts[0])|, parts[1..], f)
  }

  lemma {:induction false} LaidIsBytes(data: Bytes, offset: nat, parts: seq<Part>, f: Frame)
    ensures Laid(data, offset, parts, f) <==> At(data, offset, AllBytes(parts) + FrameBytes(f))
    decreases |parts|
  {
    if parts == [] {
      assert AllBytes(parts) + FrameBytes(f) == FrameBytes(f);
    } else {
      var b, more := PartBytes(parts[0]), AllBytes(parts[1..]);
      var others := more + FrameBytes(f);
      LaidIsBytes(data, offset + |b|, parts[1..], f);
      assert AllBytes(parts) + FrameBytes(f) == b + others;
      if Laid(data, offset, parts, f) { AtJoins(data, offset, b, others); }
      if At(data, offset, b + others) { AtSplits(data, offset, b, others); }
    }
  }

  lemma {:induction false} ScanReadsParts(data: Bytes, offset: nat, parts: seq<Part>, f: Frame)
    requires Laid(data, offset, parts, f)
    ensures offset <= |data| && Scan(data, offset) == Some(f.size)
    decreases |parts|
  {
    if parts == [] {
      ScanReadsFrame(data, offset, f);
    } else {
      var p := parts[0];
      var next := offset + |PartBytes(p)|;
      ScanReadsParts(data, next, parts[1..], f);
      PartThenSize(data, offset, p, next, f.size);
    }
  }

  /** Where a size is found, the bytes are parts and a frame header with that size. */
  lemma {:induction false} PartsOf(data: Bytes, offset: nat) returns (parts: seq<Part>, f: Frame)
    requires offset <= |data| && Scan(data, offset).Some?
    ensures Scan(data, offset) == Some(f.size) && Laid(data, offset, parts, f)
    decreases |data| - offset
  {
    if AfterMarker(data, MarkerAt(data, offset)).Stop? {
      parts := [];
      f := LastFrame(data, offset);
    } else {
      var p := NextPart(data, offset);
      var more;
      more, f := PartsOf(data, offset + |PartBytes(p)|);
      parts := [p] + more;
      assert parts[1..] == more;
    }
  }

  lemma FileParts(parts: seq<Part>, f: Frame, rest: Bytes)
    ensures var data := File(parts, f, rest);
      [0xFF, 0xD8] <= data && At(data, 2, AllBytes(parts) + FrameBytes(f))
  {
    var bytes := AllBytes(parts) + FrameBytes(f);
    var data := [0xFF, 0xD8] + bytes + rest;
    assert File(parts, f, rest) == data;
    assert data[..2] == [0xFF, 0xD8] && data[2..2 + |bytes|] == bytes;
  }

  /** A size is reported for every file laid out like this: the one in its first frame header. */
  lemma ReportsFirstFrame(parts: seq<Part>, f: Frame, rest: Bytes)
    ensures Dimensions(File(parts, f, rest)) == Some(f.size)
  {
    FileParts(parts, f, rest);
    LaidIsBytes(File(parts, f, rest), 2, parts, f);
    ScanReadsParts(File(parts, f, rest), 2, parts, f);
  }

  lemma FileOf(data: Bytes, parts: seq<Part>, f: Frame) returns (rest: Bytes)
    requires [0xFF, 0xD8] <= data && At(data, 2, AllBytes(parts) + FrameBytes(f))
    ensures data == File(parts, f, rest)
  {
    var bytes := AllBytes(parts) + FrameBytes(f);
    rest := data[2 + |bytes|..];
    assert data == data[..2] + data[2..2 + |bytes|] + rest;
    assert data[..2] == [0xFF, 0xD8];
  }

  /** A size is reported for no other file. */
  lemma ReportedIsLaidOut(data: Bytes) returns (parts: seq<Part>, f: Frame, rest: Bytes)
    requires Dimensions(data).Some?
    ensures Dimensions(data) == Some(f.size) && data == File(parts, f, rest)
  {
    parts, f := PartsOf(data, 2);
    LaidIsBytes(data, 2, parts, f);
    rest := FileOf(data, parts, f);
  }
}
