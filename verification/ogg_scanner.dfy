/** getOpusDuration of common/audio.go: a scan of Ogg pages (section 6 of RFC 3533) that finds
    the largest granule position, resynchronizing byte by byte where no page starts. */
module OggScanner {
  import opened Wrappers

  const HEADER_SIZE: nat := 27
  const CAPTURE: seq<byte> := [0x4F, 0x67, 0x67, 0x53] // "OggS"
  const TWO_63: int := 0x8000_0000_0000_0000
  const TWO_64: int := 0x1_0000_0000_0000_0000

  // ----- Fields -----

  function FromLittleEndian(bytes: seq<byte>): nat {
    if bytes == [] then 0 else bytes[0] + 256 * FromLittleEndian(bytes[1..])
  }

  /** The conversion int64(uint64). */
  function ToSigned(u: int): int {
    if u >= TWO_63 then u - TWO_64 else u
  }

  function Sum(bytes: seq<byte>): nat {
    if bytes == [] then 0 else Sum(bytes[..|bytes| - 1]) + bytes[|bytes| - 1]
  }

  predicate SyncAt(data: seq<byte>, p: nat) {
    p + 4 <= |data| && data[p..p + 4] == CAPTURE
  }

  function GranuleAt(data: seq<byte>, p: nat): int
    requires p + HEADER_SIZE <= |data|
  {
    ToSigned(FromLittleEndian(data[p + 6..p + 14]))
  }

  function Max(a: int, b: int): int {
    if b > a then b else a
  }

  /** What the loop adds to a total from a read position, which a page's size may have moved
      beyond the end. */
  function Scan(data: seq<byte>, pos: nat, total: int): int
    decreases if pos <= |data| then |data| - pos else 0
  {
    if pos + HEADER_SIZE > |data| then total
    else if !SyncAt(data, pos) then Scan(data, pos + 1, total)
    else
      var total' := Max(total, GranuleAt(data, pos));
      var table := pos + HEADER_SIZE;
      var n := data[pos + 26];
      if table + n > |data| then total'
      else Scan(data, table + n + Sum(data[table..table + n]), total')
  }

  // ----- The loop -----

  /** A file or an in-memory reader: reads give what is left, seeks may pass the end. */
  class SeekReader {
    const data: seq<byte>
    var pos: nat

    constructor (data: seq<byte>)
      ensures this.data == data && pos == 0
    {
      this.data, pos := data, 0;
    }

    method Rewind()
      modifies this
      ensures pos == 0
    {
      pos := 0;
    }

    method Read(n: nat) returns (bytes: seq<byte>, eof: bool)
      modifies this
      ensures eof <==> old(pos) >= |data|
      ensures eof ==> bytes == [] && pos == old(pos)
      ensures !eof ==> pos == old(pos) + |bytes| <= |data| && bytes == data[old(pos)..pos]
      ensures !eof ==> |bytes| == n || (|bytes| < n && pos == |data|)
    {
      if pos >= |data| {
        return [], true;
      }
      eof := false;
      var end := if pos + n <= |data| then pos + n else |data|;
      bytes := data[pos..end];
      pos := end;
    }

    /** io.ReadFull: n bytes or an error. */
    method ReadFull(n: nat) returns (bytes: seq<byte>, ok: bool)
      modifies this
      ensures ok <==> n == 0 || old(pos) + n <= |data|
      ensures ok ==> pos == old(pos) + n && |bytes| == n && (n > 0 ==> bytes == data[old(pos)..pos])
    {
      if n == 0 {
        return [], true;
      }
      var eof;
      bytes, eof := Read(n);
      ok := |bytes| == n;
    }

    method SeekCurrent(offset: int) returns (ok: bool)
      modifies this
      ensures ok <==> old(pos) + offset >= 0
      ensures pos == if ok then old(pos) + offset else old(pos)
    {
      ok := pos + offset >= 0;
      if ok {
        pos := pos + offset;
      }
    }
  }

  lemma HeaderSlices(data: seq<byte>, start: nat)
    requires start + HEADER_SIZE <= |data|
    ensures var buf := data[start..start + HEADER_SIZE];
            buf[0..4] == data[start..start + 4] && buf[6..14] == data[start + 6..start + 14] && buf[26] == data[start + 26]
  {
    SliceOfSlice(data, start, start + HEADER_SIZE, 0, 4);
    SliceOfSlice(data, start, start + HEADER_SIZE, 6, 14);
  }

  lemma SliceOfSlice<T>(s: seq<T>, a: nat, b: nat, c: nat, d: nat)
    requires a <= b <= |s| && c <= d <= b - a
    ensures s[a..b][c..d] == s[a + c..a + d]
  {
    assert forall i :: 0 <= i < d - c ==> s[a..b][c..d][i] == s[a..b][c + i];
  }

  lemma SliceOfTail<T>(s: seq<T>, a: nat, c: nat, d: nat)
    requires a <= |s| && c <= d <= |s| - a
    ensures s[a..][c..d] == s[a + c..a + d]
  {
    assert forall i :: 0 <= i < d - c ==> s[a..][c..d][i] == s[a..][c + i];
  }

  method PageSize(segmentTable: seq<byte>) returns (pageSize: nat)
    ensures pageSize == Sum(segmentTable)
  {
    pageSize := 0;
    for i := 0 to |segmentTable|
      invariant pageSize == Sum(segmentTable[..i])
    {
      assert segmentTable[..i + 1][..i] == segmentTable[..i];
      pageSize := pageSize + segmentTable[i];
    }
    assert segmentTable[..|segmentTable|] == segmentTable;
  }

  /** The end of the loop body: read the segment table, then seek past the page's data. */
  method SkipPage(r: SeekReader, numSegments: byte) returns (ok: bool)
    requires r.pos <= |r.data|
    modifies r
    ensures ok <==> old(r.pos) + numSegments <= |r.data|
    ensures ok ==> r.pos == old(r.pos) + numSegments + Sum(r.data[old(r.pos)..old(r.pos) + numSegments])
  {
    var segmentTable;
    segmentTable, ok := r.ReadFull(numSegments);
    if !ok {
      return;
    }
    assert segmentTable == r.data[old(r.pos)..old(r.pos) + numSegments];
    var pageSize := PageSize(segmentTable);
    ok := r.SeekCurrent(pageSize);
  }

  method GetOpusDuration(r: SeekReader) returns (totalGranulePos: int, duration: real)
    modifies r
    ensures totalGranulePos == Scan(r.data, 0, 0)
    ensures duration == totalGranulePos as real / 48000.0
  {
    r.Rewind();
    totalGranulePos := 0;
    while true
      invariant Scan(r.data, r.pos, totalGranulePos) == Scan(r.data, 0, 0)
      decreases |r.data| - r.pos
    {
      ghost var start := r.pos;
      var buf, eof := r.Read(HEADER_SIZE);
      if eof {
        break;
      }
      if |buf| < HEADER_SIZE {
        break;
      }
      HeaderSlices(r.data, start);
      if buf[0..4] != CAPTURE {
        var sought := r.SeekCurrent(-26);
        if !sought {
          break;
        }
        continue;
      }
      var granulePos := ToSigned(FromLittleEndian(buf[6..14]));
      if granulePos > totalGranulePos {
        totalGranulePos := granulePos;
      }
      var numSegments := buf[26];
      var skipped := SkipPage(r, numSegments);
      if !skipped {
        break;
      }
    }
    duration := totalGranulePos as real / 48000.0;
  }

  // ----- Every input: the result comes from a page header -----

  /** On any bytes the result is 0 or the granule position at some capture pattern. */
  lemma {:induction false} ScanIsSound(data: seq<byte>, pos: nat, total: int)
    ensures var r := Scan(data, pos, total);
            && r >= total
            && (r == total || exists p :: pos <= p && p + HEADER_SIZE <= |data| && SyncAt(data, p) && GranuleAt(data, p) == r)
    decreases if pos <= |data| then |data| - pos else 0
  {
    if pos + HEADER_SIZE <= |data| {
      if !SyncAt(data, pos) {
        ScanIsSound(data, pos + 1, total);
      } else {
        var table, n := pos + HEADER_SIZE, data[pos + 26];
        if table + n <= |data| {
          ScanIsSound(data, table + n + Sum(data[table..table + n]), Max(total, GranuleAt(data, pos)));
        }
      }
    }
  }

  // ----- Pages -----

  datatype Page = Page(
    headerType: byte,
    granule: int,
    serial: seq<byte>,
    sequence: seq<byte>,
    checksum: seq<byte>,
    segments: seq<byte>,
    body: seq<byte>)

  predicate WellFormed(p: Page) {
    && -TWO_63 <= p.granule < TWO_63
    && |p.serial| == 4 && |p.sequence| == 4 && |p.checksum| == 4
    && |p.segments| < 256 && |p.body| == Sum(p.segments)
  }

  function ToLittleEndian(u: nat, size: nat): seq<byte> {
    if size == 0 then [] else [u % 256] + ToLittleEndian(u / 256, size - 1)
  }

  function ToUnsigned(g: int): nat
    requires -TWO_63 <= g
  {
    if g < 0 then g + TWO_64 else g
  }

  function Encode(p: Page): seq<byte>
    requires WellFormed(p)
  {
    CAPTURE + [0, p.headerType] + ToLittleEndian(ToUnsigned(p.granule), 8) + p.serial + p.sequence + p.checksum
    + [|p.segments|] + p.segments + p.body
  }

  function Power256(n: nat): nat {
    if n == 0 then 1 else 256 * Power256(n - 1)
  }

  lemma {:induction false} LittleEndianRoundTrip(u: nat, size: nat)
    requires u < Power256(size)
    ensures |ToLittleEndian(u, size)| == size && FromLittleEndian(ToLittleEndian(u, size)) == u
  {
    if size > 0 {
      LittleEndianRoundTrip(u / 256, size - 1);
    }
  }

  /** An encoded page carries its own fields. */
  lemma EncodedFields(p: Page, rest: seq<byte>)
    requires WellFormed(p)
    ensures var data, n := Encode(p) + rest, |p.segments|;
            && |Encode(p)| == HEADER_SIZE + n + Sum(p.segments)
            && SyncAt(data, 0) && GranuleAt(data, 0) == p.granule
            && data[26] == n && data[HEADER_SIZE..HEADER_SIZE + n] == p.segments
            && data[|Encode(p)|..] == rest
  {
    assert Power256(8) == TWO_64 by {
      assert Power256(4) == 0x1_0000_0000;
    }
    var g := ToLittleEndian(ToUnsigned(p.granule), 8);
    LittleEndianRoundTrip(ToUnsigned(p.granule), 8);
    var data := Encode(p) + rest;
    assert data[0..4] == CAPTURE;
    assert data[6..14] == g;
    assert data[HEADER_SIZE..HEADER_SIZE + |p.segments|] == p.segments;
  }

  // ----- A file of pages with gaps -----

  /** A page and the bytes before it that belong to no page. */
  datatype Part = Part(gap: seq<byte>, page: Page)

  function File(parts: seq<Part>, tail: seq<byte>): seq<byte>
    requires forall i :: 0 <= i < |parts| ==> WellFormed(parts[i].page)
  {
    if parts == [] then tail else parts[0].gap + (Encode(parts[0].page) + File(parts[1..], tail))
  }

  /** No capture pattern starts inside a gap or the tail, whatever follows. */
  predicate Quiet(parts: seq<Part>, tail: seq<byte>)
    requires forall i :: 0 <= i < |parts| ==> WellFormed(parts[i].page)
  {
    if parts == [] then forall k: nat :: k < |tail| ==> !SyncAt(tail, k)
    else
      && (forall k: nat :: k < |parts[0].gap| ==> !SyncAt(File(parts, tail), k))
      && Quiet(parts[1..], tail)
  }

  function Largest(parts: seq<Part>, total: int): int {
    if parts == [] then total else Largest(parts[1..], Max(total, parts[0].page.granule))
  }

  lemma {:induction false} LargestIsMaximum(parts: seq<Part>, total: int)
    ensures Largest(parts, total) >= total
    ensures forall i :: 0 <= i < |parts| ==> Largest(parts, total) >= parts[i].page.granule
    ensures Largest(parts, total) == total || exists i :: 0 <= i < |parts| && Largest(parts, total) == parts[i].page.granule
  {
    if parts != [] {
      LargestIsMaximum(parts[1..], Max(total, parts[0].page.granule));
    }
  }

  lemma SyncShift(data: seq<byte>, pos: nat, k: nat)
    requires pos <= |data|
    ensures SyncAt(data, pos + k) <==> SyncAt(data[pos..], k)
  {
    if pos + k + 4 <= |data| {
      assert data[pos..][k..k + 4] == data[pos + k..pos + k + 4];
    }
  }

  /** The scan passes over bytes where no page starts. */
  lemma {:induction false} SkipGap(data: seq<byte>, pos: nat, gap: nat, total: int)
    requires pos + gap <= |data|
    requires forall p: nat :: pos <= p < pos + gap ==> !SyncAt(data, p)
    ensures Scan(data, pos, total) == Scan(data, pos + gap, total)
    decreases gap
  {
    if gap > 0 {
      SkipGap(data, pos + 1, gap - 1, total);
    }
  }

  lemma AfterGap<T>(data: seq<T>, pos: nat, gap: seq<T>, rest: seq<T>)
    requires pos <= |data| && data[pos..] == gap + rest
    ensures pos + |gap| <= |data| && data[pos + |gap|..] == rest
  {
    assert data[pos + |gap|..] == data[pos..][|gap|..];
  }

  /** The fields of a page are at an offset of the data. */
  predicate PageAt(data: seq<byte>, pos: nat, granule: int, segments: seq<byte>) {
    var n := |segments|;
    && pos + HEADER_SIZE + n <= |data|
    && SyncAt(data, pos) && GranuleAt(data, pos) == granule
    && data[pos + 26] == n && data[pos + HEADER_SIZE..pos + HEADER_SIZE + n] == segments
  }

  lemma EncodingIsPageAt(data: seq<byte>, pos: nat, p: Page, rest: seq<byte>)
    requires pos <= |data| && WellFormed(p) && data[pos..] == Encode(p) + rest
    ensures PageAt(data, pos, p.granule, p.segments)
    ensures |Encode(p)| == HEADER_SIZE + |p.segments| + Sum(p.segments)
  {
    EncodedFields(p, rest);
    SyncShift(data, pos, 0);
    SliceOfTail(data, pos, 6, 14);
    SliceOfTail(data, pos, HEADER_SIZE, HEADER_SIZE + |p.segments|);
    assert data[pos..][26] == data[pos + 26];
  }

  lemma ScanPageAt(data: seq<byte>, pos: nat, granule: int, segments: seq<byte>, total: int)
    requires PageAt(data, pos, granule, segments)
    ensures Scan(data, pos, total) == Scan(data, pos + HEADER_SIZE + |segments| + Sum(segments), Max(total, granule))
  {
  }

  /** A stretch in which the suffix holds no capture pattern is skipped. */
  lemma SkipQuiet(data: seq<byte>, pos: nat, gap: nat, suffix: seq<byte>, total: int)
    requires pos <= |data| && data[pos..] == suffix && gap <= |suffix|
    requires forall k: nat :: k < gap ==> !SyncAt(suffix, k)
    ensures Scan(data, pos, total) == Scan(data, pos + gap, total)
  {
    forall p: nat | pos <= p < pos + gap
      ensures !SyncAt(data, p)
    {
      SyncShift(data, pos, p - pos);
    }
    SkipGap(data, pos, gap, total);
  }

  /** A gap and the page after it. */
  lemma ScanPart(data: seq<byte>, pos: nat, gap: nat, granule: int, segments: seq<byte>, total: int)
    requires pos + gap <= |data| && PageAt(data, pos + gap, granule, segments)
    requires forall k: nat :: k < gap ==> !SyncAt(data[pos..], k)
    ensures Scan(data, pos, total) ==
            Scan(data, pos + gap + HEADER_SIZE + |segments| + Sum(segments), Max(total, granule))
  {
    SkipQuiet(data, pos, gap, data[pos..], total);
    ScanPageAt(data, pos + gap, granule, segments, total);
  }

  lemma PartLayout(data: seq<byte>, pos: nat, part: Part, rest: seq<byte>)
    requires pos <= |data| && WellFormed(part.page)
    requires data[pos..] == part.gap + (Encode(part.page) + rest)
    ensures var next := pos + |part.gap| + HEADER_SIZE + |part.page.segments| + Sum(part.page.segments);
            && PageAt(data, pos + |part.gap|, part.page.granule, part.page.segments)
            && next <= |data| && data[next..] == rest
  {
    AfterGap(data, pos, part.gap, Encode(part.page) + rest);
    AfterGap(data, pos + |part.gap|, Encode(part.page), rest);
    EncodingIsPageAt(data, pos + |part.gap|, part.page, rest);
  }

  lemma FirstPart(parts: seq<Part>, tail: seq<byte>)
    requires parts != [] && forall i :: 0 <= i < |parts| ==> WellFormed(parts[i].page)
    requires Quiet(parts, tail)
    ensures File(parts, tail) == parts[0].gap + (Encode(parts[0].page) + File(parts[1..], tail))
    ensures Quiet(parts[1..], tail)
    ensures forall k: nat :: k < |parts[0].gap| ==> !SyncAt(File(parts, tail), k)
  {
  }

  lemma ScanGapAndPage(data: seq<byte>, pos: nat, part: Part, rest: seq<byte>, total: int) returns (next: nat)
    requires pos <= |data| && WellFormed(part.page)
    requires data[pos..] == part.gap + (Encode(part.page) + rest)
    requires forall k: nat :: k < |part.gap| ==> !SyncAt(data[pos..], k)
    ensures next <= |data| && data[next..] == rest
    ensures Scan(data, pos, total) == Scan(data, next, Max(total, part.page.granule))
  {
    var gap, page := |part.gap|, part.page;
    PartLayout(data, pos, part, rest);
    ScanPart(data, pos, gap, page.granule, page.segments, total);
    next := pos + gap + HEADER_SIZE + |page.segments| + Sum(page.segments);
  }

  lemma ScanFirst(data: seq<byte>, pos: nat, parts: seq<Part>, tail: seq<byte>, total: int) returns (next: nat)
    requires pos <= |data| && parts != [] && forall i :: 0 <= i < |parts| ==> WellFormed(parts[i].page)
    requires data[pos..] == File(parts, tail) && Quiet(parts, tail)
    ensures next <= |data| && data[next..] == File(parts[1..], tail) && Quiet(parts[1..], tail)
    ensures Scan(data, pos, total) == Scan(data, next, Max(total, parts[0].page.granule))
  {
    FirstPart(parts, tail);
    next := ScanGapAndPage(data, pos, parts[0], File(parts[1..], tail), total);
  }

  lemma {:induction false} ScanFrom(data: seq<byte>, pos: nat, parts: seq<Part>, tail: seq<byte>, total: int)
    requires pos <= |data| && forall i :: 0 <= i < |parts| ==> WellFormed(parts[i].page)
    requires data[pos..] == File(parts, tail) && Quiet(parts, tail)
    ensures Scan(data, pos, total) == Largest(parts, total)
    decreases |parts|
  {
    if parts == [] {
      SkipQuiet(data, pos, |tail|, tail, total);
    } else {
      var next := ScanFirst(data, pos, parts, tail, total);
      ScanFrom(data, next, parts[1..], tail, Max(total, parts[0].page.granule));
    }
  }

  /** Scanning a file of well-formed pages, with any bytes before, between and after them in
      which no capture pattern starts, gives the largest of 0 and all granule positions; a page
      with granule -1 does not count. */
  lemma ScanOfPages(parts: seq<Part>, tail: seq<byte>)
    requires forall i :: 0 <= i < |parts| ==> WellFormed(parts[i].page)
    requires Quiet(parts, tail)
    ensures Scan(File(parts, tail), 0, 0) == Largest(parts, 0)
  {
    var data := File(parts, tail);
    assert data[0..] == data;
    ScanFrom(data, 0, parts, tail, 0);
  }
}
