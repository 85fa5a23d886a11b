/** The Ogg page scan that measures an Opus file (common/audio.go:196-254). A page header is laid out
    as in section 6 of RFC 3533; granule positions count 48 kHz samples, section 4 of RFC 7845. */
module OggScan {
  import opened Basics

  /** The capture pattern "OggS". */
  const CAPTURE: seq<Byte> := [0x4F, 0x67, 0x67, 0x53]
  const HEADER := 27
  const SAMPLE_RATE := 48000.0

  function LittleEndian(bytes: seq<Byte>): nat {
    if bytes == [] then 0 else bytes[0] + 256 * LittleEndian(bytes[1..])
  }

  /** The conversion of an unsigned 64-bit value to a signed one. */
  function Signed(u: nat): int {
    if u < 0x8000_0000_0000_0000 then u else u - 0x1_0000_0000_0000_0000
  }

  function Sum(bytes: seq<Byte>): nat {
    if bytes == [] then 0 else Sum(bytes[..|bytes| - 1]) + bytes[|bytes| - 1]
  }

  function Max(a: int, b: int): int {
    if b > a then b else a
  }

  function Drop(s: seq<Byte>, n: nat): seq<Byte> {
    if n >= |s| then [] else s[n..]
  }

  function Granule(s: seq<Byte>): int
    requires |s| >= HEADER
  {
    Signed(LittleEndian(s[6..14]))
  }

  predicate CaptureAt(s: seq<Byte>, i: int) {
    && 0 <= i && i + 4 <= |s|
    && s[i] == CAPTURE[0] && s[i + 1] == CAPTURE[1] && s[i + 2] == CAPTURE[2] && s[i + 3] == CAPTURE[3]
  }

  predicate StartsPage(s: seq<Byte>) {
    |s| >= HEADER && CaptureAt(s, 0)
  }

  /** How far one round of the loop moves; a page whose lacing table is cut off ends the scan. */
  function Stride(ahead: seq<Byte>): (n: nat)
    requires |ahead| >= HEADER
    ensures n >= 1
  {
    if !CaptureAt(ahead, 0) then 1
    else if HEADER + ahead[26] > |ahead| then |ahead|
    else HEADER + ahead[26] + Sum(ahead[HEADER..HEADER + ahead[26]])
  }

  function Better(ahead: seq<Byte>, best: int): int
    requires |ahead| >= HEADER
  {
    if CaptureAt(ahead, 0) then Max(best, Granule(ahead)) else best
  }

  /** What the loop makes of the bytes still ahead of it, given the largest position so far. */
  function Scan(ahead: seq<Byte>, best: int): int
    decreases |ahead|
  {
    if |ahead| < HEADER then best else Scan(Drop(ahead, Stride(ahead)), Better(ahead, best))
  }

  /** A seekable byte source whose reads are full and whose seeks past the end succeed. */
  class ByteReader {
    const data: seq<Byte>
    var pos: nat

    constructor (data: seq<Byte>)
      ensures this.data == data && pos == 0
    {
      this.data := data;
      pos := 0;
    }

    function Ahead(): seq<Byte>
      reads this
    {
      Drop(data, pos)
    }

    method Read(n: nat) returns (buf: seq<Byte>, eof: bool)
      modifies this
      ensures eof <==> old(pos) >= |data|
      ensures buf == if |old(Ahead())| < n then old(Ahead()) else old(Ahead())[..n]
      ensures pos == old(pos) + |buf|
      ensures Ahead() == Drop(old(Ahead()), n)
    {
      eof := pos >= |data|;
      if eof {
        buf := [];
      } else {
        buf := data[pos..if pos + n <= |data| then pos + n else |data|];
        pos := pos + |buf|;
      }
    }

    method SeekCurrent(delta: int) returns (ok: bool)
      modifies this
      ensures ok <==> old(pos) + delta >= 0
      ensures pos == if ok then old(pos) + delta else old(pos)
      ensures delta >= 0 ==> Ahead() == Drop(old(Ahead()), delta)
    {
      ok := pos + delta >= 0;
      if ok { pos := pos + delta; }
    }
  }

  /** `getOpusDuration`: the loop terminates on every input because the read position always
      advances, and computes the scan above. */
  method GetOpusDuration(r: ByteReader) returns (totalGranulePos: int, duration: real, ghost path: seq<int>)
    modifies r
    ensures totalGranulePos == Scan(r.data, 0)
    ensures Visits(r.data, path) && path[0] == 0 && LargestOn(r.data, path, 0, totalGranulePos)
    ensures duration == totalGranulePos as real / 48000.0
  {
    r.pos := 0;
    totalGranulePos := 0;
    assert r.Ahead() == r.data;
    var more := true;
    while more
      invariant !more ==> totalGranulePos == Scan(r.data, 0)
      invariant more ==> Scan(r.Ahead(), totalGranulePos) == Scan(r.data, 0)
      decreases more, |r.Ahead()|
    {
      totalGranulePos, more := ReadPage(r, totalGranulePos);
    }
    duration := totalGranulePos as real / SAMPLE_RATE;
    path := ScanVisits(r.data, 0, 0);
    assert r.data[0..] == r.data;
  }

  /** One round of the loop: advance to the next candidate, or stop. */
  method ReadPage(r: ByteReader, best: int) returns (next: int, more: bool)
    modifies r
    ensures var ahead := old(r.Ahead());
            if |ahead| < HEADER then !more && next == best
            else next == Better(ahead, best)
                 && if more then r.Ahead() == Drop(ahead, Stride(ahead)) && r.pos > old(r.pos)
                    else Drop(ahead, Stride(ahead)) == []
  {
    ghost var ahead := r.Ahead();
    next, more := best, false;
    var buf, eof := r.Read(HEADER);
    if eof || |buf| < HEADER {
      return;
    }
    if !CaptureAt(buf, 0) {
      more := r.SeekCurrent(-26);
      return;
    }
    assert buf[6..14] == ahead[6..14];
    var granulePos := Signed(LittleEndian(buf[6..14]));
    if granulePos > next {
      next := granulePos;
    }
    more := SkipPage(r, buf[26]);
    PageStride(ahead);
  }

  /** Past the lacing table and the payload it announces. */
  method SkipPage(r: ByteReader, numSegments: nat) returns (more: bool)
    modifies r
    ensures r.pos >= old(r.pos)
    ensures var ahead := old(r.Ahead());
            if |ahead| < numSegments then !more
            else more && r.Ahead() == Drop(ahead, numSegments + Sum(ahead[..numSegments]))
  {
    ghost var ahead := r.Ahead();
    var segmentTable, _ := r.Read(numSegments);
    if |segmentTable| < numSegments {
      return false;
    }
    var pageSize := SumTable(segmentTable);
    DropDrop(ahead, numSegments, pageSize);
    more := r.SeekCurrent(pageSize);
  }

  lemma DropDrop(s: seq<Byte>, m: nat, n: nat)
    ensures Drop(Drop(s, m), n) == Drop(s, m + n)
  {
  }

  lemma PageStride(ahead: seq<Byte>)
    requires StartsPage(ahead)
    ensures var rest := Drop(ahead, HEADER);
            if |rest| < ahead[26] then Drop(ahead, Stride(ahead)) == []
            else Drop(ahead, Stride(ahead)) == Drop(rest, ahead[26] + Sum(rest[..ahead[26]]))
  {
    var rest := Drop(ahead, HEADER);
    if |rest| >= ahead[26] {
      assert rest[..ahead[26]] == ahead[HEADER..HEADER + ahead[26]];
      DropDrop(ahead, HEADER, ahead[26] + Sum(rest[..ahead[26]]));
    }
  }

  method SumTable(table: seq<Byte>) returns (total: nat)
    ensures total == Sum(table)
  {
    total := 0;
    for i := 0 to |table|
      invariant total == Sum(table[..i])
    {
      assert table[..i + 1][..i] == table[..i];
      total := total + table[i];
    }
    assert table[..|table|] == table;
  }

  // ------------------------------------------------------------------------ pages

  datatype Page = Page(flags: seq<Byte>, granule: int, ids: seq<Byte>, table: seq<Byte>, body: seq<Byte>)

  /** Version and type, a 64-bit position, serial number, sequence number and checksum, up to 255
      lacing values and as many payload bytes as they announce. */
  ghost predicate WellFormed(p: Page) {
    && |p.flags| == 2 && |p.ids| == 12 && |p.table| <= 255 && Announces(p.table, |p.body|)
    && -0x8000_0000_0000_0000 <= p.granule < 0x8000_0000_0000_0000
  }

  /** The lacing values add up to the number of payload bytes. */
  ghost predicate Announces(table: seq<Byte>, payload: int)
    decreases |table|
  {
    if table == [] then payload == 0 else Announces(table[1..], payload - table[0])
  }

  lemma {:induction false} AnnouncesSum(table: seq<Byte>, payload: int)
    ensures Announces(table, payload) <==> payload == Sum(table)
    decreases |table|
  {
    if table == [] {
    } else {
      AnnouncesSum(table[1..], payload - table[0]);
      SumFirst(table);
    }
  }

  lemma {:induction false} SumFirst(table: seq<Byte>)
    requires table != []
    ensures Sum(table) == table[0] + Sum(table[1..])
    decreases |table|
  {
    var init := table[..|table| - 1];
    if init == [] {
      assert Sum(table[1..]) == 0;
    } else {
      SumFirst(init);
      assert init[1..] == table[1..][..|table| - 2];
    }
  }

  function ToLittleEndian(v: nat, n: nat): seq<Byte> {
    if n == 0 then [] else [v % 256] + ToLittleEndian(v / 256, n - 1)
  }

  function Unsigned(g: int): int {
    if g < 0 then g + 0x1_0000_0000_0000_0000 else g
  }

  function Header(p: Page): seq<Byte>
    requires -0x8000_0000_0000_0000 <= p.granule && |p.table| <= 255
  {
    [0x4F, 0x67, 0x67, 0x53] + p.flags + ToLittleEndian(Unsigned(p.granule), 8) + p.ids + [|p.table|]
  }

  function Encode(p: Page): seq<Byte>
    requires -0x8000_0000_0000_0000 <= p.granule && |p.table| <= 255
  {
    Header(p) + p.table + p.body
  }

  /** Bytes in which no capture pattern begins. */
  ghost predicate Junk(bytes: seq<Byte>) {
    forall i :: !CaptureAt(bytes, i)
  }

  datatype Segment = Segment(junk: seq<Byte>, page: Page)

  ghost predicate WellFormedStream(segments: seq<Segment>, tail: seq<Byte>) {
    Junk(tail) && forall i :: 0 <= i < |segments| ==> Junk(segments[i].junk) && WellFormed(segments[i].page)
  }

  /** Pages, each after some junk, and junk at the end. */
  function Render(segments: seq<Segment>, tail: seq<Byte>): seq<Byte>
    requires WellFormedStream(segments, tail)
  {
    if segments == [] then tail
    else segments[0].junk + (Encode(segments[0].page) + Render(segments[1..], tail))
  }

  /** The larger of the start value and the largest granule position. */
  function Largest(segments: seq<Segment>, best: int): int {
    if segments == [] then best else Largest(segments[1..], Max(best, segments[0].page.granule))
  }

  // ----------------------------------------------------------------------- proofs

  function Pow256(n: nat): nat {
    if n == 0 then 1 else 256 * Pow256(n - 1)
  }

  lemma {:induction false} LittleEndianRoundTrip(v: nat, n: nat)
    requires v < Pow256(n)
    ensures |ToLittleEndian(v, n)| == n && LittleEndian(ToLittleEndian(v, n)) == v
  {
    if n == 0 {
    } else {
      LittleEndianRoundTrip(v / 256, n - 1);
      assert ToLittleEndian(v, n)[1..] == ToLittleEndian(v / 256, n - 1);
    }
  }

  lemma Pow256Of8()
    ensures Pow256(8) == 0x1_0000_0000_0000_0000
  {
    assert Pow256(4) == 0x1_0000_0000;
    assert Pow256(6) == 0x1_0000_0000_0000;
  }

  /** Reading the header of an encoded page returns what was encoded. */
  lemma HeaderRoundTrip(p: Page, rest: seq<Byte>)
    requires WellFormed(p)
    ensures var s := Encode(p) + rest;
            && StartsPage(s) && Granule(s) == p.granule && s[26] == |p.table|
            && |s| >= HEADER + |p.table| && s[HEADER..HEADER + |p.table|] == p.table
            && Drop(s, HEADER + |p.table| + Sum(p.table)) == rest
  {
    Pow256Of8();
    AnnouncesSum(p.table, |p.body|);
    var g := ToLittleEndian(Unsigned(p.granule), 8);
    LittleEndianRoundTrip(Unsigned(p.granule), 8);
    var h := Header(p);
    assert |h| == HEADER && CaptureAt(h, 0) && h[6..14] == g && h[26] == |p.table|;
    BehindHeader(h, p.table, p.body, rest);
  }

  /** What follows a header does not change what it holds. */
  lemma BehindHeader(h: seq<Byte>, table: seq<Byte>, body: seq<Byte>, rest: seq<Byte>)
    requires |h| == HEADER && CaptureAt(h, 0)
    ensures var s := h + table + body + rest;
            && |s| == HEADER + |table| + |body| + |rest| && StartsPage(s)
            && s[6..14] == h[6..14] && s[26] == h[26] && s[HEADER..HEADER + |table|] == table
            && Drop(s, HEADER + |table| + |body|) == rest
  {
    var s := h + table + body + rest;
    assert s[..HEADER] == h;
    assert s[6..14] == s[..HEADER][6..14] && s[26] == s[..HEADER][26];
    assert forall i :: 0 <= i < 4 ==> s[i] == h[i];
    assert s[HEADER..] == table + (body + rest);
    assert s[HEADER + |table| + |body|..] == rest;
  }

  /** Junk before a page is skipped: no capture pattern straddles the border. */
  lemma {:induction false} SkipJunk(junk: seq<Byte>, s: seq<Byte>, best: int)
    requires Junk(junk) && StartsPage(s)
    ensures Scan(junk + s, best) == Scan(s, best)
  {
    if junk == [] {
      assert junk + s == s;
    } else {
      var all := junk + s;
      assert all[1..] == junk[1..] + s;
      assert forall i :: CaptureAt(junk[1..], i) ==> CaptureAt(junk, i + 1);
      SkipJunk(junk[1..], s, best);
      if |junk| >= 4 {
        assert !CaptureAt(junk, 0);
      } else {
        assert all[|junk|] == CAPTURE[0];
      }
    }
  }

  lemma {:induction false} ScanTail(tail: seq<Byte>, best: int)
    requires Junk(tail)
    ensures Scan(tail, best) == best
    decreases |tail|
  {
    if |tail| >= HEADER {
      assert !CaptureAt(tail, 0);
      assert forall i :: CaptureAt(tail[1..], i) ==> CaptureAt(tail, i + 1);
      ScanTail(tail[1..], best);
    }
  }

  lemma ScanPage(s: seq<Byte>, p: Page, rest: seq<Byte>, best: int)
    requires StartsPage(s) && Granule(s) == p.granule && s[26] == |p.table| && |s| >= HEADER + |p.table|
    requires s[HEADER..HEADER + |p.table|] == p.table
    requires Drop(s, HEADER + |p.table| + Sum(p.table)) == rest
    ensures Scan(s, best) == Scan(rest, Max(best, p.granule))
  {
    StrideIs(s, p.table);
    ScanOnce(s, rest, p.granule, best);
  }

  lemma StrideIs(s: seq<Byte>, table: seq<Byte>)
    requires StartsPage(s) && s[26] == |table| && |s| >= HEADER + |table|
    requires s[HEADER..HEADER + |table|] == table
    ensures Stride(s) == HEADER + |table| + Sum(table)
  {
  }

  lemma ScanOnce(s: seq<Byte>, rest: seq<Byte>, granule: int, best: int)
    requires StartsPage(s) && granule == Granule(s) && rest == Drop(s, Stride(s))
    ensures Scan(s, best) == Scan(rest, Max(best, granule))
  {
  }

  lemma {:induction false} ScanFromBest(segments: seq<Segment>, tail: seq<Byte>, best: int)
    requires WellFormedStream(segments, tail)
    ensures Scan(Render(segments, tail), best) == Largest(segments, best)
    decreases |segments|
  {
    if segments == [] {
      ScanTail(tail, best);
    } else {
      var p, rest := segments[0].page, Render(segments[1..], tail);
      var s := Encode(p) + rest;
      HeaderRoundTrip(p, rest);
      SkipJunk(segments[0].junk, s, best);
      ScanPage(s, p, rest, best);
      ScanFromBest(segments[1..], tail, Max(best, p.granule));
    }
  }

  /** On pages with junk before, between and after them, the scan returns the larger of zero and the
      largest signed granule position. */
  lemma ScanFindsLargestGranule(segments: seq<Segment>, tail: seq<Byte>)
    requires WellFormedStream(segments, tail)
    ensures var r := Scan(Render(segments, tail), 0);
            && (forall i :: 0 <= i < |segments| ==> segments[i].page.granule <= r)
            && r >= 0
            && (r == 0 || exists i :: 0 <= i < |segments| && segments[i].page.granule == r)
  {
    ScanFromBest(segments, tail, 0);
    LargestSpec(segments, 0);
  }

  lemma {:induction false} LargestSpec(segments: seq<Segment>, best: int)
    ensures var r := Largest(segments, best);
            && r >= best
            && (forall i :: 0 <= i < |segments| ==> segments[i].page.granule <= r)
            && (r == best || exists i :: 0 <= i < |segments| && segments[i].page.granule == r)
  {
    if segments == [] {
    } else {
      var rest, next := segments[1..], Max(best, segments[0].page.granule);
      LargestSpec(rest, next);
      var r := Largest(segments, best);
      forall i | 0 <= i < |segments| ensures segments[i].page.granule <= r {
        if i > 0 { assert rest[i - 1] == segments[i]; }
      }
      if r != best && r != segments[0].page.granule {
        var i :| 0 <= i < |rest| && rest[i].page.granule == r;
        assert segments[i + 1].page.granule == r;
      }
    }
  }

  /** A page that announces more bytes than there are, or whose table is cut off, still counts and is the
      last thing that does. */
  lemma CutOffPageIsLast(s: seq<Byte>, best: int)
    requires StartsPage(s)
    requires 27 + s[26] <= |s| ==> 27 + s[26] + Sum(s[27..27 + s[26]]) >= |s|
    ensures Scan(s, best) == if Granule(s) > best then Granule(s) else best
  {
    assert Drop(s, Stride(s)) == [];
    assert Scan([], Better(s, best)) == Better(s, best);
  }

  /** What a place in the bytes holds: a page begins there if "OggS" and 23 more bytes follow. */
  ghost predicate PageAt(s: seq<Byte>, i: int) {
    0 <= i && i + 27 <= |s| && s[i..i + 4] == [79, 103, 103, 83]
  }

  /** Its position field, as a signed number of eight bytes, the lowest first. */
  ghost function PositionAt(s: seq<Byte>, i: int): int
    requires PageAt(s, i)
  {
    var low, high := Word(s[i + 6..i + 10]), Word(s[i + 10..i + 14]);
    low + 0x1_0000_0000 * (if high < 0x8000_0000 then high else high - 0x1_0000_0000)
  }

  ghost function Word(b: seq<Byte>): int
    requires |b| == 4
  {
    var b0: int, b1: int, b2: int, b3: int := b[0], b[1], b[2], b[3];
    b0 + 0x100 * b1 + 0x1_0000 * b2 + 0x100_0000 * b3
  }

  /** Where the scan looks next: one byte further, or behind the page, whose payload may be cut off; behind a
      cut-off lacing table it looks nowhere. */
  ghost predicate LooksNext(s: seq<Byte>, i: int, next: int) {
    && 0 <= i && i + 27 <= |s|
    && if !PageAt(s, i) then next == i + 1
       else i + 27 + s[i + 26] <= |s|
            && next > i && Announces(s[i + 27..i + 27 + s[i + 26]], next - (i + 27 + s[i + 26]))
  }

  /** The path leads from one place to the next until there is none. */
  ghost predicate Visits(s: seq<Byte>, path: seq<int>) {
    && path != [] && (forall k :: 0 <= k < |path| - 1 ==> LooksNext(s, path[k], path[k + 1]))
    && Stops(s, path[|path| - 1])
  }

  ghost predicate Stops(s: seq<Byte>, i: int) {
    forall next :: !LooksNext(s, i, next)
  }

  /** The number is the larger of the start value and the largest position field on the path. */
  ghost predicate LargestOn(s: seq<Byte>, path: seq<int>, best: int, r: int) {
    && r >= best && (forall k :: 0 <= k < |path| && PageAt(s, path[k]) ==> PositionAt(s, path[k]) <= r)
    && (r == best || exists k :: 0 <= k < |path| && PageAt(s, path[k]) && PositionAt(s, path[k]) == r)
  }

  lemma LittleEndianOf8(b: seq<Byte>)
    requires |b| == 8
    ensures LittleEndian(b) == Word(b[..4]) + 0x1_0000_0000 * Word(b[4..])
  {
    LittleEndianOf4(b);
    LittleEndianOf4(b[4..]);
    assert b[4..][..4] == b[4..] && LittleEndian(b[4..][4..]) == 0;
  }

  lemma LittleEndianOf4(b: seq<Byte>)
    requires |b| >= 4
    ensures LittleEndian(b) == Word(b[..4]) + 0x1_0000_0000 * LittleEndian(b[4..])
  {
    assert b[1..][1..] == b[2..] && b[2..][1..] == b[3..] && b[3..][1..] == b[4..];
    assert LittleEndian(b[3..]) == b[3] + 256 * LittleEndian(b[4..]);
    assert LittleEndian(b[2..]) == b[2] + 256 * LittleEndian(b[3..]);
    assert LittleEndian(b[1..]) == b[1] + 256 * LittleEndian(b[2..]);
  }

  lemma PagesAre(s: seq<Byte>, i: nat)
    requires i <= |s|
    ensures StartsPage(s[i..]) <==> PageAt(s, i)
    ensures PageAt(s, i) ==> Granule(s[i..]) == PositionAt(s, i)
  {
    if i + 27 <= |s| {
      assert s[i..i + 4] == [s[i], s[i + 1], s[i + 2], s[i + 3]];
      var field := s[i + 6..i + 14];
      assert s[i..][6..14] == field && field[..4] == s[i + 6..i + 10] && field[4..] == s[i + 10..i + 14];
      LittleEndianOf8(field);
    }
  }

  lemma StrideLooksNext(s: seq<Byte>, i: nat, next: int)
    requires i + 27 <= |s|
    ensures LooksNext(s, i, next) <==>
            next == i + Stride(s[i..]) && (PageAt(s, i) ==> i + 27 + s[i + 26] <= |s|)
  {
    PagesAre(s, i);
    if PageAt(s, i) && i + 27 + s[i + 26] <= |s| {
      var table := s[i + 27..i + 27 + s[i + 26]];
      assert s[i..][27..27 + s[i + 26]] == table;
      AnnouncesSum(table, next - (i + 27 + s[i + 26]));
    }
  }

  lemma LargestCons(s: seq<Byte>, i: int, rest: seq<int>, best: int, better: int, r: int)
    requires better == if PageAt(s, i) && PositionAt(s, i) > best then PositionAt(s, i) else best
    requires LargestOn(s, rest, better, r)
    ensures LargestOn(s, [i] + rest, best, r)
  {
    var path := [i] + rest;
    forall k | 0 <= k < |path| && PageAt(s, path[k]) ensures PositionAt(s, path[k]) <= r {
      if k > 0 { assert path[k] == rest[k - 1]; }
    }
    if r != best {
      if r == better {
        assert path[0] == i;
      } else {
        var k :| 0 <= k < |rest| && PageAt(s, rest[k]) && PositionAt(s, rest[k]) == r;
        assert path[k + 1] == rest[k];
      }
    }
  }

  lemma VisitsCons(s: seq<Byte>, i: int, rest: seq<int>)
    requires Visits(s, rest) && LooksNext(s, i, rest[0])
    ensures Visits(s, [i] + rest)
  {
    var path := [i] + rest;
    forall k | 0 <= k < |path| - 1 ensures LooksNext(s, path[k], path[k + 1]) {
      if k > 0 { assert path[k] == rest[k - 1] && path[k + 1] == rest[k]; }
    }
  }

  /** One round of the loop, said of the bytes. */
  lemma LookOnce(s: seq<Byte>, i: nat, best: int) returns (next: int, better: int)
    requires i + 27 <= |s|
    ensures better == if PageAt(s, i) && PositionAt(s, i) > best then PositionAt(s, i) else best
    ensures next > i && (Stops(s, i) || LooksNext(s, i, next))
    ensures Scan(s[i..], best) == if Stops(s, i) || next > |s| then better else Scan(s[next..], better)
  {
    PagesAre(s, i);
    var ahead := s[i..];
    next, better := i + Stride(ahead), Better(ahead, best);
    StrideLooksNext(s, i, next);
    if Stops(s, i) || next > |s| {
      assert Drop(ahead, Stride(ahead)) == [];
    } else {
      assert Drop(ahead, Stride(ahead)) == s[next..];
    }
    if !LooksNext(s, i, next) {
      forall n ensures !LooksNext(s, i, n) { StrideLooksNext(s, i, n); }
    }
  }

  /** On any bytes at all the result is the largest of the start value and the position fields of the pages that
      the scan looks at, and where it looks follows from the bytes. */
  lemma {:induction false} ScanVisits(s: seq<Byte>, i: nat, best: int) returns (path: seq<int>)
    requires i <= |s|
    ensures Visits(s, path) && path[0] == i && LargestOn(s, path, best, Scan(s[i..], best))
    decreases |s| - i
  {
    if i + 27 > |s| {
      path := [i];
    } else {
      var next, better := LookOnce(s, i, best);
      if Stops(s, i) {
        path := [i];
        assert path[0] == i;
      } else {
        var rest := [next];
        if next <= |s| {
          rest := ScanVisits(s, next, better);
        }
        path := [i] + rest;
        VisitsCons(s, i, rest);
        LargestCons(s, i, rest, best, better, Scan(s[i..], best));
      }
    }
  }

  /** On any bytes at all, a positive result is the granule field of some place that looks like a page. */
  lemma {:induction false} ScanIsSound(s: seq<Byte>, best: int)
    ensures Scan(s, best) >= best
    ensures Scan(s, best) == best || exists i :: 0 <= i <= |s| && StartsPage(s[i..]) && Granule(s[i..]) == Scan(s, best)
    decreases |s|
  {
    if |s| >= HEADER {
      assert s[0..] == s;
      var n := if Stride(s) <= |s| then Stride(s) else |s|;
      assert Drop(s, Stride(s)) == s[n..];
      ScanIsSound(s[n..], Better(s, best));
      ShiftWitness(s, n, Scan(s, best), Better(s, best));
    }
  }

  lemma ShiftWitness(s: seq<Byte>, n: nat, r: int, best: int)
    requires n <= |s|
    requires r == best || exists i :: 0 <= i <= |s[n..]| && StartsPage(s[n..][i..]) && Granule(s[n..][i..]) == r
    ensures r == best || exists i :: 0 <= i <= |s| && StartsPage(s[i..]) && Granule(s[i..]) == r
  {
    if r != best {
      var i :| 0 <= i <= |s[n..]| && StartsPage(s[n..][i..]) && Granule(s[n..][i..]) == r;
      assert s[n..][i..] == s[n + i..];
    }
  }
}
