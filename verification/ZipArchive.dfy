/** The zip writer (src/export/zip-builder.ts) and a reader that follows the archive's own
  * directory; the layout is that of the PKWARE APPNOTE, sections 4.3.7, 4.3.12 and 4.3.16. */
module ZipArchive {
  import opened Options
  import opened ByteBuffers

  const MAX16 := 0xFFFF
  const MAX32 := 0xFFFF_FFFF

  type Word32 = n: nat | n <= 0xFFFF_FFFF

  // ---------------------------------------------------------------------
  // MS-DOS dates
  // ---------------------------------------------------------------------

  datatype LocalTime = LocalTime(year: int, month: nat, day: nat, hours: nat, minutes: nat, seconds: nat) {
    ghost predicate Valid() {
      1 <= month <= 12 && 1 <= day <= 31 && hours < 24 && minutes < 60 && seconds < 60
    }
  }

  /** The fields do not overlap, so joining the shifted fields bit by bit adds them. */
  function DosTime(d: LocalTime): nat {
    d.hours * 2048 + d.minutes * 32 + d.seconds / 2
  }

  function DosDate(d: LocalTime): nat {
    (if d.year < 1980 then 0 else d.year - 1980) * 512 + d.month * 32 + d.day
  }

  function FromDos(time: nat, date: nat): LocalTime {
    LocalTime(1980 + date / 512, date / 32 % 16, date % 32, time / 2048, time / 32 % 64, time % 32 * 2)
  }

  /** A date comes back to the even second, and one before 1980 with that year; the date field takes 16 bits exactly up
    * to 2107. */
  lemma DosRoundTrip(d: LocalTime)
    requires d.Valid()
    ensures FromDos(DosTime(d), DosDate(d))
            == d.(year := if d.year < 1980 then 1980 else d.year, seconds := d.seconds / 2 * 2)
    ensures DosTime(d) <= MAX16
    ensures DosDate(d) <= MAX16 <==> d.year <= 2107
  {
    var y := if d.year < 1980 then 0 else d.year - 1980;
    var date := DosDate(d);
    assert date == y * 512 + (d.month * 32 + d.day);
    assert date / 512 == y;
    assert date / 32 == y * 16 + d.month;
    var time := DosTime(d);
    assert time / 2048 == d.hours;
    assert time / 32 == d.hours * 64 + d.minutes;
  }

  // ---------------------------------------------------------------------
  // Little-endian words
  // ---------------------------------------------------------------------

  /** The low sixteen bits of `v`, low byte first. */
  function Le16(v: nat): (r: Bytes)
    ensures |r| == 2
  {
    [v % 256, v / 256 % 256]
  }

  function Le32(v: nat): (r: Bytes)
    ensures |r| == 4
  {
    [v % 256, v / 256 % 256, v / 65536 % 256, v / 16777216 % 256]
  }

  function U16(b: Bytes, at: nat): nat
    requires at + 2 <= |b|
  {
    var low: int, high: int := b[at], b[at + 1];
    low + 256 * high
  }

  function U32(b: Bytes, at: nat): nat
    requires at + 4 <= |b|
  {
    U16(b, at) + 65536 * U16(b, at + 2)
  }

  lemma ReadLe16(b: Bytes, at: nat, v: nat)
    requires v <= MAX16 && at + 2 <= |b| && b[at..at + 2] == Le16(v)
    ensures U16(b, at) == v
  {
    var w := b[at..at + 2];
    assert b[at] == w[0] && b[at + 1] == w[1];
  }

  lemma HalvesOfLe32(v: nat)
    requires v <= MAX32
    ensures v / 65536 <= MAX16
    ensures Le32(v)[..2] == Le16(v % 65536) && Le32(v)[2..] == Le16(v / 65536)
  {
    assert v % 65536 == v - 65536 * (v / 65536);
    assert v % 65536 % 256 == v % 256;
    assert v % 65536 / 256 == v / 256 % 256;
    assert v / 65536 / 256 == v / 16777216;
  }

  lemma ReadLe32(b: Bytes, at: nat, v: nat)
    requires v <= MAX32 && at + 4 <= |b| && b[at..at + 4] == Le32(v)
    ensures U32(b, at) == v
  {
    hide Le16, Le32, U16;
    var w := b[at..at + 4];
    assert b[at..at + 2] == w[..2] && b[at + 2..at + 4] == w[2..];
    HalvesOfLe32(v);
    ReadLe16(b, at, v % 65536);
    ReadLe16(b, at + 2, v / 65536);
  }

  // ---------------------------------------------------------------------
  // Records
  // ---------------------------------------------------------------------

  /** What a directory says about one file, and the file's bytes. */
  datatype Member = Member(name: Bytes, time: nat, date: nat, crc: Word32, data: Bytes) {
    predicate Fits() {
      time <= MAX16 && date <= MAX16 && |data| <= MAX32 && |name| <= MAX16
    }
  }

  const LOCAL_SIGNATURE := 0x04034b50
  const CENTRAL_SIGNATURE := 0x02014b50
  const END_SIGNATURE := 0x06054b50
  const VERSION := 20
  const UTF8_FLAG := 0x0800
  const STORED := 0
  const FILE_ATTRIBUTES := 0x81A4_0000

  /** What both records of a file hold, from the flags to the length of the name. */
  function Stamp(m: Member): (r: Bytes)
    ensures |r| == 22
  {
    Le16(UTF8_FLAG) + Le16(STORED) + Le16(m.time) + Le16(m.date)
    + Le32(m.crc) + Le32(|m.data|) + Le32(|m.data|) + Le16(|m.name|)
  }

  function LocalHeader(m: Member): (r: Bytes)
    ensures |r| == 30 + |m.name|
  {
    Le32(LOCAL_SIGNATURE) + Le16(VERSION) + Stamp(m) + Le16(0) + m.name
  }

  /** The end of a central record's fixed part: no extra field, no comment, disk 0, and where the file is. */
  function Place(offset: nat): (r: Bytes)
    ensures |r| == 16
  {
    Le16(0) + Le16(0) + Le16(0) + Le16(0) + Le32(FILE_ATTRIBUTES) + Le32(offset)
  }

  function CentralHeader(m: Member, offset: nat): (r: Bytes)
    ensures |r| == 46 + |m.name|
  {
    Le32(CENTRAL_SIGNATURE) + Le16(VERSION) + Le16(VERSION) + Stamp(m) + Place(offset) + m.name
  }

  function EndRecord(count: nat, size: nat, offset: nat): (r: Bytes)
    ensures |r| == 22
  {
    Le32(END_SIGNATURE) + Le16(0) + Le16(0) + Le16(count) + Le16(count) + Le32(size) + Le32(offset) + Le16(0)
  }

  lemma FixedSignatures()
    ensures Le32(LOCAL_SIGNATURE) == [0x50, 0x4B, 3, 4]
    ensures Le32(CENTRAL_SIGNATURE) == [0x50, 0x4B, 1, 2]
    ensures Le32(END_SIGNATURE) == [0x50, 0x4B, 5, 6]
  {
  }

  /** The words that are the same in every archive. */
  lemma FixedWords()
    ensures Le32(LOCAL_SIGNATURE) == [0x50, 0x4B, 3, 4] && Le32(CENTRAL_SIGNATURE) == [0x50, 0x4B, 1, 2]
    ensures Le32(END_SIGNATURE) == [0x50, 0x4B, 5, 6] && Le32(FILE_ATTRIBUTES) == [0, 0, 0xA4, 0x81]
    ensures Le16(VERSION) == [20, 0] && Le16(UTF8_FLAG) == [0, 8] && Le16(STORED) == [0, 0] && Le16(0) == [0, 0]
  {
    FixedSignatures();
  }

  /** The fixed bytes of a local record: signature, version 2.0, UTF-8 name, stored, no extra field. */
  lemma LocalFixedBytes(m: Member)
    ensures LocalHeader(m)[..10] == [0x50, 0x4B, 3, 4, 20, 0, 0, 8, 0, 0] && LocalHeader(m)[28..30] == [0, 0]
  {
    FixedWords();
    hide Le16, Le32;
  }

  /** Those of a central record: the same, a regular file rw-r--r--, no extra field, no comment, disk 0. */
  lemma CentralFixedBytes(m: Member, offset: nat)
    ensures CentralHeader(m, offset)[..12] == [0x50, 0x4B, 1, 2, 20, 0, 20, 0, 0, 8, 0, 0]
    ensures CentralHeader(m, offset)[30..42] == [0, 0, 0, 0, 0, 0, 0, 0, 0, 0, 0xA4, 0x81]
  {
    FixedWords();
    hide Le16, Le32;
  }

  /** And the end record: one disk, both counts, size and place of the directory, no comment. */
  lemma EndBytes(count: nat, size: nat, offset: nat)
    ensures var end := EndRecord(count, size, offset);
      && end[..8] == [0x50, 0x4B, 5, 6, 0, 0, 0, 0] && end[8..10] == end[10..12] == Le16(count)
      && end[12..16] == Le32(size) && end[16..20] == Le32(offset) && end[20..] == [0, 0]
  {
    FixedWords();
    hide Le16, Le32;
  }

  /** The local part: every header followed by its data. */
  function Locals(members: seq<Member>): Bytes {
    if members == [] then []
    else
      var last := members[|members| - 1];
      Locals(members[..|members| - 1]) + LocalHeader(last) + last.data
  }

  /** The central directory; each record holds the offset of its local header. */
  function Centrals(members: seq<Member>): Bytes {
    if members == [] then []
    else
      var init := members[..|members| - 1];
      Centrals(init) + CentralHeader(members[|members| - 1], |Locals(init)|)
  }

  function Archive(members: seq<Member>): Bytes {
    Locals(members) + Centrals(members) + EndRecord(|members|, |Centrals(members)|, |Locals(members)|)
  }

  ghost predicate MemberFits(members: seq<Member>, k: nat)
    requires k < |members|
  {
    members[k].Fits() && |Locals(members[..k])| <= MAX32
  }

  ghost predicate AllFit(members: seq<Member>, n: nat)
    requires n <= |members|
  {
    forall k :: 0 <= k < n ==> MemberFits(members, k)
  }

  /** Everything fits the 16- and 32-bit fields of the format. */
  ghost predicate Writable(members: seq<Member>) {
    && AllFit(members, |members|)
    && |members| <= MAX16 && |Locals(members)| <= MAX32 && |Centrals(members)| <= MAX32
  }

  // ---------------------------------------------------------------------
  // A reader that starts from the last 22 bytes
  // ---------------------------------------------------------------------

  /** The local record at `at`, if it agrees with what the directory said of it. */
  function ReadLocal(b: Bytes, at: nat, listed: Member, size: nat): Option<Bytes> {
    if at + 30 > |b| || U32(b, at) != LOCAL_SIGNATURE || U16(b, at + 8) != STORED then None
    else
      var nameEnd := at + 30 + U16(b, at + 26);
      var dataAt := nameEnd + U16(b, at + 28);
      if dataAt + size > |b| then None
      else if b[at + 30..nameEnd] != listed.name || U16(b, at + 10) != listed.time || U16(b, at + 12) != listed.date
              || U32(b, at + 14) != listed.crc || U32(b, at + 18) != size || U32(b, at + 22) != size then None
      else Some(b[dataAt..dataAt + size])
  }

  /** The member whose central record is at `at`, and where the next record starts. */
  function ReadCentral(b: Bytes, at: nat): (r: Option<(Member, int)>)
    ensures r.Some? ==> at + 46 <= r.value.1 <= |b|
  {
    if at + 46 > |b| || U32(b, at) != CENTRAL_SIGNATURE || U16(b, at + 10) != STORED then None
    else
      var nameEnd := at + 46 + U16(b, at + 28);
      var next := nameEnd + U16(b, at + 30) + U16(b, at + 32);
      var crc := U32(b, at + 16);
      if next > |b| || U32(b, at + 20) != U32(b, at + 24) || crc > MAX32 then None
      else
        var listed := Member(b[at + 46..nameEnd], U16(b, at + 12), U16(b, at + 14), crc, []);
        var data := ReadLocal(b, U32(b, at + 42), listed, U32(b, at + 24));
        if data.None? then None else Some((listed.(data := data.value), next))
  }

  function WalkCentral(b: Bytes, at: nat, n: nat): Option<seq<Member>>
    decreases n
  {
    if n == 0 then Some([])
    else
      var first := ReadCentral(b, at);
      if first.None? then None
      else
        var rest := WalkCentral(b, first.value.1, n - 1);
        if rest.None? then None else Some([first.value.0] + rest.value)
  }

  function ReadZip(b: Bytes): Option<seq<Member>> {
    if |b| < 22 || U32(b, |b| - 22) != END_SIGNATURE then None
    else WalkCentral(b, U32(b, |b| - 6), U16(b, |b| - 12))
  }

  // ---------------------------------------------------------------------
  // Reading back what was written
  // ---------------------------------------------------------------------

  ghost predicate Has(b: Bytes, at: nat, part: Bytes) {
    at + |part| <= |b| && b[at..at + |part|] == part
  }

  lemma HasPart(b: Bytes, at: nat, pre: Bytes, part: Bytes, post: Bytes)
    requires Has(b, at, pre + part + post)
    ensures Has(b, at + |pre|, part)
  {
    var whole := pre + part + post;
    var w := b[at..at + |whole|];
    forall i | 0 <= i < |part|
      ensures b[at + |pre| + i] == part[i]
    {
      assert w[|pre| + i] == whole[|pre| + i] == part[i];
    }
  }

  lemma Field16(b: Bytes, at: nat, whole: Bytes, k: nat, v: nat)
    requires Has(b, at, whole) && k + 2 <= |whole| && whole[k..k + 2] == Le16(v) && v <= MAX16
    ensures U16(b, at + k) == v
  {
    hide Le16, U16;
    var part, w := b[at + k..at + k + 2], b[at..at + |whole|];
    assert forall i :: 0 <= i < 2 ==> part[i] == w[k + i];
    assert part == whole[k..k + 2];
    ReadLe16(b, at + k, v);
  }

  lemma Field32(b: Bytes, at: nat, whole: Bytes, k: nat, v: nat)
    requires Has(b, at, whole) && k + 4 <= |whole| && whole[k..k + 4] == Le32(v) && v <= MAX32
    ensures U32(b, at + k) == v
  {
    hide Le32, U32;
    var part, w := b[at + k..at + k + 4], b[at..at + |whole|];
    assert forall i :: 0 <= i < 4 ==> part[i] == w[k + i];
    assert part == whole[k..k + 4];
    ReadLe32(b, at + k, v);
  }

  lemma LocalLayout(m: Member)
    ensures var h := LocalHeader(m);
      && h[0..4] == Le32(LOCAL_SIGNATURE) && h[8..10] == Le16(STORED) && h[10..12] == Le16(m.time)
      && h[12..14] == Le16(m.date) && h[14..18] == Le32(m.crc) && h[18..22] == Le32(|m.data|)
      && h[22..26] == Le32(|m.data|) && h[26..28] == Le16(|m.name|) && h[28..30] == Le16(0) && h[30..] == m.name
  {
    hide Le16, Le32;
  }

  lemma LocalReads(b: Bytes, at: nat, m: Member)
    requires m.Fits() && Has(b, at, LocalHeader(m) + m.data)
    ensures ReadLocal(b, at, m.(data := []), |m.data|) == Some(m.data)
  {
    hide Le16, Le32, U16, U32, LocalHeader;
    var h := LocalHeader(m);
    assert b[at..at + |h|] == b[at..at + |h + m.data|][..|h|];
    LocalLayout(m);
    Field32(b, at, h, 0, LOCAL_SIGNATURE);
    Field16(b, at, h, 8, STORED);
    Field16(b, at, h, 10, m.time);
    Field16(b, at, h, 12, m.date);
    Field32(b, at, h, 14, m.crc);
    Field32(b, at, h, 18, |m.data|);
    Field32(b, at, h, 22, |m.data|);
    Field16(b, at, h, 26, |m.name|);
    Field16(b, at, h, 28, 0);
    assert b[at + 30..at + |h|] == b[at..at + |h|][30..];
    HasPart(b, at, h, m.data, []);
    assert h + m.data + [] == h + m.data;
  }

  lemma CentralLayout(m: Member, offset: nat)
    ensures var h := CentralHeader(m, offset);
      && h[0..4] == Le32(CENTRAL_SIGNATURE) && h[10..12] == Le16(STORED) && h[12..14] == Le16(m.time)
      && h[14..16] == Le16(m.date) && h[16..20] == Le32(m.crc) && h[20..24] == Le32(|m.data|)
      && h[24..28] == Le32(|m.data|) && h[28..30] == Le16(|m.name|) && h[30..32] == Le16(0) && h[32..34] == Le16(0)
      && h[42..46] == Le32(offset) && h[46..] == m.name
  {
    hide Le16, Le32;
  }

  lemma CentralReads(b: Bytes, at: nat, m: Member, offset: nat)
    requires m.Fits() && offset <= MAX32
    requires Has(b, at, CentralHeader(m, offset)) && Has(b, offset, LocalHeader(m) + m.data)
    ensures ReadCentral(b, at) == Some((m, at + 46 + |m.name|))
  {
    hide Le16, Le32, U16, U32, LocalHeader, CentralHeader, ReadLocal;
    var h := CentralHeader(m, offset);
    CentralLayout(m, offset);
    Field32(b, at, h, 0, CENTRAL_SIGNATURE);
    Field16(b, at, h, 10, STORED);
    Field16(b, at, h, 12, m.time);
    Field16(b, at, h, 14, m.date);
    Field32(b, at, h, 16, m.crc);
    Field32(b, at, h, 20, |m.data|);
    Field32(b, at, h, 24, |m.data|);
    Field16(b, at, h, 28, |m.name|);
    Field16(b, at, h, 30, 0);
    Field16(b, at, h, 32, 0);
    Field32(b, at, h, 42, offset);
    assert b[at + 46..at + |h|] == b[at..at + |h|][46..];
    LocalReads(b, offset, m);
  }

  lemma {:induction false} LocalAt(members: seq<Member>, k: nat)
    requires k < |members|
    ensures Has(Locals(members), |Locals(members[..k])|, LocalHeader(members[k]) + members[k].data)
  {
    hide LocalHeader;
    var last := |members| - 1;
    var init := Locals(members[..last]);
    var part := LocalHeader(members[last]) + members[last].data;
    assert Locals(members) == init + part;
    if k < last {
      LocalAt(members[..last], k);
      assert members[..last][..k] == members[..k];
      HasInPrefix(init, part, |Locals(members[..k])|, LocalHeader(members[k]) + members[k].data);
    } else {
      assert (init + part)[|init|..] == part;
    }
  }

  lemma HasInPrefix(b: Bytes, rest: Bytes, at: nat, part: Bytes)
    requires Has(b, at, part)
    ensures Has(b + rest, at, part)
  {
    assert (b + rest)[at..at + |part|] == b[at..at + |part|];
  }

  lemma HasInSuffix(pre: Bytes, b: Bytes, at: nat, part: Bytes)
    requires Has(b, at, part)
    ensures Has(pre + b, |pre| + at, part)
  {
    assert (pre + b)[|pre| + at..|pre| + at + |part|] == b[at..at + |part|];
  }

  lemma {:induction false} CentralAt(members: seq<Member>, k: nat)
    requires k < |members|
    ensures Has(Centrals(members), |Centrals(members[..k])|, CentralHeader(members[k], |Locals(members[..k])|))
    ensures |Centrals(members[..k + 1])| == |Centrals(members[..k])| + 46 + |members[k].name|
  {
    hide CentralHeader, Locals;
    assert members[..k + 1][..k] == members[..k];
    var last := |members| - 1;
    var init := Centrals(members[..last]);
    var part := CentralHeader(members[last], |Locals(members[..last])|);
    assert Centrals(members) == init + part;
    if k < last {
      CentralAt(members[..last], k);
      assert members[..last][..k] == members[..k];
      HasInPrefix(init, part, |Centrals(members[..k])|, CentralHeader(members[k], |Locals(members[..k])|));
    } else {
      assert (init + part)[|init|..] == part;
    }
  }

  lemma WalkStep(members: seq<Member>, k: nat)
    requires Writable(members) && k < |members|
    ensures ReadCentral(Archive(members), |Locals(members)| + |Centrals(members[..k])|)
         == Some((members[k], |Locals(members)| + |Centrals(members[..k + 1])|))
  {
    hide Locals, Centrals, LocalHeader, CentralHeader, ReadCentral, EndRecord, Has;
    var locals, centrals := Locals(members), Centrals(members);
    var end := EndRecord(|members|, |centrals|, |locals|);
    assert Archive(members) == locals + (centrals + end);
    var offset := |Locals(members[..k])|;
    assert MemberFits(members, k);
    LocalAt(members, k);
    HasInPrefix(locals, centrals + end, offset, LocalHeader(members[k]) + members[k].data);
    CentralAt(members, k);
    HasInPrefix(centrals, end, |Centrals(members[..k])|, CentralHeader(members[k], offset));
    HasInSuffix(locals, centrals + end, |Centrals(members[..k])|, CentralHeader(members[k], offset));
    CentralReads(Archive(members), |locals| + |Centrals(members[..k])|, members[k], offset);
  }

  lemma {:induction false} WalkReads(members: seq<Member>, k: nat)
    requires Writable(members) && k <= |members|
    ensures WalkCentral(Archive(members), |Locals(members)| + |Centrals(members[..k])|, |members| - k)
         == Some(members[k..])
    decreases |members| - k
  {
    hide Locals, Centrals, ReadCentral, Archive, Writable;
    if k < |members| {
      WalkStep(members, k);
      WalkReads(members, k + 1);
      assert members[k..] == [members[k]] + members[k + 1..];
    } else {
      assert members[k..] == [];
    }
  }

  lemma NothingWritten()
    ensures Locals([]) == [] && Centrals([]) == []
  {
  }

  /** Every archive is readable by its own directory, and gives back every name, stamp and content in order. */
  lemma ZipRoundTrip(members: seq<Member>)
    requires Writable(members)
    ensures ReadZip(Archive(members)) == Some(members)
  {
    hide Locals, Centrals, WalkCentral, Le16, Le32, U16, U32;
    var b := Archive(members);
    var body := Locals(members) + Centrals(members);
    var end := EndRecord(|members|, |Centrals(members)|, |Locals(members)|);
    assert b[|body|..|body| + 22] == end;
    assert end[0..4] == Le32(END_SIGNATURE) && end[10..12] == Le16(|members|) && end[16..20] == Le32(|Locals(members)|);
    Field32(b, |body|, end, 0, END_SIGNATURE);
    Field16(b, |body|, end, 10, |members|);
    Field32(b, |body|, end, 16, |Locals(members)|);
    WalkReads(members, 0);
    assert members[..0] == [] && members[0..] == members;
    NothingWritten();
  }

  // ---------------------------------------------------------------------
  // The writer
  // ---------------------------------------------------------------------

  datatype Entry = Entry(name: Bytes, data: Bytes, written: LocalTime)

  function MemberOf(e: Entry, crc32: Bytes -> Word32): Member {
    Member(e.name, DosTime(e.written), DosDate(e.written), crc32(e.data), e.data)
  }

  /** The bytes of the local part, and those of the directory. */
  function LocalSize(entries: seq<Entry>): nat {
    if entries == [] then 0
    else
      var last := entries[|entries| - 1];
      LocalSize(entries[..|entries| - 1]) + 30 + |last.name| + |last.data|
  }

  function CentralSize(entries: seq<Entry>): nat {
    if entries == [] then 0
    else CentralSize(entries[..|entries| - 1]) + 46 + |entries[|entries| - 1].name|
  }

  lemma {:induction false} SizesAreLengths(entries: seq<Entry>, crc32: Bytes -> Word32)
    ensures |Locals(MembersOf(entries, crc32))| == LocalSize(entries)
    ensures |Centrals(MembersOf(entries, crc32))| == CentralSize(entries)
  {
    hide LocalHeader, CentralHeader;
    if entries == [] {
      assert MembersOf(entries, crc32) == [];
    } else {
      var init := entries[..|entries| - 1];
      SizesAreLengths(init, crc32);
      assert MembersOf(entries, crc32)[..|init|] == MembersOf(init, crc32);
    }
  }

  lemma {:induction false} SmallerPrefix(entries: seq<Entry>, k: nat)
    requires k <= |entries|
    ensures LocalSize(entries[..k]) <= LocalSize(entries)
  {
    if k < |entries| {
      SmallerPrefix(entries[..|entries| - 1], k);
      assert entries[..|entries| - 1][..k] == entries[..k];
    } else {
      assert entries[..k] == entries;
    }
  }

  /** What the writer's format asks of a list of files. */
  predicate Representable(entries: seq<Entry>) {
    && |entries| <= 0xFFFF && LocalSize(entries) <= 0xFFFF_FFFF && CentralSize(entries) <= 0xFFFF_FFFF
    && forall i :: 0 <= i < |entries| ==>
                     |entries[i].name| <= 0xFFFF && |entries[i].data| <= 0xFFFF_FFFF && entries[i].written.year <= 2107
  }

  lemma WritableIff(entries: seq<Entry>, crc32: Bytes -> Word32)
    requires forall i :: 0 <= i < |entries| ==> entries[i].written.Valid()
    ensures Writable(MembersOf(entries, crc32)) <==> Representable(entries)
  {
    hide Locals, Centrals, MembersOf, MemberFits, LocalSize, CentralSize;
    SizesAreLengths(entries, crc32);
    MembersCount(entries, crc32);
    forall i | 0 <= i < |entries| {
      MemberFitsIff(entries, crc32, i);
    }
    forall i | 0 <= i < |entries| {
      SmallerPrefix(entries, i);
    }
  }

  lemma MemberFitsIff(entries: seq<Entry>, crc32: Bytes -> Word32, i: nat)
    requires i < |entries| && entries[i].written.Valid() && |MembersOf(entries, crc32)| == |entries|
    ensures MemberFits(MembersOf(entries, crc32), i) <==>
              && |entries[i].name| <= 0xFFFF && |entries[i].data| <= 0xFFFF_FFFF && entries[i].written.year <= 2107
              && LocalSize(entries[..i]) <= 0xFFFF_FFFF
  {
    DosRoundTrip(entries[i].written);
    SizesAreLengths(entries[..i], crc32);
    assert MembersOf(entries, crc32)[..i] == MembersOf(entries[..i], crc32);
    hide Locals, LocalSize, DosTime, DosDate, FromDos;
  }

  lemma MembersCount(entries: seq<Entry>, crc32: Bytes -> Word32)
    ensures |MembersOf(entries, crc32)| == |entries|
  {
  }

  /** The files read back are the entries: names, contents, checksums, and times to the even second from 1980 on. */
  ghost predicate SameFiles(read: seq<Member>, entries: seq<Entry>, crc32: Bytes -> Word32) {
    && |read| == |entries|
    && forall i :: 0 <= i < |entries| ==>
                     && read[i].name == entries[i].name && read[i].data == entries[i].data
                     && read[i].crc == crc32(entries[i].data)
                     && (entries[i].written.Valid() ==>
                           var d := entries[i].written;
                           FromDos(read[i].time, read[i].date)
                           == d.(year := if d.year < 1980 then 1980 else d.year, seconds := d.seconds / 2 * 2))
  }

  lemma MembersAreFiles(entries: seq<Entry>, crc32: Bytes -> Word32)
    ensures SameFiles(MembersOf(entries, crc32), entries, crc32)
  {
    forall i | 0 <= i < |entries| && entries[i].written.Valid() {
      DosRoundTrip(entries[i].written);
    }
    hide FromDos, DosTime, DosDate;
  }

  function MembersOf(entries: seq<Entry>, crc32: Bytes -> Word32): seq<Member> {
    seq(|entries|, i requires 0 <= i < |entries| => MemberOf(entries[i], crc32))
  }

  /** writeUInt16LE, for the next field of a header that is filled from the left. */
  method Put16(buffer: array<Byte>, v: nat, at: nat)
    requires at + 2 <= buffer.Length && v <= MAX16
    modifies buffer
    ensures buffer[..at + 2] == old(buffer[..at]) + Le16(v)
  {
    buffer[at], buffer[at + 1] := v % 256, v / 256 % 256;
  }

  method Put32(buffer: array<Byte>, v: nat, at: nat)
    requires at + 4 <= buffer.Length && v <= MAX32
    modifies buffer
    ensures buffer[..at + 4] == old(buffer[..at]) + Le32(v)
  {
    buffer[at], buffer[at + 1] := v % 256, v / 256 % 256;
    buffer[at + 2], buffer[at + 3] := v / 65536 % 256, v / 16777216 % 256;
  }

  /** Buffer.copy of the name behind the fixed fields. */
  method PutName(buffer: array<Byte>, name: Bytes, at: nat)
    requires at + |name| == buffer.Length
    modifies buffer
    ensures buffer[..] == old(buffer[..at]) + name
  {
    Write(buffer, at, name);
  }

  method PutStamp(header: array<Byte>, m: Member, at: nat)
    requires m.Fits() && at + 22 <= header.Length
    modifies header
    ensures header[..at + 22] == old(header[..at]) + Stamp(m)
  {
    hide Le16, Le32;
    Put16(header, UTF8_FLAG, at);
    Put16(header, STORED, at + 2);
    Put16(header, m.time, at + 4);
    Put16(header, m.date, at + 6);
    Put32(header, m.crc, at + 8);
    Put32(header, |m.data|, at + 12);
    Put32(header, |m.data|, at + 16);
    Put16(header, |m.name|, at + 20);
  }

  method PutPlace(header: array<Byte>, currentOffset: nat, at: nat)
    requires currentOffset <= MAX32 && at + 16 <= header.Length
    modifies header
    ensures header[..at + 16] == old(header[..at]) + Place(currentOffset)
  {
    hide Le16, Le32;
    Put16(header, 0, at);
    Put16(header, 0, at + 2);
    Put16(header, 0, at + 4);
    Put16(header, 0, at + 6);
    Put32(header, FILE_ATTRIBUTES, at + 8);
    Put32(header, currentOffset, at + 12);
  }

  method BuildLocalHeader(m: Member) returns (header: array<Byte>)
    requires m.Fits()
    ensures fresh(header) && header[..] == LocalHeader(m)
  {
    hide Le16, Le32, Stamp;
    header := new Byte[30 + |m.name|](_ => 0);
    assert header[..0] == [];
    Put32(header, LOCAL_SIGNATURE, 0);
    Put16(header, VERSION, 4);
    PutStamp(header, m, 6);
    Put16(header, 0, 28);
    PutName(header, m.name, 30);
  }

  method BuildCentralHeader(m: Member, currentOffset: nat) returns (header: array<Byte>)
    requires m.Fits() && currentOffset <= MAX32
    ensures fresh(header) && header[..] == CentralHeader(m, currentOffset)
  {
    hide Le16, Le32, Stamp, Place;
    header := new Byte[46 + |m.name|](_ => 0);
    assert header[..0] == [];
    Put32(header, CENTRAL_SIGNATURE, 0);
    Put16(header, VERSION, 4);
    Put16(header, VERSION, 6);
    PutStamp(header, m, 8);
    PutPlace(header, currentOffset, 30);
    PutName(header, m.name, 46);
  }

  method BuildEndRecord(count: nat, size: nat, offset: nat) returns (end: array<Byte>)
    requires count <= MAX16 && size <= MAX32 && offset <= MAX32
    ensures fresh(end) && end[..] == EndRecord(count, size, offset)
  {
    hide Le16, Le32;
    end := new Byte[22](_ => 0);
    assert end[..0] == [];
    Put32(end, END_SIGNATURE, 0);
    Put16(end, 0, 4);
    Put16(end, 0, 6);
    PutCounts(end, count, 8);
    Put32(end, size, 12);
    Put32(end, offset, 16);
    Put16(end, 0, 20);
    assert end[..22] == end[..];
  }

  method PutCounts(end: array<Byte>, count: nat, at: nat)
    requires count <= MAX16 && at + 4 <= end.Length
    modifies end
    ensures end[..at + 4] == old(end[..at]) + Le16(count) + Le16(count)
  {
    hide Le16;
    Put16(end, count, at);
    Put16(end, count, at + 2);
  }

  lemma OneMoreMember(members: seq<Member>, k: nat)
    requires k < |members|
    ensures Locals(members[..k + 1]) == Locals(members[..k]) + LocalHeader(members[k]) + members[k].data
    ensures Centrals(members[..k + 1]) == Centrals(members[..k]) + CentralHeader(members[k], |Locals(members[..k])|)
  {
    hide LocalHeader, CentralHeader;
    assert members[..k + 1][..k] == members[..k];
  }

  /** The archive, or None where writing a field out of its range throws. */
  method BuildZipArchive(entries: seq<Entry>, crc32: Bytes -> Word32) returns (zip: Option<Bytes>)
    ensures zip.Some? <==> Writable(MembersOf(entries, crc32))
    ensures zip.Some? ==> zip.value == Archive(MembersOf(entries, crc32))
    ensures zip.Some? ==> ReadZip(zip.value).Some? && SameFiles(ReadZip(zip.value).value, entries, crc32)
    ensures (forall i :: 0 <= i < |entries| ==> entries[i].written.Valid()) ==> (zip.Some? <==> Representable(entries))
  {
    hide LocalHeader, CentralHeader, EndRecord, ReadZip, Locals, Centrals, SameFiles, Representable;
    ghost var members := MembersOf(entries, crc32);
    MembersAreFiles(entries, crc32);
    if forall i :: 0 <= i < |entries| ==> entries[i].written.Valid() {
      WritableIff(entries, crc32);
    }
    var localChunks: Bytes, centralChunks: Bytes, currentOffset := [], [], 0;
    assert members[..0] == [];
    NothingWritten();
    for i := 0 to |entries|
      invariant localChunks == Locals(members[..i]) && centralChunks == Centrals(members[..i])
      invariant currentOffset == |localChunks|
      invariant AllFit(members, i)
    {
      var m := MemberOf(entries[i], crc32);
      if !m.Fits() || currentOffset > MAX32 {
        assert !MemberFits(members, i);
        return None;
      }
      var localHeader := BuildLocalHeader(m);
      var centralHeader := BuildCentralHeader(m, currentOffset);
      OneMoreMember(members, i);
      localChunks := localChunks + localHeader[..] + m.data;
      centralChunks := centralChunks + centralHeader[..];
      currentOffset := currentOffset + localHeader.Length + |m.data|;
    }
    assert members[..|entries|] == members;
    if |entries| > MAX16 || |centralChunks| > MAX32 || currentOffset > MAX32 {
      return None;
    }
    var end := BuildEndRecord(|entries|, |centralChunks|, currentOffset);
    ZipRoundTrip(members);
    return Some(localChunks + centralChunks + end[..]);
  }
}
