/** The tar printer and parser of the backup service (src/system/backup.service.ts); the layout
  * is the ustar Interchange Format of IEEE Std 1003.1, pax section. */
module TarArchive {
  import opened Options
  import opened ByteBuffers

  datatype File = File(name: Bytes, content: Bytes)

  const BLOCK := 512
  const SPACE: Byte := 32
  const ZERO_DIGIT: Byte := 48

  // ---------------------------------------------------------------------
  // Octal fields
  // ---------------------------------------------------------------------

  /** n.toString(8) */
  function Octal(n: nat): (digits: Bytes)
    ensures |digits| > 0
  {
    if n < 8 then [ZERO_DIGIT + n] else Octal(n / 8) + [ZERO_DIGIT + n % 8]
  }

  function ZeroDigits(n: nat): (zeros: Bytes)
    ensures |zeros| == n && AllOctal(zeros)
  {
    seq(n, _ => ZERO_DIGIT)
  }

  /** digits.padStart(width, '0') */
  function PadStart(digits: Bytes, width: nat): Bytes {
    if |digits| >= width then digits else ZeroDigits(width - |digits|) + digits
  }

  predicate IsOctalDigit(b: Byte) {
    ZERO_DIGIT <= b <= ZERO_DIGIT + 7
  }

  predicate AllOctal(digits: Bytes) {
    forall i :: 0 <= i < |digits| ==> IsOctalDigit(digits[i])
  }

  predicate IsWhitespace(b: Byte) {
    b == SPACE || 9 <= b <= 13
  }

  /** The value of a run of octal digits. */
  function Value(digits: Bytes): nat
    requires AllOctal(digits)
  {
    if digits == [] then 0
    else
      var last := digits[|digits| - 1];
      assert IsOctalDigit(last);
      8 * Value(digits[..|digits| - 1]) + (last - ZERO_DIGIT)
  }

  /** The longest prefix of octal digits. */
  function DigitPrefix(field: Bytes): (digits: Bytes)
    ensures AllOctal(digits)
    ensures digits <= field && (|digits| < |field| ==> !IsOctalDigit(field[|digits|]))
  {
    if field == [] || !IsOctalDigit(field[0]) then []
    else [field[0]] + DigitPrefix(field[1..])
  }

  function SkipSpaces(field: Bytes): Bytes {
    if field != [] && IsWhitespace(field[0]) then SkipSpaces(field[1..]) else field
  }

  const MINUS: Byte := 45
  const PLUS: Byte := 43

  /** parseInt(field.trim(), 8): leading blanks, a sign, then as many octal digits as there are; none is NaN. */
  function ParseInt8(field: Bytes): Option<int> {
    var f := SkipSpaces(field);
    var signed := f != [] && (f[0] == MINUS || f[0] == PLUS);
    var digits := DigitPrefix(if signed then f[1..] else f);
    var value: int := Value(digits);
    if digits == [] then None else Some(if signed && f[0] == MINUS then -value else value)
  }

  lemma {:induction false} OctalDigits(n: nat)
    ensures AllOctal(Octal(n)) && Value(Octal(n)) == n
  {
    if n >= 8 {
      OctalDigits(n / 8);
      assert Octal(n)[..|Octal(n)| - 1] == Octal(n / 8);
    } else {
      assert Octal(n)[..0] == [];
    }
  }

  function Pow8(k: nat): nat {
    if k == 0 then 1 else 8 * Pow8(k - 1)
  }

  lemma {:induction false} OctalLength(n: nat, k: nat)
    requires k > 0 && n < Pow8(k)
    ensures |Octal(n)| <= k
  {
    if n >= 8 {
      OctalLength(n / 8, k - 1);
    }
  }

  lemma {:induction false} PaddedDigits(zeros: nat, digits: Bytes)
    requires AllOctal(digits)
    ensures AllOctal(ZeroDigits(zeros) + digits) && Value(ZeroDigits(zeros) + digits) == Value(digits)
    decreases zeros + |digits|
  {
    var padded := ZeroDigits(zeros) + digits;
    if digits != [] {
      PaddedDigits(zeros, digits[..|digits| - 1]);
      assert padded[..|padded| - 1] == ZeroDigits(zeros) + digits[..|digits| - 1];
    } else if zeros > 0 {
      PaddedDigits(zeros - 1, []);
      assert padded[..|padded| - 1] == ZeroDigits(zeros - 1) + [];
    }
  }

  lemma {:induction false} AllDigitsPrefix(field: Bytes)
    requires AllOctal(field)
    ensures DigitPrefix(field) == field
  {
    if field == [] {
    } else {
      AllDigitsPrefix(field[1..]);
    }
  }

  lemma ParsePlainDigits(field: Bytes)
    requires field != [] && AllOctal(field)
    ensures ParseInt8(field) == Some(Value(field))
  {
    assert IsOctalDigit(field[0]);
    AllDigitsPrefix(field);
  }

  lemma {:induction false} BlanksAreSkipped(blanks: Bytes, rest: Bytes)
    requires forall i :: 0 <= i < |blanks| ==> blanks[i] == 32 || 9 <= blanks[i] <= 13
    requires rest != [] ==> rest[0] != 32 && !(9 <= rest[0] <= 13)
    ensures SkipSpaces(blanks + rest) == rest
  {
    if blanks == [] {
      assert blanks + rest == rest;
    } else {
      assert (blanks + rest)[1..] == blanks[1..] + rest;
      BlanksAreSkipped(blanks[1..], rest);
    }
  }

  lemma {:induction false} DigitsAreTaken(digits: Bytes, rest: Bytes)
    requires forall i :: 0 <= i < |digits| ==> 48 <= digits[i] <= 55
    requires rest != [] ==> !(48 <= rest[0] <= 55)
    ensures DigitPrefix(digits + rest) == digits
  {
    if digits == [] {
      assert digits + rest == rest;
    } else {
      assert (digits + rest)[1..] == digits[1..] + rest;
      DigitsAreTaken(digits[1..], rest);
    }
  }

  /** Of any field the parser skips blanks, takes a sign and all octal digits up to the first other byte; without a
    * digit there is no number. */
  lemma ParseInt8Reads(blanks: Bytes, sign: Bytes, digits: Bytes, rest: Bytes)
    requires forall i :: 0 <= i < |blanks| ==> blanks[i] == 32 || 9 <= blanks[i] <= 13
    requires sign == [] || sign == [43] || sign == [45]
    requires forall i :: 0 <= i < |digits| ==> 48 <= digits[i] <= 55
    requires rest != [] ==> !(48 <= rest[0] <= 55)
    requires sign == [] && digits == [] && rest != [] ==>
               rest[0] != 32 && !(9 <= rest[0] <= 13) && rest[0] != 43 && rest[0] != 45
    ensures var v: int := Value(digits);
            ParseInt8(blanks + (sign + (digits + rest)))
            == if digits == [] then None else Some(if sign == [45] then -v else v)
  {
    hide Value, SkipSpaces, DigitPrefix;
    var f := sign + (digits + rest);
    BlanksAreSkipped(blanks, f);
    DigitsAreTaken(digits, rest);
    if sign == [] {
      assert f == digits + rest;
      assert f != [] ==> f[0] != MINUS && f[0] != PLUS;
    } else {
      assert f[0] == sign[0] && f[1..] == digits + rest;
    }
    ParseSigned(blanks + f, f, digits);
  }

  lemma ParseSigned(field: Bytes, f: Bytes, digits: Bytes)
    requires SkipSpaces(field) == f && AllOctal(digits)
    requires DigitPrefix(if f != [] && (f[0] == MINUS || f[0] == PLUS) then f[1..] else f) == digits
    ensures var v: int := Value(digits);
            ParseInt8(field) == if digits == [] then None else Some(if f != [] && f[0] == MINUS then -v else v)
  {
  }

  /** A number that fits its field is read back as it was written. */
  lemma FieldRoundTrip(n: nat, width: nat)
    requires width > 0 && n < Pow8(width)
    ensures |PadStart(Octal(n), width)| == width && AllOctal(PadStart(Octal(n), width))
    ensures ParseInt8(PadStart(Octal(n), width)) == Some(n)
  {
    hide Pow8, Octal, Value, ParseInt8;
    OctalDigits(n);
    OctalLength(n, width);
    var field := PadStart(Octal(n), width);
    PaddedDigits(width - |Octal(n)|, Octal(n));
    assert ZeroDigits(0) + Octal(n) == Octal(n);
    assert field == ZeroDigits(width - |Octal(n)|) + Octal(n);
    ParsePlainDigits(field);
  }

  // ---------------------------------------------------------------------
  // Printing
  // ---------------------------------------------------------------------

  function Ascii(text: string): (bytes: Bytes)
    requires forall i :: 0 <= i < |text| ==> text[i] as int < 128
    ensures |bytes| == |text| && forall i :: 0 <= i < |text| ==> bytes[i] == text[i] as int
  {
    seq(|text|, i requires 0 <= i < |text| => text[i] as int)
  }

  const FILE_MODE := Ascii("0000644\0")
  const OWNER := Ascii("0000000\0")
  const BLANKS := Ascii("        ")
  const REGULAR := Ascii("0")
  const MAGIC := Ascii("ustar\0")
  const VERSION := Ascii("00")

  function NumberField(n: nat, digits: nat): Bytes {
    PadStart(Octal(n), digits) + [0]
  }

  /** The header up to the owner fields. */
  function NameFields(name: Bytes): (h: Bytes)
    ensures |h| == BLOCK
  {
    var named := Splice(Zeros(BLOCK), 0, Clipped(name, 100));
    Splice(Splice(Splice(named, 100, FILE_MODE), 108, OWNER), 116, OWNER)
  }

  /** The header with its checksum field blank. */
  function BlankHeader(name: Bytes, size: nat, mtime: nat): (h: Bytes)
    ensures |h| == BLOCK
  {
    var sized := Splice(NameFields(name), 124, Clipped(NumberField(size, 11), 12));
    var timed := Splice(sized, 136, Clipped(NumberField(mtime, 11), 12));
    Splice(Splice(Splice(Splice(timed, 148, BLANKS), 156, REGULAR), 257, MAGIC), 263, VERSION)
  }

  function ChecksumField(checksum: nat): Bytes {
    Clipped(PadStart(Octal(checksum), 6) + [0, SPACE], 8)
  }

  function Header(name: Bytes, size: nat, mtime: nat): (h: Bytes)
    ensures |h| == BLOCK
  {
    var blank := BlankHeader(name, size, mtime);
    Splice(blank, 148, ChecksumField(Sum(blank)))
  }

  function Padding(size: nat): nat {
    (BLOCK - size % BLOCK) % BLOCK
  }

  lemma WholeMultiple(k: int)
    ensures 512 * k % 512 == 0
  {
  }

  /** As few bytes as fill the last block. */
  lemma PaddingFills(size: nat)
    ensures Padding(size) < 512 && (size + Padding(size)) % 512 == 0
  {
    var whole, over := size / 512, size % 512;
    assert size == 512 * whole + over;
    if over == 0 {
      assert Padding(size) == 0;
      WholeMultiple(whole);
    } else {
      assert Padding(size) == 512 - over;
      assert size + Padding(size) == 512 * (whole + 1);
      WholeMultiple(whole + 1);
    }
  }

  function TarEntry(file: File, mtime: nat): Bytes {
    Header(file.name, |file.content|, mtime) + file.content + Zeros(Padding(|file.content|))
  }

  method CreateTarEntry(name: Bytes, content: Bytes, mtime: nat) returns (entry: Bytes)
    ensures entry == TarEntry(File(name, content), mtime)
  {
    hide Sum, NumberField, ChecksumField;
    var header := new Byte[BLOCK](_ => 0);
    assert header[..] == Zeros(BLOCK);
    Write(header, 0, Clipped(name, 100));
    Write(header, 100, FILE_MODE);
    Write(header, 108, OWNER);
    Write(header, 116, OWNER);
    assert header[..] == NameFields(name);
    Write(header, 124, Clipped(NumberField(|content|, 11), 12));
    Write(header, 136, Clipped(NumberField(mtime, 11), 12));
    Write(header, 148, BLANKS);
    Write(header, 156, REGULAR);
    Write(header, 257, MAGIC);
    Write(header, 263, VERSION);
    assert header[..] == BlankHeader(name, |content|, mtime);
    var checksum := AddUp(header);
    Write(header, 148, FieldOfChecksum(checksum));
    entry := header[..] + content + Zeros(Padding(|content|));
  }

  function FieldOfChecksum(checksum: nat): (field: Bytes)
    ensures field == ChecksumField(checksum) && |field| <= 8
  {
    ChecksumField(checksum)
  }

  method AddUp(buffer: array<Byte>) returns (sum: nat)
    ensures sum == Sum(buffer[..])
  {
    sum := 0;
    for i := 0 to buffer.Length
      invariant sum == Sum(buffer[..i])
    {
      assert buffer[..i + 1][..i] == buffer[..i];
      sum := sum + buffer[i];
    }
    assert buffer[..buffer.Length] == buffer[..];
  }

  /** The checksum a reader computes: over the header with the checksum field blank. */
  function ChecksumOf(header: Bytes): nat
    requires |header| == BLOCK
  {
    Sum(Splice(header, 148, BLANKS))
  }

  lemma BlankAgain(name: Bytes, size: nat, mtime: nat)
    ensures Splice(Header(name, size, mtime), 148, BLANKS) == BlankHeader(name, size, mtime)
  {
    hide Sum;
    var blank, h := BlankHeader(name, size, mtime), Header(name, size, mtime);
    assert blank[148..156] == BLANKS;
    assert forall i :: 148 <= i < 156 ==> blank[i] == blank[148..156][i - 148];
    assert forall i :: 0 <= i < BLOCK && !(148 <= i < 156) ==> h[i] == blank[i];
  }

  lemma ChecksumLength(checksum: nat)
    ensures |ChecksumField(checksum)| == 8
  {
    hide Octal;
  }

  lemma SizeLength(size: nat)
    ensures |Clipped(NumberField(size, 11), 12)| == 12
  {
    hide Octal;
  }

  /** What the header says to a reader. */
  lemma HeaderReads(name: Bytes, size: nat, mtime: nat)
    ensures var h := Header(name, size, mtime);
            && h[..100] == Clipped(name, 100) + Zeros(100 - |Clipped(name, 100)|)
            && h[100..108] == FILE_MODE
            && h[124..136] == Clipped(NumberField(size, 11), 12)
            && h[148..156] == ChecksumField(Sum(BlankHeader(name, size, mtime)))
  {
    hide Sum, NumberField, Splice, Clipped;
    HeaderPlaces(name, size, mtime);
    var h, blank, clipped := Header(name, size, mtime), BlankHeader(name, size, mtime), Clipped(name, 100);
    var sum := Sum(blank);
    ChecksumLength(sum);
    SizeLength(size);
    assert forall i :: 0 <= i < 148 ==> h[i] == blank[i];
    assert forall i :: 0 <= i < 100 ==> blank[i] == NameFields(name)[i];
    assert forall i :: 0 <= i < 100 ==> NameFields(name)[i] == if i < |clipped| then clipped[i] else 0;
    assert forall i :: 124 <= i < 136 ==> blank[i] == Clipped(NumberField(size, 11), 12)[i - 124];
    assert forall i :: 148 <= i < 156 ==> h[i] == ChecksumField(sum)[i - 148];
  }

  /** Every byte of the header that is not a name, a number or the checksum: mode 0644, owner and group 0, a regular
    * file, ustar version 00, and zeros. */
  lemma HeaderFixedBytes(name: Bytes, size: nat, mtime: nat)
    ensures var h := Header(name, size, mtime);
            && h[100..108] == [48, 48, 48, 48, 54, 52, 52, 0]
            && h[108..116] == h[116..124] == [48, 48, 48, 48, 48, 48, 48, 0]
            && h[156] == 48 && h[257..265] == [117, 115, 116, 97, 114, 0, 48, 48]
            && (forall i :: 157 <= i < 257 || 265 <= i < 512 ==> h[i] == 0)
  {
    var h := Header(name, size, mtime);
    FixedFields();
    HeaderPlaces(name, size, mtime);
    hide Header, Ascii;
    assert h[257..265] == h[257..263] + h[263..265];
  }

  lemma FixedFields()
    ensures FILE_MODE == [48, 48, 48, 48, 54, 52, 52, 0] && OWNER == [48, 48, 48, 48, 48, 48, 48, 0]
    ensures REGULAR == [48] && MAGIC == [117, 115, 116, 97, 114, 0] && VERSION == [48, 48]
  {
  }

  lemma HeaderPlaces(name: Bytes, size: nat, mtime: nat)
    ensures var h := Header(name, size, mtime);
            && h[100..108] == FILE_MODE && h[108..116] == OWNER && h[116..124] == OWNER
            && h[156] == REGULAR[0] && h[257..263] == MAGIC && h[263..265] == VERSION
            && (forall i :: 157 <= i < 257 || 265 <= i < 512 ==> h[i] == 0)
  {
    hide Sum, NumberField, ChecksumField, Splice, Clipped;
    var h, blank := Header(name, size, mtime), BlankHeader(name, size, mtime);
    var named, field := NameFields(name), FieldOfChecksum(Sum(blank));
    assert forall i :: 100 <= i < 124 || 157 <= i < 512 ==> h[i] == blank[i];
    assert h[156] == blank[156] == REGULAR[0];
    assert forall i :: 257 <= i < 263 ==> blank[i] == MAGIC[i - 257];
    assert forall i :: 263 <= i < 265 ==> blank[i] == VERSION[i - 263];
    assert forall i :: 100 <= i < 124 || 157 <= i < 257 || 265 <= i < 512 ==> blank[i] == named[i];
    assert forall i :: 100 <= i < 108 ==> named[i] == FILE_MODE[i - 100];
    assert forall i :: 108 <= i < 116 ==> named[i] == OWNER[i - 108];
    assert forall i :: 116 <= i < 124 ==> named[i] == OWNER[i - 116];
  }

  /** The checksum always fits its six octal digits, and what is stored is what a reader computes. */
  lemma ChecksumFits(name: Bytes, size: nat, mtime: nat)
    ensures ChecksumOf(Header(name, size, mtime)) < Pow8(6)
    ensures ParseInt8(Header(name, size, mtime)[148..154]) == Some(ChecksumOf(Header(name, size, mtime)))
    ensures Header(name, size, mtime)[154..156] == [0, SPACE]
  {
    var h, sum := Header(name, size, mtime), Sum(BlankHeader(name, size, mtime));
    hide Sum, ParseInt8, Octal, BlankHeader, Header;
    BlankAgain(name, size, mtime);
    HeaderReads(name, size, mtime);
    SumBound(BlankHeader(name, size, mtime));
    assert Pow8(6) == 262144 by {
      assert Pow8(2) == 64;
      assert Pow8(4) == 4096;
    }
    FieldRoundTrip(sum, 6);
    var field := ChecksumField(sum);
    assert field == PadStart(Octal(sum), 6) + [0, SPACE];
    assert h[148..156] == field;
    assert h[148..154] == field[..6] && h[154..156] == field[6..];
  }

  // ---------------------------------------------------------------------
  // Parsing
  // ---------------------------------------------------------------------

  function FirstZero(bytes: Bytes): (k: nat)
    ensures k <= |bytes| && (forall i :: 0 <= i < k ==> bytes[i] != 0) && (k < |bytes| ==> bytes[k] == 0)
  {
    if bytes == [] || bytes[0] == 0 then 0 else 1 + FirstZero(bytes[1..])
  }

  /** The name ends at the first NUL of the header, or after 100 bytes. */
  function NameIn(header: Bytes): (name: Bytes)
    requires |header| == BLOCK
    ensures |name| <= 100 && name <= header && 0 !in name && (|name| < 100 ==> header[|name|] == 0)
  {
    header[..if FirstZero(header) <= 100 then FirstZero(header) else 100]
  }

  predicate AllZero(bytes: Bytes): (zero: bool)
    ensures zero <==> bytes == Zeros(|bytes|)
  {
    forall i :: 0 <= i < |bytes| ==> bytes[i] == 0
  }

  /** subarray: positions beyond the end are clamped. */
  function Sub(buffer: Bytes, from: nat, to: nat): (part: Bytes)
    ensures forall i :: 0 <= i < |part| ==> from + i < |buffer| && part[i] == buffer[from + i]
    ensures |part| == if from < to <= |buffer| then to - from else if from < |buffer| < to then |buffer| - from else 0
  {
    if from >= |buffer| || to <= from then [] else if to <= |buffer| then buffer[from..to] else buffer[from..]
  }

  /** The parser from an offset on; absent is its "Invalid tar entry size" error. */
  function ExtractFrom(buffer: Bytes, offset: nat, files: map<Bytes, Bytes>): Option<map<Bytes, Bytes>>
    decreases |buffer| - offset
  {
    if offset + BLOCK > |buffer| then Some(files)
    else
      var header := buffer[offset..offset + BLOCK];
      if AllZero(header) then Some(files)
      else
        var size := ParseInt8(header[124..135]);
        if size.None? || size.value < 0 then None
        else if size.value == 0 then ExtractFrom(buffer, offset + BLOCK, files)
        else
          var start := offset + BLOCK;
          ExtractFrom(
            buffer, start + size.value + Padding(size.value),
            files[NameIn(header) := Sub(buffer, start, start + size.value)])
  }

  method ExtractTar(buffer: Bytes) returns (files: Option<map<Bytes, Bytes>>)
    ensures files == ExtractFrom(buffer, 0, map[])
  {
    hide ParseInt8, AllZero, NameIn, Padding, Sub;
    var found: map<Bytes, Bytes> := map[];
    var offset := 0;
    while offset + BLOCK <= |buffer|
      invariant ExtractFrom(buffer, 0, map[]) == ExtractFrom(buffer, offset, found)
      decreases |buffer| - offset
    {
      var header := buffer[offset..offset + BLOCK];
      if AllZero(header) {
        break;
      }
      var name := NameIn(header);
      var size := ParseInt8(header[124..135]);
      if size.None? || size.value < 0 {
        return None;
      }
      offset := offset + BLOCK;
      if size.value > 0 {
        found := found[name := Sub(buffer, offset, offset + size.value)];
        offset := offset + size.value + Padding(size.value);
      }
    }
    return Some(found);
  }

  // ---------------------------------------------------------------------
  // Round trip
  // ---------------------------------------------------------------------

  /** buildTarGz before compression; each entry has its own modification time. */
  function Entries(files: seq<File>, mtimes: seq<nat>): Bytes
    requires |files| == |mtimes|
  {
    if files == [] then [] else TarEntry(files[0], mtimes[0]) + Entries(files[1..], mtimes[1..])
  }

  function BuildTar(files: seq<File>, mtimes: seq<nat>): Bytes
    requires |files| == |mtimes|
  {
    Entries(files, mtimes) + Zeros(2 * BLOCK)
  }

  method BuildTarArchive(files: seq<File>, mtimes: seq<nat>) returns (archive: Bytes)
    requires |files| == |mtimes|
    ensures archive == BuildTar(files, mtimes)
  {
    hide TarEntry;
    archive := [];
    for i := 0 to |files|
      invariant archive + Entries(files[i..], mtimes[i..]) == Entries(files, mtimes)
    {
      var entry := CreateTarEntry(files[i].name, files[i].content, mtimes[i]);
      assert files[i..][1..] == files[i + 1..] && mtimes[i..][1..] == mtimes[i + 1..];
      var rest := Entries(files[i + 1..], mtimes[i + 1..]);
      assert archive + (entry + rest) == archive + entry + rest;
      archive := archive + entry;
    }
    assert Entries(files[|files|..], mtimes[|files|..]) == [];
    archive := archive + Zeros(2 * BLOCK);
  }

  /** The name under which a file comes back: at most 100 bytes, up to the first NUL. */
  function ShownName(name: Bytes): Bytes {
    var clipped := Clipped(name, 100);
    clipped[..FirstZero(clipped)]
  }

  /** What comes back: later files win, empty ones are dropped. */
  function Merged(files: seq<File>, before: map<Bytes, Bytes>): map<Bytes, Bytes> {
    if files == [] then before
    else
      Merged(
        files[1..],
        if files[0].content == [] then before else before[ShownName(files[0].name) := files[0].content])
  }

  lemma NameComesBack(name: Bytes, size: nat, mtime: nat)
    ensures NameIn(Header(name, size, mtime)) == ShownName(name)
  {
    hide Header, Clipped, NameIn, FirstZero;
    HeaderReads(name, size, mtime);
    NameInFront(Header(name, size, mtime), Clipped(name, 100));
  }

  /** The name field of any header is read up to its first NUL, or whole. */
  lemma NameInFront(header: Bytes, clipped: Bytes)
    requires |header| == BLOCK && |clipped| <= 100 && header[..100] == clipped + Zeros(100 - |clipped|)
    ensures NameIn(header) == clipped[..FirstZero(clipped)]
  {
    hide FirstZero, Zeros;
    FrontAgrees(header, clipped, header[..100]);
    FirstZeroInFront(header, clipped);
  }

  lemma FirstZeroInFront(header: Bytes, clipped: Bytes)
    requires |header| == BLOCK && |clipped| <= 100
    requires forall i :: 0 <= i < |clipped| ==> header[i] == clipped[i]
    requires |clipped| < 100 ==> header[|clipped|] == 0
    ensures FirstZero(clipped) == if FirstZero(header) <= 100 then FirstZero(header) else 100
  {
    hide FirstZero;
    var k, z := FirstZero(clipped), FirstZero(header);
    assert k < 100 ==> header[k] == 0;
  }

  lemma FrontAgrees(header: Bytes, clipped: Bytes, front: Bytes)
    requires |header| == BLOCK && |clipped| <= 100 && front == header[..100] == clipped + Zeros(100 - |clipped|)
    ensures forall i :: 0 <= i < |clipped| ==> header[i] == clipped[i]
    ensures |clipped| < 100 ==> header[|clipped|] == 0
    ensures forall k :: 0 <= k <= |clipped| ==> header[..k] == clipped[..k]
  {
    assert forall i :: 0 <= i < 100 ==> header[i] == front[i];
  }

  lemma SizeComesBack(name: Bytes, size: nat, mtime: nat)
    requires size < Pow8(11)
    ensures ParseInt8(Header(name, size, mtime)[124..135]) == Some(size)
  {
    hide Header, ParseInt8, Octal, Pow8, NumberField, PadStart, Clipped;
    FieldRoundTrip(size, 11);
    SizeField(size);
    HeaderReads(name, size, mtime);
    FrontOfField(Header(name, size, mtime)[124..136], PadStart(Octal(size), 11));
    assert Header(name, size, mtime)[124..135] == Header(name, size, mtime)[124..136][..11];
  }

  /** The modification time is read back too, and both fields end with a NUL. */
  lemma MtimeComesBack(name: Bytes, size: nat, mtime: nat)
    requires size < Pow8(11) && mtime < Pow8(11)
    ensures ParseInt8(Header(name, size, mtime)[136..147]) == Some(mtime)
    ensures Header(name, size, mtime)[135] == 0 && Header(name, size, mtime)[147] == 0
  {
    hide Header, ParseInt8, Octal, Pow8, NumberField, PadStart, Clipped;
    FieldRoundTrip(size, 11);
    FieldRoundTrip(mtime, 11);
    SizeField(size);
    SizeField(mtime);
    NumbersInHeader(name, size, mtime);
    var h := Header(name, size, mtime);
    FrontOfField(h[136..148], PadStart(Octal(mtime), 11));
    assert h[136..147] == h[136..148][..11];
    assert h[147] == h[136..148][11] && h[135] == h[124..136][11];
  }

  lemma NumbersInHeader(name: Bytes, size: nat, mtime: nat)
    requires |Clipped(NumberField(size, 11), 12)| == 12 && |Clipped(NumberField(mtime, 11), 12)| == 12
    ensures Header(name, size, mtime)[124..136] == Clipped(NumberField(size, 11), 12)
    ensures Header(name, size, mtime)[136..148] == Clipped(NumberField(mtime, 11), 12)
  {
    hide Sum, NumberField, ChecksumField;
  }

  lemma SizeField(size: nat)
    requires |PadStart(Octal(size), 11)| == 11
    ensures Clipped(NumberField(size, 11), 12) == PadStart(Octal(size), 11) + [0]
  {
    hide Octal, PadStart;
  }

  lemma FrontOfField(field: Bytes, digits: Bytes)
    requires field == digits + [0]
    ensures field[..|digits|] == digits
  {
  }

  lemma HeaderIsNotZero(name: Bytes, size: nat, mtime: nat)
    ensures !AllZero(Header(name, size, mtime))
  {
    HeaderReads(name, size, mtime);
    assert Header(name, size, mtime)[100] == Header(name, size, mtime)[100..108][0] == FILE_MODE[0];
  }

  /** The parser passes one printed entry, wherever it lies in the buffer. */
  lemma OneEntry(prefix: Bytes, file: File, mtime: nat, rest: Bytes, files: map<Bytes, Bytes>)
    requires |file.content| < Pow8(11)
    ensures var entry := TarEntry(file, mtime);
            ExtractFrom(prefix + (entry + rest), |prefix|, files)
            == ExtractFrom(prefix + (entry + rest), |prefix + entry|, Merged([file], files))
  {
    hide Pow8, ParseInt8, Header, NameIn, AllZero, ShownName, Padding, Sub;
    var size := |file.content|;
    var h := Header(file.name, size, mtime);
    var entry := TarEntry(file, mtime);
    var buffer := prefix + (entry + rest);
    SizeComesBack(file.name, size, mtime);
    NameComesBack(file.name, size, mtime);
    HeaderIsNotZero(file.name, size, mtime);
    PaddingOfNothing();
    var start := |prefix| + BLOCK;
    assert entry == h + (file.content + Zeros(Padding(size)));
    assert buffer[|prefix|..start] == h;
    assert buffer[start..start + size] == file.content;
    SubOfWhole(buffer, start, start + size);
    assert [file][1..] == [];
    assert Merged([], if size == 0 then files else files[ShownName(file.name) := file.content])
        == if size == 0 then files else files[ShownName(file.name) := file.content];
  }

  lemma SubOfWhole(buffer: Bytes, from: nat, to: nat)
    requires from <= to <= |buffer|
    ensures Sub(buffer, from, to) == buffer[from..to]
  {
  }

  lemma PaddingOfNothing()
    ensures Padding(0) == 0
  {
  }

  lemma {:induction false} ExtractEntries(prefix: Bytes, files: seq<File>, mtimes: seq<nat>, found: map<Bytes, Bytes>)
    requires |files| == |mtimes|
    requires forall i :: 0 <= i < |files| ==> |files[i].content| < Pow8(11)
    ensures ExtractFrom(prefix + BuildTar(files, mtimes), |prefix|, found) == Some(Merged(files, found))
    decreases |files|
  {
    hide *;
    if files == [] {
      ExtractEnd(prefix, files, mtimes, found);
    } else {
      var entry := TarEntry(files[0], mtimes[0]);
      var rest := BuildTar(files[1..], mtimes[1..]);
      BuildStep(files, mtimes);
      OneEntry(prefix, files[0], mtimes[0], rest, found);
      assert (prefix + entry) + rest == prefix + (entry + rest);
      MergedStep(files, found);
      ExtractEntries(prefix + entry, files[1..], mtimes[1..], Merged([files[0]], found));
    }
  }

  lemma BuildStep(files: seq<File>, mtimes: seq<nat>)
    requires |files| == |mtimes| && files != []
    ensures BuildTar(files, mtimes) == TarEntry(files[0], mtimes[0]) + BuildTar(files[1..], mtimes[1..])
  {
    hide TarEntry;
    var entry, rest := TarEntry(files[0], mtimes[0]), Entries(files[1..], mtimes[1..]);
    assert entry + rest + Zeros(2 * BLOCK) == entry + (rest + Zeros(2 * BLOCK));
  }

  lemma ExtractEnd(prefix: Bytes, files: seq<File>, mtimes: seq<nat>, found: map<Bytes, Bytes>)
    requires files == [] && mtimes == []
    ensures ExtractFrom(prefix + BuildTar(files, mtimes), |prefix|, found) == Some(Merged(files, found))
  {
    hide AllZero;
    var buffer := prefix + BuildTar(files, mtimes);
    assert buffer[|prefix|..|prefix| + BLOCK] == Zeros(BLOCK);
    ZerosAreZero(BLOCK);
  }

  lemma ZerosAreZero(n: nat)
    ensures AllZero(Zeros(n))
  {
  }

  lemma MergedStep(files: seq<File>, found: map<Bytes, Bytes>)
    requires files != []
    ensures Merged(files, found) == Merged(files[1..], Merged([files[0]], found))
  {
    assert [files[0]][1..] == [];
  }

  /** The archive is whole blocks, and the last two are zero. */
  lemma {:induction false} WholeBlocks(files: seq<File>, mtimes: seq<nat>)
    requires |files| == |mtimes|
    ensures |BuildTar(files, mtimes)| % 512 == 0 && |BuildTar(files, mtimes)| >= 1024
    ensures BuildTar(files, mtimes)[|BuildTar(files, mtimes)| - 1024..] == Zeros(1024)
  {
    if files == [] {
    } else {
      hide *;
      WholeBlocks(files[1..], mtimes[1..]);
      BuildStep(files, mtimes);
      WholeEntry(files[0], mtimes[0]);
      EndOfConcat(TarEntry(files[0], mtimes[0]), BuildTar(files[1..], mtimes[1..]));
    }
  }

  lemma WholeEntry(file: File, mtime: nat)
    ensures |TarEntry(file, mtime)| % 512 == 0
  {
    hide Header, Padding;
    PaddingFills(|file.content|);
  }

  lemma EndOfConcat(entry: Bytes, rest: Bytes)
    requires |entry| % 512 == 0 && |rest| % 512 == 0 && |rest| >= 1024
    ensures |entry + rest| % 512 == 0
    ensures (entry + rest)[|entry + rest| - 1024..] == rest[|rest| - 1024..]
  {
  }

  /** Round trip for every list of files under 8^11 bytes each, compression being an inverse pair: what comes back is
    * every non-empty file under its shown name, the last of a name winning. */
  lemma TarRoundTrip(
    files: seq<File>, mtimes: seq<nat>, gzip: Bytes -> Bytes, gunzip: Bytes -> Option<Bytes>)
    requires |files| == |mtimes|
    requires forall x :: gunzip(gzip(x)) == Some(x)
    requires forall i :: 0 <= i < |files| ==> |files[i].content| < Pow8(11)
    ensures gunzip(gzip(BuildTar(files, mtimes))).Some?
    ensures ExtractFrom(gunzip(gzip(BuildTar(files, mtimes))).value, 0, map[]) == Some(Merged(files, map[]))
  {
    ExtractEntries([], files, mtimes, map[]);
    assert [] + BuildTar(files, mtimes) == BuildTar(files, mtimes);
  }

  /** Files that survive the trip as they are: non-empty, distinct names of at most 100 bytes without NUL. */
  ghost predicate Plain(files: seq<File>) {
    && (forall i :: 0 <= i < |files| ==>
          files[i].content != [] && |files[i].name| <= 100 && 0 !in files[i].name)
    && (forall i, j :: 0 <= i < j < |files| ==> files[i].name != files[j].name)
  }

  /** For plain files, exactly their names and bytes come back. */
  lemma {:induction false} PlainFilesComeBack(files: seq<File>, found: map<Bytes, Bytes>)
    requires Plain(files)
    ensures forall i :: 0 <= i < |files| ==> files[i].name in Merged(files, found)
                                             && Merged(files, found)[files[i].name] == files[i].content
    ensures forall name :: (forall i :: 0 <= i < |files| ==> files[i].name != name) ==>
                             (name in Merged(files, found) <==> name in found)
                             && (name in found ==> Merged(files, found)[name] == found[name])
    decreases |files|
  {
    if files == [] {
    } else {
      var rest := files[1..];
      assert forall i :: 0 <= i < |rest| ==> rest[i] == files[i + 1];
      var name := files[0].name;
      assert ShownName(name) == name;
      PlainFilesComeBack(rest, found[name := files[0].content]);
      assert forall i :: 0 <= i < |rest| ==> rest[i].name != name;
      assert forall i :: 1 <= i < |files| ==> files[i] == rest[i - 1];
    }
  }
}
