/** The PNG encoder (astro/src/blurhash-decoder.ts): stored DEFLATE blocks in a zlib stream in three
    chunks, against a decoder that checks everything it reads. */
module PngWriter {
  import opened Common
  import opened PngChecksums

  // ---------------------------------------------------------------- numbers

  const LIMIT := 0x1_0000_0000

  /** `writeUInt32BE` */
  function Be32(n: nat): (b: seq<Byte>)
    requires n < LIMIT
    ensures |b| == 4
  {
    [Octet(n, 0x100_0000), Octet(n, 0x1_0000), Octet(n, 256), Octet(n, 1)]
  }

  /** One byte of a number: its digit at the given place. */
  function Octet(n: nat, place: nat): Byte
    requires place > 0
  {
    var q: nat := n / place;
    q % 256
  }

  function ReadBe32(b: seq<Byte>): nat
    requires |b| == 4
  {
    b[0] as nat * 0x100_0000 + b[1] as nat * 0x1_0000 + b[2] as nat * 256 + b[3] as nat
  }

  /** `writeUInt16LE` */
  function Le16(n: nat): (b: seq<Byte>)
    requires n < 0x1_0000
    ensures |b| == 2
  {
    [Octet(n, 1), Octet(n, 256)]
  }

  function ReadLe16(b: seq<Byte>): nat
    requires |b| == 2
  {
    b[0] as nat + b[1] as nat * 256
  }

  lemma Be32Back(n: nat)
    requires n < LIMIT
    ensures ReadBe32(Be32(n)) == n
  {
  }

  lemma Le16Back(n: nat)
    requires n < 0x1_0000
    ensures ReadLe16(Le16(n)) == n
  {
  }

  // ---------------------------------------------------------------- encoding

  /** Bit depth 8, colour type RGBA, and the three methods 0. */
  const FORMAT: seq<Byte> := [8, 6, 0, 0, 0]
  const NO_FILTER: seq<Byte> := [0]
  const ZLIB_HEADER: seq<Byte> := [0x78, 0x01]
  const SIGNATURE: seq<Byte> := [0x89, 0x50, 0x4e, 0x47, 0x0d, 0x0a, 0x1a, 0x0a]
  const IHDR: seq<Byte> := [0x49, 0x48, 0x44, 0x52]
  const IDAT: seq<Byte> := [0x49, 0x44, 0x41, 0x54]
  const IEND: seq<Byte> := [0x49, 0x45, 0x4e, 0x44]
  const MAX := 0xffff

  function Chunk(kind: seq<Byte>, data: seq<Byte>): seq<Byte>
    requires |kind| == 4 && |data| < LIMIT
  {
    Be32(|data|) + (kind + (data + Be32(Crc32(kind + data))))
  }

  function Final(last: bool): seq<Byte> {
    if last then [1] else [0]
  }

  /** One stored block: its header, and the data. */
  function Block(data: seq<Byte>, last: bool): seq<Byte>
    requires |data| <= MAX
  {
    Final(last) + (Le16(|data|) + (Le16(MAX - |data|) + data))
  }

  function Blocks(data: seq<Byte>): seq<Byte>
    decreases |data|
  {
    if data == [] then []
    else if |data| <= MAX then Block(data, true)
    else Block(data[..MAX], false) + Blocks(data[MAX..])
  }

  function Zlib(data: seq<Byte>): seq<Byte> {
    ZLIB_HEADER + (Blocks(data) + Be32(Adler32(data)))
  }

  /** `rgba[k] ?? 0` */
  function Sample(rgba: seq<Byte>, k: nat): Byte {
    if k < |rgba| then rgba[k] else 0
  }

  /** The samples of `n` bytes from `k` on, with zeros where the array has ended. */
  function Samples(rgba: seq<Byte>, k: nat, n: nat): (s: seq<Byte>)
    ensures |s| == n && forall x | 0 <= x < n :: s[x] == Sample(rgba, k + x)
  {
    if n == 0 then [] else Samples(rgba, k, n - 1) + [Sample(rgba, k + n - 1)]
  }

  /** `rows` rows of `bytes` bytes. */
  function Area(rows: nat, bytes: nat): nat {
    if rows == 0 then 0 else Area(rows - 1, bytes) + bytes
  }

  lemma {:induction false} AreaIs(rows: nat, bytes: nat)
    ensures Area(rows, bytes) == rows * bytes
  {
    if rows > 0 {
      AreaIs(rows - 1, bytes);
    }
  }

  /** The first `rows` scanlines of `bytes` bytes each, every one behind a filter byte 0. */
  function Scanlines(rgba: seq<Byte>, bytes: nat, rows: nat): (s: seq<Byte>)
    ensures |s| == Area(rows, bytes + 1)
  {
    if rows == 0 then [] else Scanlines(rgba, bytes, rows - 1) + (NO_FILTER + Samples(rgba, Area(rows - 1, bytes), bytes))
  }

  function Header(width: nat, height: nat): (h: seq<Byte>)
    requires width < LIMIT && height < LIMIT
    ensures |h| == 13
  {
    Be32(width) + (Be32(height) + FORMAT)
  }

  /** What fits: the three numbers written as 32 bits. */
  predicate Fits(rgba: seq<Byte>, width: nat, height: nat) {
    width < LIMIT && height < LIMIT && |Zlib(Scanlines(rgba, 4 * width, height))| < LIMIT
  }

  function Png(rgba: seq<Byte>, width: nat, height: nat): seq<Byte>
    requires Fits(rgba, width, height)
  {
    SIGNATURE + (Chunk(IHDR, Header(width, height)) + (Chunk(IDAT, Zlib(Scanlines(rgba, 4 * width, height))) + Chunk(IEND, [])))
  }

  // ---------------------------------------------------------------- decoding

  /** The bytes are the characters of the name. */
  predicate Named(b: seq<Byte>, name: string) {
    |b| == |name| && forall k | 0 <= k < |b| :: b[k] as int == name[k] as int
  }

  /** Section 3.1 of RFC 2083. */
  predicate Signed(b: seq<Byte>) {
    |b| == 8 && b[0] == 137 && b[1] == 80 && b[2] == 78 && b[3] == 71 && b[4] == 13 && b[5] == 10 && b[6] == 26 && b[7] == 10
  }

  /** Eight bits a sample, colour with alpha, and compression, filtering and interlacing as they come
      (section 4.1.1 of RFC 2083). */
  predicate Plain(b: seq<Byte>) {
    |b| == 5 && b[0] == 8 && b[1] == 6 && b[2] == 0 && b[3] == 0 && b[4] == 0
  }

  datatype Part = Part(kind: seq<Byte>, data: seq<Byte>, rest: seq<Byte>)

  /** A chunk, if its length fits and its CRC is right (section 3.2 of RFC 2083). */
  function ReadChunk(d: seq<Byte>): Option<Part> {
    if |d| < 12 then None
    else
      var n := ReadBe32(d[..4]);
      if 12 + n > |d| || d[8 + n..12 + n] != Be32(Crc32(d[4..8 + n])) then None
      else Some(Part(d[4..8], d[8..8 + n], d[12 + n..]))
  }

  datatype Inflated = Inflated(data: seq<Byte>, rest: seq<Byte>)

  /** Stored blocks up to the final one (section 3.2.4 of RFC 1951): each length with its complement. */
  function Inflate(d: seq<Byte>): Option<Inflated>
    decreases |d|
  {
    if |d| < 5 || d[0] > 1 then None
    else
      var n := ReadLe16(d[1..3]);
      if ReadLe16(d[3..5]) != 0xffff - n || 5 + n > |d| then None
      else if d[0] == 1 then Some(Inflated(d[5..5 + n], d[5 + n..]))
      else
        var r := Inflate(d[5 + n..]);
        if r.None? then None else Some(Inflated(d[5..5 + n] + r.value.data, r.value.rest))
  }

  /** A zlib stream (section 2.2 of RFC 1950): method 8, header check, no dictionary, and the Adler-32
      of the data at the very end. */
  function Unzlib(d: seq<Byte>): Option<seq<Byte>> {
    if |d| < 2 || d[0] % 16 != 8 || (256 * d[0] as nat + d[1] as nat) % 31 != 0 || d[1] / 32 % 2 != 0 then None
    else
      var r := Inflate(d[2..]);
      if r.None? || r.value.rest != Be32(Adler32(r.value.data)) then None else Some(r.value.data)
  }

  /** The samples of the scanlines, each of which must have filter 0. */
  function Unfilter(d: seq<Byte>, bytes: nat): Option<seq<Byte>>
    decreases |d|
  {
    if d == [] then Some([])
    else if |d| < bytes + 1 || d[0] != 0 then None
    else
      var r := Unfilter(d[bytes + 1..], bytes);
      if r.None? then None else Some(d[1..bytes + 1] + r.value)
  }

  datatype Image = Image(width: nat, height: nat, pixels: seq<Byte>)

  /** The header and the compressed data of a file that is exactly three chunks. */
  datatype Parts = Parts(header: seq<Byte>, body: seq<Byte>)

  function ReadParts(d: seq<Byte>): Option<Parts> {
    if |d| < 8 || !Signed(d[..8]) then None
    else
      var header := ReadChunk(d[8..]);
      if header.None? || !Named(header.value.kind, "IHDR") then None
      else
        var body := ReadChunk(header.value.rest);
        if body.None? || !Named(body.value.kind, "IDAT") then None
        else
          var end := ReadChunk(body.value.rest);
          if end.None? || !Named(end.value.kind, "IEND") || end.value.data != [] || end.value.rest != [] then None
          else Some(Parts(header.value.data, body.value.data))
  }

  function ReadImage(width: nat, height: nat, body: seq<Byte>): Option<Image> {
    var data := Unzlib(body);
    if data.None? || |data.value| != Area(height, 4 * width + 1) then None
    else
      var pixels := Unfilter(data.value, 4 * width);
      if pixels.None? then None else Some(Image(width, height, pixels.value))
  }

  const MAX_SIDE := 0x7fff_ffff

  /** Zero is no size, nor is what 31 bits cannot hold (section 4.1.1 of RFC 2083). */
  predicate Side(n: nat) {
    0 < n <= MAX_SIDE
  }

  /** The sides of an 8-bit RGBA image without interlacing. */
  function Sides(header: seq<Byte>): Option<(nat, nat)> {
    if |header| != 13 || !Plain(header[8..]) then None
    else
      var width, height := ReadBe32(header[..4]), ReadBe32(header[4..8]);
      if Side(width) && Side(height) then Some((width, height)) else None
  }

  function Decode(d: seq<Byte>): Option<Image> {
    var parts := ReadParts(d);
    if parts.None? then None
    else
      var sides := Sides(parts.value.header);
      if sides.None? then None else ReadImage(sides.value.0, sides.value.1, parts.value.body)
  }

  // ---------------------------------------------------------------- the round trip

  lemma ChunkBack(kind: seq<Byte>, data: seq<Byte>, rest: seq<Byte>)
    requires |kind| == 4 && |data| < LIMIT
    ensures ReadChunk(Chunk(kind, data) + rest) == Some(Part(kind, data, rest))
  {
    hide Be32, ReadBe32, Crc32;
    var n := |data|;
    var d := Chunk(kind, data) + rest;
    assert d == Be32(n) + (kind + (data + (Be32(Crc32(kind + data)) + rest)));
    Be32Back(n);
    assert d[..4] == Be32(n) && d[4..8] == kind && d[8..8 + n] == data;
    assert d[4..8 + n] == kind + data;
    assert d[8 + n..12 + n] == Be32(Crc32(kind + data)) && d[12 + n..] == rest;
  }

  lemma BlockReads(data: seq<Byte>, last: bool, rest: seq<Byte>)
    requires |data| <= MAX
    ensures var d := Block(data, last) + rest; var n := |data|;
      |d| >= 5 + n && d[0] == (if last then 1 else 0) && ReadLe16(d[1..3]) == n && ReadLe16(d[3..5]) == MAX - n && d[5..5 + n] == data && d[5 + n..] == rest
  {
    hide Le16, ReadLe16;
    var n := |data|;
    var d := Block(data, last) + rest;
    assert d == Final(last) + (Le16(n) + (Le16(MAX - n) + (data + rest)));
    Le16Back(n);
    Le16Back(MAX - n);
    assert d[1..3] == Le16(n) && d[3..5] == Le16(MAX - n);
  }

  lemma {:induction false} InflateBack(data: seq<Byte>, rest: seq<Byte>)
    requires data != []
    ensures Inflate(Blocks(data) + rest) == Some(Inflated(data, rest))
    decreases |data|
  {
    hide Block, ReadLe16;
    if |data| <= MAX {
      BlockReads(data, true, rest);
    } else {
      var more := Blocks(data[MAX..]) + rest;
      InflateBack(data[MAX..], rest);
      BlockReads(data[..MAX], false, more);
      assert Blocks(data) + rest == Block(data[..MAX], false) + more;
      assert data == data[..MAX] + data[MAX..];
    }
  }

  lemma ZlibBack(data: seq<Byte>)
    ensures Unzlib(Zlib(data)) == if data == [] then None else Some(data)
  {
    hide Be32, Adler32, Blocks, Inflate;
    var d := Zlib(data);
    assert d[2..] == Blocks(data) + Be32(Adler32(data));
    if data != [] {
      InflateBack(data, Be32(Adler32(data)));
    } else {
      NothingInflates(Be32(Adler32(data)));
    }
  }

  /** An empty stream has no final block. */
  lemma NothingInflates(rest: seq<Byte>)
    requires |rest| == 4
    ensures Inflate(Blocks([]) + rest).None?
  {
    assert |Blocks([]) + rest| == 4;
  }

  lemma {:induction false} UnfilterSnoc(d: seq<Byte>, bytes: nat, row: seq<Byte>)
    requires |row| == bytes && Unfilter(d, bytes).Some?
    ensures Unfilter(d + (NO_FILTER + row), bytes) == Some(Unfilter(d, bytes).value + row)
    decreases |d|
  {
    if d == [] {
      assert d + (NO_FILTER + row) == NO_FILTER + row;
      assert (NO_FILTER + row)[bytes + 1..] == [] && (NO_FILTER + row)[1..bytes + 1] == row;
      assert row + [] == row == [] + row;
    } else {
      UnfilterSnoc(d[bytes + 1..], bytes, row);
      var e := d + (NO_FILTER + row);
      assert e[bytes + 1..] == d[bytes + 1..] + (NO_FILTER + row) && e[1..bytes + 1] == d[1..bytes + 1];
      Regroup(d[1..bytes + 1], Unfilter(d[bytes + 1..], bytes).value, row);
    }
  }

  lemma {:induction false} UnfilterBack(rgba: seq<Byte>, bytes: nat, rows: nat)
    ensures Unfilter(Scanlines(rgba, bytes, rows), bytes) == Some(Samples(rgba, 0, Area(rows, bytes)))
  {
    if rows > 0 {
      UnfilterBack(rgba, bytes, rows - 1);
      var before := Area(rows - 1, bytes);
      UnfilterSnoc(Scanlines(rgba, bytes, rows - 1), bytes, Samples(rgba, before, bytes));
      assert Samples(rgba, 0, before + bytes) == Samples(rgba, 0, before) + Samples(rgba, before, bytes);
    }
  }

  lemma HeaderBack(width: nat, height: nat)
    requires width < LIMIT && height < LIMIT
    ensures var h := Header(width, height); ReadBe32(h[..4]) == width && ReadBe32(h[4..8]) == height && h[8..] == FORMAT
  {
    hide Be32, ReadBe32;
    Be32Back(width);
    Be32Back(height);
    var h := Header(width, height);
    assert h[..4] == Be32(width) && h[4..8] == Be32(height);
  }

  /** The decoder gets back the size and the pixels exactly when the image has a pixel. */
  lemma PngBack(rgba: seq<Byte>, width: nat, height: nat)
    requires Fits(rgba, width, height)
    ensures Decode(Png(rgba, width, height)) ==
      if width == 0 || height == 0 then None else Some(Image(width, height, Samples(rgba, 0, Area(height, 4 * width))))
  {
    hide ReadParts, ReadImage, Header, ReadBe32, Png, Zlib, Scanlines, Samples;
    PartsBack(rgba, width, height);
    HeaderBack(width, height);
    NamesAre();
    ImageBack(rgba, width, height);
    if width > 0 && height > 0 { SidesFit(rgba, width, height); }
  }

  /** `n` bytes: those of the array, with zeros where it has ended. */
  predicate PixelsOf(pixels: seq<Byte>, rgba: seq<Byte>, n: nat) {
    |pixels| == n && forall x | 0 <= x < n :: pixels[x] == if x < |rgba| then rgba[x] else 0
  }

  /** What comes back is four bytes for every pixel. */
  lemma PixelsAre(rgba: seq<Byte>, width: nat, height: nat)
    ensures PixelsOf(Samples(rgba, 0, Area(height, 4 * width)), rgba, height * (4 * width))
  {
    AreaIs(height, 4 * width);
    hide Area;
  }

  lemma {:induction false} BlocksLonger(data: seq<Byte>)
    ensures |Blocks(data)| >= |data|
    decreases |data|
  {
    if |data| > MAX { BlocksLonger(data[MAX..]); }
  }

  /** A side that 31 bits cannot hold makes more data than a chunk takes. */
  lemma SidesFit(rgba: seq<Byte>, width: nat, height: nat)
    requires Fits(rgba, width, height) && width > 0 && height > 0
    ensures Side(width) && Side(height)
  {
    hide Scanlines, Zlib, Unfilter, Samples;
    var data := Scanlines(rgba, 4 * width, height);
    ZlibLonger(data);
    UnfilterBack(rgba, 4 * width, height);
    AreaIs(height, 4 * width + 1);
    Times(height, 4 * width + 1);
    hide Area, Fits;
  }

  lemma ZlibLonger(data: seq<Byte>)
    ensures |Zlib(data)| >= |data|
  {
    hide Blocks, Be32, Adler32;
    BlocksLonger(data);
  }

  lemma Times(rows: nat, bytes: nat)
    requires rows > 0 && bytes >= 5
    ensures rows * bytes >= bytes && rows * bytes >= 5 * rows
  {
    var more := rows * (bytes - 5);
    assert rows * bytes == more + 5 * rows;
    assert rows * bytes == (rows - 1) * bytes + bytes;
  }

  lemma NamesAre()
    ensures Named(IHDR, "IHDR") && Named(IDAT, "IDAT") && Named(IEND, "IEND") && Signed(SIGNATURE) && Plain(FORMAT)
  {
  }

  lemma PartsBack(rgba: seq<Byte>, width: nat, height: nat)
    requires Fits(rgba, width, height)
    ensures ReadParts(Png(rgba, width, height)) == Some(Parts(Header(width, height), Zlib(Scanlines(rgba, 4 * width, height))))
  {
    hide Chunk, ReadChunk, Header, Zlib, Scanlines, Named, Signed;
    NamesAre();
    var data := Zlib(Scanlines(rgba, 4 * width, height));
    var end := Chunk(IEND, []);
    var body := Chunk(IDAT, data) + end;
    var d := Png(rgba, width, height);
    assert d[..8] == SIGNATURE && d[8..] == Chunk(IHDR, Header(width, height)) + body;
    ChunkBack(IHDR, Header(width, height), body);
    ChunkBack(IDAT, data, end);
    ChunkBack(IEND, [], []);
    assert end + [] == end;
  }

  /** Without a row the stream has no final block, and is refused on its own account. */
  lemma ImageBack(rgba: seq<Byte>, width: nat, height: nat)
    ensures ReadImage(width, height, Zlib(Scanlines(rgba, 4 * width, height))) ==
      if height == 0 then None else Some(Image(width, height, Samples(rgba, 0, Area(height, 4 * width))))
  {
    hide Zlib, Unzlib, Scanlines, Unfilter, Samples;
    ZlibBack(Scanlines(rgba, 4 * width, height));
    UnfilterBack(rgba, 4 * width, height);
    RowsEmpty(height, 4 * width + 1);
  }

  lemma RowsEmpty(rows: nat, bytes: nat)
    requires bytes > 0
    ensures Area(rows, bytes) == 0 <==> rows == 0
  {
  }

  // ---------------------------------------------------------------- the code's own form

  method MakeChunk(kind: seq<Byte>, data: seq<Byte>) returns (chunk: seq<Byte>)
    requires |kind| == 4 && |data| < LIMIT
    ensures chunk == Chunk(kind, data)
  {
    var crc := ComputeCrc32(kind + data);
    chunk := Be32(|data|) + (kind + (data + Be32(crc)));
  }

  method WrapZlibUncompressed(data: seq<Byte>) returns (out: seq<Byte>)
    ensures out == Zlib(data)
  {
    hide Adler32, Be32;
    var blocks: seq<Byte> := [];
    var offset := 0;
    assert data[0..] == data && blocks + Blocks(data) == Blocks(data);
    while offset < |data|
      invariant 0 <= offset <= |data|
      invariant Blocks(data) == blocks + Blocks(data[offset..])
    {
      var chunk := if |data| - offset < MAX then |data| - offset else MAX;
      var isLast := offset + chunk == |data|;
      var block := Block(data[offset..offset + chunk], isLast);
      BlockNext(data, offset, chunk);
      Regroup(blocks, block, Blocks(data[offset + chunk..]));
      blocks := blocks + block;
      offset := offset + chunk;
    }
    assert blocks + Blocks([]) == blocks;
    var adler := ComputeAdler32(data);
    out := ZLIB_HEADER + (blocks + Be32(adler));
  }

  lemma BlockNext(data: seq<Byte>, offset: nat, chunk: nat)
    requires offset < |data| && chunk == if |data| - offset < MAX then |data| - offset else MAX
    ensures Blocks(data[offset..]) == Block(data[offset..offset + chunk], offset + chunk == |data|) + Blocks(data[offset + chunk..])
  {
    hide Block;
    var s := data[offset..];
    if |s| <= MAX {
      assert s == data[offset..offset + chunk] && data[offset + chunk..] == [];
      assert Blocks(s) + [] == Blocks(s);
    } else {
      assert s[..MAX] == data[offset..offset + chunk] && s[MAX..] == data[offset + chunk..];
    }
  }

  /** The scanlines, written into a buffer row by row. */
  method FilterRows(rgba: seq<Byte>, width: nat, height: nat) returns (filtered: seq<Byte>)
    ensures filtered == Scanlines(rgba, 4 * width, height)
  {
    hide Offset, Area, Scanlines, Samples, Sample;
    var bytes := 4 * width;
    var scanlineBytes := bytes + 1;
    var buffer := new Byte[Offset(height, scanlineBytes)];
    ScanlinesStart(rgba, bytes);
    for y := 0 to height
      invariant Area(y, scanlineBytes) <= buffer.Length == Area(height, scanlineBytes)
      invariant buffer[..Area(y, scanlineBytes)] == Scanlines(rgba, bytes, y)
    {
      AreaGrows(y + 1, height, scanlineBytes);
      var offDst, offSrc := Offset(y, scanlineBytes), Offset(y, bytes);
      ScanlinesNext(rgba, bytes, y);
      buffer[offDst] := 0;
      ghost var done := Scanlines(rgba, bytes, y) + NO_FILTER;
      assert buffer[..offDst + 1] == done;
      WriteRow(buffer, offDst + 1, rgba, offSrc, bytes, done);
      Regroup(Scanlines(rgba, bytes, y), NO_FILTER, Samples(rgba, offSrc, bytes));
    }
    assert buffer[..buffer.Length] == buffer[..];
    filtered := buffer[..];
  }

  function Offset(row: nat, bytes: nat): (n: nat)
    ensures n == Area(row, bytes)
  {
    AreaIs(row, bytes);
    row * bytes
  }

  /** One row of samples, written behind what is done. */
  method WriteRow(buffer: array<Byte>, at: nat, rgba: seq<Byte>, from: nat, bytes: nat, ghost done: seq<Byte>)
    requires at + bytes <= buffer.Length && buffer[..at] == done
    modifies buffer
    ensures buffer[..at + bytes] == done + Samples(rgba, from, bytes)
  {
    hide Samples, Sample;
    SamplesNone(rgba, from);
    assert done + [] == done;
    for x := 0 to bytes
      invariant buffer[..at + x] == done + Samples(rgba, from, x)
    {
      buffer[at + x] := Sample(rgba, from + x);
      SamplesNext(rgba, from, x);
      assert buffer[..at + x + 1] == buffer[..at + x] + [Sample(rgba, from + x)];
      Regroup(done, Samples(rgba, from, x), [Sample(rgba, from + x)]);
    }
  }

  lemma {:induction false} AreaGrows(y: nat, height: nat, bytes: nat)
    requires y <= height
    ensures Area(y, bytes) <= Area(height, bytes)
    decreases height - y
  {
    if y < height {
      AreaGrows(y + 1, height, bytes);
    }
  }

  lemma ScanlinesStart(rgba: seq<Byte>, bytes: nat)
    ensures Scanlines(rgba, bytes, 0) == [] && Area(0, bytes + 1) == 0
  {
  }

  lemma ScanlinesNext(rgba: seq<Byte>, bytes: nat, y: nat)
    ensures Area(y + 1, bytes + 1) == Area(y, bytes + 1) + bytes + 1
    ensures Scanlines(rgba, bytes, y + 1) == Scanlines(rgba, bytes, y) + (NO_FILTER + Samples(rgba, Area(y, bytes), bytes))
  {
  }

  lemma SamplesNone(rgba: seq<Byte>, k: nat)
    ensures Samples(rgba, k, 0) == []
  {
  }

  lemma SamplesNext(rgba: seq<Byte>, k: nat, n: nat)
    ensures Samples(rgba, k, n + 1) == Samples(rgba, k, n) + [Sample(rgba, k + n)]
  {
  }

  method EncodePng(rgba: seq<Byte>, width: nat, height: nat) returns (png: seq<Byte>)
    requires Fits(rgba, width, height)
    ensures png == Png(rgba, width, height)
  {
    var filtered := FilterRows(rgba, width, height);
    var idat := WrapZlibUncompressed(filtered);
    var first := MakeChunk(IHDR, Header(width, height));
    var second := MakeChunk(IDAT, idat);
    var third := MakeChunk(IEND, []);
    png := SIGNATURE + (first + (second + third));
  }
}
