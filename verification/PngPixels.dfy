/**
 Whole files, byte by byte: what the decoders make of any conforming file, and what
 the canonical encoder and the lineage binder write. Tags and constants are spelled out.
 */
module PngPixels {
  import opened Options
  import opened Splicing
  import opened PngFilter
  import opened PngRows
  import opened PngCodec
  import opened PngLineage

  // ------------------------------------------------------------ decoding any file

  /** Neither a header nor the end. */
  ghost predicate Middle(chunks: seq<RawChunk>) {
    forall i :: 0 <= i < |chunks| ==>
      Fits(chunks[i]) && chunks[i].tag != [0x49, 0x48, 0x44, 0x52] && chunks[i].tag != [0x49, 0x45, 0x4E, 0x44]
  }

  /** What each chunk contributes to the compressed stream: its data if it is an IDAT. */
  function Contribution(k: RawChunk): seq<byte> { if k.tag == [0x49, 0x44, 0x41, 0x54] then k.data else [] }

  function Contributions(chunks: seq<RawChunk>): (parts: seq<seq<byte>>)
    ensures |parts| == |chunks| && forall i :: 0 <= i < |chunks| ==> parts[i] == Contribution(chunks[i])
  {
    seq(|chunks|, i requires 0 <= i < |chunks| => Contribution(chunks[i]))
  }

  lemma WalkOne(k: RawChunk, rest: seq<byte>, whole: seq<byte>, seen: Seen, alphaAllowed: bool)
    requires Middle([k]) && Fits([k][0]) && whole == Bytes(k) + rest
    ensures Walk(whole, seen, alphaAllowed) == Walk(rest, seen.(idat := seen.idat + Contribution(k)), alphaAllowed)
  {
    assert [k][0] == k;
    WalkChunk(k.tag, k.data, k.crc, rest, seen, alphaAllowed);
    assert seen.idat + [] == seen.idat;
  }

  /** The walk collects the IDAT data in file order, whatever other chunks stand between. */
  lemma {:induction false} WalkMiddle(chunks: seq<RawChunk>, rest: seq<byte>, whole: seq<byte>, seen: Seen, alphaAllowed: bool)
    requires Middle(chunks) && whole == Serialize(chunks) + rest
    ensures Walk(whole, seen, alphaAllowed)
            == Walk(rest, seen.(idat := seen.idat + Flatten(Contributions(chunks))), alphaAllowed)
    decreases |chunks|
  {
    if chunks == [] {
      assert whole == rest && seen.idat + [] == seen.idat;
    } else {
      var first, tail := chunks[0], Serialize(chunks[1..]) + rest;
      Assoc(Bytes(first), Serialize(chunks[1..]), rest);
      assert Middle([first]);
      WalkOne(first, tail, whole, seen, alphaAllowed);
      var next := seen.(idat := seen.idat + Contribution(first));
      WalkMiddle(chunks[1..], rest, tail, next, alphaAllowed);
      assert Contributions(chunks)[1..] == Contributions(chunks[1..]);
      Assoc(seen.idat, Contribution(first), Flatten(Contributions(chunks[1..])));
    }
  }

  /** A header chunk for an image of this size and colour type. */
  ghost predicate HeaderChunk(k: RawChunk, width: nat, height: nat, colour: byte) {
    && Fits(k) && k.tag == [0x49, 0x48, 0x44, 0x52] && |k.data| == 13
    && FromBe(k.data[0..4]) == width && FromBe(k.data[4..8]) == height
    && k.data[8..] == [8, colour, 0, 0, 0]
  }

  ghost predicate EndingChunk(k: RawChunk) { Fits(k) && k.tag == [0x49, 0x45, 0x4E, 0x44] }

  /** The eight signature bytes, a header, any chunks, an end, and anything after it. */
  ghost predicate FileOf(data: seq<byte>, header: RawChunk, middle: seq<RawChunk>, end: RawChunk, tail: seq<byte>) {
    && Fits(header) && Fits(end) && Middle(middle)
    && data == [0x89, 0x50, 0x4E, 0x47, 0x0D, 0x0A, 0x1A, 0x0A]
               + (Bytes(header) + (Serialize(middle) + (Bytes(end) + tail)))
  }

  lemma HeaderReads(k: RawChunk, width: nat, height: nat, colour: byte, alphaAllowed: bool)
    requires HeaderChunk(k, width, height, colour) && width >= 1 && height >= 1
    requires colour == 2 || (colour == 6 && alphaAllowed)
    ensures ReadHeader(k.data, alphaAllowed) == Some(Header(width, height, colour))
  {
    assert k.data[8] == k.data[8..][0] && k.data[9] == k.data[8..][1] && k.data[10] == k.data[8..][2]
        && k.data[11] == k.data[8..][3] && k.data[12] == k.data[8..][4];
  }

  lemma WalkFile(data: seq<byte>, header: RawChunk, middle: seq<RawChunk>, end: RawChunk, tail: seq<byte>,
                 width: nat, height: nat, colour: byte, packed: seq<byte>, alphaAllowed: bool)
    requires FileOf(data, header, middle, end, tail) && EndingChunk(end) && packed == Flatten(Contributions(middle))
    requires HeaderChunk(header, width, height, colour) && width >= 1 && height >= 1
    requires colour == 2 || (colour == 6 && alphaAllowed)
    ensures Signed(data)
    ensures Walk(data[8..], NOTHING_SEEN, alphaAllowed) == Some(Seen(Some(Header(width, height, colour)), packed, colour == 6))
  {
    var last := Bytes(end) + tail;
    var rest := Serialize(middle) + last;
    assert data[8..] == Bytes(header) + rest;
    HeaderReads(header, width, height, colour, alphaAllowed);
    WalkChunk(header.tag, header.data, header.crc, rest, NOTHING_SEEN, alphaAllowed);
    var seen := Seen(Some(Header(width, height, colour)), [], colour == 6);
    WalkMiddle(middle, last, rest, seen, alphaAllowed);
    assert [] + packed == packed;
    WalkChunk(end.tag, end.data, end.crc, tail, seen.(idat := packed), alphaAllowed);
  }

  /** What inflating must give: rows of `width` pixels under any filters of the standard. */
  ghost predicate Filtered(kinds: seq<byte>, rows: seq<seq<byte>>, width: nat, height: nat, channels: nat) {
    && |kinds| == |rows| == height && channels > 0
    && (forall i :: 0 <= i < height ==> |rows[i]| == channels * width && kinds[i] <= 4)
  }

  lemma {:induction false} FilteredLength(kinds: seq<byte>, rows: seq<seq<byte>>, stride: nat, bpp: nat, prev: seq<byte>)
    requires |kinds| == |rows| && |prev| == stride && bpp > 0
    requires forall i :: 0 <= i < |rows| ==> |rows[i]| == stride
    ensures |FilteredRows(kinds, rows, stride, bpp, prev)| == RowStart(|rows|, stride)
    decreases |rows|
  {
    if rows != [] { FilteredLength(kinds[1..], rows[1..], stride, bpp, rows[0]); }
  }

  lemma FilteredDecode(kinds: seq<byte>, rows: seq<seq<byte>>, stride: nat, channels: nat, raw: seq<byte>)
    requires |kinds| == |rows| && channels > 0 && forall i :: 0 <= i < |rows| ==> |rows[i]| == stride && kinds[i] <= 4
    requires raw == FilteredRows(kinds, rows, stride, channels, Zeros(stride))
    ensures |raw| == RowStart(|rows|, stride) && Rows(raw, stride, channels, Zeros(stride), true) == Some(rows)
  {
    DecodeInvertsEncode(kinds, rows, stride, channels, Zeros(stride), true);
    FilteredLength(kinds, rows, stride, channels, Zeros(stride));
  }

  lemma PlainPixels(c: Codec, rows: seq<seq<byte>>, width: nat, height: nat, packed: seq<byte>, raw: seq<byte>)
    requires packed != [] && c.inflate(packed) == Some(raw) && |raw| == RowStart(height, width * 3)
    requires Rows(raw, width * 3, 3, Zeros(width * 3), true) == Some(rows)
    ensures Pixels(c, Seen(Some(Header(width, height, 2)), packed, false)) == Ok(Image(width, height, Flatten(rows)))
  {
  }

  lemma AlphaPixels(c: Codec, rows: seq<seq<byte>>, width: nat, height: nat, packed: seq<byte>, raw: seq<byte>)
    requires packed != [] && c.inflate(packed) == Some(raw) && |raw| == RowStart(height, width * 4)
    requires Rows(raw, width * 4, 4, Zeros(width * 4), true) == Some(rows)
    requires forall i :: 0 <= i < |rows| ==> |rows[i]| == 4 * width
    ensures Pixels(c, Seen(Some(Header(width, height, 6)), packed, true)) == Ok(Image(width, height, DropAlphas(rows, width)))
  {
  }

  lemma PixelsDecode(c: Codec, kinds: seq<byte>, rows: seq<seq<byte>>, width: nat, height: nat, colour: byte, packed: seq<byte>)
    requires (colour == 2 || colour == 6) && packed != []
    requires var channels := if colour == 2 then 3 else 4;
             && Filtered(kinds, rows, width, height, channels)
             && c.inflate(packed) == Some(FilteredRows(kinds, rows, channels * width, channels, Zeros(channels * width)))
    ensures var r := Pixels(c, Seen(Some(Header(width, height, colour)), packed, colour == 6));
            && r.Ok? && r.value.width == width && r.value.height == height
            && PixelLaw(rows, width, if colour == 2 then 3 else 4, r.value.rgb)
  {
    var raw := c.inflate(packed).value;
    if colour == 2 {
      FilteredDecode(kinds, rows, 3 * width, 3, raw);
      assert 3 * width == width * 3;
      PlainPixels(c, rows, width, height, packed, raw);
      PlainLaw(rows, width);
    } else {
      FilteredDecode(kinds, rows, 4 * width, 4, raw);
      assert 4 * width == width * 4;
      AlphaPixels(c, rows, width, height, packed, raw);
      StripLaw(rows, width);
    }
  }

  /**
   Any file of RGB or RGBA rows, under any filter per row, its compressed stream split over any IDAT
   chunks with any other chunks between, decodes to the red, green and blue of those rows.
   */
  lemma AnyFileDecodes(c: Codec, data: seq<byte>, header: RawChunk, middle: seq<RawChunk>, end: RawChunk, tail: seq<byte>,
                       kinds: seq<byte>, rows: seq<seq<byte>>, width: nat, height: nat, colour: byte, packed: seq<byte>,
                       alphaAllowed: bool)
    requires FileOf(data, header, middle, end, tail) && EndingChunk(end) && HeaderChunk(header, width, height, colour)
    requires width >= 1 && height >= 1 && (colour == 2 || (colour == 6 && alphaAllowed))
    requires IsJoin(Contributions(middle), packed) && packed != []
    requires var channels := if colour == 2 then 3 else 4;
             && Filtered(kinds, rows, width, height, channels)
             && c.inflate(packed) == Some(FilteredRows(kinds, rows, channels * width, channels, Zeros(channels * width)))
    ensures var r := Decode(c, data, alphaAllowed);
            && r.Ok? && r.value.width == width && r.value.height == height
            && PixelLaw(rows, width, if colour == 2 then 3 else 4, r.value.rgb)
  {
    FlattenJoins(Contributions(middle));
    JoinIsUnique(Contributions(middle), packed, Flatten(Contributions(middle)));
    WalkFile(data, header, middle, end, tail, width, height, colour, packed, alphaAllowed);
    PixelsDecode(c, kinds, rows, width, height, colour, packed);
  }

  lemma {:induction false} JoinIsUnique(parts: seq<seq<byte>>, a: seq<byte>, b: seq<byte>)
    requires IsJoin(parts, a) && IsJoin(parts, b)
    ensures a == b
  {
    forall i | 0 <= i < |a| ensures a[i] == b[i] {
      var j, k := Locate(parts, |parts|, i);
      assert StandsAt(a, Offset(parts, j) + k, parts[j][k]) && StandsAt(b, Offset(parts, j) + k, parts[j][k]);
    }
  }

  lemma {:induction false} Locate(parts: seq<seq<byte>>, n: nat, i: nat) returns (j: nat, k: nat)
    requires n <= |parts| && i < Offset(parts, n)
    ensures j < n && k < |parts[j]| && i == Offset(parts, j) + k
    decreases n
  {
    if i >= Offset(parts, n - 1) {
      j, k := n - 1, i - Offset(parts, n - 1);
    } else {
      j, k := Locate(parts, n - 1, i);
    }
  }

  // ------------------------------------------------------------ what the encoder writes

  /** Rows under filter 0: a 0 byte and the row's pixels, one after another. */
  ghost predicate PlainRows(raw: seq<byte>, width: nat, height: nat, rgb: seq<byte>) {
    && |raw| == height * (3 * width + 1) && |rgb| == height * (3 * width)
    && forall y :: 0 <= y < height ==> PlainRow(raw, width, rgb, y)
  }

  ghost predicate PlainRow(raw: seq<byte>, width: nat, rgb: seq<byte>, y: nat) {
    var start, pixel := y * (3 * width + 1), y * (3 * width);
    && 0 <= start && start + 1 + 3 * width <= |raw| && 0 <= pixel && pixel + 3 * width <= |rgb|
    && raw[start] == 0 && raw[start + 1..start + 1 + 3 * width] == rgb[pixel..pixel + 3 * width]
  }

  /** A chunk as the standard lays it out, with the checksum of its tag and data. */
  ghost predicate Sealed(c: Codec, k: RawChunk) {
    Fits(k) && FromBe(k.crc) == c.crc(k.tag + k.data) % 0x1_0000_0000
  }

  /** The canonical file: signature, header, one IDAT with the deflated rows, end; nothing else. */
  ghost predicate CanonicalFile(c: Codec, image: Image, out: seq<byte>, header: RawChunk, body: RawChunk, end: RawChunk, raw: seq<byte>) {
    && HeaderChunk(header, image.width, image.height, 2) && Sealed(c, header)
    && body.tag == [0x49, 0x44, 0x41, 0x54] && Sealed(c, body) && body.data == c.deflate(raw)
    && PlainRows(raw, image.width, image.height, image.rgb)
    && EndingChunk(end) && end.data == [] && Sealed(c, end)
    && out == [0x89, 0x50, 0x4E, 0x47, 0x0D, 0x0A, 0x1A, 0x0A] + (Bytes(header) + (Bytes(body) + Bytes(end)))
  }

  lemma SplitFirstRow(rgb: seq<byte>, height: nat, stride: nat)
    requires |rgb| == height * stride && height > 0
    ensures stride <= |rgb| && |rgb[stride..]| == (height - 1) * stride
    ensures Split(rgb, height, stride) == [rgb[..stride]] + Split(rgb[stride..], height - 1, stride)
  {
    OneRowLess(height, stride);
  }

  lemma {:induction false} SplitAt(rgb: seq<byte>, height: nat, stride: nat, y: nat, at: nat)
    requires |rgb| == height * stride && y < height && at == y * stride
    ensures at + stride <= |rgb| && Split(rgb, height, stride)[y] == rgb[at..at + stride]
    decreases y
  {
    SplitFirstRow(rgb, height, stride);
    if y > 0 {
      OneRowLess(y, stride);
      var below := rgb[stride..];
      SplitAt(below, height - 1, stride, y - 1, at - stride);
      assert below[at - stride..at] == rgb[at..at + stride];
    }
  }

  lemma {:induction false} RawAt(rows: seq<seq<byte>>, stride: nat, y: nat)
    requires y < |rows| && forall i :: 0 <= i < |rows| ==> |rows[i]| == stride
    ensures |RawRows(rows)| == RowStart(|rows|, stride) && RowStart(y, stride) + 1 + stride <= |RawRows(rows)|
    ensures var start := RowStart(y, stride);
            RawRows(rows)[start] == 0 && RawRows(rows)[start + 1..start + 1 + stride] == rows[y]
    decreases |rows|
  {
    var raw := RawRows(rows);
    RawLength(rows[1..], stride);
    if y > 0 {
      RawAt(rows[1..], stride, y - 1);
      RowStartNext(y, stride);
      var below, from := RawRows(rows[1..]), RowStart(y - 1, stride);
      assert raw[stride + 1..] == below;
      assert raw[from + stride + 1] == below[from];
      assert raw[from + stride + 2..from + 2 * stride + 2] == below[from + 1..from + 1 + stride];
    } else {
      assert raw[1..1 + stride] == rows[0];
    }
    RowStartNext(|rows|, stride);
  }

  lemma RowStartNext(y: nat, stride: nat)
    requires y > 0
    ensures RowStart(y, stride) == RowStart(y - 1, stride) + stride + 1
  {
  }

  lemma {:induction false} RawLength(rows: seq<seq<byte>>, stride: nat)
    requires forall i :: 0 <= i < |rows| ==> |rows[i]| == stride
    ensures |RawRows(rows)| == RowStart(|rows|, stride)
    decreases |rows|
  {
    if rows != [] { RawLength(rows[1..], stride); }
  }

  lemma RawIsPlain(image: Image)
    requires |image.rgb| == image.height * (image.width * 3)
    ensures PlainRows(RawRows(Split(image.rgb, image.height, image.width * 3)), image.width, image.height, image.rgb)
  {
    var stride := image.width * 3;
    var rows := Split(image.rgb, image.height, stride);
    RawLength(rows, stride);
    RowStartIs(image.height, stride);
    assert 3 * image.width == stride;
    forall y | 0 <= y < image.height ensures PlainRow(RawRows(rows), image.width, image.rgb, y) {
      SplitAt(image.rgb, image.height, stride, y, y * stride);
      RawAt(rows, stride, y);
      RowStartIs(y, stride);
    }
  }

  lemma SealedChunk(c: Codec, tag: seq<byte>, data: seq<byte>)
    requires |tag| == 4 && |data| < U32
    ensures var k := RawChunk(tag, data, Be(c.crc(tag + data) % U32)); Sealed(c, k) && Bytes(k) == Chunk(c, tag, data)
  {
    BeRoundTrip(c.crc(tag + data) % U32);
  }

  lemma HeaderBytes(width: nat, height: nat)
    requires width < U32 && height < U32
    ensures var data := Be(width) + Be(height) + HEADER_TAIL;
            && |data| == 13 && FromBe(data[0..4]) == width && FromBe(data[4..8]) == height
            && data[8..] == [8, 2, 0, 0, 0]
  {
    var data := Be(width) + Be(height) + HEADER_TAIL;
    assert data[0..4] == Be(width) && data[4..8] == Be(height);
    BeRoundTrip(width);
    BeRoundTrip(height);
  }

  /** What the canonical encoder writes, byte by byte. */
  lemma EncoderWrites(c: Codec, image: Image)
    requires Encode(c, image).Some?
    ensures exists header, body, end, raw :: CanonicalFile(c, image, Encode(c, image).value, header, body, end, raw)
  {
    var raw := RawRows(Split(image.rgb, image.height, image.width * 3));
    RawIsPlain(image);
    var data := Be(image.width) + Be(image.height) + HEADER_TAIL;
    HeaderBytes(image.width, image.height);
    SealedChunk(c, IHDR, data);
    SealedChunk(c, IDAT, c.deflate(raw));
    SealedChunk(c, IEND, []);
    var header := RawChunk(IHDR, data, Be(c.crc(IHDR + data) % U32));
    var body := RawChunk(IDAT, c.deflate(raw), Be(c.crc(IDAT + c.deflate(raw)) % U32));
    var end := RawChunk(IEND, [], Be(c.crc(IEND + []) % U32));
    assert CanonicalFile(c, image, Encode(c, image).value, header, body, end, raw);
  }

  // ------------------------------------------------------------ what the binder writes

  /** The lineage chunk: a tEXt with the keyword, a zero byte and the text, sealed like any chunk. */
  ghost predicate LineageText(c: Codec, k: RawChunk, text: string) {
    && Sealed(c, k) && k.tag == [0x74, 0x45, 0x58, 0x74] && |k.data| == 11 + |text|
    && k.data[..11] == [0x6D, 0x6D, 0x2D, 0x6C, 0x69, 0x6E, 0x65, 0x61, 0x67, 0x65, 0]
    && forall i :: 0 <= i < |text| ==> k.data[11 + i] == text[i] as int
  }

  /** The bound file holds the same chunks and, just before the end, this one. */
  lemma BinderWrites(c: Codec, png: seq<byte>, text: string, chunks: seq<RawChunk>, last: RawChunk)
    requires IsPng(png, chunks, last) && Ascii(text) && |text| + 11 < 0x1_0000_0000
    ensures Bind(c, png, text).Ok? && exists mark ::
              LineageText(c, mark, text) && IsPng(Bind(c, png, text).value, chunks + [mark], last)
  {
    BindInserts(c, png, text, chunks, last);
    SealedChunk(c, TEXT, Payload(text));
    var mark := Lineage(c, text);
    assert KEYWORD == ['m', 'm', '-', 'l', 'i', 'n', 'e', 'a', 'g', 'e'];
    assert LineageText(c, mark, text);
  }
}
