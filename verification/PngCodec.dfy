/**
 The chunk layer (section 3 of RFC 2083): the screenshot decoder, the walkthrough
 decoder, the canonical encoder. zlib and CRC-32 are parameters.
 */
module PngCodec {
  import opened Options
  import opened PngFilter
  import opened PngRows
  import opened Splicing

  /** `inflate` is `None` where `zlib.decompress` raises. */
  datatype Codec = Codec(deflate: seq<byte> -> seq<byte>, inflate: seq<byte> -> Option<seq<byte>>, crc: seq<byte> -> nat)

  /** All that is asked of zlib: it gives back what it compressed, and never compresses to nothing. */
  ghost predicate Lossless(c: Codec) {
    forall x: seq<byte> :: c.inflate(c.deflate(x)) == Some(x) && c.deflate(x) != []
  }

  datatype Image = Image(width: nat, height: nat, rgb: seq<byte>)

  /** `Refused` is the decoder's own refusal, `Raised` an exception from zlib or struct. */
  datatype Result<+T> = Ok(value: T) | Refused | Raised

  const U32 := 0x1_0000_0000

  const SIGNATURE: seq<byte> := [0x89, 0x50, 0x4E, 0x47, 0x0D, 0x0A, 0x1A, 0x0A]
  const IHDR: seq<byte> := [0x49, 0x48, 0x44, 0x52]
  const IDAT: seq<byte> := [0x49, 0x44, 0x41, 0x54]
  const IEND: seq<byte> := [0x49, 0x45, 0x4E, 0x44]

  // ------------------------------------------------------------ big-endian words

  function Be(n: nat): (b: seq<byte>)
    requires n < U32
    ensures |b| == 4
  {
    [n / 0x1000000, n / 0x10000 % 256, n / 256 % 256, n % 256]
  }

  function FromBe(b: seq<byte>): (n: nat)
    requires |b| == 4
    ensures n == b[0] as int * 16777216 + b[1] as int * 65536 + b[2] as int * 256 + b[3] as int
  {
    ((b[0] as int * 256 + b[1] as int) * 256 + b[2] as int) * 256 + b[3] as int
  }

  lemma BeRoundTrip(n: nat)
    requires n < U32
    ensures FromBe(Be(n)) == n
  {
    assert n / 0x10000 == n / 256 / 256 && n / 0x1000000 == n / 256 / 256 / 256;
  }

  lemma FromBeRoundTrip(b: seq<byte>)
    requires |b| == 4
    ensures FromBe(b) < U32 && Be(FromBe(b)) == b
  {
    var n := FromBe(b);
    assert n == b[0] as int * 0x1000000 + b[1] as int * 0x10000 + b[2] as int * 256 + b[3] as int;
    assert n / 256 == b[0] as int * 0x10000 + b[1] as int * 256 + b[2] as int;
    assert n / 0x10000 == b[0] as int * 256 + b[1] as int;
  }

  // ------------------------------------------------------------ reading

  datatype Header = Header(width: nat, height: nat, colour: byte)

  /** Chunks seen so far. `alpha` remembers whether any header announced four channels. */
  datatype Seen = Seen(header: Option<Header>, idat: seq<byte>, alpha: bool)

  const NOTHING_SEEN := Seen(None, [], false)

  /** IHDR. The walkthrough decoder does not allow colour type 6. */
  function ReadHeader(chunk: seq<byte>, alphaAllowed: bool): Option<Header> {
    if |chunk| != 13 then None
    else
      var width, height := FromBe(chunk[0..4]), FromBe(chunk[4..8]);
      if chunk[8] != 8 || !(chunk[9] == 2 || (alphaAllowed && chunk[9] == 6))
         || chunk[10] != 0 || chunk[11] != 0 || chunk[12] != 0 then None
      else if width < 1 || height < 1 then None
      else Some(Header(width, height, chunk[9]))
  }

  /** What one chunk does to what has been seen. `None`: a header the decoder refuses. */
  function Take(seen: Seen, kind: seq<byte>, chunk: seq<byte>, alphaAllowed: bool): Option<Seen> {
    if kind == IHDR then
      var header := ReadHeader(chunk, alphaAllowed);
      if header.None? then None
      else Some(seen.(header := header, alpha := seen.alpha || header.value.colour == 6))
    else if kind == IDAT then Some(seen.(idat := seen.idat + chunk))
    else Some(seen)
  }

  /** The chunk walk over what is left of the file. */
  function Walk(rest: seq<byte>, seen: Seen, alphaAllowed: bool): Option<Seen>
    decreases |rest|
  {
    if |rest| < 8 then Some(seen)
    else
      var length := FromBe(rest[..4]);
      var kind := rest[4..8];
      if 8 + length + 4 > |rest| then None
      else
        var next := Take(seen, kind, rest[8..8 + length], alphaAllowed);
        if kind == IEND then Some(seen)
        else if next.None? then None
        else Walk(rest[12 + length..], next.value, alphaAllowed)
  }

  /** Red, green and blue of the first `n` four-byte pixels. */
  function DropAlpha(row: seq<byte>, n: nat): seq<byte>
    requires 4 * n <= |row|
  {
    if n == 0 then [] else DropAlpha(row, n - 1) + row[4 * n - 4..4 * n - 1]
  }

  function DropAlphas(rows: seq<seq<byte>>, width: nat): seq<byte>
    requires forall i :: 0 <= i < |rows| ==> |rows[i]| == 4 * width
  {
    if rows == [] then [] else DropAlpha(rows[0], width) + DropAlphas(rows[1..], width)
  }

  function Pixels(c: Codec, seen: Seen): Result<Image> {
    if seen.header.None? || seen.idat == [] then Refused
    else
      var h := seen.header.value;
      var channels := if h.colour == 2 then 3 else 4;
      var stride := h.width * channels;
      var inflated := c.inflate(seen.idat);
      if inflated.None? then Raised
      else if |inflated.value| != RowStart(h.height, stride) then Refused
      else
        var rows := Rows(inflated.value, stride, channels, Zeros(stride), true);
        if rows.None? then Refused
        else if h.colour == 2 then Ok(Image(h.width, h.height, Flatten(rows.value)))
        else Ok(Image(h.width, h.height, DropAlphas(rows.value, h.width)))
  }

  predicate Signed(data: seq<byte>) { SIGNATURE <= data }

  /** `_decode_rgb` with `alphaAllowed`, `decode_png_rgb` without. */
  function Decode(c: Codec, data: seq<byte>, alphaAllowed: bool): Result<Image> {
    if !Signed(data) then Refused
    else
      var seen := Walk(data[8..], NOTHING_SEEN, alphaAllowed);
      if seen.None? then Refused else Pixels(c, seen.value)
  }

  // ------------------------------------------------------------ the decoders' loops

  /** One turn of the loop: it ends with what was seen, or goes on at `pos`. */
  datatype Turn = Stop(result: Option<Seen>) | Go(pos: nat, seen: Seen)

  function TurnAt(data: seq<byte>, pos: nat, seen: Seen, alphaAllowed: bool): (turn: Turn)
    requires pos + 8 <= |data|
    ensures turn.Go? ==> pos < turn.pos <= |data|
  {
    var length := FromBe(data[pos..pos + 4]);
    var kind := data[pos + 4..pos + 8];
    var end := pos + 8 + length;
    if end + 4 > |data| then Stop(None)
    else if kind == IEND then Stop(Some(seen))
    else
      var next := Take(seen, kind, data[pos + 8..end], alphaAllowed);
      if next.None? then Stop(None) else Go(end + 4, next.value)
  }

  /** A turn is one step of the walk, in positions of the whole file. */
  lemma WalkAt(data: seq<byte>, pos: nat, seen: Seen, alphaAllowed: bool)
    requires pos + 8 <= |data|
    ensures var turn := TurnAt(data, pos, seen, alphaAllowed);
            Walk(data[pos..], seen, alphaAllowed) ==
            if turn.Stop? then turn.result else Walk(data[turn.pos..], turn.seen, alphaAllowed)
  {
    var rest := data[pos..];
    assert rest[..4] == data[pos..pos + 4] && rest[4..8] == data[pos + 4..pos + 8];
    var length := FromBe(rest[..4]);
    if pos + 12 + length <= |data| {
      assert rest[8..8 + length] == data[pos + 8..pos + 8 + length];
      assert rest[12 + length..] == data[pos + 12 + length..];
    }
  }

  method ReadChunks(data: seq<byte>, alphaAllowed: bool) returns (seen: Option<Seen>)
    requires Signed(data)
    ensures seen == Walk(data[8..], NOTHING_SEEN, alphaAllowed)
  {
    var pos := 8;
    var found := NOTHING_SEEN;
    ghost var result := Walk(data[8..], NOTHING_SEEN, alphaAllowed);
    while pos + 8 <= |data|
      invariant 8 <= pos <= |data|
      invariant result == Walk(data[pos..], found, alphaAllowed)
      decreases |data| - pos
    {
      WalkAt(data, pos, found, alphaAllowed);
      var turn := TurnAt(data, pos, found, alphaAllowed);
      if turn.Stop? { return turn.result; }
      pos, found := turn.pos, turn.seen;
    }
    return Some(found);
  }

  /** The bytes of `width * |rows|` pixels, three each, are the first three of each pixel of `channels` bytes. */
  ghost predicate PixelLaw(rows: seq<seq<byte>>, width: nat, channels: nat, rgb: seq<byte>) {
    && |rgb| == |rows| * (3 * width)
    && (forall y :: 0 <= y < |rows| ==> |rows[y]| == channels * width)
    && forall y, x, k :: 0 <= y < |rows| && 0 <= x < width && 0 <= k < 3 ==> PixelAt(rows[y], width, channels, rgb, y, x, k)
  }

  ghost predicate PixelAt(row: seq<byte>, width: nat, channels: nat, rgb: seq<byte>, y: nat, x: nat, k: nat) {
    && y * (3 * width) + 3 * x + k < |rgb| && channels * x + k < |row|
    && rgb[y * (3 * width) + 3 * x + k] == row[channels * x + k]
  }

  lemma {:induction false} DropAlphaAt(row: seq<byte>, n: nat, x: nat, k: nat)
    requires 4 * n <= |row| && x < n && k < 3
    ensures |DropAlpha(row, n)| == 3 * n && DropAlpha(row, n)[3 * x + k] == row[4 * x + k]
    decreases n
  {
    DropAlphaLength(row, n - 1);
    if x < n - 1 { DropAlphaAt(row, n - 1, x, k); }
  }

  lemma {:induction false} DropAlphaLength(row: seq<byte>, n: nat)
    requires 4 * n <= |row|
    ensures |DropAlpha(row, n)| == 3 * n
    decreases n
  {
    if n > 0 { DropAlphaLength(row, n - 1); }
  }

  /** The stripped rows as parts, one per row. */
  function Stripped(rows: seq<seq<byte>>, width: nat): (parts: seq<seq<byte>>)
    requires forall i :: 0 <= i < |rows| ==> |rows[i]| == 4 * width
    ensures |parts| == |rows|
    ensures forall i :: 0 <= i < |rows| ==> parts[i] == DropAlpha(rows[i], width)
  {
    seq(|rows|, i requires 0 <= i < |rows| => DropAlpha(rows[i], width))
  }

  lemma {:induction false} DropAlphasJoin(rows: seq<seq<byte>>, width: nat)
    requires forall i :: 0 <= i < |rows| ==> |rows[i]| == 4 * width
    ensures Flatten(Stripped(rows, width)) == DropAlphas(rows, width)
    decreases |rows|
  {
    if rows != [] {
      DropAlphasJoin(rows[1..], width);
      assert Stripped(rows, width)[1..] == Stripped(rows[1..], width);
    }
  }

  /** Rows of one length, joined, with any pixel layout that keeps three bytes of each. */
  lemma JoinedPixels(rows: seq<seq<byte>>, parts: seq<seq<byte>>, width: nat, channels: nat)
    requires |parts| == |rows| && forall i :: 0 <= i < |rows| ==> |rows[i]| == channels * width && |parts[i]| == 3 * width
    requires forall y, x, k :: 0 <= y < |rows| && 0 <= x < width && 0 <= k < 3 ==>
               SameByte(rows[y], parts[y], channels, x, k)
    ensures PixelLaw(rows, width, channels, Flatten(parts))
  {
    var rgb := Flatten(parts);
    FlattenJoins(parts);
    EvenOffset(parts, 3 * width, |parts|);
    forall y, x, k | 0 <= y < |rows| && 0 <= x < width && 0 <= k < 3
      ensures PixelAt(rows[y], width, channels, rgb, y, x, k)
    {
      assert SameByte(rows[y], parts[y], channels, x, k);
      EvenOffset(parts, 3 * width, y);
      assert StandsAt(rgb, Offset(parts, y) + (3 * x + k), parts[y][3 * x + k]);
    }
  }

  ghost predicate SameByte(row: seq<byte>, part: seq<byte>, channels: nat, x: nat, k: nat) {
    channels * x + k < |row| && 3 * x + k < |part| && part[3 * x + k] == row[channels * x + k]
  }

  /** Four-channel rows lose exactly their alpha. */
  lemma StripLaw(rows: seq<seq<byte>>, width: nat)
    requires forall i :: 0 <= i < |rows| ==> |rows[i]| == 4 * width
    ensures PixelLaw(rows, width, 4, DropAlphas(rows, width))
  {
    var parts := Stripped(rows, width);
    forall i | 0 <= i < |rows| ensures |parts[i]| == 3 * width { DropAlphaLength(rows[i], width); }
    forall y, x, k | 0 <= y < |rows| && 0 <= x < width && 0 <= k < 3
      ensures SameByte(rows[y], parts[y], 4, x, k)
    {
      DropAlphaAt(rows[y], width, x, k);
    }
    DropAlphasJoin(rows, width);
    JoinedPixels(rows, parts, width, 4);
  }

  /** Three-channel rows are joined as they are. */
  lemma PlainLaw(rows: seq<seq<byte>>, width: nat)
    requires forall i :: 0 <= i < |rows| ==> |rows[i]| == 3 * width
    ensures PixelLaw(rows, width, 3, Flatten(rows))
  {
    forall y, x, k | 0 <= y < |rows| && 0 <= x < width && 0 <= k < 3 ensures SameByte(rows[y], rows[y], 3, x, k) { }
    JoinedPixels(rows, rows, width, 3);
  }

  method StripAlpha(rows: seq<seq<byte>>, width: nat) returns (rgb: seq<byte>)
    requires forall i :: 0 <= i < |rows| ==> |rows[i]| == 4 * width
    ensures rgb == DropAlphas(rows, width)
    ensures PixelLaw(rows, width, 4, rgb)
  {
    StripLaw(rows, width);
    rgb := StripRows(rows, width);
  }

  method StripRows(rows: seq<seq<byte>>, width: nat) returns (rgb: seq<byte>)
    requires forall i :: 0 <= i < |rows| ==> |rows[i]| == 4 * width
    ensures rgb == DropAlphas(rows, width)
  {
    rgb := [];
    for y := 0 to |rows|
      invariant rgb + DropAlphas(rows[y..], width) == DropAlphas(rows, width)
    {
      var row := StripRow(rows[y], width);
      NextStripped(rgb, rows, y, width);
      rgb := rgb + row;
    }
    assert rows[|rows|..] == [];
  }

  method StripRow(row: seq<byte>, width: nat) returns (rgb: seq<byte>)
    requires |row| == 4 * width
    ensures rgb == DropAlpha(row, width)
  {
    rgb := [];
    for pixel := 0 to width
      invariant rgb == DropAlpha(row, pixel)
    {
      var start := pixel * 4;
      rgb := rgb + row[start..start + 3];
    }
  }

  lemma NextStripped(rgb: seq<byte>, rows: seq<seq<byte>>, y: nat, width: nat)
    requires y < |rows| && forall i :: 0 <= i < |rows| ==> |rows[i]| == 4 * width
    ensures rgb + DropAlphas(rows[y..], width) == (rgb + DropAlpha(rows[y], width)) + DropAlphas(rows[y + 1..], width)
  {
    assert rows[y..][1..] == rows[y + 1..] && rows[y..][0] == rows[y];
  }

  method DecodeFile(c: Codec, data: seq<byte>, alphaAllowed: bool) returns (r: Result<Image>)
    ensures r == Decode(c, data, alphaAllowed)
  {
    if !Signed(data) { return Refused; }
    var seen := ReadChunks(data, alphaAllowed);
    if seen.None? || seen.value.header.None? || seen.value.idat == [] { return Refused; }
    var header := seen.value.header.value;
    var channels := if header.colour == 2 then 3 else 4;
    var inflated := c.inflate(seen.value.idat);
    if inflated.None? { return Raised; }
    var raw := inflated.value;
    var stride := header.width * channels;
    RowStartIs(header.height, stride);
    if |raw| != header.height * (stride + 1) { return Refused; }
    var rows := UnfilterImage(raw, header.height, stride, channels);
    if rows.None? { return Refused; }
    if header.colour == 2 {
      var rgb := Join(rows.value);
      return Ok(Image(header.width, header.height, rgb));
    }
    var rgb := StripAlpha(rows.value, header.width);
    return Ok(Image(header.width, header.height, rgb));
  }

  method Join(rows: seq<seq<byte>>) returns (bytes: seq<byte>)
    ensures bytes == Flatten(rows)
  {
    bytes := [];
    for i := 0 to |rows|
      invariant bytes == Flatten(rows[..i])
    {
      FlattenSnoc(rows[..i], rows[i]);
      assert rows[..i + 1] == rows[..i] + [rows[i]];
      bytes := bytes + rows[i];
    }
    assert rows[..|rows|] == rows;
  }

  // ------------------------------------------------------------ writing

  function Chunk(c: Codec, tag: seq<byte>, data: seq<byte>): seq<byte>
    requires |data| < U32
  {
    Be(|data|) + tag + data + Be(c.crc(tag + data) % U32)
  }

  /** Rows with filter 0: the canonical form. */
  function RawRows(rows: seq<seq<byte>>): seq<byte> {
    if rows == [] then [] else [0] + rows[0] + RawRows(rows[1..])
  }

  /** `rgb` cut into `height` rows. */
  function Split(rgb: seq<byte>, height: nat, stride: nat): (rows: seq<seq<byte>>)
    requires |rgb| == height * stride
    ensures |rows| == height && forall i :: 0 <= i < height ==> |rows[i]| == stride
  {
    if height == 0 then []
    else
      OneRowLess(height, stride);
      [rgb[..stride]] + Split(rgb[stride..], height - 1, stride)
  }

  lemma OneRowLess(height: nat, stride: nat)
    requires height > 0
    ensures height * stride == (height - 1) * stride + stride
  {
  }

  const HEADER_TAIL: seq<byte> := [8, 2, 0, 0, 0]

  function Body(c: Codec, width: nat, height: nat, packed: seq<byte>): seq<byte>
    requires width < U32 && height < U32 && |packed| < U32
  {
    Chunk(c, IHDR, Be(width) + Be(height) + HEADER_TAIL) + (Chunk(c, IDAT, packed) + Chunk(c, IEND, []))
  }

  /** `_encode_rgb`. `None`: wrong pixel count, or a length `struct.pack` cannot hold in four bytes. */
  function Encode(c: Codec, image: Image): Option<seq<byte>> {
    var stride := image.width * 3;
    if |image.rgb| != image.height * stride || image.width >= U32 || image.height >= U32 then None
    else
      var packed := c.deflate(RawRows(Split(image.rgb, image.height, stride)));
      if |packed| >= U32 then None
      else Some(SIGNATURE + Body(c, image.width, image.height, packed))
  }

  function Canonical(c: Codec, data: seq<byte>): Result<seq<byte>> {
    var image := Decode(c, data, true);
    if image.Refused? then Refused
    else if image.Raised? then Raised
    else
      var bytes := Encode(c, image.value);
      if bytes.None? then Refused else Ok(bytes.value)
  }

  method EncodeRows(rgb: seq<byte>, height: nat, stride: nat) returns (raw: seq<byte>)
    requires |rgb| == height * stride
    ensures raw == RawRows(Split(rgb, height, stride))
  {
    raw := [];
    var start := 0;
    ghost var all := RawRows(Split(rgb, height, stride));
    assert rgb[0..] == rgb;
    for y := 0 to height
      invariant start <= |rgb| && |rgb| - start == (height - y) * stride
      invariant raw + RawRows(Split(rgb[start..], height - y, stride)) == all
    {
      EncodeStep(raw, rgb, start, height - y, stride);
      raw := raw + ([0] + rgb[start..start + stride]);
      start := start + stride;
    }
    assert Split(rgb[start..], 0, stride) == [];
  }

  lemma EncodeStep(raw: seq<byte>, rgb: seq<byte>, start: nat, rows: nat, stride: nat)
    requires rows > 0 && start <= |rgb| && |rgb| - start == rows * stride
    ensures start + stride <= |rgb| && |rgb| - (start + stride) == (rows - 1) * stride
    ensures raw + RawRows(Split(rgb[start..], rows, stride))
            == (raw + ([0] + rgb[start..start + stride])) + RawRows(Split(rgb[start + stride..], rows - 1, stride))
  {
    OneRowLess(rows, stride);
    var rest := rgb[start..];
    assert rest[..stride] == rgb[start..start + stride] && rest[stride..] == rgb[start + stride..];
    RawRowsStep(rest, rows, stride);
  }

  method EncodeFile(c: Codec, image: Image) returns (r: Option<seq<byte>>)
    ensures r == Encode(c, image)
  {
    if |image.rgb| != image.height * (image.width * 3) || image.width >= U32 || image.height >= U32 { return None; }
    var raw := EncodeRows(image.rgb, image.height, image.width * 3);
    var packed := c.deflate(raw);
    if |packed| >= U32 { return None; }
    return Some(SIGNATURE + Body(c, image.width, image.height, packed));
  }

  lemma RawRowsStep(rgb: seq<byte>, height: nat, stride: nat)
    requires height > 0 && |rgb| == height * stride
    ensures stride <= |rgb| && |rgb[stride..]| == (height - 1) * stride
    ensures RawRows(Split(rgb, height, stride)) == ([0] + rgb[..stride]) + RawRows(Split(rgb[stride..], height - 1, stride))
  {
    OneRowLess(height, stride);
  }

  // ------------------------------------------------------------ laws

  /** Reading back one serialized chunk. */
  lemma ReadChunk(tag: seq<byte>, data: seq<byte>, crc: seq<byte>, rest: seq<byte>)
    requires |tag| == 4 && |crc| == 4 && |data| < U32
    ensures var b := Be(|data|) + tag + data + crc + rest;
            && |b| == 12 + |data| + |rest|
            && FromBe(b[..4]) == |data| && b[4..8] == tag && b[8..8 + |data|] == data && b[12 + |data|..] == rest
  {
    var b := Be(|data|) + tag + data + crc + rest;
    assert b[..4] == Be(|data|);
    BeRoundTrip(|data|);
  }

  lemma {:induction false} RawRowsDecode(rows: seq<seq<byte>>, stride: nat, bpp: nat, prev: seq<byte>)
    requires |prev| == stride && bpp > 0
    requires forall i :: 0 <= i < |rows| ==> |rows[i]| == stride
    ensures |RawRows(rows)| == RowStart(|rows|, stride)
    ensures Rows(RawRows(rows), stride, bpp, prev, true) == Some(rows)
    decreases |rows|
  {
    if rows != [] {
      var raw := RawRows(rows);
      RawRowsDecode(rows[1..], stride, bpp, rows[0]);
      assert raw[1..stride + 1] == rows[0];
      assert raw[stride + 1..] == RawRows(rows[1..]);
      NoFilter(0, rows[0], prev, bpp, stride);
      assert rows[0][..stride] == rows[0];
      assert [rows[0]] + rows[1..] == rows;
    }
  }

  lemma {:induction false} FlattenSplit(rgb: seq<byte>, height: nat, stride: nat)
    requires |rgb| == height * stride
    ensures Flatten(Split(rgb, height, stride)) == rgb
    decreases height
  {
    if height > 0 {
      OneRowLess(height, stride);
      FlattenSplit(rgb[stride..], height - 1, stride);
      assert rgb[..stride] + rgb[stride..] == rgb;
    }
  }

  /** One step of the walk, on a serialized chunk. */
  lemma WalkChunk(tag: seq<byte>, data: seq<byte>, crc: seq<byte>, rest: seq<byte>, seen: Seen, alphaAllowed: bool)
    requires |tag| == 4 && |crc| == 4 && |data| < U32
    ensures Walk(Be(|data|) + tag + data + crc + rest, seen, alphaAllowed) ==
            if tag == IHDR then
              var header := ReadHeader(data, alphaAllowed);
              if header.None? then None
              else Walk(rest, seen.(header := header, alpha := seen.alpha || header.value.colour == 6), alphaAllowed)
            else if tag == IDAT then Walk(rest, seen.(idat := seen.idat + data), alphaAllowed)
            else if tag == IEND then Some(seen)
            else Walk(rest, seen, alphaAllowed)
  {
    ReadChunk(tag, data, crc, rest);
  }

  lemma HeaderRoundTrip(width: nat, height: nat, alphaAllowed: bool)
    requires width < U32 && height < U32
    ensures ReadHeader(Be(width) + Be(height) + HEADER_TAIL, alphaAllowed) ==
            if width < 1 || height < 1 then None else Some(Header(width, height, 2))
  {
    var header := Be(width) + Be(height) + HEADER_TAIL;
    assert header[0..4] == Be(width) && header[4..8] == Be(height);
    BeRoundTrip(width);
    BeRoundTrip(height);
  }

  lemma WalkEncoded(c: Codec, width: nat, height: nat, packed: seq<byte>, alphaAllowed: bool)
    requires width < U32 && height < U32 && |packed| < U32
    ensures Walk(Body(c, width, height, packed), NOTHING_SEEN, alphaAllowed) ==
            if width < 1 || height < 1 then None else Some(Seen(Some(Header(width, height, 2)), packed, false))
  {
    var header := Be(width) + Be(height) + HEADER_TAIL;
    var last := Chunk(c, IEND, []);
    HeaderRoundTrip(width, height, alphaAllowed);
    WalkChunk(IHDR, header, Be(c.crc(IHDR + header) % U32), Chunk(c, IDAT, packed) + last, NOTHING_SEEN, alphaAllowed);
    var seen := NOTHING_SEEN.(header := Some(Header(width, height, 2)));
    WalkChunk(IDAT, packed, Be(c.crc(IDAT + packed) % U32), last, seen, alphaAllowed);
    assert [] + packed == packed;
    WalkChunk(IEND, [], Be(c.crc(IEND + []) % U32), [], seen.(idat := packed), alphaAllowed);
    assert last + [] == last;
  }

  lemma PixelsOfRaw(c: Codec, image: Image)
    requires Lossless(c) && |image.rgb| == image.height * (image.width * 3)
    ensures var packed := c.deflate(RawRows(Split(image.rgb, image.height, image.width * 3)));
            Pixels(c, Seen(Some(Header(image.width, image.height, 2)), packed, false)) == Ok(image)
  {
    var stride := image.width * 3;
    var rows := Split(image.rgb, image.height, stride);
    RawRowsDecode(rows, stride, 3, Zeros(stride));
    FlattenSplit(image.rgb, image.height, stride);
  }

  /**
   Either decoder returns exactly the image the encoder wrote. The encoder also
   writes images of no width or no height, and those are the ones not readable.
   */
  lemma EncodeDecode(c: Codec, image: Image, alphaAllowed: bool)
    requires Lossless(c) && Encode(c, image).Some?
    ensures Decode(c, Encode(c, image).value, alphaAllowed) ==
            if image.width >= 1 && image.height >= 1 then Ok(image) else Refused
  {
    var packed := c.deflate(RawRows(Split(image.rgb, image.height, image.width * 3)));
    var data := Encode(c, image).value;
    assert data[8..] == Body(c, image.width, image.height, packed);
    WalkEncoded(c, image.width, image.height, packed, alphaAllowed);
    PixelsOfRaw(c, image);
  }

  /** "The decoders read whatever the encoder writes" is false: an image without pixels is written and refused. */
  lemma EmptyImageIsRefused(c: Codec, alphaAllowed: bool)
    requires Lossless(c) && |c.deflate([])| < U32
    ensures var image := Image(0, 0, []);
            Encode(c, image).Some? && Decode(c, Encode(c, image).value, alphaAllowed) == Refused
  {
    var image := Image(0, 0, []);
    assert Split(image.rgb, 0, 0) == [] && RawRows([]) == [];
    EncodeDecode(c, image, alphaAllowed);
  }

  /** Canonical form is a fixed point, and the walkthrough reads it with the same pixels. */
  lemma CanonicalIsStable(c: Codec, data: seq<byte>)
    requires Lossless(c) && Canonical(c, data).Ok?
    ensures Canonical(c, Canonical(c, data).value) == Canonical(c, data)
    ensures Decode(c, Canonical(c, data).value, false) == Decode(c, data, true)
  {
    var image := Decode(c, data, true).value;
    DecodedSize(data[8..], NOTHING_SEEN, true);
    EncodeDecode(c, image, true);
    EncodeDecode(c, image, false);
  }

  lemma {:induction false} DecodedSize(rest: seq<byte>, seen: Seen, alphaAllowed: bool)
    requires seen.header.Some? ==> seen.header.value.width >= 1 && seen.header.value.height >= 1
    ensures var s := Walk(rest, seen, alphaAllowed);
            s.Some? && s.value.header.Some? ==> s.value.header.value.width >= 1 && s.value.header.value.height >= 1
    decreases |rest|
  {
    if |rest| >= 8 && 12 + FromBe(rest[..4]) <= |rest| {
      var length := FromBe(rest[..4]);
      var next := Take(seen, rest[4..8], rest[8..8 + length], alphaAllowed);
      if next.Some? { DecodedSize(rest[12 + length..], next.value, alphaAllowed); }
    }
  }

  lemma TakesAgree(seen: Seen, kind: seq<byte>, chunk: seq<byte>)
    requires !seen.alpha
    ensures var strict, tolerant := Take(seen, kind, chunk, false), Take(seen, kind, chunk, true);
            strict == if tolerant.Some? && tolerant.value.alpha then None else tolerant
  {
  }

  /** The strict walk succeeds exactly when the tolerant walk does and met no four-channel header. */
  lemma {:induction false} WalksAgree(rest: seq<byte>, seen: Seen)
    requires !seen.alpha
    ensures Walk(rest, seen, false).Some? <==> Walk(rest, seen, true).Some? && !Walk(rest, seen, true).value.alpha
    ensures Walk(rest, seen, false).Some? ==> Walk(rest, seen, false) == Walk(rest, seen, true)
    decreases |rest|
  {
    if |rest| >= 8 && 12 + FromBe(rest[..4]) <= |rest| {
      var length := FromBe(rest[..4]);
      var kind, chunk, tail := rest[4..8], rest[8..8 + length], rest[12 + length..];
      TakesAgree(seen, kind, chunk);
      var next := Take(seen, kind, chunk, true);
      if next.Some? {
        if next.value.alpha { AlphaStays(tail, next.value); } else { WalksAgree(tail, next.value); }
      }
    }
  }

  lemma {:induction false} AlphaStays(rest: seq<byte>, seen: Seen)
    requires seen.alpha
    ensures Walk(rest, seen, true).Some? ==> Walk(rest, seen, true).value.alpha
    decreases |rest|
  {
    if |rest| >= 8 && 12 + FromBe(rest[..4]) <= |rest| {
      var length := FromBe(rest[..4]);
      var next := Take(seen, rest[4..8], rest[8..8 + length], true);
      if next.Some? { AlphaStays(rest[12 + length..], next.value); }
    }
  }

  /** Whatever the walkthrough decoder accepts, the screenshot decoder accepts with the same image. */
  lemma DecodersAgree(c: Codec, data: seq<byte>)
    ensures Decode(c, data, false).Ok? ==> Decode(c, data, true) == Decode(c, data, false)
    ensures Signed(data) && Walk(data[8..], NOTHING_SEEN, true).Some? && !Walk(data[8..], NOTHING_SEEN, true).value.alpha ==>
              Decode(c, data, true) == Decode(c, data, false)
  {
    if Signed(data) { WalksAgree(data[8..], NOTHING_SEEN); }
  }
}
