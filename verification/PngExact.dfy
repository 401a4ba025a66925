/**
 Exactly which files the decoders accept, refuse or raise on, over any bytes at all:
 chunks up to the end chunk or fewer than eight bytes, every header legal, the last one in force.
 */
module PngExact {
  import opened Options
  import opened Splicing
  import opened PngFilter
  import opened PngRows
  import opened PngCodec
  import opened PngLineage
  import opened PngPixels

  // ------------------------------------------------------------ the shape of a file

  predicate IsHeader(k: RawChunk) { k.tag == [0x49, 0x48, 0x44, 0x52] }

  /** Eight bits, three channels or (where allowed) four, no interlacing, and at least one pixel. */
  predicate Legal(k: RawChunk, alphaAllowed: bool) {
    && |k.data| == 13 && FromBe(k.data[0..4]) >= 1 && FromBe(k.data[4..8]) >= 1
    && k.data[8] == 8 && (k.data[9] == 2 || (k.data[9] == 6 && alphaAllowed))
    && k.data[10] == 0 && k.data[11] == 0 && k.data[12] == 0
  }

  ghost predicate AllLegal(chunks: seq<RawChunk>, alphaAllowed: bool) {
    forall i :: 0 <= i < |chunks| ==>
      Fits(chunks[i]) && chunks[i].tag != [0x49, 0x45, 0x4E, 0x44] && (IsHeader(chunks[i]) ==> Legal(chunks[i], alphaAllowed))
  }

  /** Reading stops: an end chunk with anything after it, or too few bytes for another chunk. */
  ghost predicate Ends(rest: seq<byte>) {
    |rest| < 8 || exists end, tail :: EndsWith(rest, end, tail)
  }

  ghost predicate EndsWith(rest: seq<byte>, end: RawChunk, tail: seq<byte>) { EndingChunk(end) && rest == Bytes(end) + tail }

  /** A chunk: length, tag, data and checksum one after another. */
  lemma BytesAre(k: RawChunk)
    requires Fits(k)
    ensures var b := Bytes(k);
            && |b| == 12 + |k.data| && FromBe(b[..4]) == |k.data| && b[4..8] == k.tag
            && b[8..8 + |k.data|] == k.data && b[8 + |k.data|..] == k.crc
  {
    BeRoundTrip(|k.data|);
    assert Bytes(k)[..4] == Be(|k.data|);
  }

  /** The chunk that stands at the front of `whole`. */
  lemma FrontChunk(whole: seq<byte>, length: nat) returns (k: RawChunk)
    requires |whole| >= 8 && length == FromBe(whole[..4]) && 12 + length <= |whole|
    ensures Fits(k) && k.tag == whole[4..8] && k.data == whole[8..8 + length] && whole == Bytes(k) + whole[12 + length..]
  {
    FromBeRoundTrip(whole[..4]);
    k := RawChunk(whole[4..8], whole[8..8 + length], whole[8 + length..12 + length]);
    assert whole == whole[..4] + whole[4..8] + whole[8..8 + length] + whole[8 + length..12 + length] + whole[12 + length..];
  }

  // ------------------------------------------------------------ the walk

  function HeaderOf(k: RawChunk): Header
    requires |k.data| == 13
  {
    Header(FromBe(k.data[0..4]), FromBe(k.data[4..8]), k.data[9])
  }

  function Next(seen: Seen, k: RawChunk): Seen {
    if IsHeader(k) && |k.data| == 13 then seen.(header := Some(HeaderOf(k)), alpha := seen.alpha || k.data[9] == 6)
    else seen.(idat := seen.idat + Contribution(k))
  }

  function SeenOf(seen: Seen, chunks: seq<RawChunk>): Seen
    decreases |chunks|
  {
    if chunks == [] then seen else SeenOf(Next(seen, chunks[0]), chunks[1..])
  }

  lemma HeaderIsLegal(k: RawChunk, alphaAllowed: bool)
    ensures ReadHeader(k.data, alphaAllowed).Some? <==> Legal(k, alphaAllowed)
    ensures Legal(k, alphaAllowed) ==> ReadHeader(k.data, alphaAllowed) == Some(HeaderOf(k))
  {
  }

  lemma WalkNext(k: RawChunk, rest: seq<byte>, whole: seq<byte>, seen: Seen, alphaAllowed: bool)
    requires AllLegal([k], alphaAllowed) && Fits([k][0]) && whole == Bytes(k) + rest
    ensures Walk(whole, seen, alphaAllowed) == Walk(rest, Next(seen, k), alphaAllowed)
  {
    assert [k][0] == k;
    WalkChunk(k.tag, k.data, k.crc, rest, seen, alphaAllowed);
    HeaderIsLegal(k, alphaAllowed);
    assert seen.idat + [] == seen.idat;
  }

  lemma {:induction false} WalkLegal(chunks: seq<RawChunk>, rest: seq<byte>, whole: seq<byte>, seen: Seen, alphaAllowed: bool)
    requires AllLegal(chunks, alphaAllowed) && whole == Serialize(chunks) + rest && Ends(rest)
    ensures Walk(whole, seen, alphaAllowed) == Some(SeenOf(seen, chunks))
    decreases |chunks|
  {
    if chunks == [] {
      assert whole == rest;
      if |rest| >= 8 {
        var end, tail :| EndsWith(rest, end, tail);
        WalkChunk(end.tag, end.data, end.crc, tail, seen, alphaAllowed);
      }
    } else {
      var first, tail := chunks[0], Serialize(chunks[1..]) + rest;
      Assoc(Bytes(first), Serialize(chunks[1..]), rest);
      assert AllLegal([first], alphaAllowed);
      WalkNext(first, tail, whole, seen, alphaAllowed);
      WalkLegal(chunks[1..], rest, tail, Next(seen, first), alphaAllowed);
    }
  }

  /** Whatever the walk returns on, it read as such chunks. */
  lemma {:induction false} WalkIsLegal(whole: seq<byte>, seen: Seen, alphaAllowed: bool)
    returns (chunks: seq<RawChunk>, rest: seq<byte>)
    requires Walk(whole, seen, alphaAllowed).Some?
    ensures AllLegal(chunks, alphaAllowed) && whole == Serialize(chunks) + rest && Ends(rest)
    decreases |whole|
  {
    chunks, rest := [], whole;
    if |whole| >= 8 {
      var length := FromBe(whole[..4]);
      var k := FrontChunk(whole, length);
      var tail := whole[12 + length..];
      if k.tag == IEND {
        assert EndsWith(rest, k, tail);
      } else {
        FrontIsLegal(k, tail, whole, seen, alphaAllowed);
        var more, last := WalkIsLegal(tail, Next(seen, k), alphaAllowed);
        chunks, rest := [k] + more, last;
        LegalCons(k, more, alphaAllowed);
        Assoc(Bytes(k), Serialize(more), last);
      }
    }
  }

  lemma FrontIsLegal(k: RawChunk, tail: seq<byte>, whole: seq<byte>, seen: Seen, alphaAllowed: bool)
    requires Fits(k) && k.tag != IEND && whole == Bytes(k) + tail && Walk(whole, seen, alphaAllowed).Some?
    ensures AllLegal([k], alphaAllowed) && Walk(tail, Next(seen, k), alphaAllowed) == Walk(whole, seen, alphaAllowed)
  {
    WalkChunk(k.tag, k.data, k.crc, tail, seen, alphaAllowed);
    HeaderIsLegal(k, alphaAllowed);
    assert seen.idat + [] == seen.idat;
  }

  lemma LegalCons(k: RawChunk, more: seq<RawChunk>, alphaAllowed: bool)
    requires AllLegal([k], alphaAllowed) && AllLegal(more, alphaAllowed)
    ensures AllLegal([k] + more, alphaAllowed) && Serialize([k] + more) == Bytes([k][0]) + Serialize(more)
  {
    var all := [k] + more;
    assert [k][0] == k;
    forall i | 0 <= i < |all|
      ensures Fits(all[i]) && all[i].tag != [0x49, 0x45, 0x4E, 0x44] && (IsHeader(all[i]) ==> Legal(all[i], alphaAllowed))
    {
      if i > 0 { assert all[i] == more[i - 1]; }
    }
    assert all[1..] == more;
  }

  // ------------------------------------------------------------ what was seen

  ghost predicate LastHeader(chunks: seq<RawChunk>, i: nat) {
    i < |chunks| && IsHeader(chunks[i]) && forall j :: i < j < |chunks| ==> !IsHeader(chunks[j])
  }

  lemma {:induction false} SeenIdat(seen: Seen, chunks: seq<RawChunk>, alphaAllowed: bool)
    requires AllLegal(chunks, alphaAllowed)
    ensures SeenOf(seen, chunks).idat == seen.idat + Flatten(Contributions(chunks))
    decreases |chunks|
  {
    if chunks == [] {
      assert seen.idat + [] == seen.idat;
    } else {
      SeenIdat(Next(seen, chunks[0]), chunks[1..], alphaAllowed);
      assert Contributions(chunks)[1..] == Contributions(chunks[1..]);
      assert seen.idat + [] == seen.idat;
      Assoc(seen.idat, Contribution(chunks[0]), Flatten(Contributions(chunks[1..])));
    }
  }

  lemma {:induction false} SeenHeader(seen: Seen, chunks: seq<RawChunk>, i: nat, alphaAllowed: bool)
    requires AllLegal(chunks, alphaAllowed) && LastHeader(chunks, i)
    ensures |chunks[i].data| == 13 && SeenOf(seen, chunks).header == Some(HeaderOf(chunks[i]))
    decreases |chunks|
  {
    if i > 0 {
      assert LastHeader(chunks[1..], i - 1);
      SeenHeader(Next(seen, chunks[0]), chunks[1..], i - 1, alphaAllowed);
    } else {
      NoHeader(Next(seen, chunks[0]), chunks[1..]);
    }
  }

  lemma {:induction false} NoHeader(seen: Seen, chunks: seq<RawChunk>)
    requires forall j :: 0 <= j < |chunks| ==> !IsHeader(chunks[j])
    ensures SeenOf(seen, chunks).header == seen.header
    decreases |chunks|
  {
    if chunks != [] { NoHeader(Next(seen, chunks[0]), chunks[1..]); }
  }

  lemma {:induction false} FindHeader(chunks: seq<RawChunk>, n: nat) returns (i: nat)
    requires n <= |chunks| && (forall j :: n <= j < |chunks| ==> !IsHeader(chunks[j])) && exists j :: 0 <= j < n && IsHeader(chunks[j])
    ensures LastHeader(chunks, i)
    decreases n
  {
    if IsHeader(chunks[n - 1]) { i := n - 1; } else { i := FindHeader(chunks, n - 1); }
  }

  // ------------------------------------------------------------ the decoder, exactly

  /** The file, up to its compressed stream: `i` is the header in force. */
  ghost predicate Readable(data: seq<byte>, alphaAllowed: bool, chunks: seq<RawChunk>, rest: seq<byte>, i: nat, packed: seq<byte>) {
    && AllLegal(chunks, alphaAllowed) && Ends(rest) && LastHeader(chunks, i) && |chunks[i].data| == 13
    && data == [0x89, 0x50, 0x4E, 0x47, 0x0D, 0x0A, 0x1A, 0x0A] + (Serialize(chunks) + rest)
    && IsJoin(Contributions(chunks), packed) && packed != []
  }

  function ChannelsOf(k: RawChunk): (n: nat)
    requires |k.data| == 13
    ensures n == (if k.data[9] == 2 then 3 else 4)
  {
    if k.data[9] == 2 then 3 else 4
  }

  function StrideOf(k: RawChunk): (n: nat)
    requires |k.data| == 13
    ensures n == FromBe(k.data[0..4]) * (if k.data[9] == 2 then 3 else 4)
  {
    HeaderOf(k).width * ChannelsOf(k)
  }

  /** The inflated rows: as many bytes as the header says, every row with a known filter. */
  ghost predicate FullRows(k: RawChunk, raw: seq<byte>)
    requires |k.data| == 13
  {
    && |raw| == FromBe(k.data[4..8]) * (StrideOf(k) + 1)
    && forall y: nat :: KindAt(raw, StrideOf(k), y) ==> KindByte(raw, StrideOf(k), y) <= 4
  }

  /** The image of those rows: undone by the standard's law, alpha dropped. */
  ghost predicate Shows(k: RawChunk, raw: seq<byte>, rows: seq<seq<byte>>, image: Image)
    requires |k.data| == 13
  {
    && image.width == FromBe(k.data[0..4]) && image.height == FromBe(k.data[4..8]) == |rows|
    && ImageLaw(raw, StrideOf(k), ChannelsOf(k), Zeros(StrideOf(k)), rows)
    && PixelLaw(rows, image.width, ChannelsOf(k), image.rgb)
  }

  lemma SeenFile(data: seq<byte>, alphaAllowed: bool, chunks: seq<RawChunk>, rest: seq<byte>, i: nat, packed: seq<byte>)
    requires Readable(data, alphaAllowed, chunks, rest, i, packed)
    ensures Signed(data)
    ensures var seen := Walk(data[8..], NOTHING_SEEN, alphaAllowed);
            seen.Some? && seen.value.header == Some(HeaderOf(chunks[i])) && seen.value.idat == packed
  {
    var body := Serialize(chunks) + rest;
    assert data[8..] == body;
    WalkLegal(chunks, rest, body, NOTHING_SEEN, alphaAllowed);
    SeenIdat(NOTHING_SEEN, chunks, alphaAllowed);
    SeenHeader(NOTHING_SEEN, chunks, i, alphaAllowed);
    FlattenJoins(Contributions(chunks));
    JoinIsUnique(Contributions(chunks), packed, Flatten(Contributions(chunks)));
    assert [] + packed == packed;
  }

  lemma HeaderSeen(chunks: seq<RawChunk>, alphaAllowed: bool) returns (i: nat)
    requires AllLegal(chunks, alphaAllowed) && SeenOf(NOTHING_SEEN, chunks).header.Some?
    ensures LastHeader(chunks, i) && |chunks[i].data| == 13
  {
    if forall j :: 0 <= j < |chunks| ==> !IsHeader(chunks[j]) { NoHeader(NOTHING_SEEN, chunks); }
    i := FindHeader(chunks, |chunks|);
    SeenHeader(NOTHING_SEEN, chunks, i, alphaAllowed);
  }

  lemma StreamSeen(chunks: seq<RawChunk>, alphaAllowed: bool) returns (packed: seq<byte>)
    requires AllLegal(chunks, alphaAllowed)
    ensures packed == SeenOf(NOTHING_SEEN, chunks).idat && IsJoin(Contributions(chunks), packed)
  {
    SeenIdat(NOTHING_SEEN, chunks, alphaAllowed);
    packed := Flatten(Contributions(chunks));
    FlattenJoins(Contributions(chunks));
    assert [] + packed == packed;
  }

  /** Whatever is not refused before inflating is readable. */
  lemma FileSeen(data: seq<byte>, alphaAllowed: bool) returns (chunks: seq<RawChunk>, rest: seq<byte>, i: nat, packed: seq<byte>)
    requires Signed(data) && Walk(data[8..], NOTHING_SEEN, alphaAllowed).Some?
    requires var seen := Walk(data[8..], NOTHING_SEEN, alphaAllowed).value; seen.header.Some? && seen.idat != []
    ensures Readable(data, alphaAllowed, chunks, rest, i, packed)
  {
    var body := data[8..];
    chunks, rest := WalkIsLegal(body, NOTHING_SEEN, alphaAllowed);
    WalkLegal(chunks, rest, body, NOTHING_SEEN, alphaAllowed);
    packed := StreamSeen(chunks, alphaAllowed);
    i := HeaderSeen(chunks, alphaAllowed);
    assert data == SIGNATURE + body;
  }

  lemma FullRowsMean(k: RawChunk, raw: seq<byte>)
    requires |k.data| == 13
    ensures FullRows(k, raw) <==> |raw| == RowStart(HeaderOf(k).height, StrideOf(k))
                                  && Rows(raw, StrideOf(k), ChannelsOf(k), Zeros(StrideOf(k)), true).Some?
  {
    RowStartIs(HeaderOf(k).height, StrideOf(k));
    LenientAgrees(raw, StrideOf(k), ChannelsOf(k), Zeros(StrideOf(k)));
  }

  lemma PixelsAre(c: Codec, seen: Seen, h: Header, stride: nat, channels: nat, raw: seq<byte>)
    requires seen.header == Some(h) && seen.idat != [] && c.inflate(seen.idat) == Some(raw)
    requires channels == (if h.colour == 2 then 3 else 4) && stride == h.width * channels
    ensures var rows := Rows(raw, stride, channels, Zeros(stride), true);
            var r := Pixels(c, seen);
            && !r.Raised? && (r.Ok? <==> |raw| == RowStart(h.height, stride) && rows.Some?)
            && (r.Ok? ==> r.value.width == h.width && r.value.height == h.height && PixelLaw(rows.value, h.width, channels, r.value.rgb))
  {
    var rows := Rows(raw, stride, channels, Zeros(stride), true);
    if rows.Some? {
      if h.colour == 2 { PlainLaw(rows.value, h.width); } else { StripLaw(rows.value, h.width); }
    }
  }

  lemma ImageOf(c: Codec, k: RawChunk, seen: Seen, raw: seq<byte>)
    requires |k.data| == 13 && seen.header == Some(HeaderOf(k)) && seen.idat != [] && c.inflate(seen.idat) == Some(raw)
    ensures var r := Pixels(c, seen);
            && !r.Raised? && (r.Ok? <==> FullRows(k, raw))
            && (r.Ok? ==> exists rows :: Shows(k, raw, rows, r.value))
  {
    PixelsAre(c, seen, HeaderOf(k), StrideOf(k), ChannelsOf(k), raw);
    FullRowsMean(k, raw);
    if Pixels(c, seen).Ok? {
      ImageMeans(raw, HeaderOf(k).height, StrideOf(k), ChannelsOf(k));
      var rows := Rows(raw, StrideOf(k), ChannelsOf(k), Zeros(StrideOf(k)), true).value;
      assert Shows(k, raw, rows, Pixels(c, seen).value);
    }
  }

  /** A readable file, whatever chunks it is read as, has this one outcome. */
  lemma OutcomeOf(c: Codec, data: seq<byte>, alphaAllowed: bool, chunks: seq<RawChunk>, rest: seq<byte>, i: nat, packed: seq<byte>)
    requires Readable(data, alphaAllowed, chunks, rest, i, packed)
    ensures var r := Decode(c, data, alphaAllowed);
            && (r.Raised? <==> c.inflate(packed).None?)
            && (r.Ok? <==> DecodesBy(c, data, alphaAllowed, chunks, rest, i, packed))
            && (r.Ok? ==> exists rows :: Shows(chunks[i], c.inflate(packed).value, rows, r.value))
  {
    SeenFile(data, alphaAllowed, chunks, rest, i, packed);
    var seen := Walk(data[8..], NOTHING_SEEN, alphaAllowed).value;
    assert Decode(c, data, alphaAllowed) == Pixels(c, seen);
    if c.inflate(packed).Some? { ImageOf(c, chunks[i], seen, c.inflate(packed).value); }
  }

  lemma NotRefused(c: Codec, data: seq<byte>, alphaAllowed: bool) returns (chunks: seq<RawChunk>, rest: seq<byte>, i: nat, packed: seq<byte>)
    requires !Decode(c, data, alphaAllowed).Refused?
    ensures Readable(data, alphaAllowed, chunks, rest, i, packed)
  {
    chunks, rest, i, packed := FileSeen(data, alphaAllowed);
  }

  ghost predicate DecodesBy(c: Codec, data: seq<byte>, alphaAllowed: bool, chunks: seq<RawChunk>, rest: seq<byte>, i: nat, packed: seq<byte>) {
    Readable(data, alphaAllowed, chunks, rest, i, packed) && c.inflate(packed).Some? && FullRows(chunks[i], c.inflate(packed).value)
  }

  ghost predicate RaisesBy(c: Codec, data: seq<byte>, alphaAllowed: bool, chunks: seq<RawChunk>, rest: seq<byte>, i: nat, packed: seq<byte>) {
    Readable(data, alphaAllowed, chunks, rest, i, packed) && c.inflate(packed).None?
  }

  ghost predicate Decodable(c: Codec, data: seq<byte>, alphaAllowed: bool) {
    exists chunks, rest, i: nat, packed :: DecodesBy(c, data, alphaAllowed, chunks, rest, i, packed)
  }

  ghost predicate Raises(c: Codec, data: seq<byte>, alphaAllowed: bool) {
    exists chunks, rest, i: nat, packed :: RaisesBy(c, data, alphaAllowed, chunks, rest, i, packed)
  }

  /** `image` is what the rows of some reading show. */
  ghost predicate ImageIn(c: Codec, data: seq<byte>, alphaAllowed: bool, image: Image) {
    exists chunks, rest, i: nat, packed, rows ::
      DecodesBy(c, data, alphaAllowed, chunks, rest, i, packed) && Shows(chunks[i], c.inflate(packed).value, rows, image)
  }

  /**
   Over all bytes: an image exactly when the file reads as legal chunks whose joined IDAT data inflates
   to full rows, and then the image of those rows; an exception exactly when such a stream does not inflate.
   */
  lemma DecodesExactly(c: Codec, data: seq<byte>, alphaAllowed: bool)
    ensures var r := Decode(c, data, alphaAllowed);
            && (r.Ok? <==> Decodable(c, data, alphaAllowed))
            && (r.Ok? ==> ImageIn(c, data, alphaAllowed, r.value))
            && (r.Raised? <==> Raises(c, data, alphaAllowed))
  {
    var r := Decode(c, data, alphaAllowed);
    if r.Ok? { OkIsDecodable(c, data, alphaAllowed); }
    if r.Raised? { RaisedRaises(c, data, alphaAllowed); }
    if Decodable(c, data, alphaAllowed) { DecodableIsOk(c, data, alphaAllowed); }
    if Raises(c, data, alphaAllowed) { RaisesIsRaised(c, data, alphaAllowed); }
  }

  lemma OkIsDecodable(c: Codec, data: seq<byte>, alphaAllowed: bool)
    requires Decode(c, data, alphaAllowed).Ok?
    ensures Decodable(c, data, alphaAllowed) && ImageIn(c, data, alphaAllowed, Decode(c, data, alphaAllowed).value)
  {
    var chunks, rest, i, packed := NotRefused(c, data, alphaAllowed);
    OutcomeOf(c, data, alphaAllowed, chunks, rest, i, packed);
    var rows :| Shows(chunks[i], c.inflate(packed).value, rows, Decode(c, data, alphaAllowed).value);
  }

  lemma RaisedRaises(c: Codec, data: seq<byte>, alphaAllowed: bool)
    requires Decode(c, data, alphaAllowed).Raised?
    ensures Raises(c, data, alphaAllowed)
  {
    var chunks, rest, i, packed := NotRefused(c, data, alphaAllowed);
    OutcomeOf(c, data, alphaAllowed, chunks, rest, i, packed);
    assert RaisesBy(c, data, alphaAllowed, chunks, rest, i, packed);
  }

  lemma DecodableIsOk(c: Codec, data: seq<byte>, alphaAllowed: bool)
    requires Decodable(c, data, alphaAllowed)
    ensures Decode(c, data, alphaAllowed).Ok?
  {
    var chunks, rest, i: nat, packed :| DecodesBy(c, data, alphaAllowed, chunks, rest, i, packed);
    OutcomeOf(c, data, alphaAllowed, chunks, rest, i, packed);
  }

  lemma RaisesIsRaised(c: Codec, data: seq<byte>, alphaAllowed: bool)
    requires Raises(c, data, alphaAllowed)
    ensures Decode(c, data, alphaAllowed).Raised?
  {
    var chunks, rest, i: nat, packed :| RaisesBy(c, data, alphaAllowed, chunks, rest, i, packed);
    OutcomeOf(c, data, alphaAllowed, chunks, rest, i, packed);
  }

  /** The encoder writes exactly the images with all their pixels whose sizes fit four bytes. */
  lemma EncodesExactly(c: Codec, image: Image)
    ensures Encode(c, image).Some? <==>
            && |image.rgb| == image.height * (image.width * 3) && image.width < 0x1_0000_0000 && image.height < 0x1_0000_0000
            && forall raw :: PlainRows(raw, image.width, image.height, image.rgb) ==> |c.deflate(raw)| < 0x1_0000_0000
  {
    if |image.rgb| == image.height * (image.width * 3) {
      var raw := RawRows(Split(image.rgb, image.height, image.width * 3));
      RawIsPlain(image);
      forall other | PlainRows(other, image.width, image.height, image.rgb) ensures other == raw {
        PlainIsUnique(other, raw, image.width, image.height, image.rgb);
      }
    }
  }

  lemma PlainIsUnique(a: seq<byte>, b: seq<byte>, width: nat, height: nat, rgb: seq<byte>)
    requires PlainRows(a, width, height, rgb) && PlainRows(b, width, height, rgb)
    ensures a == b
  {
    forall p | 0 <= p < |a| ensures a[p] == b[p] {
      var y, x := RowOfByte(p, 3 * width + 1, height);
      assert PlainRow(a, width, rgb, y) && PlainRow(b, width, rgb, y);
      SameInRow(a, b, width, rgb, y, x);
    }
  }

  lemma RowOfByte(p: nat, size: nat, height: nat) returns (y: nat, x: nat)
    requires size > 0 && p < height * size
    ensures y < height && x < size && p == y * size + x
  {
    y, x := p / size, p % size;
    if height <= y { Multiples(height, y, size); }
  }

  lemma SameInRow(a: seq<byte>, b: seq<byte>, width: nat, rgb: seq<byte>, y: nat, x: nat)
    requires PlainRow(a, width, rgb, y) && PlainRow(b, width, rgb, y) && x < 3 * width + 1
    ensures var p := y * (3 * width + 1) + x; p < |a| && p < |b| && a[p] == b[p]
  {
    var start, pixel := y * (3 * width + 1), y * (3 * width);
    if x > 0 {
      assert a[start + x] == a[start + 1..start + 1 + 3 * width][x - 1];
      assert b[start + x] == b[start + 1..start + 1 + 3 * width][x - 1];
    }
  }
}
