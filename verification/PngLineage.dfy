/** `_bind_lineage_png`: one tEXt chunk inserted before IEND, and what that leaves unchanged. */
module PngLineage {
  import opened Options
  import opened PngFilter
  import opened PngCodec

  const TEXT: seq<byte> := [0x74, 0x45, 0x58, 0x74]

  const KEYWORD := "mm-lineage"

  predicate Ascii(text: string) {
    forall i :: 0 <= i < |text| ==> text[i] as int < 128
  }

  function AsciiBytes(text: string): (b: seq<byte>)
    requires Ascii(text)
    ensures |b| == |text|
  {
    seq(|text|, i requires 0 <= i < |text| => text[i] as int)
  }

  function Payload(text: string): seq<byte>
    requires Ascii(text)
  {
    AsciiBytes(KEYWORD) + [0] + AsciiBytes(text)
  }

  function LineageChunk(c: Codec, text: string): seq<byte>
    requires Ascii(text) && |Payload(text)| < U32
  {
    Chunk(c, TEXT, Payload(text))
  }

  /** Where the first IEND starts, if the walk reaches it and it ends the file. */
  function EndChunk(rest: seq<byte>): (at: Option<nat>)
    ensures at.Some? ==> at.value + 12 <= |rest|
    decreases |rest|
  {
    if |rest| < 12 || 12 + FromBe(rest[..4]) > |rest| then None
    else
      var end := 12 + FromBe(rest[..4]);
      if rest[4..8] == IEND then (if end == |rest| then Some(0) else None)
      else
        var later := EndChunk(rest[end..]);
        if later.None? then None else Some(end + later.value)
  }

  /** `chunk` inserted before IEND, or `None` for a file that does not end in one. */
  function Insert(png: seq<byte>, chunk: seq<byte>): Option<seq<byte>>
    requires Signed(png)
  {
    var at := EndChunk(png[8..]);
    if at.None? then None else Some(png[..8 + at.value] + chunk + png[8 + at.value..])
  }

  function Bind(c: Codec, png: seq<byte>, text: string): Result<seq<byte>> {
    if !Signed(png) || !Ascii(text) then Refused
    else if |Payload(text)| >= U32 then Raised
    else
      var out := Insert(png, LineageChunk(c, text));
      if out.None? then Refused else Ok(out.value)
  }

  /** Where IEND starts in the file, for a walk that has come as far as `offset`. */
  ghost function FoundFrom(png: seq<byte>, offset: nat): Option<nat>
    requires offset <= |png|
  {
    var at := EndChunk(png[offset..]);
    if at.None? then None else Some(offset + at.value)
  }

  lemma FoundNext(png: seq<byte>, offset: nat, end: nat)
    requires offset + 12 <= |png| && end == offset + 12 + FromBe(png[offset..offset + 4])
    ensures FoundFrom(png, offset) ==
            if end > |png| then None
            else if png[offset + 4..offset + 8] == IEND then (if end == |png| then Some(offset) else None)
            else FoundFrom(png, end)
  {
    var rest := png[offset..];
    assert rest[..4] == png[offset..offset + 4] && rest[4..8] == png[offset + 4..offset + 8];
    if end <= |png| { assert rest[end - offset..] == png[end..]; }
  }

  /** The loop as written: it copies chunk by chunk and inserts when it meets IEND. */
  method InsertBeforeEnd(png: seq<byte>, chunk: seq<byte>) returns (r: Option<seq<byte>>)
    requires Signed(png)
    ensures r == Insert(png, chunk)
  {
    var offset := 8;
    var out := png[..8];
    ghost var found := FoundFrom(png, 8);
    assert Insert(png, chunk) == if found.None? then None else Some(png[..found.value] + chunk + png[found.value..]);
    while offset + 12 <= |png|
      invariant 8 <= offset <= |png| && out == png[..offset]
      invariant found == FoundFrom(png, offset)
      decreases |png| - offset
    {
      var length := FromBe(png[offset..offset + 4]);
      var tag := png[offset + 4..offset + 8];
      var end := offset + 12 + length;
      FoundNext(png, offset, end);
      if end > |png| { return None; }
      if tag == IEND {
        out := out + chunk + png[offset..end];
        if end != |png| { return None; }
        assert png[offset..end] == png[offset..];
        return Some(out);
      }
      out := out + png[offset..end];
      assert out == png[..end];
      offset := end;
    }
    return None;
  }

  method BindFile(c: Codec, png: seq<byte>, text: string) returns (r: Result<seq<byte>>)
    ensures r == Bind(c, png, text)
  {
    if !Signed(png) || !Ascii(text) { return Refused; }
    if |Payload(text)| >= U32 { return Raised; }
    var out := InsertBeforeEnd(png, LineageChunk(c, text));
    return if out.None? then Refused else Ok(out.value);
  }

  // ------------------------------------------------------------ an independent reading: a file is a list of chunks

  datatype RawChunk = RawChunk(tag: seq<byte>, data: seq<byte>, crc: seq<byte>)

  predicate Fits(k: RawChunk) { |k.tag| == 4 && |k.crc| == 4 && |k.data| < U32 }

  function Bytes(k: RawChunk): seq<byte>
    requires Fits(k)
  {
    Be(|k.data|) + k.tag + k.data + k.crc
  }

  function Serialize(chunks: seq<RawChunk>): seq<byte>
    requires forall i :: 0 <= i < |chunks| ==> Fits(chunks[i])
  {
    if chunks == [] then [] else Bytes(chunks[0]) + Serialize(chunks[1..])
  }

  /** Ordinary chunks, then IEND, then nothing. */
  predicate Ordinary(chunks: seq<RawChunk>) {
    forall i :: 0 <= i < |chunks| ==> Fits(chunks[i]) && chunks[i].tag != IEND
  }

  predicate Closing(last: RawChunk) { Fits(last) && last.tag == IEND }

  ghost predicate IsPng(png: seq<byte>, chunks: seq<RawChunk>, last: RawChunk) {
    Ordinary(chunks) && Closing(last) && png == SIGNATURE + (Serialize(chunks) + Bytes(last))
  }

  lemma ReadBytes(k: RawChunk, rest: seq<byte>)
    requires Fits(k)
    ensures var b := Bytes(k) + rest;
            && |b| == 12 + |k.data| + |rest|
            && FromBe(b[..4]) == |k.data| && b[4..8] == k.tag && b[8..8 + |k.data|] == k.data && b[12 + |k.data|..] == rest
  {
    ReadChunk(k.tag, k.data, k.crc, rest);
  }

  lemma EndAtLast(last: RawChunk, whole: seq<byte>)
    requires Closing(last) && whole == Bytes(last)
    ensures EndChunk(whole) == Some(0)
  {
    ReadBytes(last, []);
    assert Bytes(last) + [] == whole;
  }

  lemma EndStep(k: RawChunk, rest: seq<byte>, whole: seq<byte>, n: nat, at: nat)
    requires Fits(k) && k.tag != IEND && Follows(whole, k, rest) && EndChunk(rest) == Some(n) && at == |Bytes(k)| + n
    ensures EndChunk(whole) == Some(at)
  {
    ReadBytes(k, rest);
  }

  ghost predicate Follows(whole: seq<byte>, k: RawChunk, rest: seq<byte>)
    requires Fits(k)
  {
    whole == Bytes(k) + rest
  }

  lemma Assoc(a: seq<byte>, b: seq<byte>, c: seq<byte>)
    ensures (a + b) + c == a + (b + c)
  {
  }

  /** `whole` is these chunks one after another, and the closing one starts at `at`. */
  ghost predicate Laid(whole: seq<byte>, chunks: seq<RawChunk>, last: RawChunk, at: nat)
    requires Ordinary(chunks) && Closing(last)
    decreases |chunks|
  {
    if chunks == [] then at == 0 && whole == Bytes(last)
    else exists rest, n: nat ::
      Laid(rest, chunks[1..], last, n) && whole == Bytes(chunks[0]) + rest && at == |Bytes(chunks[0])| + n
  }

  lemma LaidTail(whole: seq<byte>, chunks: seq<RawChunk>, last: RawChunk, at: nat) returns (rest: seq<byte>, n: nat)
    requires Ordinary(chunks) && Closing(last) && chunks != [] && Laid(whole, chunks, last, at)
    ensures Laid(rest, chunks[1..], last, n) && Follows(whole, chunks[0], rest) && at == |Bytes(chunks[0])| + n
  {
    rest, n :| Laid(rest, chunks[1..], last, n) && whole == Bytes(chunks[0]) + rest && at == |Bytes(chunks[0])| + n;
  }

  lemma {:induction false} LaidIs(whole: seq<byte>, chunks: seq<RawChunk>, last: RawChunk, at: nat)
    requires Ordinary(chunks) && Closing(last) && Laid(whole, chunks, last, at)
    ensures whole == Serialize(chunks) + Bytes(last) && at == |Serialize(chunks)|
    decreases |chunks|
  {
    if chunks != [] {
      var rest, n := LaidTail(whole, chunks, last, at);
      LaidIs(rest, chunks[1..], last, n);
      Assoc(Bytes(chunks[0]), Serialize(chunks[1..]), Bytes(last));
    }
  }

  lemma {:induction false} LaidOf(chunks: seq<RawChunk>, last: RawChunk)
    requires Ordinary(chunks) && Closing(last)
    ensures Laid(Serialize(chunks) + Bytes(last), chunks, last, |Serialize(chunks)|)
    decreases |chunks|
  {
    if chunks == [] {
      assert Serialize(chunks) + Bytes(last) == Bytes(last);
    } else {
      LaidOf(chunks[1..], last);
      Assoc(Bytes(chunks[0]), Serialize(chunks[1..]), Bytes(last));
    }
  }

  lemma {:induction false} EndOfLaid(whole: seq<byte>, chunks: seq<RawChunk>, last: RawChunk, at: nat)
    requires Ordinary(chunks) && Closing(last) && Laid(whole, chunks, last, at)
    ensures EndChunk(whole) == Some(at)
    decreases |chunks|
  {
    if chunks == [] {
      EndAtLast(last, whole);
    } else {
      var rest, n := LaidTail(whole, chunks, last, at);
      EndOfLaid(rest, chunks[1..], last, n);
      EndStep(chunks[0], rest, whole, n, at);
    }
  }

  lemma EndOfComplete(chunks: seq<RawChunk>, last: RawChunk, whole: seq<byte>)
    requires Ordinary(chunks) && Closing(last) && whole == Serialize(chunks) + Bytes(last)
    ensures EndChunk(whole) == Some(|Serialize(chunks)|)
  {
    LaidOf(chunks, last);
    EndOfLaid(whole, chunks, last, |Serialize(chunks)|);
  }

  lemma SplitFirst(rest: seq<byte>, length: nat) returns (first: RawChunk, tail: seq<byte>)
    requires |rest| >= 12 && length == FromBe(rest[..4]) && 12 + length <= |rest|
    ensures Fits(first) && rest == Bytes(first) + tail
    ensures first.tag == rest[4..8] && tail == rest[12 + length..] && |Bytes(first)| == 12 + length
  {
    first := RawChunk(rest[4..8], rest[8..8 + length], rest[8 + length..12 + length]);
    FromBeRoundTrip(rest[..4]);
    tail := rest[12 + length..];
  }

  /** The first chunk of what is left, when there is one. */
  lemma FirstChunk(rest: seq<byte>) returns (first: RawChunk, tail: seq<byte>)
    requires EndChunk(rest).Some?
    ensures Fits(first) && rest == Bytes(first) + tail && |tail| < |rest|
    ensures if first.tag == IEND then tail == [] && EndChunk(rest) == Some(0)
            else EndChunk(tail).Some? && EndChunk(rest) == Some(|Bytes(first)| + EndChunk(tail).value)
  {
    first, tail := SplitFirst(rest, FromBe(rest[..4]));
  }

  /** Any bytes the walk accepts are ordinary chunks and a closing one. */
  lemma {:induction false} ParseEnd(rest: seq<byte>) returns (chunks: seq<RawChunk>, last: RawChunk)
    requires EndChunk(rest).Some?
    ensures Ordinary(chunks) && Closing(last) && Laid(rest, chunks, last, EndChunk(rest).value)
    decreases |rest|
  {
    var first, tail := FirstChunk(rest);
    if first.tag == IEND {
      chunks, last := [], first;
      assert Bytes(first) + [] == Bytes(first);
    } else {
      var later;
      later, last := ParseEnd(tail);
      chunks := [first] + later;
      assert chunks[1..] == later;
    }
  }

  lemma ParsePng(png: seq<byte>) returns (chunks: seq<RawChunk>, last: RawChunk)
    requires Signed(png) && EndChunk(png[8..]).Some?
    ensures IsPng(png, chunks, last)
  {
    chunks, last := ParseEnd(png[8..]);
    LaidIs(png[8..], chunks, last, EndChunk(png[8..]).value);
    assert png == SIGNATURE + png[8..];
  }

  /** Accepted exactly when the text is ASCII and the file is a signature, ordinary chunks and one IEND at its end. */
  lemma BindAccepts(c: Codec, png: seq<byte>, text: string)
    ensures Bind(c, png, text).Ok? <==>
            Ascii(text) && |Payload(text)| < U32 && exists chunks, last :: IsPng(png, chunks, last)
  {
    if Bind(c, png, text).Ok? {
      var chunks, last := ParsePng(png);
    }
    if exists chunks, last :: IsPng(png, chunks, last) {
      var chunks, last :| IsPng(png, chunks, last);
      assert png[8..] == Serialize(chunks) + Bytes(last);
      EndOfComplete(chunks, last, png[8..]);
    }
  }

  function Lineage(c: Codec, text: string): RawChunk
    requires Ascii(text)
  {
    RawChunk(TEXT, Payload(text), Be(c.crc(TEXT + Payload(text)) % U32))
  }

  lemma {:induction false} SerializeSnoc(a: seq<RawChunk>, k: RawChunk)
    requires Fits(k) && forall i :: 0 <= i < |a| ==> Fits(a[i])
    ensures Serialize(a + [k]) == Serialize(a) + Bytes(k)
    decreases |a|
  {
    if a == [] {
      assert a + [k] == [k] && [k][1..] == [];
      assert Serialize([k]) == Bytes(k) + Serialize([]);
    } else {
      SerializeSnoc(a[1..], k);
      assert (a + [k])[1..] == a[1..] + [k] && (a + [k])[0] == a[0];
      Assoc(Bytes(a[0]), Serialize(a[1..]), Bytes(k));
    }
  }

  lemma Splice(head: seq<byte>, mark: seq<byte>, tail: seq<byte>)
    ensures var png := SIGNATURE + (head + tail);
            && png[8..] == head + tail
            && png[..8 + |head|] + mark + png[8 + |head|..] == SIGNATURE + (head + (mark + tail))
  {
    var png := SIGNATURE + (head + tail);
    assert png[..8 + |head|] == SIGNATURE + head;
    assert png[8 + |head|..] == tail;
  }

  lemma BindShape(c: Codec, png: seq<byte>, text: string, chunks: seq<RawChunk>, last: RawChunk)
    requires IsPng(png, chunks, last) && Ascii(text) && |Payload(text)| < U32
    ensures Bind(c, png, text) == Ok(SIGNATURE + (Serialize(chunks) + (Bytes(Lineage(c, text)) + Bytes(last))))
  {
    Splice(Serialize(chunks), Bytes(Lineage(c, text)), Bytes(last));
    EndOfComplete(chunks, last, png[8..]);
    assert Bytes(Lineage(c, text)) == LineageChunk(c, text);
  }

  /** The output is the same chunk list with the lineage chunk just before IEND. */
  lemma BindInserts(c: Codec, png: seq<byte>, text: string, chunks: seq<RawChunk>, last: RawChunk)
    requires IsPng(png, chunks, last) && Ascii(text) && |Payload(text)| < U32
    ensures Bind(c, png, text).Ok? && IsPng(Bind(c, png, text).value, chunks + [Lineage(c, text)], last)
  {
    var mark := Lineage(c, text);
    BindShape(c, png, text, chunks, last);
    SerializeSnoc(chunks, mark);
    Assoc(Serialize(chunks), Bytes(mark), Bytes(last));
    assert Ordinary(chunks + [mark]);
  }

  /** Cut the lineage chunk out again. */
  function Unbind(c: Codec, bound: seq<byte>, text: string): Option<seq<byte>>
    requires Ascii(text) && |Payload(text)| < U32
  {
    if |bound| < 8 then None
    else
      var at := EndChunk(bound[8..]);
      var size := |LineageChunk(c, text)|;
      if at.None? || at.value < size then None
      else Some(bound[..8 + at.value - size] + bound[8 + at.value..])
  }

  /** Removing the chunk restores the input byte for byte. */
  lemma UnbindInvertsBind(c: Codec, png: seq<byte>, text: string)
    requires Bind(c, png, text).Ok?
    ensures Unbind(c, Bind(c, png, text).value, text) == Some(png)
  {
    var mark := LineageChunk(c, text);
    var at := 8 + EndChunk(png[8..]).value;
    var bound := Bind(c, png, text).value;
    var chunks, last := BoundLaid(c, png, text);
    EndOfLaid(bound[8..], chunks, last, at - 8 + |mark|);
    assert bound == png[..at] + mark + png[at..];
    CutOut(png, mark, at, bound);
  }

  lemma CutOut(png: seq<byte>, mark: seq<byte>, at: nat, bound: seq<byte>)
    requires at <= |png| && bound == png[..at] + mark + png[at..]
    ensures bound[..at] + bound[at + |mark|..] == png
  {
    assert bound[..at] == png[..at] && bound[at + |mark|..] == png[at..];
  }

  /** In the bound file IEND starts later by the length of the chunk. */
  lemma BoundLaid(c: Codec, png: seq<byte>, text: string) returns (chunks: seq<RawChunk>, last: RawChunk)
    requires Bind(c, png, text).Ok?
    ensures var bound := Bind(c, png, text).value;
            && |bound| >= 8 && Ordinary(chunks) && Closing(last)
            && Laid(bound[8..], chunks, last, EndChunk(png[8..]).value + |LineageChunk(c, text)|)
  {
    var whole := png[8..];
    var mark := Lineage(c, text);
    var before;
    before, last := ParseEnd(whole);
    chunks := before + [mark];
    LaidInsert(whole, before, mark, last, EndChunk(whole).value);
    BoundBody(c, png, text);
  }

  lemma BoundBody(c: Codec, png: seq<byte>, text: string)
    requires Bind(c, png, text).Ok?
    ensures var bound, whole, mark := Bind(c, png, text).value, png[8..], Bytes(Lineage(c, text));
            var at := EndChunk(whole).value;
            && |bound| >= 8 && at <= |whole| && mark == LineageChunk(c, text)
            && bound[8..] == whole[..at] + (mark + whole[at..])
  {
    Shifted(png, Bytes(Lineage(c, text)), EndChunk(png[8..]).value);
  }

  lemma Shifted(png: seq<byte>, mark: seq<byte>, at: nat)
    requires 8 + at <= |png|
    ensures (png[..8 + at] + mark + png[8 + at..])[8..] == png[8..][..at] + (mark + png[8..][at..])
  {
  }

  lemma {:induction false} LaidInsert(whole: seq<byte>, chunks: seq<RawChunk>, mark: RawChunk, last: RawChunk, at: nat)
    requires Ordinary(chunks) && Ordinary(chunks + [mark]) && Fits(mark) && Closing(last)
    requires Laid(whole, chunks, last, at)
    ensures at <= |whole|
    ensures Laid(whole[..at] + (Bytes(mark) + whole[at..]), chunks + [mark], last, at + |Bytes(mark)|)
    decreases |chunks|
  {
    if chunks == [] {
      assert (chunks + [mark])[1..] == [] && (chunks + [mark])[0] == mark;
      assert whole[..0] + (Bytes(mark) + whole[0..]) == Bytes(mark) + whole;
      assert Laid(whole, [], last, 0);
    } else {
      var rest, n := LaidTail(whole, chunks, last, at);
      assert (chunks + [mark])[1..] == chunks[1..] + [mark];
      LaidInsert(rest, chunks[1..], mark, last, n);
      InsertPast(Bytes(chunks[0]), rest, Bytes(mark), n);
    }
  }

  lemma InsertPast(first: seq<byte>, rest: seq<byte>, mark: seq<byte>, n: nat)
    requires n <= |rest|
    ensures var whole, at := first + rest, |first| + n;
            whole[..at] + (mark + whole[at..]) == first + (rest[..n] + (mark + rest[n..]))
  {
  }

  lemma Unsplice(head: seq<byte>, mark: seq<byte>, tail: seq<byte>)
    ensures var bound := SIGNATURE + (head + (mark + tail));
            && bound[8..] == head + mark + tail
            && bound[..8 + |head|] + bound[8 + |head| + |mark|..] == SIGNATURE + (head + tail)
  {
    var bound := SIGNATURE + (head + (mark + tail));
    assert bound[..8 + |head|] == SIGNATURE + head;
    assert bound[8 + |head| + |mark|..] == tail;
  }

  /** A chunk no decoder reads makes no difference to the walk, wherever it is inserted. */
  lemma {:induction false} WalkSkips(before: seq<RawChunk>, k: RawChunk, after: seq<byte>, seen: Seen, alphaAllowed: bool)
    requires Fits(k) && k.tag != IHDR && k.tag != IDAT && k.tag != IEND
    requires forall i :: 0 <= i < |before| ==> Fits(before[i])
    ensures Walk(Serialize(before) + (Bytes(k) + after), seen, alphaAllowed) == Walk(Serialize(before) + after, seen, alphaAllowed)
    decreases |before|
  {
    if before == [] {
      WalkChunk(k.tag, k.data, k.crc, after, seen, alphaAllowed);
      assert Serialize(before) + (Bytes(k) + after) == Bytes(k) + after;
      assert Serialize(before) + after == after;
    } else {
      var h := before[0];
      var longer, shorter := Serialize(before[1..]) + (Bytes(k) + after), Serialize(before[1..]) + after;
      assert Serialize(before) + (Bytes(k) + after) == Bytes(h) + longer;
      assert Serialize(before) + after == Bytes(h) + shorter;
      WalkChunk(h.tag, h.data, h.crc, longer, seen, alphaAllowed);
      WalkChunk(h.tag, h.data, h.crc, shorter, seen, alphaAllowed);
      var header := ReadHeader(h.data, alphaAllowed);
      if h.tag == IHDR && header.Some? {
        WalkSkips(before[1..], k, after, seen.(header := header, alpha := seen.alpha || header.value.colour == 6), alphaAllowed);
      }
      WalkSkips(before[1..], k, after, seen.(idat := seen.idat + h.data), alphaAllowed);
      WalkSkips(before[1..], k, after, seen, alphaAllowed);
    }
  }

  /** Binding lineage changes nothing either decoder sees: the same image, or the same refusal. */
  lemma BindKeepsPixels(c: Codec, png: seq<byte>, text: string, alphaAllowed: bool)
    requires Bind(c, png, text).Ok?
    ensures Decode(c, Bind(c, png, text).value, alphaAllowed) == Decode(c, png, alphaAllowed)
  {
    var chunks, last := ParsePng(png);
    BindShape(c, png, text, chunks, last);
    WalkSkips(chunks, Lineage(c, text), Bytes(last), NOTHING_SEEN, alphaAllowed);
    Splice(Serialize(chunks), Bytes(Lineage(c, text)), Bytes(last));
    Unsplice(Serialize(chunks), Bytes(Lineage(c, text)), Bytes(last));
    assert Serialize(chunks) + Bytes(Lineage(c, text)) + Bytes(last)
           == Serialize(chunks) + (Bytes(Lineage(c, text)) + Bytes(last));
  }
}
