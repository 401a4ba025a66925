/** Walkthrough frames: glyphs painted in place, scene markers, and which screenshot each frame shows. */
module FramePaint {
  import opened Options
  import opened PngFilter
  import opened CaptionWrap

  const VIDEO_WIDTH := 160
  const VIDEO_HEIGHT := 90
  const CAPTION_X := 2
  const CAPTION_Y := 40
  const LINE_HEIGHT := 8
  const INJECTED_Y := 72
  const CAPTION_ROWS := (INJECTED_Y - CAPTION_Y) / LINE_HEIGHT

  datatype Colour = Colour(r: byte, g: byte, b: byte)

  function Channel(c: Colour, k: nat): byte {
    if k % 3 == 0 then c.r else if k % 3 == 1 then c.g else c.b
  }

  /** The pixel that byte `k` of a frame belongs to. */
  function X(k: nat, width: nat): nat requires width > 0 { k / 3 % width }

  function Y(k: nat, width: nat): nat requires width > 0 { k / 3 / width }

  lemma PixelIndex(width: nat, x: nat, y: nat, k: nat)
    requires x < width
    ensures (X(k, width) == x && Y(k, width) == y) <==> (y * width + x) * 3 <= k < (y * width + x) * 3 + 3
  {
    var p := k / 3;
    assert p == p / width * width + p % width;
    if p == y * width + x {
      DivMod(y, width, x);
    }
  }

  lemma DivMod(q: nat, d: nat, r: nat)
    requires r < d
    ensures (q * d + r) / d == q && (q * d + r) % d == r
  {
    assert (q + 1) * d == q * d + d;
    DivBounds(q * d + r, d, q);
    var n := q * d + r;
    assert n == n / d * d + n % d;
  }

  lemma InsideFrame(width: nat, height: nat, x: nat, y: nat)
    requires x < width && y < height
    ensures (y * width + x) * 3 + 3 <= height * width * 3
  {
    assert (y + 1) * width <= height * width;
  }

  /** A frame buffer of whole rows. */
  ghost predicate Whole(length: nat, width: nat, height: nat) {
    width > 0 && length == height * width * 3
  }

  lemma HeightOf(length: nat, width: nat, height: nat)
    requires Whole(length, width, height)
    ensures length / (width * 3) == height
  {
    assert length == height * (width * 3);
    DivMod(height, width * 3, 0);
  }

  lemma OutsideFrame(length: nat, width: nat, height: nat, x: int, y: int, k: nat)
    requires Whole(length, width, height) && k < length && (x < 0 || y < 0 || x >= width || y >= height)
    ensures !(X(k, width) == x && Y(k, width) == y)
  {
    if 0 <= x < width && y >= height {
      PixelIndex(width, x, y, k);
      assert (y - height) * width >= 0;
      assert y * width == height * width + (y - height) * width;
    }
  }

  /** `_paint` and `_set`: one pixel, or nothing when it lies outside the frame. */
  method Paint(frame: array<byte>, x: int, y: int, colour: Colour, width: nat, ghost height: nat)
    requires Whole(frame.Length, width, height)
    modifies frame
    ensures forall k :: 0 <= k < frame.Length ==>
              frame[k] == if X(k, width) == x && Y(k, width) == y then Channel(colour, k) else old(frame[k])
  {
    HeightOf(frame.Length, width, height);
    var rows := frame.Length / (width * 3);
    ghost var before := frame[..];
    if x < 0 || y < 0 || x >= width || y >= rows {
      forall k | 0 <= k < frame.Length ensures !(X(k, width) == x && Y(k, width) == y) {
        OutsideFrame(frame.Length, width, height, x, y, k);
      }
      return;
    }
    InsideFrame(width, height, x, y);
    var start := (y * width + x) * 3;
    frame[start] := colour.r;
    frame[start + 1] := colour.g;
    frame[start + 2] := colour.b;
    forall k | 0 <= k < frame.Length
      ensures frame[k] == if X(k, width) == x && Y(k, width) == y then Channel(colour, k) else before[k]
    {
      PixelIndex(width, x, y, k);
    }
  }

  // ------------------------------------------------------------ captions

  /** The 5x7 font: is this dot of the glyph set? Characters without a glyph are blank. */
  type Font = (char, nat, nat) -> bool

  /** Pixel (px, py) belongs to a set dot of `text` painted at (x, y) in 6-pixel cells. */
  predicate Lit(font: Font, text: string, x: int, y: int, px: int, py: int) {
    && x <= px && (px - x) / 6 < |text| && (px - x) % 6 < 5
    && y <= py < y + 7
    && font(text[(px - x) / 6], py - y, (px - x) % 6)
  }

  method BlitRow(frame: array<byte>, font: Font, ch: char, row: nat, x: int, y: int, colour: Colour, width: nat, ghost height: nat)
    requires Whole(frame.Length, width, height)
    modifies frame
    ensures forall k :: 0 <= k < frame.Length ==>
              frame[k] == if Y(k, width) == y + row && x <= X(k, width) < x + 5 && font(ch, row, X(k, width) - x)
                          then Channel(colour, k) else old(frame[k])
  {
    for col := 0 to 5
      invariant forall k :: 0 <= k < frame.Length ==>
                  frame[k] == if Y(k, width) == y + row && x <= X(k, width) < x + col && font(ch, row, X(k, width) - x)
                              then Channel(colour, k) else old(frame[k])
    {
      if font(ch, row, col) { Paint(frame, x + col, y + row, colour, width, height); }
    }
  }

  method BlitChar(frame: array<byte>, font: Font, ch: char, x: int, y: int, colour: Colour, width: nat, ghost height: nat)
    requires Whole(frame.Length, width, height)
    modifies frame
    ensures forall k :: 0 <= k < frame.Length ==>
              frame[k] == if y <= Y(k, width) < y + 7 && x <= X(k, width) < x + 5 && font(ch, Y(k, width) - y, X(k, width) - x)
                          then Channel(colour, k) else old(frame[k])
  {
    for row := 0 to 7
      invariant forall k :: 0 <= k < frame.Length ==>
                  frame[k] == if y <= Y(k, width) < y + row && x <= X(k, width) < x + 5 && font(ch, Y(k, width) - y, X(k, width) - x)
                              then Channel(colour, k) else old(frame[k])
    {
      BlitRow(frame, font, ch, row, x, y, colour, width, height);
    }
  }

  /** `blit`: exactly the set dots of the text take the colour, clipped to the frame. */
  method Blit(frame: array<byte>, font: Font, text: string, x: int, y: int, colour: Colour, width: nat, ghost height: nat)
    requires Whole(frame.Length, width, height)
    modifies frame
    ensures forall k :: 0 <= k < frame.Length ==>
              frame[k] == if Lit(font, text, x, y, X(k, width), Y(k, width)) then Channel(colour, k) else old(frame[k])
  {
    var cursor := x;
    for i := 0 to |text|
      invariant cursor == x + 6 * i
      invariant forall k :: 0 <= k < frame.Length ==>
                  frame[k] == if Lit(font, text[..i], x, y, X(k, width), Y(k, width)) then Channel(colour, k) else old(frame[k])
    {
      BlitChar(frame, font, text[i], cursor, y, colour, width, height);
      forall px: nat, py: nat
        ensures Lit(font, text[..i + 1], x, y, px, py) <==>
                Lit(font, text[..i], x, y, px, py)
                || (y <= py < y + 7 && cursor <= px < cursor + 5 && font(text[i], py - y, px - cursor))
      {
        CellOf(font, text, i, x, y, px, py);
      }
      cursor := cursor + 6;
    }
    assert text[..|text|] == text;
  }

  lemma CellOf(font: Font, text: string, i: nat, x: int, y: int, px: nat, py: nat)
    requires i < |text|
    ensures Lit(font, text[..i + 1], x, y, px, py) <==>
            Lit(font, text[..i], x, y, px, py)
            || (y <= py < y + 7 && x + 6 * i <= px < x + 6 * i + 5 && font(text[i], py - y, px - (x + 6 * i)))
  {
    if x <= px {
      var d := px - x;
      assert d == d / 6 * 6 + d % 6;
    }
  }

  /** `refuse_caption_width` and `refuse_caption_rows`, for one caption. */
  predicate CaptionFits(caption: string) {
    var lines := Wrap(caption, CAPTION_COLUMNS);
    |lines| <= CAPTION_ROWS && forall i :: 0 <= i < |lines| ==> |lines[i]| <= CAPTION_COLUMNS
  }

  /** A caption that passes both checks is painted whole: every set dot is on the frame and above the injected line. */
  lemma CaptionIsNotClipped(font: Font, caption: string, line: nat, px: int, py: int)
    requires CaptionFits(caption) && line < |Wrap(caption, CAPTION_COLUMNS)|
    requires Lit(font, Wrap(caption, CAPTION_COLUMNS)[line], CAPTION_X, CAPTION_Y + line * LINE_HEIGHT, px, py)
    ensures 0 <= px < VIDEO_WIDTH && CAPTION_Y <= py < INJECTED_Y < VIDEO_HEIGHT
  {
    var d := px - CAPTION_X;
    assert d == d / 6 * 6 + d % 6;
    assert d / 6 <= CAPTION_COLUMNS - 1;
  }

  /** Lines of one caption never share a pixel. */
  lemma LinesDoNotOverlap(font: Font, a: string, b: string, i: nat, j: nat, px: int, py: int)
    requires i != j
    requires Lit(font, a, CAPTION_X, CAPTION_Y + i * LINE_HEIGHT, px, py)
    ensures !Lit(font, b, CAPTION_X, CAPTION_Y + j * LINE_HEIGHT, px, py)
  {
    if i < j { assert (i + 1) * LINE_HEIGHT <= j * LINE_HEIGHT; } else { assert (j + 1) * LINE_HEIGHT <= i * LINE_HEIGHT; }
  }

  // ------------------------------------------------------------ which screenshot a frame shows

  function ShotIndex(local: nat, frames: nat, shots: nat): nat
    requires frames > 0
  {
    local * shots / frames
  }

  function CeilDiv(a: nat, b: nat): nat
    requires b > 0
  {
    (a + b - 1) / b
  }

  lemma DivBounds(a: nat, b: nat, q: nat)
    requires b > 0
    ensures a / b == q <==> q * b <= a < (q + 1) * b
  {
    assert a == a / b * b + a % b;
    if a / b < q { assert (a / b + 1) * b <= q * b; }
    if a / b > q { assert (q + 1) * b <= a / b * b; }
  }

  lemma CeilBounds(a: nat, b: nat, l: nat)
    requires b > 0
    ensures CeilDiv(a, b) <= l <==> a <= l * b
  {
    var q := CeilDiv(a, b);
    DivBounds(a + b - 1, b, q);
    assert (q + 1) * b == q * b + b;
    if q <= l { assert q * b <= l * b; } else { assert (l + 1) * b <= q * b && (l + 1) * b == l * b + b; }
  }

  lemma ShotAt(n: nat, m: nat, s: nat, l: nat)
    requires 0 < m && 0 < n
    ensures ShotIndex(l, n, m) == s <==> CeilDiv(s * n, m) <= l < CeilDiv((s + 1) * n, m)
  {
    DivBounds(l * m, n, s);
    CeilBounds(s * n, m, l);
    CeilBounds((s + 1) * n, m, l);
  }

  lemma BlockEnds(n: nat, m: nat, s: nat)
    requires 0 < m <= n && s < m
    ensures CeilDiv((s + 1) * n, m) <= n
    ensures n / m <= CeilDiv((s + 1) * n, m) - CeilDiv(s * n, m) <= CeilDiv(n, m) && n / m >= 1
  {
    assert (s + 1) * n == s * n + n;
    assert (s + 1) * n <= m * n;
    CeilBounds((s + 1) * n, m, n);
    BlockSize(s * n, n, m);
  }

  /** Screenshot `s` of `m` fills one contiguous block of a scene's `n` frames, of floor(n/m) or ceil(n/m) frames. */
  lemma ShotBlock(n: nat, m: nat, s: nat)
    requires 0 < m <= n && s < m
    ensures exists first, last :: Block(n, m, s, first, last)
  {
    var first, last := CeilDiv(s * n, m), CeilDiv((s + 1) * n, m);
    BlockEnds(n, m, s);
    forall l | 0 <= l < n ensures ShotIndex(l, n, m) == s <==> first <= l < last {
      ShotAt(n, m, s, l);
    }
    assert Block(n, m, s, first, last);
  }

  ghost predicate Block(n: nat, m: nat, s: nat, first: nat, last: nat)
    requires 0 < m <= n
  {
    && first < last <= n
    && n / m <= last - first <= CeilDiv(n, m)
    && forall l :: 0 <= l < n ==> (ShotIndex(l, n, m) == s <==> first <= l < last)
  }

  lemma BlockAtMost(a: nat, n: nat, m: nat)
    requires 0 < m
    ensures CeilDiv(a + n, m) <= CeilDiv(a, m) + CeilDiv(n, m)
  {
    var c, top := CeilDiv(a, m), CeilDiv(n, m);
    CeilBounds(a, m, c);
    CeilBounds(n, m, top);
    assert (c + top) * m == c * m + top * m;
    CeilBounds(a + n, m, c + top);
  }

  lemma BlockAtLeast(a: nat, n: nat, m: nat, q: nat)
    requires 0 < m && 1 <= q && q * m <= n
    ensures CeilDiv(a, m) + q <= CeilDiv(a + n, m)
  {
    var c := CeilDiv(a, m);
    var all := c + q - 1;
    CeilBounds(a + n, m, all);
    if c > 0 {
      CeilBounds(a, m, c - 1);
      assert all * m == (c - 1) * m + q * m;
    } else {
      assert all * m == q * m - m;
    }
  }

  lemma BlockSize(a: nat, n: nat, m: nat)
    requires 0 < m <= n
    ensures n / m <= CeilDiv(a + n, m) - CeilDiv(a, m) <= CeilDiv(n, m) && n / m >= 1
  {
    DivBounds(n, m, n / m);
    DivBounds(n, m, 0);
    BlockAtMost(a, n, m);
    BlockAtLeast(a, n, m, n / m);
  }

  // ------------------------------------------------------------ scene markers

  datatype Scene = Scene(shots: nat, frames: nat)

  /** The five beats: every scene shows one screenshot except the five hubs. */
  const SCENES := [Scene(1, 60), Scene(1, 60), Scene(5, 80), Scene(1, 50), Scene(1, 50)]

  /** `scene_marker`: the hub number when the scene has several screenshots. */
  function Hub(local: nat, scene: Scene): nat
    requires local < scene.frames
  {
    if scene.shots > 1 then ShotIndex(local, scene.frames, scene.shots) + 1 else 0
  }

  /** Frames before scene `i`. */
  function Before(scenes: seq<Scene>, i: nat): nat
    requires i <= |scenes|
  {
    if i == 0 then 0 else Before(scenes, i - 1) + scenes[i - 1].frames
  }

  predicate MarkedAt(frames: seq<byte>, base: nat, scene: nat, hub: nat) {
    && base + 3 < |frames|
    && frames[base] == scene && frames[base + 1] == 0 && frames[base + 2] == 0
    && frames[base + 3] == hub
  }

  /** The first `upto` frames of scene `i` carry their markers. */
  ghost predicate SceneMarked(frames: seq<byte>, scenes: seq<Scene>, stride: nat, i: nat, upto: nat)
    requires i < |scenes| && upto <= scenes[i].frames
  {
    forall l :: 0 <= l < upto ==> MarkedAt(frames, (Before(scenes, i) + l) * stride, i + 1, Hub(l, scenes[i]))
  }

  ghost predicate FramesMarked(frames: seq<byte>, scenes: seq<Scene>, stride: nat) {
    && |frames| == Before(scenes, |scenes|) * stride
    && forall i :: 0 <= i < |scenes| ==> SceneMarked(frames, scenes, stride, i, scenes[i].frames)
  }

  /** One frame's bytes with the two marker pixels painted last. */
  method MarkFrame(content: seq<byte>, scene: byte, hub: byte, width: nat, height: nat) returns (frame: seq<byte>)
    requires Whole(|content|, width, height) && width >= 2 && height >= 1
    ensures |frame| == |content| >= 6 && MarkedAt(frame, 0, scene, hub)
    ensures frame == [scene, 0, 0, hub, 0, 0] + content[6..]
  {
    var buffer := new byte[|content|](k requires 0 <= k < |content| => content[k]);
    InsideFrame(width, height, 1, 0);
    Paint(buffer, 0, 0, Colour(scene, 0, 0), width, height);
    Paint(buffer, 1, 0, Colour(hub, 0, 0), width, height);
    forall k: nat ensures X(k, width) == 0 && Y(k, width) == 0 <==> k < 3 { PixelIndex(width, 0, 0, k); }
    forall k: nat ensures X(k, width) == 1 && Y(k, width) == 0 <==> 3 <= k < 6 { PixelIndex(width, 1, 0, k); }
    frame := buffer[..];
    assert frame[..6] == [scene, 0, 0, hub, 0, 0];
    assert frame == frame[..6] + frame[6..] && frame[6..] == content[6..];
  }

  lemma NextFrame(count: nat, stride: nat)
    ensures (count + 1) * stride == count * stride + stride
  {
  }

  /** This frame has a screenshot to show and a marker that fits in its bytes. */
  predicate FrameOk(scene: Scene, i: nat, local: nat)
    requires local < scene.frames
  {
    scene.shots > 0 && i + 1 <= 255 && Hub(local, scene) <= 255
  }

  ghost predicate Markable(scenes: seq<Scene>) {
    forall i, l :: 0 <= i < |scenes| && 0 <= l < scenes[i].frames ==> FrameOk(scenes[i], i, l)
  }

  /** Frame `l` of scene `i`, whole: the two marker pixels, and under them what is painted for its screenshot. */
  ghost predicate FrameShows(frames: seq<byte>, base: nat, stride: nat, scene: Scene, i: nat, l: nat,
                             content: (nat, nat, nat) -> seq<byte>) {
    && scene.shots > 0 && l < scene.frames && 6 <= stride && base + stride <= |frames|
    && frames[base] == i + 1 && frames[base + 1] == 0 && frames[base + 2] == 0
    && frames[base + 3] == (if scene.shots > 1 then l * scene.shots / scene.frames + 1 else 0)
    && frames[base + 4] == 0 && frames[base + 5] == 0
    && (var painted := content(i + 1, l, PlaceOf(l, scene)); |painted| == stride && frames[base + 6..base + stride] == painted[6..])
  }

  /** The screenshot of frame `l`, by its share of the scene. */
  function PlaceOf(l: nat, scene: Scene): (shot: nat)
    requires l < scene.frames
    ensures shot == l * scene.shots / scene.frames
  {
    ShotIndex(l, scene.frames, scene.shots)
  }

  /** Frame `l` of scene `i` where the frames of the earlier scenes and its own earlier frames put it. */
  ghost predicate ShownAt(frames: seq<byte>, scenes: seq<Scene>, stride: nat, content: (nat, nat, nat) -> seq<byte>, i: nat, l: nat)
    requires i < |scenes|
  {
    FrameShows(frames, (Before(scenes, i) + l) * stride, stride, scenes[i], i, l, content)
  }

  ghost predicate SceneShown(frames: seq<byte>, scenes: seq<Scene>, stride: nat, content: (nat, nat, nat) -> seq<byte>, i: nat, upto: nat)
    requires i < |scenes| && upto <= scenes[i].frames
  {
    forall l :: 0 <= l < upto ==> ShownAt(frames, scenes, stride, content, i, l)
  }

  /** Every frame of every scene, in order, and nothing else. */
  ghost predicate AllShown(frames: seq<byte>, scenes: seq<Scene>, stride: nat, content: (nat, nat, nat) -> seq<byte>) {
    && |frames| == Before(scenes, |scenes|) * stride
    && forall i :: 0 <= i < |scenes| ==> SceneShown(frames, scenes, stride, content, i, scenes[i].frames)
  }

  lemma FrameShowsGrows(frames: seq<byte>, more: seq<byte>, base: nat, stride: nat, scene: Scene, i: nat, l: nat,
                        content: (nat, nat, nat) -> seq<byte>)
    requires FrameShows(frames, base, stride, scene, i, l, content)
    ensures FrameShows(frames + more, base, stride, scene, i, l, content)
  {
    assert (frames + more)[base + 6..base + stride] == frames[base + 6..base + stride];
  }

  lemma ShownAtGrows(frames: seq<byte>, more: seq<byte>, scenes: seq<Scene>, stride: nat, content: (nat, nat, nat) -> seq<byte>, i: nat, l: nat)
    requires i < |scenes| && ShownAt(frames, scenes, stride, content, i, l)
    ensures ShownAt(frames + more, scenes, stride, content, i, l)
  {
    FrameShowsGrows(frames, more, (Before(scenes, i) + l) * stride, stride, scenes[i], i, l, content);
  }

  lemma ShownGrows(frames: seq<byte>, more: seq<byte>, scenes: seq<Scene>, stride: nat, content: (nat, nat, nat) -> seq<byte>, i: nat, upto: nat)
    requires i < |scenes| && upto <= scenes[i].frames && SceneShown(frames, scenes, stride, content, i, upto)
    ensures SceneShown(frames + more, scenes, stride, content, i, upto)
  {
    forall l | 0 <= l < upto
      ensures ShownAt(frames + more, scenes, stride, content, i, l)
    {
      ShownAtGrows(frames, more, scenes, stride, content, i, l);
    }
  }

  lemma FrameAppended(out: seq<byte>, frame: seq<byte>, stride: nat, scene: Scene, i: nat, l: nat, content: (nat, nat, nat) -> seq<byte>)
    requires l < scene.frames && FrameOk(scene, i, l) && 6 <= stride && |content(i + 1, l, PlaceOf(l, scene))| == stride
    requires frame == [i + 1, 0, 0, Hub(l, scene), 0, 0] + content(i + 1, l, PlaceOf(l, scene))[6..]
    ensures FrameShows(out + frame, |out|, stride, scene, i, l, content)
  {
    var all, base := out + frame, |out|;
    assert all[base + 6..base + stride] == frame[6..];
    assert frame[6..] == content(i + 1, l, PlaceOf(l, scene))[6..];
  }

  lemma AppendShown(out: seq<byte>, frame: seq<byte>, scenes: seq<Scene>, stride: nat, content: (nat, nat, nat) -> seq<byte>, i: nat, local: nat)
    requires i < |scenes| && local < scenes[i].frames && |out| == (Before(scenes, i) + local) * stride
    requires forall j :: 0 <= j < i ==> SceneShown(out, scenes, stride, content, j, scenes[j].frames)
    requires SceneShown(out, scenes, stride, content, i, local)
    requires FrameShows(out + frame, |out|, stride, scenes[i], i, local, content)
    ensures forall j :: 0 <= j < i ==> SceneShown(out + frame, scenes, stride, content, j, scenes[j].frames)
    ensures SceneShown(out + frame, scenes, stride, content, i, local + 1)
  {
    forall j | 0 <= j < i ensures SceneShown(out + frame, scenes, stride, content, j, scenes[j].frames) {
      ShownGrows(out, frame, scenes, stride, content, j, scenes[j].frames);
    }
    ShownGrows(out, frame, scenes, stride, content, i, local);
    assert ShownAt(out + frame, scenes, stride, content, i, local);
  }

  lemma SceneIsMarked(frames: seq<byte>, scenes: seq<Scene>, stride: nat, content: (nat, nat, nat) -> seq<byte>, i: nat)
    requires i < |scenes| && SceneShown(frames, scenes, stride, content, i, scenes[i].frames)
    ensures SceneMarked(frames, scenes, stride, i, scenes[i].frames)
  {
    forall l | 0 <= l < scenes[i].frames
      ensures MarkedAt(frames, (Before(scenes, i) + l) * stride, i + 1, Hub(l, scenes[i]))
    {
      assert ShownAt(frames, scenes, stride, content, i, l);
    }
  }

  lemma ShownIsMarked(frames: seq<byte>, scenes: seq<Scene>, stride: nat, content: (nat, nat, nat) -> seq<byte>)
    requires AllShown(frames, scenes, stride, content)
    ensures FramesMarked(frames, scenes, stride)
  {
    forall i | 0 <= i < |scenes| ensures SceneMarked(frames, scenes, stride, i, scenes[i].frames) {
      SceneIsMarked(frames, scenes, stride, content, i);
    }
  }

  /**
   `compose_frames`. What lies under the markers is `content`, any painter at all.
   `None`: a scene without screenshots, or a marker that is not a byte.
   */
  method ComposeFrames(scenes: seq<Scene>, width: nat, height: nat, content: (nat, nat, nat) -> seq<byte>)
    returns (frames: Option<seq<byte>>)
    requires width >= 2 && height >= 1
    requires forall i, l, shot :: |content(i, l, shot)| == height * width * 3
    ensures frames.Some? <==> Markable(scenes)
    ensures frames.Some? ==> AllShown(frames.value, scenes, height * width * 3, content)
    ensures frames.Some? ==> FramesMarked(frames.value, scenes, height * width * 3)
  {
    var stride := height * width * 3;
    InsideFrame(width, height, 1, 0);
    var out: seq<byte> := [];
    for i := 0 to |scenes|
      invariant |out| == Before(scenes, i) * stride
      invariant forall j :: 0 <= j < i ==> SceneShown(out, scenes, stride, content, j, scenes[j].frames)
      invariant forall j, l :: 0 <= j < i && 0 <= l < scenes[j].frames ==> FrameOk(scenes[j], j, l)
    {
      var scene := scenes[i];
      for local := 0 to scene.frames
        invariant |out| == (Before(scenes, i) + local) * stride
        invariant forall j :: 0 <= j < i ==> SceneShown(out, scenes, stride, content, j, scenes[j].frames)
        invariant SceneShown(out, scenes, stride, content, i, local)
        invariant forall l :: 0 <= l < local ==> FrameOk(scene, i, l)
      {
        var hub := Hub(local, scene);
        if !FrameOk(scene, i, local) { return None; }
        var frame := MarkFrame(content(i + 1, local, PlaceOf(local, scene)), i + 1, hub, width, height);
        NextFrame(Before(scenes, i) + local, stride);
        FrameAppended(out, frame, stride, scene, i, local, content);
        AppendShown(out, frame, scenes, stride, content, i, local);
        out := out + frame;
      }
    }
    ShownIsMarked(out, scenes, stride, content);
    return Some(out);
  }

  lemma {:induction false} BeforeRises(scenes: seq<Scene>, i: nat, j: nat)
    requires i <= j <= |scenes|
    ensures Before(scenes, i) <= Before(scenes, j)
    decreases j
  {
    if i < j { BeforeRises(scenes, i, j - 1); }
  }

  lemma Scale(a: nat, b: nat, k: nat)
    requires a <= b
    ensures a * k <= b * k
  {
    assert (b - a) * k >= 0;
  }

  lemma FrameInside(scenes: seq<Scene>, i: nat, local: nat, stride: nat)
    requires i < |scenes| && local < scenes[i].frames
    ensures (Before(scenes, i) + local) * stride + stride <= Before(scenes, |scenes|) * stride
  {
    BeforeRises(scenes, i + 1, |scenes|);
    NextFrame(Before(scenes, i) + local, stride);
    var here, all := Before(scenes, i) + local + 1, Before(scenes, |scenes|);
    Scale(here, all, stride);
  }

  /** `refuse_scene_markers`: accepts exactly the buffers in which every frame carries its marker. */
  method RefuseSceneMarkers(frames: seq<byte>, scenes: seq<Scene>, width: nat, height: nat) returns (refused: bool)
    requires width >= 2 && height >= 1
    ensures refused <==> !FramesMarked(frames, scenes, height * width * 3)
  {
    var stride := height * width * 3;
    InsideFrame(width, height, 1, 0);
    if |frames| != Before(scenes, |scenes|) * stride { return true; }
    var offset := 0;
    for i := 0 to |scenes|
      invariant offset == Before(scenes, i)
      invariant forall j :: 0 <= j < i ==> SceneMarked(frames, scenes, stride, j, scenes[j].frames)
    {
      var scene := scenes[i];
      for local := 0 to scene.frames
        invariant SceneMarked(frames, scenes, stride, i, local)
      {
        FrameInside(scenes, i, local, stride);
        var base := (offset + local) * stride;
        assert MarkedAt(frames, base, i + 1, Hub(local, scene)) || !SceneMarked(frames, scenes, stride, i, scene.frames);
        if frames[base] != i + 1 || frames[base + 1] != 0 || frames[base + 2] != 0 { return true; }
        if frames[base + 3] != Hub(local, scene) { return true; }
      }
      offset := offset + scene.frames;
    }
    return false;
  }

  /** What is composed for the pinned scenes is never refused. */
  method ComposeThenCheck(content: (nat, nat, nat) -> seq<byte>) returns (frames: Option<seq<byte>>, refused: bool)
    requires forall i, l, shot :: |content(i, l, shot)| == VIDEO_HEIGHT * VIDEO_WIDTH * 3
    ensures frames.Some? && FramesMarked(frames.value, SCENES, VIDEO_HEIGHT * VIDEO_WIDTH * 3) && !refused
    ensures |frames.value| == (60 + 60 + 80 + 50 + 50) * (90 * 160 * 3)
    ensures AllShown(frames.value, [Scene(1, 60), Scene(1, 60), Scene(5, 80), Scene(1, 50), Scene(1, 50)], 90 * 160 * 3, content)
  {
    forall i, l | 0 <= i < |SCENES| && 0 <= l < SCENES[i].frames ensures FrameOk(SCENES[i], i, l) {
      if SCENES[i].shots > 1 { DivBounds(l * 5, 80, ShotIndex(l, 80, 5)); }
    }
    frames := ComposeFrames(SCENES, VIDEO_WIDTH, VIDEO_HEIGHT, content);
    refused := RefuseSceneMarkers(frames.value, SCENES, VIDEO_WIDTH, VIDEO_HEIGHT);
  }
}
