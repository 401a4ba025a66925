/**
 Undoing the five PNG row filters in place (section 6 of RFC 2083), as the
 screenshot decoder does for any channel count and the walkthrough decoder for three.
 */
module PngFilter {
  type byte = b: int | 0 <= b < 256

  /** Byte arithmetic is modulo 256: the source masks with 255. */
  function Plus(a: int, b: int): byte { (a + b) % 256 }

  function Minus(a: int, b: int): byte { (a - b) % 256 }

  function Mean(a: byte, b: byte): byte {
    var total: int := a as int + b as int;
    total / 2
  }

  function Abs(n: int): nat { if n < 0 then -n else n }

  // ------------------------------------------------------------ Paeth

  /** `_paeth` of the screenshot and walkthrough decoders. */
  function Paeth(left: byte, up: byte, upperLeft: byte): byte {
    var estimate := left + up - upperLeft;
    var leftDistance := Abs(estimate - left);
    var upDistance := Abs(estimate - up);
    var upperDistance := Abs(estimate - upperLeft);
    if leftDistance <= upDistance && leftDistance <= upperDistance then left
    else if upDistance <= upperDistance then up
    else upperLeft
  }

  function Min3(a: nat, b: nat, c: nat): nat {
    var ab := if b < a then b else a;
    if c < ab then c else ab
  }

  /** `_paeth` of the PDF reader: the candidate at the first index of the smallest score. */
  function PaethByScore(left: byte, up: byte, upperLeft: byte): byte {
    var estimate := left + up - upperLeft;
    var a, b, c := Abs(estimate - left), Abs(estimate - up), Abs(estimate - upperLeft);
    [left, up, upperLeft][IndexOf([a, b, c], Min3(a, b, c))]
  }

  function IndexOf(scores: seq<nat>, wanted: nat): (i: nat)
    requires wanted in scores
    ensures i < |scores| && scores[i] == wanted && forall j :: 0 <= j < i ==> scores[j] != wanted
  {
    if scores[0] == wanted then 0 else 1 + IndexOf(scores[1..], wanted)
  }

  /** Section 6.6 of RFC 2083: the nearest of left, above and upper left, ties broken in that order. */
  predicate NearestInOrder(candidates: seq<int>, estimate: int, chosen: int) {
    exists i :: 0 <= i < |candidates| && candidates[i] == chosen && NearestAt(candidates, estimate, i)
  }

  predicate NearestAt(candidates: seq<int>, estimate: int, i: nat)
    requires i < |candidates|
  {
    && (forall j :: 0 <= j < |candidates| ==> Abs(estimate - candidates[i]) <= Abs(estimate - candidates[j]))
    && (forall j :: 0 <= j < i ==> Abs(estimate - candidates[i]) < Abs(estimate - candidates[j]))
  }

  /** The implementations agree on every input. */
  lemma PaethAgrees(left: byte, up: byte, upperLeft: byte)
    ensures Paeth(left, up, upperLeft) == PaethByScore(left, up, upperLeft)
  {
    var estimate := left + up - upperLeft;
    ScoresAgree(left, up, upperLeft, Abs(estimate - left), Abs(estimate - up), Abs(estimate - upperLeft));
  }

  lemma ScoresAgree(left: byte, up: byte, upperLeft: byte, a: nat, b: nat, c: nat)
    ensures [left, up, upperLeft][IndexOf([a, b, c], Min3(a, b, c))]
            == if a <= b && a <= c then left else if b <= c then up else upperLeft
  {
    var i := IndexOf([a, b, c], Min3(a, b, c));
    assert [a, b, c][0] == a && [a, b, c][1] == b && [a, b, c][2] == c;
  }

  /** Both are the predictor the standard defines. */
  lemma PaethIsNearest(candidates: seq<int>, estimate: int, left: byte, up: byte, upperLeft: byte)
    requires candidates == [left, up, upperLeft] && estimate == left + up - upperLeft
    ensures NearestInOrder(candidates, estimate, Paeth(left, up, upperLeft))
  {
    var a, b, c := Abs(estimate - left), Abs(estimate - up), Abs(estimate - upperLeft);
    var i := if a <= b && a <= c then 0 else if b <= c then 1 else 2;
    NearestOfThree(candidates, estimate, a, b, c, i);
    assert candidates[i] == Paeth(left, up, upperLeft);
  }

  lemma NearestOfThree(candidates: seq<int>, estimate: int, a: nat, b: nat, c: nat, i: nat)
    requires |candidates| == 3 && i == if a <= b && a <= c then 0 else if b <= c then 1 else 2
    requires a == Abs(estimate - candidates[0]) && b == Abs(estimate - candidates[1]) && c == Abs(estimate - candidates[2])
    ensures NearestAt(candidates, estimate, i)
  {
  }

  // ------------------------------------------------------------ rows

  function Left(row: seq<byte>, i: nat, bpp: nat): byte
    requires i <= |row| && bpp > 0
  {
    if i >= bpp then row[i - bpp] else 0
  }

  /** The predicted byte for one filter kind. Kinds above 4 predict nothing. */
  function Predict(kind: byte, left: byte, up: byte, upperLeft: byte): byte {
    if kind == 1 then left
    else if kind == 2 then up
    else if kind == 3 then Mean(left, up)
    else if kind == 4 then Paeth(left, up, upperLeft)
    else 0
  }

  /** The first `n` reconstructed bytes of one filtered row. */
  function Unfilter(kind: byte, raw: seq<byte>, prev: seq<byte>, bpp: nat, n: nat): (out: seq<byte>)
    requires n <= |raw| == |prev| && bpp > 0
    ensures |out| == n
    decreases n
  {
    if n == 0 then []
    else
      var out := Unfilter(kind, raw, prev, bpp, n - 1);
      out + [Plus(raw[n - 1], Predict(kind, Left(out, n - 1, bpp), prev[n - 1], Left(prev, n - 1, bpp)))]
  }

  function UnfilterRow(kind: byte, raw: seq<byte>, prev: seq<byte>, bpp: nat): (out: seq<byte>)
    requires |raw| == |prev| && bpp > 0
    ensures |out| == |raw|
  {
    Unfilter(kind, raw, prev, bpp, |raw|)
  }

  /** The encoder's side of the standard: subtract the prediction made from the original bytes. */
  function FilterRow(kind: byte, row: seq<byte>, prev: seq<byte>, bpp: nat): (raw: seq<byte>)
    requires |row| == |prev| && bpp > 0
    ensures |raw| == |row|
  {
    seq(|row|, i requires 0 <= i < |row| =>
      Minus(row[i], Predict(kind, Left(row, i, bpp), prev[i], Left(prev, i, bpp))))
  }

  lemma AddUndoesSubtract(x: byte, p: byte)
    ensures Plus(Minus(x, p), p) == x
    ensures Minus(Plus(x, p), p) == x
  {
  }

  lemma {:induction false} UnfilterInvertsPrefix(kind: byte, row: seq<byte>, prev: seq<byte>, bpp: nat, n: nat)
    requires n <= |row| == |prev| && bpp > 0
    ensures Unfilter(kind, FilterRow(kind, row, prev, bpp), prev, bpp, n) == row[..n]
    decreases n
  {
    if n > 0 {
      UnfilterInvertsPrefix(kind, row, prev, bpp, n - 1);
      assert Left(row[..n - 1], n - 1, bpp) == Left(row, n - 1, bpp);
      AddUndoesSubtract(row[n - 1], Predict(kind, Left(row, n - 1, bpp), prev[n - 1], Left(prev, n - 1, bpp)));
      assert row[..n] == row[..n - 1] + [row[n - 1]];
    }
  }

  /** Reconstruction gives back the bytes that were filtered, for every filter kind and pixel size. */
  lemma UnfilterInvertsFilter(kind: byte, row: seq<byte>, prev: seq<byte>, bpp: nat)
    requires |row| == |prev| && bpp > 0
    ensures UnfilterRow(kind, FilterRow(kind, row, prev, bpp), prev, bpp) == row
  {
    UnfilterInvertsPrefix(kind, row, prev, bpp, |row|);
    assert row[..|row|] == row;
  }

  lemma {:induction false} UnfilterPrefix(kind: byte, raw: seq<byte>, prev: seq<byte>, bpp: nat, n: nat, m: nat)
    requires n <= m <= |raw| == |prev| && bpp > 0
    ensures Unfilter(kind, raw, prev, bpp, m)[..n] == Unfilter(kind, raw, prev, bpp, n)
    decreases m
  {
    if n < m { UnfilterPrefix(kind, raw, prev, bpp, n, m - 1); }
  }

  /** And filtering loses nothing: distinct filtered rows reconstruct to distinct rows. */
  lemma FilterInvertsUnfilter(kind: byte, raw: seq<byte>, prev: seq<byte>, bpp: nat)
    requires |raw| == |prev| && bpp > 0
    ensures FilterRow(kind, UnfilterRow(kind, raw, prev, bpp), prev, bpp) == raw
  {
    var row := UnfilterRow(kind, raw, prev, bpp);
    forall i | 0 <= i < |raw| ensures FilterRow(kind, row, prev, bpp)[i] == raw[i] {
      var done := Unfilter(kind, raw, prev, bpp, i);
      UnfilterPrefix(kind, raw, prev, bpp, i, |raw|);
      UnfilterPrefix(kind, raw, prev, bpp, i + 1, |raw|);
      assert row[i] == row[..i + 1][i];
      assert Left(row, i, bpp) == Left(done, i, bpp);
      AddUndoesSubtract(raw[i], Predict(kind, Left(done, i, bpp), prev[i], Left(prev, i, bpp)));
    }
  }

  // ------------------------------------------------------------ the law of section 6 of RFC 2083

  /** The reconstructed byte `y` of the filtered byte `x`, in plain arithmetic on its three neighbours. */
  ghost predicate ByteLaw(kind: byte, x: int, left: int, up: int, upperLeft: int, y: int) {
    if kind == 1 then y == (x + left) % 256
    else if kind == 2 then y == (x + up) % 256
    else if kind == 3 then y == (x + (left + up) / 2) % 256
    else if kind == 4 then
      exists p: int :: Nearest(left, up, upperLeft, p) && y == (x + p) % 256
    else y == x
  }

  ghost predicate Nearest(left: int, up: int, upperLeft: int, p: int) {
    NearestInOrder([left, up, upperLeft], left + up - upperLeft, p)
  }

  /** Every byte of the row obeys the law; outside the row to the left everything is 0. */
  ghost predicate RowLaw(kind: byte, raw: seq<byte>, prev: seq<byte>, bpp: nat, out: seq<byte>) {
    && bpp > 0 && |out| == |raw| == |prev|
    && forall i :: 0 <= i < |raw| ==>
         ByteLaw(kind, raw[i], ByteAt(out, i - bpp), prev[i], ByteAt(prev, i - bpp), out[i])
  }

  function ByteAt(row: seq<byte>, i: int): int { if 0 <= i < |row| then row[i] else 0 }

  lemma PredictObeys(kind: byte, x: byte, left: byte, up: byte, upperLeft: byte)
    ensures ByteLaw(kind, x, left, up, upperLeft, Plus(x, Predict(kind, left, up, upperLeft)))
  {
    if kind == 3 {
      assert Predict(kind, left, up, upperLeft) as int == (left as int + up as int) / 2;
    } else if kind == 4 {
      PaethIsNearest([left, up, upperLeft], left + up - upperLeft, left, up, upperLeft);
      var p: int := Paeth(left, up, upperLeft);
      assert Nearest(left, up, upperLeft, p);
      assert Plus(x, Predict(kind, left, up, upperLeft)) == (x as int + p) % 256;
    }
  }

  /** Reconstruction is what the standard says, for every kind, row and pixel size. */
  lemma UnfilterObeys(kind: byte, raw: seq<byte>, prev: seq<byte>, bpp: nat)
    requires |raw| == |prev| && bpp > 0
    ensures RowLaw(kind, raw, prev, bpp, UnfilterRow(kind, raw, prev, bpp))
  {
    var out := UnfilterRow(kind, raw, prev, bpp);
    forall i | 0 <= i < |raw|
      ensures ByteLaw(kind, raw[i], ByteAt(out, i - bpp), prev[i], ByteAt(prev, i - bpp), out[i])
    {
      var done := Unfilter(kind, raw, prev, bpp, i);
      UnfilterPrefix(kind, raw, prev, bpp, i, |raw|);
      UnfilterPrefix(kind, raw, prev, bpp, i + 1, |raw|);
      assert out[i] == out[..i + 1][i];
      assert Left(done, i, bpp) == ByteAt(out, i - bpp);
      PredictObeys(kind, raw[i], Left(done, i, bpp), prev[i], Left(prev, i, bpp));
    }
  }

  // ------------------------------------------------------------ the loops, in place

  /** One byte further: the loop invariant every filter loop below shares. */
  ghost predicate Done(kind: byte, row: seq<byte>, raw: seq<byte>, prev: seq<byte>, bpp: nat, n: nat) {
    && bpp > 0 && n <= |raw| == |prev| == |row|
    && row[..n] == Unfilter(kind, raw, prev, bpp, n)
    && row[n..] == raw[n..]
  }

  lemma DoneReads(kind: byte, row: seq<byte>, raw: seq<byte>, prev: seq<byte>, bpp: nat, n: nat)
    requires Done(kind, row, raw, prev, bpp, n) && n < |raw|
    ensures row[n] == raw[n]
    ensures Left(row, n, bpp) == Left(Unfilter(kind, raw, prev, bpp, n), n, bpp)
  {
    assert row[n] == row[n..][0] == raw[n..][0];
    if n >= bpp { assert row[n - bpp] == row[..n][n - bpp]; }
  }

  lemma DoneStep(kind: byte, row: seq<byte>, raw: seq<byte>, prev: seq<byte>, bpp: nat, n: nat, x: byte)
    requires Done(kind, row, raw, prev, bpp, n) && n < |raw|
    requires x == Plus(row[n], Predict(kind, Left(row, n, bpp), prev[n], Left(prev, n, bpp)))
    ensures Done(kind, row[n := x], raw, prev, bpp, n + 1)
  {
    DoneReads(kind, row, raw, prev, bpp, n);
    assert Unfilter(kind, raw, prev, bpp, n + 1) == Unfilter(kind, raw, prev, bpp, n) + [x];
    assert row[n := x][..n + 1] == row[..n] + [x];
    assert row[n := x][n + 1..] == row[n..][1..];
    assert raw[n + 1..] == raw[n..][1..];
  }

  method AddLeft(row: array<byte>, bpp: nat)
    requires bpp > 0
    modifies row
    ensures forall prev: seq<byte> :: |prev| == row.Length ==> row[..] == UnfilterRow(1, old(row[..]), prev, bpp)
    ensures forall prev: seq<byte> :: |prev| == row.Length ==> RowLaw(1, old(row[..]), prev, bpp, row[..])
  {
    ghost var raw := row[..];
    ghost var zeros: seq<byte> := seq(row.Length, _ => 0);
    for i := 0 to row.Length
      invariant Done(1, row[..], raw, zeros, bpp, i)
    {
      ghost var before := row[..];
      var left := if i >= bpp then row[i - bpp] else 0;
      row[i] := Plus(row[i], left);
      assert row[..] == before[i := row[i]];
      DoneStep(1, before, raw, zeros, bpp, i, row[i]);
    }
    assert row[..][..row.Length] == row[..];
    forall prev: seq<byte> | |prev| == row.Length ensures row[..] == UnfilterRow(1, raw, prev, bpp) {
      LeftIgnoresAbove(raw, zeros, prev, bpp, row.Length);
    }
    forall prev: seq<byte> | |prev| == row.Length ensures RowLaw(1, raw, prev, bpp, row[..]) {
      UnfilterObeys(1, raw, prev, bpp);
    }
  }

  lemma {:induction false} LeftIgnoresAbove(raw: seq<byte>, p: seq<byte>, q: seq<byte>, bpp: nat, n: nat)
    requires n <= |raw| == |p| == |q| && bpp > 0
    ensures Unfilter(1, raw, p, bpp, n) == Unfilter(1, raw, q, bpp, n)
    decreases n
  {
    if n > 0 { LeftIgnoresAbove(raw, p, q, bpp, n - 1); }
  }

  method AddUp(row: array<byte>, prev: array<byte>)
    requires row != prev && row.Length == prev.Length
    modifies row
    ensures forall bpp: nat :: bpp > 0 ==> row[..] == UnfilterRow(2, old(row[..]), prev[..], bpp)
    ensures forall bpp: nat :: bpp > 0 ==> RowLaw(2, old(row[..]), prev[..], bpp, row[..])
  {
    ghost var raw := row[..];
    for i := 0 to row.Length
      invariant forall bpp: nat :: bpp > 0 ==> Done(2, row[..], raw, prev[..], bpp, i)
    {
      ghost var before := row[..];
      row[i] := Plus(row[i], prev[i]);
      assert row[..] == before[i := row[i]];
      ghost var next := i + 1;
      forall bpp: nat | bpp > 0 ensures Done(2, row[..], raw, prev[..], bpp, next) {
        DoneStep(2, before, raw, prev[..], bpp, i, row[i]);
      }
    }
    assert row[..][..row.Length] == row[..];
    forall bpp: nat | bpp > 0 ensures row[..] == UnfilterRow(2, raw, prev[..], bpp) {
      assert Done(2, row[..], raw, prev[..], bpp, row.Length);
    }
    forall bpp: nat | bpp > 0 ensures RowLaw(2, raw, prev[..], bpp, row[..]) { UnfilterObeys(2, raw, prev[..], bpp); }
  }

  method AddAverage(row: array<byte>, prev: array<byte>, bpp: nat)
    requires row != prev && row.Length == prev.Length && bpp > 0
    modifies row
    ensures row[..] == UnfilterRow(3, old(row[..]), prev[..], bpp)
    ensures RowLaw(3, old(row[..]), prev[..], bpp, row[..])
  {
    ghost var raw := row[..];
    for i := 0 to row.Length
      invariant Done(3, row[..], raw, prev[..], bpp, i)
    {
      ghost var before := row[..];
      var left := if i >= bpp then row[i - bpp] else 0;
      row[i] := Plus(row[i], Mean(left, prev[i]));
      assert row[..] == before[i := row[i]];
      DoneStep(3, before, raw, prev[..], bpp, i, row[i]);
    }
    assert row[..][..row.Length] == row[..];
    UnfilterObeys(3, raw, prev[..], bpp);
  }

  method AddPaeth(row: array<byte>, prev: array<byte>, bpp: nat)
    requires row != prev && row.Length == prev.Length && bpp > 0
    modifies row
    ensures row[..] == UnfilterRow(4, old(row[..]), prev[..], bpp)
    ensures RowLaw(4, old(row[..]), prev[..], bpp, row[..])
  {
    ghost var raw := row[..];
    for i := 0 to row.Length
      invariant Done(4, row[..], raw, prev[..], bpp, i)
    {
      ghost var before := row[..];
      var left := if i >= bpp then row[i - bpp] else 0;
      var up := prev[i];
      var upperLeft := if i >= bpp then prev[i - bpp] else 0;
      row[i] := Plus(row[i], Paeth(left, up, upperLeft));
      assert row[..] == before[i := row[i]];
      DoneStep(4, before, raw, prev[..], bpp, i, row[i]);
    }
    assert row[..][..row.Length] == row[..];
    UnfilterObeys(4, raw, prev[..], bpp);
  }
}
