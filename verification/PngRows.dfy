/** Whole images: a kind byte and a filtered row, repeated, each row predicted from the one above. */
module PngRows {
  import opened Options
  import opened PngFilter
  import opened Splicing

  function Zeros(n: nat): (z: seq<byte>)
    ensures |z| == n
  {
    seq(n, _ => 0)
  }

  /** Above the first row everything is 0. */
  lemma ZerosAreZero(n: nat)
    ensures forall i :: 0 <= i < n ==> Zeros(n)[i] == 0
  {
  }

  /**
   Every whole row of `raw`, reconstructed. The strict decoders refuse a kind above 4;
   the PDF predictor leaves such a row as it is.
   */
  function Rows(raw: seq<byte>, stride: nat, bpp: nat, prev: seq<byte>, strict: bool): (rows: Option<seq<seq<byte>>>)
    requires |prev| == stride && bpp > 0
    ensures rows.Some? ==> forall i :: 0 <= i < |rows.value| ==> |rows.value[i]| == stride
    decreases |raw|
  {
    if |raw| <= stride then Some([])
    else if strict && raw[0] > 4 then None
    else
      var row := UnfilterRow(raw[0], raw[1..stride + 1], prev, bpp);
      var below := Rows(raw[stride + 1..], stride, bpp, row, strict);
      if below.None? then None else Some([row] + below.value)
  }

  /** A conforming encoder with any choice of filter per row. */
  function FilteredRows(kinds: seq<byte>, rows: seq<seq<byte>>, stride: nat, bpp: nat, prev: seq<byte>): seq<byte>
    requires |kinds| == |rows| && |prev| == stride && bpp > 0
    requires forall i :: 0 <= i < |rows| ==> |rows[i]| == stride
  {
    if rows == [] then []
    else [kinds[0]] + FilterRow(kinds[0], rows[0], prev, bpp) + FilteredRows(kinds[1..], rows[1..], stride, bpp, rows[0])
  }

  /** Whatever filters the encoder picked, the decoder gives the original rows back. */
  lemma {:induction false} DecodeInvertsEncode(kinds: seq<byte>, rows: seq<seq<byte>>, stride: nat, bpp: nat, prev: seq<byte>, strict: bool)
    requires |kinds| == |rows| && |prev| == stride && bpp > 0
    requires forall i :: 0 <= i < |rows| ==> |rows[i]| == stride
    requires strict ==> forall i :: 0 <= i < |kinds| ==> kinds[i] <= 4
    ensures Rows(FilteredRows(kinds, rows, stride, bpp, prev), stride, bpp, prev, strict) == Some(rows)
    decreases |rows|
  {
    if rows != [] {
      var raw := FilteredRows(kinds, rows, stride, bpp, prev);
      var below := FilteredRows(kinds[1..], rows[1..], stride, bpp, rows[0]);
      assert raw[1..stride + 1] == FilterRow(kinds[0], rows[0], prev, bpp);
      assert raw[stride + 1..] == below;
      UnfilterInvertsFilter(kinds[0], rows[0], prev, bpp);
      DecodeInvertsEncode(kinds[1..], rows[1..], stride, bpp, rows[0], strict);
      assert [rows[0]] + rows[1..] == rows;
    }
  }

  /** The strict and the lenient reading agree exactly on the images the strict one accepts. */
  lemma {:induction false} LenientAgrees(raw: seq<byte>, stride: nat, bpp: nat, prev: seq<byte>)
    requires |prev| == stride && bpp > 0
    ensures var strict, lenient := Rows(raw, stride, bpp, prev, true), Rows(raw, stride, bpp, prev, false);
            && lenient.Some?
            && (strict.Some? ==> strict == lenient)
            && (strict.Some? <==> forall k: nat :: KindAt(raw, stride, k) ==> KindByte(raw, stride, k) <= 4)
    decreases |raw|
  {
    if |raw| > stride {
      var row := UnfilterRow(raw[0], raw[1..stride + 1], prev, bpp);
      var below := raw[stride + 1..];
      LenientAgrees(below, stride, bpp, row);
      forall k: nat | KindAt(below, stride, k)
        ensures KindAt(raw, stride, k + 1) && KindByte(raw, stride, k + 1) == KindByte(below, stride, k)
      {
        NextStart(k, stride);
      }
      forall k: nat | KindAt(raw, stride, k) && k > 0
        ensures KindAt(below, stride, k - 1) && KindByte(raw, stride, k) == KindByte(below, stride, k - 1)
      {
        NextStart(k - 1, stride);
      }
      assert KindAt(raw, stride, 0) && KindByte(raw, stride, 0) == raw[0];
    } else {
      forall k: nat ensures !KindAt(raw, stride, k) { assert k * (stride + 1) >= 0; }
    }
  }

  /** Row `k` is whole. */
  predicate KindAt(raw: seq<byte>, stride: nat, k: nat) { (k * (stride + 1)) + stride < |raw| }

  function KindByte(raw: seq<byte>, stride: nat, k: nat): byte
    requires KindAt(raw, stride, k)
  {
    assert k * (stride + 1) >= 0;
    raw[k * (stride + 1)]
  }

  lemma NextStart(k: nat, stride: nat)
    ensures (k + 1) * (stride + 1) == k * (stride + 1) + (stride + 1)
  {
  }

  /** Row `y` of the stream, its kind byte and its filtered bytes, reconstructs to `row` under `above`. */
  ghost predicate RowObeys(raw: seq<byte>, stride: nat, bpp: nat, y: nat, above: seq<byte>, row: seq<byte>) {
    && KindAt(raw, stride, y)
    && var start := RowPlace(y, stride);
       start + 1 + stride <= |raw| && RowLaw(raw[start], raw[start + 1..start + 1 + stride], above, bpp, row)
  }

  /** Rows lie one after another, each with its kind byte in front. */
  function RowPlace(y: nat, stride: nat): (start: nat)
    ensures start == y * (stride + 1)
  {
    assert y * (stride + 1) >= 0;
    y * (stride + 1)
  }

  /** The rows are the stream's whole rows, each reconstructed by the standard's law from the one above it. */
  ghost predicate ImageLaw(raw: seq<byte>, stride: nat, bpp: nat, first: seq<byte>, rows: seq<seq<byte>>) {
    && (forall y: nat :: y < |rows| <==> KindAt(raw, stride, y))
    && (forall y :: 0 <= y < |rows| ==> OneRow(raw, stride, bpp, first, rows, y))
  }

  ghost predicate OneRow(raw: seq<byte>, stride: nat, bpp: nat, first: seq<byte>, rows: seq<seq<byte>>, y: nat)
    requires y < |rows|
  {
    RowObeys(raw, stride, bpp, y, Above(first, rows, y), rows[y])
  }

  function Above(first: seq<byte>, rows: seq<seq<byte>>, y: nat): seq<byte>
    requires y <= |rows|
  {
    if y == 0 then first else rows[y - 1]
  }

  lemma RowShifts(raw: seq<byte>, stride: nat, bpp: nat, y: nat, above: seq<byte>, row: seq<byte>)
    requires |raw| > stride
    ensures KindAt(raw[stride + 1..], stride, y) <==> KindAt(raw, stride, y + 1)
    ensures RowObeys(raw[stride + 1..], stride, bpp, y, above, row) ==> RowObeys(raw, stride, bpp, y + 1, above, row)
  {
    NextStart(y, stride);
    var below := raw[stride + 1..];
    if RowObeys(below, stride, bpp, y, above, row) {
      var start := RowPlace(y, stride);
      assert RowPlace(y + 1, stride) == start + stride + 1;
      assert below[start + 1..start + 1 + stride] == raw[start + stride + 2..start + 2 * stride + 2];
    }
  }

  /** Whole images obey the standard's law, row by row. */
  lemma {:induction false} RowsObey(raw: seq<byte>, stride: nat, bpp: nat, prev: seq<byte>, strict: bool)
    requires |prev| == stride && bpp > 0 && Rows(raw, stride, bpp, prev, strict).Some?
    ensures ImageLaw(raw, stride, bpp, prev, Rows(raw, stride, bpp, prev, strict).value)
    decreases |raw|
  {
    var rows := Rows(raw, stride, bpp, prev, strict).value;
    if |raw| > stride {
      var row, below := rows[0], raw[stride + 1..];
      UnfilterObeys(raw[0], raw[1..stride + 1], prev, bpp);
      RowsObey(below, stride, bpp, row, strict);
      FirstRow(raw, stride, bpp, prev, row);
      ImageNext(raw, stride, bpp, prev, rows);
    } else {
      forall y: nat ensures !KindAt(raw, stride, y) { assert y * (stride + 1) >= 0; }
    }
  }

  lemma FirstRow(raw: seq<byte>, stride: nat, bpp: nat, prev: seq<byte>, row: seq<byte>)
    requires |raw| > stride && |prev| == stride && RowLaw(raw[0], raw[1..stride + 1], prev, bpp, row)
    ensures RowObeys(raw, stride, bpp, 0, prev, row)
  {
    assert RowPlace(0, stride) == 0;
  }

  lemma ImageNext(raw: seq<byte>, stride: nat, bpp: nat, prev: seq<byte>, rows: seq<seq<byte>>)
    requires |raw| > stride && rows != [] && RowObeys(raw, stride, bpp, 0, prev, rows[0])
    requires ImageLaw(raw[stride + 1..], stride, bpp, rows[0], rows[1..])
    ensures ImageLaw(raw, stride, bpp, prev, rows)
  {
    var below, tail := raw[stride + 1..], rows[1..];
    forall y: nat ensures y < |rows| <==> KindAt(raw, stride, y) {
      if y > 0 {
        assert y - 1 < |tail| <==> KindAt(below, stride, y - 1);
        RowShifts(raw, stride, bpp, y - 1, [], []);
      }
    }
    forall y | 0 <= y < |rows| ensures OneRow(raw, stride, bpp, prev, rows, y) {
      if y > 0 {
        assert OneRow(below, stride, bpp, rows[0], tail, y - 1);
        NextObeys(raw, stride, bpp, prev, rows, y);
      }
    }
  }

  lemma NextObeys(raw: seq<byte>, stride: nat, bpp: nat, prev: seq<byte>, rows: seq<seq<byte>>, y: nat)
    requires |raw| > stride && 0 < y < |rows| && OneRow(raw[stride + 1..], stride, bpp, rows[0], rows[1..], y - 1)
    ensures OneRow(raw, stride, bpp, prev, rows, y)
  {
    assert rows[1..][y - 1] == rows[y] && Above(rows[0], rows[1..], y - 1) == rows[y - 1];
    RowShifts(raw, stride, bpp, y - 1, rows[y - 1], rows[y]);
  }

  function Flatten(rows: seq<seq<byte>>): seq<byte> {
    if rows == [] then [] else rows[0] + Flatten(rows[1..])
  }

  lemma {:induction false} FlattenSnoc(rows: seq<seq<byte>>, row: seq<byte>)
    ensures Flatten(rows + [row]) == Flatten(rows) + row
    decreases |rows|
  {
    if rows == [] {
      assert rows + [row] == [row];
      assert Flatten([row]) == row + Flatten([]);
    } else {
      FlattenSnoc(rows[1..], row);
      assert (rows + [row])[1..] == rows[1..] + [row];
    }
  }

  lemma {:induction false} FlattenJoins(rows: seq<seq<byte>>)
    ensures IsJoin(rows, Flatten(rows))
    decreases |rows|
  {
    if rows != [] {
      var n := |rows| - 1;
      FlattenJoins(rows[..n]);
      FlattenSnoc(rows[..n], rows[n]);
      JoinSnoc(rows[..n], rows[n], Flatten(rows[..n]));
      assert rows == rows[..n] + [rows[n]];
    }
  }

  // ------------------------------------------------------------ the decoders' row loop

  /** The row as the loop leaves it: the first `done` rows appended, the rest still to come. */
  ghost predicate RowsSoFar(raw: seq<byte>, stride: nat, bpp: nat, strict: bool,
                            done: seq<seq<byte>>, cursor: nat, prev: seq<byte>) {
    && bpp > 0 && |prev| == stride && cursor <= |raw|
    && var all := Rows(raw, stride, bpp, Zeros(stride), strict);
       var rest := Rows(raw[cursor..], stride, bpp, prev, strict);
       if rest.None? then all.None? else all == Some(done + rest.value)
  }

  lemma NoRowsYet(raw: seq<byte>, stride: nat, bpp: nat, strict: bool)
    requires bpp > 0
    ensures RowsSoFar(raw, stride, bpp, strict, [], 0, Zeros(stride))
  {
    assert raw[0..] == raw;
    var all := Rows(raw, stride, bpp, Zeros(stride), strict);
    if all.Some? { assert [] + all.value == all.value; }
  }

  lemma RowStep(raw: seq<byte>, stride: nat, bpp: nat, strict: bool, done: seq<seq<byte>>, cursor: nat, prev: seq<byte>)
    requires RowsSoFar(raw, stride, bpp, strict, done, cursor, prev)
    requires cursor + stride < |raw|
    ensures strict && raw[cursor] > 4 ==> Rows(raw, stride, bpp, Zeros(stride), strict).None?
    ensures !(strict && raw[cursor] > 4) ==>
              var row := UnfilterRow(raw[cursor], raw[cursor + 1..cursor + 1 + stride], prev, bpp);
              RowsSoFar(raw, stride, bpp, strict, done + [row], cursor + 1 + stride, row)
  {
    var rest := raw[cursor..];
    assert rest[1..stride + 1] == raw[cursor + 1..cursor + 1 + stride];
    assert rest[stride + 1..] == raw[cursor + 1 + stride..];
    if !(strict && raw[cursor] > 4) {
      var row := UnfilterRow(raw[cursor], raw[cursor + 1..cursor + 1 + stride], prev, bpp);
      var below := Rows(raw[cursor + 1 + stride..], stride, bpp, row, strict);
      if below.Some? {
        assert done + ([row] + below.value) == (done + [row]) + below.value;
      }
    }
  }

  /** One row through the filter its kind byte names. Kinds outside 1 to 4 change nothing. */
  method UndoFilter(kind: byte, row: array<byte>, prev: array<byte>, bpp: nat)
    requires row != prev && row.Length == prev.Length && bpp > 0
    modifies row
    ensures row[..] == UnfilterRow(kind, old(row[..]), prev[..], bpp)
  {
    if kind == 1 {
      AddLeft(row, bpp);
    } else if kind == 2 {
      AddUp(row, prev);
    } else if kind == 3 {
      AddAverage(row, prev, bpp);
    } else if kind == 4 {
      AddPaeth(row, prev, bpp);
    } else {
      NoFilter(kind, row[..], prev[..], bpp, row.Length);
      assert row[..][..row.Length] == row[..];
    }
  }

  lemma {:induction false} NoFilter(kind: byte, raw: seq<byte>, prev: seq<byte>, bpp: nat, n: nat)
    requires (kind == 0 || kind > 4) && n <= |raw| == |prev| && bpp > 0
    ensures Unfilter(kind, raw, prev, bpp, n) == raw[..n]
    decreases n
  {
    if n > 0 {
      NoFilter(kind, raw, prev, bpp, n - 1);
      assert raw[..n] == raw[..n - 1] + [raw[n - 1]];
    }
  }

  method CopyRow(raw: seq<byte>, start: nat, stride: nat) returns (row: array<byte>)
    requires start + stride <= |raw|
    ensures fresh(row) && row[..] == raw[start..start + stride]
  {
    row := new byte[stride](i requires 0 <= i < stride => raw[start + i]);
  }

  /** Where row `y` starts. */
  function RowStart(y: nat, stride: nat): nat {
    if y == 0 then 0 else RowStart(y - 1, stride) + 1 + stride
  }

  lemma {:induction false} RowStartIs(y: nat, stride: nat)
    ensures RowStart(y, stride) == y * (stride + 1)
  {
    if y > 0 {
      RowStartIs(y - 1, stride);
      NextStart(y - 1, stride);
    }
  }

  lemma {:induction false} RowStartsRise(y: nat, z: nat, stride: nat)
    requires y <= z
    ensures RowStart(y, stride) <= RowStart(z, stride)
    decreases z
  {
    if y < z { RowStartsRise(y, z - 1, stride); }
  }

  method DecodeRow(raw: seq<byte>, cursor: nat, stride: nat, bpp: nat, prev: array<byte>) returns (row: array<byte>)
    requires cursor + stride < |raw| && prev.Length == stride && bpp > 0
    ensures fresh(row) && row.Length == stride
    ensures row[..] == UnfilterRow(raw[cursor], raw[cursor + 1..cursor + 1 + stride], prev[..], bpp)
  {
    row := CopyRow(raw, cursor + 1, stride);
    UndoFilter(raw[cursor], row, prev, bpp);
  }

  /** One turn of the row loop, which refuses an unknown kind. */
  method NextRow(raw: seq<byte>, stride: nat, bpp: nat, ghost done: seq<seq<byte>>, cursor: nat, prev: array<byte>)
    returns (row: array<byte>)
    requires RowsSoFar(raw, stride, bpp, true, done, cursor, prev[..])
    requires cursor + stride < |raw| && prev.Length == stride && bpp > 0
    ensures row.Length == stride
    ensures if raw[cursor] > 4 then Rows(raw, stride, bpp, Zeros(stride), true).None?
            else RowsSoFar(raw, stride, bpp, true, done + [row[..]], cursor + 1 + stride, row[..])
  {
    RowStep(raw, stride, bpp, true, done, cursor, prev[..]);
    row := DecodeRow(raw, cursor, stride, bpp, prev);
  }

  lemma NoRowsLeft(raw: seq<byte>, stride: nat, bpp: nat, done: seq<seq<byte>>, cursor: nat, prev: seq<byte>)
    requires RowsSoFar(raw, stride, bpp, true, done, cursor, prev) && cursor == |raw|
    ensures Rows(raw, stride, bpp, Zeros(stride), true) == Some(done)
  {
    assert raw[cursor..] == [];
    assert done + [] == done;
  }

  /** A stream of `height` whole rows has exactly that many. */
  lemma WholeRows(raw: seq<byte>, height: nat, stride: nat, y: nat)
    requires |raw| == RowStart(height, stride)
    ensures KindAt(raw, stride, y) <==> y < height
  {
    RowStartIs(height, stride);
    if y < height {
      NextStart(y, stride);
      Multiples(y + 1, height, stride + 1);
    } else {
      Multiples(height, y, stride + 1);
    }
  }

  lemma Multiples(a: nat, b: nat, k: nat)
    requires a <= b
    ensures a * k <= b * k
  {
    assert (b - a) * k >= 0;
  }

  /** What the row loop returns: the image of the standard's law, or a refusal exactly for a kind above 4. */
  lemma ImageMeans(raw: seq<byte>, height: nat, stride: nat, bpp: nat)
    requires |raw| == RowStart(height, stride) && bpp > 0
    ensures var rows := Rows(raw, stride, bpp, Zeros(stride), true);
            && (rows.Some? ==> |rows.value| == height && ImageLaw(raw, stride, bpp, Zeros(stride), rows.value))
            && (rows.None? <==> exists y: nat :: KindAt(raw, stride, y) && KindByte(raw, stride, y) > 4)
  {
    LenientAgrees(raw, stride, bpp, Zeros(stride));
    var rows := Rows(raw, stride, bpp, Zeros(stride), true);
    if rows.Some? {
      RowsObey(raw, stride, bpp, Zeros(stride), true);
      WholeRows(raw, height, stride, |rows.value|);
      WholeRows(raw, height, stride, height);
    }
  }

  /** `_unfilter`, and the row loop of `_decode_rgb`: `None` is the refusal of an unknown filter. */
  method UnfilterImage(raw: seq<byte>, height: nat, stride: nat, bpp: nat) returns (rows: Option<seq<seq<byte>>>)
    requires |raw| == RowStart(height, stride) && bpp > 0
    ensures rows == Rows(raw, stride, bpp, Zeros(stride), true)
    ensures rows.Some? ==> |rows.value| == height && ImageLaw(raw, stride, bpp, Zeros(stride), rows.value)
    ensures rows.None? <==> exists y: nat :: KindAt(raw, stride, y) && KindByte(raw, stride, y) > 4
  {
    ImageMeans(raw, height, stride, bpp);
    rows := ReadRows(raw, height, stride, bpp);
  }

  method ReadRows(raw: seq<byte>, height: nat, stride: nat, bpp: nat) returns (rows: Option<seq<seq<byte>>>)
    requires |raw| == RowStart(height, stride) && bpp > 0
    ensures rows == Rows(raw, stride, bpp, Zeros(stride), true)
  {
    var done: seq<seq<byte>> := [];
    var prev := new byte[stride](_ => 0);
    assert prev[..] == Zeros(stride);
    var cursor := 0;
    NoRowsYet(raw, stride, bpp, true);
    for y := 0 to height
      invariant cursor == RowStart(y, stride) <= |raw|
      invariant prev.Length == stride
      invariant RowsSoFar(raw, stride, bpp, true, done, cursor, prev[..])
    {
      RowStartsRise(y + 1, height, stride);
      var row := NextRow(raw, stride, bpp, done, cursor, prev);
      if raw[cursor] > 4 { return None; }
      prev := row;
      cursor := cursor + 1 + stride;
      done := done + [prev[..]];
    }
    NoRowsLeft(raw, stride, bpp, done, cursor, prev[..]);
    return Some(done);
  }
}
