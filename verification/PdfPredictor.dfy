/** The PNG predictors of PDF streams (section 7.4.4.4 of ISO 32000-1), as `_unpredict` undoes them. */
module PdfPredictor {
  import opened Options
  import opened PngFilter
  import opened PngRows
  import opened Splicing

  /** `/DecodeParms`. `None` in a field is a value that is not an integer; a missing key reads as 1. */
  datatype Params = NotADictionary | Params(predictor: Option<int>, columns: Option<int>)

  predicate Predicted(params: Params) {
    params.Params? && params.predictor.Some? && params.predictor.value > 1 && params.columns.Some?
  }

  /** What the stream decodes to. `None`: a negative column count, which no buffer can be made of. */
  function Unpredicted(data: seq<byte>, params: Params): Option<seq<byte>> {
    if !Predicted(params) then Some(data)
    else if params.columns.value < 0 then None
    else
      var columns := params.columns.value;
      LenientAgrees(data, columns, 1, Zeros(columns));
      Some(Flatten(Rows(data, columns, 1, Zeros(columns), false).value))
  }

  /** The inner loop, which chooses the predictor byte by byte and uses the reader's own Paeth. */
  method UnpredictRow(kind: byte, raw: array<byte>, previous: array<byte>)
    requires raw != previous && raw.Length == previous.Length
    modifies raw
    ensures raw[..] == UnfilterRow(kind, old(raw[..]), previous[..], 1)
    ensures RowLaw(kind, old(raw[..]), previous[..], 1, raw[..])
  {
    ghost var given := raw[..];
    for i := 0 to raw.Length
      invariant Done(kind, raw[..], given, previous[..], 1, i)
    {
      ghost var before := raw[..];
      var left := if i > 0 then raw[i - 1] else 0;
      var up := previous[i];
      var upperLeft := if i > 0 then previous[i - 1] else 0;
      PaethAgrees(left, up, upperLeft);
      if kind == 1 {
        raw[i] := Plus(raw[i], left);
      } else if kind == 2 {
        raw[i] := Plus(raw[i], up);
      } else if kind == 3 {
        raw[i] := Plus(raw[i], Mean(left, up));
      } else if kind == 4 {
        raw[i] := Plus(raw[i], PaethByScore(left, up, upperLeft));
      }
      assert raw[..] == before[i := raw[i]];
      DoneStep(kind, before, given, previous[..], 1, i, raw[i]);
    }
    assert raw[..][..raw.Length] == raw[..];
    UnfilterObeys(kind, given, previous[..], 1);
  }

  method ReadRow(data: seq<byte>, start: nat, columns: nat, previous: array<byte>) returns (raw: array<byte>)
    requires start + columns < |data| && previous.Length == columns
    ensures fresh(raw) && raw.Length == columns
    ensures raw[..] == UnfilterRow(data[start], data[start + 1..start + 1 + columns], previous[..], 1)
  {
    raw := CopyRow(data, start + 1, columns);
    UnpredictRow(data[start], raw, previous);
  }

  method UnpredictRows(data: seq<byte>, columns: nat) returns (out: seq<byte>)
    ensures Rows(data, columns, 1, Zeros(columns), false).Some?
    ensures out == Flatten(Rows(data, columns, 1, Zeros(columns), false).value)
  {
    ghost var done: seq<seq<byte>> := [];
    out := [];
    var previous := new byte[columns](_ => 0);
    assert previous[..] == Zeros(columns);
    NoRowsYet(data, columns, 1, false);
    LenientAgrees(data, columns, 1, Zeros(columns));
    var start := 0;
    while start + columns < |data|
      invariant start <= |data| && previous.Length == columns
      invariant RowsSoFar(data, columns, 1, false, done, start, previous[..])
      invariant out == Flatten(done)
      decreases |data| - start
    {
      RowStep(data, columns, 1, false, done, start, previous[..]);
      previous := ReadRow(data, start, columns, previous);
      FlattenSnoc(done, previous[..]);
      out := out + previous[..];
      done := done + [previous[..]];
      start := start + 1 + columns;
    }
    assert done + [] == done;
  }

  /** The stream's whole rows by the standard's law at one byte per pixel, joined; a partial row is dropped. */
  ghost predicate UnpredictLaw(data: seq<byte>, columns: nat, out: seq<byte>) {
    exists rows :: ImageLaw(data, columns, 1, Zeros(columns), rows) && IsJoin(rows, out)
  }

  lemma UnpredictedObeys(data: seq<byte>, columns: nat)
    ensures Rows(data, columns, 1, Zeros(columns), false).Some?
    ensures UnpredictLaw(data, columns, Flatten(Rows(data, columns, 1, Zeros(columns), false).value))
  {
    LenientAgrees(data, columns, 1, Zeros(columns));
    RowsObey(data, columns, 1, Zeros(columns), false);
    FlattenJoins(Rows(data, columns, 1, Zeros(columns), false).value);
  }

  method Unpredict(data: seq<byte>, params: Params) returns (out: Option<seq<byte>>)
    ensures out == Unpredicted(data, params)
    ensures params.NotADictionary? || params.predictor.None? || params.columns.None? || params.predictor.value <= 1 ==>
              out == Some(data)
    ensures params.Params? && params.predictor.Some? && params.columns.Some? && params.predictor.value > 1 ==>
              if params.columns.value < 0 then out.None? else out.Some? && UnpredictLaw(data, params.columns.value, out.value)
  {
    if Predicted(params) && params.columns.value >= 0 { UnpredictedObeys(data, params.columns.value); }
    if !Predicted(params) { return Some(data); }
    if params.columns.value < 0 { return None; }
    var bytes := UnpredictRows(data, params.columns.value);
    return Some(bytes);
  }

  /** On whole rows filtered with kinds 0 to 4, undoing the predictor gives the original bytes back. */
  lemma UnpredictInvertsPredict(kinds: seq<byte>, rows: seq<seq<byte>>, columns: nat, predictor: int)
    requires |kinds| == |rows| && predictor > 1
    requires forall i :: 0 <= i < |rows| ==> |rows[i]| == columns
    ensures Unpredicted(FilteredRows(kinds, rows, columns, 1, Zeros(columns)), Params(Some(predictor), Some(columns)))
            == Some(Flatten(rows))
  {
    DecodeInvertsEncode(kinds, rows, columns, 1, Zeros(columns), false);
  }

  /** The predictor is the image decoder at one byte per pixel, wherever that decoder accepts the rows. */
  lemma UnpredictIsUnfilter(data: seq<byte>, columns: nat, predictor: int)
    requires predictor > 1
    ensures var image := Rows(data, columns, 1, Zeros(columns), true);
            image.Some? ==> Unpredicted(data, Params(Some(predictor), Some(columns))) == Some(Flatten(image.value))
  {
    LenientAgrees(data, columns, 1, Zeros(columns));
  }
}
