/** `wrap_caption`: greedy line breaking on single spaces, and why no other breaking is shorter. */
module CaptionWrap {
  const CAPTION_COLUMNS := 26

  /** `text.split(" ")`: never empty, and a doubled space gives an empty word. */
  function Words(text: string): (words: seq<string>)
    ensures words != [] && forall i :: 0 <= i < |words| ==> ' ' !in words[i]
  {
    if text == "" then [""]
    else
      var rest := Words(text[1..]);
      if text[0] == ' ' then [""] + rest else [[text[0]] + rest[0]] + rest[1..]
  }

  /** `" ".join(words)`. */
  function Join(words: seq<string>): string {
    if words == [] then "" else if |words| == 1 then words[0] else words[0] + " " + Join(words[1..])
  }

  lemma {:induction false} JoinWords(text: string)
    ensures Join(Words(text)) == text
    decreases |text|
  {
    if text != "" {
      JoinWords(text[1..]);
      var rest := Words(text[1..]);
      if text[0] == ' ' {
        assert ([""] + rest)[1..] == rest;
        assert text == " " + text[1..];
      } else {
        var words := [[text[0]] + rest[0]] + rest[1..];
        assert words[1..] == rest[1..];
        assert text == [text[0]] + text[1..];
        assert |words| > 1 ==> Join(words) == [text[0]] + (rest[0] + " " + Join(rest[1..]));
      }
    }
  }

  lemma {:induction false} JoinSnoc(words: seq<string>, word: string)
    requires words != []
    ensures Join(words + [word]) == Join(words) + " " + word
    decreases |words|
  {
    if |words| == 1 {
      assert (words + [word])[1..] == [word];
    } else {
      JoinSnoc(words[1..], word);
      assert (words + [word])[1..] == words[1..] + [word];
    }
  }

  lemma {:induction false} JoinReplaceLast(words: seq<string>, last: string, word: string)
    ensures Join(words + [last + " " + word]) == Join(words + [last]) + " " + word
    decreases |words|
  {
    if words == [] {
      assert words + [last] == [last] && words + [last + " " + word] == [last + " " + word];
    } else {
      JoinSnoc(words, last);
      JoinSnoc(words, last + " " + word);
    }
  }

  // ------------------------------------------------------------ the greedy state

  /** Finished lines and the line being filled. */
  datatype Filling = Filling(lines: seq<string>, current: string)

  function Add(f: Filling, word: string, width: nat): Filling {
    var piece := if f.current == "" then word else f.current + " " + word;
    if |piece| <= width then f.(current := piece)
    else Filling(if f.current == "" then f.lines else f.lines + [f.current], word)
  }

  function Fill(words: seq<string>, width: nat): Filling {
    if words == [] then Filling([], "") else Add(Fill(words[..|words| - 1], width), words[|words| - 1], width)
  }

  function Finish(f: Filling): seq<string> {
    if f.current == "" then f.lines else f.lines + [f.current]
  }

  function Wrap(text: string, width: nat): seq<string> { Finish(Fill(Words(text), width)) }

  method WrapCaption(text: string, width: nat) returns (lines: seq<string>)
    ensures lines == Wrap(text, width)
  {
    var words := Words(text);
    lines := [];
    var current := "";
    for i := 0 to |words|
      invariant Filling(lines, current) == Fill(words[..i], width)
    {
      assert words[..i + 1][..i] == words[..i];
      var word := words[i];
      var piece := if current == "" then word else current + " " + word;
      if |piece| <= width {
        current := piece;
      } else {
        if current != "" { lines := lines + [current]; }
        current := word;
      }
    }
    assert words[..|words|] == words;
    if current != "" { lines := lines + [current]; }
  }

  // ------------------------------------------------------------ nothing is lost

  /** An empty word meets a line with no text or with no room: the space before it has nowhere to go. */
  predicate Squeezed(f: Filling, word: string, width: nat) {
    word == "" && (f.current == "" || |f.current| >= width)
  }

  predicate SqueezedAt(words: seq<string>, i: nat, width: nat)
    requires i < |words|
  {
    Squeezed(Fill(words[..i], width), words[i], width)
  }

  predicate NoSqueeze(words: seq<string>, width: nat) {
    forall i :: 0 <= i < |words| ==> !SqueezedAt(words, i, width)
  }

  lemma AddKeeps(f: Filling, word: string, width: nat)
    requires f.current != "" && !Squeezed(f, word, width)
    ensures Add(f, word, width).current != ""
    ensures Join(Finish(Add(f, word, width))) == Join(Finish(f)) + " " + word
  {
    if |f.current + " " + word| <= width {
      JoinReplaceLast(f.lines, f.current, word);
    } else {
      JoinSnoc(f.lines + [f.current], word);
    }
  }

  lemma FillSnoc(words: seq<string>, n: nat, width: nat)
    requires n < |words|
    ensures Fill(words[..n + 1], width) == Add(Fill(words[..n], width), words[n], width)
  {
    assert words[..n + 1][..n] == words[..n];
  }

  lemma {:induction false} FillKeeps(words: seq<string>, n: nat, width: nat)
    requires 0 < n <= |words| && NoSqueeze(words, width)
    ensures Fill(words[..n], width).current != "" && Join(Finish(Fill(words[..n], width))) == Join(words[..n])
    decreases n
  {
    var f, word := Fill(words[..n - 1], width), words[n - 1];
    FillSnoc(words, n - 1, width);
    assert !SqueezedAt(words, n - 1, width);
    assert words[..n] == words[..n - 1] + [word];
    if n == 1 {
      assert words[..1] == [word] && f == Filling([], "");
      assert Finish(Add(f, word, width)) == [word];
    } else {
      FillKeeps(words, n - 1, width);
      JoinSnoc(words[..n - 1], word);
      AddKeeps(f, word, width);
    }
  }

  lemma {:induction false} JoinLength(lines: seq<string>, line: string)
    ensures |Join(lines + [line])| == |Join(lines)| + |line| + if lines == [] then 0 else 1
  {
    if lines == [] {
      assert lines + [line] == [line];
    } else {
      JoinSnoc(lines, line);
    }
  }

  /** The wrapped text never grows, and is shorter for good once a space was squeezed out. */
  lemma {:induction false} FillShrinks(words: seq<string>, width: nat)
    requires words != []
    ensures |Join(Finish(Fill(words, width)))| <= |Join(words)|
    ensures !NoSqueeze(words, width) && words != [""] ==> |Join(Finish(Fill(words, width)))| < |Join(words)|
    decreases |words|
  {
    var n := |words| - 1;
    var before, word := words[..n], words[n];
    assert words == before + [word];
    forall i | 0 <= i < n ensures SqueezedAt(before, i, width) == SqueezedAt(words, i, width) { assert before[..i] == words[..i]; }
    assert SqueezedAt(words, n, width) == Squeezed(Fill(before, width), word, width);
    JoinLength(before, word);
    var f, g := Fill(before, width), Fill(words, width);
    JoinLength(f.lines, f.current);
    JoinLength(g.lines, g.current);
    if before != [] {
      FillShrinks(before, width);
      if !Squeezed(f, word, width) && before == [""] {
        assert Fill([""][..0], width) == Filling([], "");
        assert [""][..0] == [];
        assert Fill([""], width) == Filling([], "");
      }
    } else {
      assert words == [word];
    }
  }

  /**
   Joining the lines with spaces gives the text back exactly when no empty word
   meets an empty or a full line (or the text is empty). Text without empty words is one such case.
   */
  lemma WrapKeepsText(text: string, width: nat)
    ensures Join(Wrap(text, width)) == text <==> text == "" || NoSqueeze(Words(text), width)
    ensures "" !in Words(text) ==> Join(Wrap(text, width)) == text
  {
    var words := Words(text);
    JoinWords(text);
    FillShrinks(words, width);
    if NoSqueeze(words, width) {
      FillKeeps(words, |words|, width);
      assert words[..|words|] == words;
    }
    if words == [""] {
      assert Join([""]) == "";
      assert words[..0] == [] && Fill([], width) == Filling([], "");
    }
    if text == "" { assert Wrap(text, width) == []; }
  }

  /** A leading space is the smallest text that does not survive. */
  lemma LeadingSpaceIsLost(width: nat)
    ensures Join(Wrap(" ", width)) == ""
  {
    assert " "[1..] == "";
    assert Words(" ") == ["", ""];
    assert ["", ""][..1] == [""] && [""][..0] == [];
    assert Fill([""], width) == Filling([], "");
    assert Fill(["", ""], width) == Filling([], "");
  }

  /** Read off the text alone: it survives every width exactly when it has no leading, trailing or doubled space. */
  lemma SafeAtEveryWidth(text: string)
    ensures (forall width: nat :: Join(Wrap(text, width)) == text) <==> text == "" || "" !in Words(text)
  {
    forall width: nat ensures "" !in Words(text) || text == "" ==> Join(Wrap(text, width)) == text {
      WrapKeepsText(text, width);
    }
    WrapKeepsText(text, 0);
    var words := Words(text);
    if "" in words {
      var i :| 0 <= i < |words| && words[i] == "";
      assert SqueezedAt(words, i, 0);
    }
  }

  lemma {:induction false} JoinPrefix(words: seq<string>, n: nat)
    requires 0 < n < |words|
    ensures |Join(words[..n])| + 1 + |words[n]| <= |Join(words)|
    decreases |words|
  {
    var m := |words| - 1;
    assert words == words[..m] + [words[m]];
    JoinSnoc(words[..m], words[m]);
    if n < m {
      JoinPrefix(words[..m], n);
      assert words[..m][..n] == words[..n];
    }
  }

  lemma {:induction false} FillWhole(words: seq<string>, n: nat, width: nat)
    requires 0 < n <= |words| && words[0] != "" && |Join(words)| <= width
    ensures Fill(words[..n], width) == Filling([], Join(words[..n])) && Join(words[..n]) != ""
    decreases n
  {
    FillSnoc(words, n - 1, width);
    if n == 1 {
      assert words[..0] == [] && words[..1] == [words[0]];
      assert Fill(words[..0], width) == Filling([], "");
      if |words| > 1 { JoinPrefix(words, 1); } else { assert words == [words[0]]; }
    } else {
      FillWhole(words, n - 1, width);
      JoinPrefix(words, n - 1);
      assert words[..n] == words[..n - 1] + [words[n - 1]];
      JoinSnoc(words[..n - 1], words[n - 1]);
    }
  }

  /** A text that fits on one line survives exactly when it does not start with a space. */
  lemma ShortTextSurvives(text: string, width: nat)
    requires |text| <= width
    ensures Join(Wrap(text, width)) == text <==> text == "" || text[0] != ' '
  {
    var words := Words(text);
    JoinWords(text);
    WrapKeepsText(text, width);
    if text != "" {
      if text[0] == ' ' {
        assert words[..0] == [] && Fill([], width) == Filling([], "");
        assert SqueezedAt(words, 0, width);
      } else {
        FillWhole(words, |words|, width);
        assert words[..|words|] == words;
        assert Finish(Filling([], text)) == [text];
      }
    }
  }

  // ------------------------------------------------------------ lines fit

  ghost predicate LineOk(line: string, words: seq<string>, width: nat) {
    |line| <= width || line in words
  }

  /** Every line fits, unless it is one over-long word. */
  lemma {:induction false} LinesFit(words: seq<string>, width: nat)
    ensures forall i :: 0 <= i < |Finish(Fill(words, width))| ==> LineOk(Finish(Fill(words, width))[i], words, width)
    ensures Fill(words, width).current == "" || LineOk(Fill(words, width).current, words, width)
    ensures forall i :: 0 <= i < |Fill(words, width).lines| ==> LineOk(Fill(words, width).lines[i], words, width)
    decreases |words|
  {
    if words != [] {
      var before := words[..|words| - 1];
      LinesFit(before, width);
      assert forall w :: w in before ==> w in words;
      assert words[|words| - 1] in words;
    }
  }

  // ------------------------------------------------------------ and nobody does better

  function Flat(groups: seq<seq<string>>): seq<string> {
    if groups == [] then [] else Flat(groups[..|groups| - 1]) + groups[|groups| - 1]
  }

  /** Any way of breaking the words into lines that fit. */
  ghost predicate Breaking(groups: seq<seq<string>>, words: seq<string>, width: nat) {
    && Flat(groups) == words
    && forall i :: 0 <= i < |groups| ==> groups[i] != [] && |Join(groups[i])| <= width
  }

  predicate AllFit(words: seq<string>, width: nat) {
    forall i :: 0 <= i < |words| ==> 0 < |words[i]| <= width
  }

  /** Taking the last word off a last line of several words leaves a breaking of the other words. */
  lemma WithoutLastWord(words: seq<string>, groups: seq<seq<string>>, width: nat)
    requires words != [] && groups != [] && Breaking(groups, words, width) && |groups[|groups| - 1]| > 1
    ensures var k := |groups| - 1;
            Breaking(groups[..k] + [groups[k][..|groups[k]| - 1]], words[..|words| - 1], width)
  {
    var k := |groups| - 1;
    var last := groups[k];
    var shorter := last[..|last| - 1];
    var trimmed := groups[..k] + [shorter];
    assert trimmed[..k] == groups[..k];
    assert words == Flat(groups[..k]) + last;
    assert Flat(trimmed) == words[..|words| - 1];
    assert last == shorter + [last[|last| - 1]];
    JoinSnoc(shorter, last[|last| - 1]);
  }

  /** Greedy stays ahead: at most as many lines, and on a tie at most as full a last line. */
  lemma {:induction false} GreedyAhead(words: seq<string>, groups: seq<seq<string>>, width: nat)
    requires words != [] && AllFit(words, width) && Breaking(groups, words, width)
    ensures groups != []
    ensures var f := Fill(words, width);
            && f.current != ""
            && |f.lines| + 1 <= |groups|
            && (|f.lines| + 1 == |groups| ==> |f.current| <= |Join(groups[|groups| - 1])|)
    decreases |words|
  {
    var k := |groups| - 1;
    var n := |words| - 1;
    var last, word, before := groups[k], words[n], words[..n];
    assert word == last[|last| - 1];
    assert before == Flat(groups[..k]) + last[..|last| - 1];
    assert AllFit(before, width);
    if |last| == 1 {
      assert before == Flat(groups[..k]);
      assert last == [word];
      if before != [] { GreedyAhead(before, groups[..k], width); }
    } else {
      var shorter := last[..|last| - 1];
      var trimmed := groups[..k] + [shorter];
      WithoutLastWord(words, groups, width);
      assert last == shorter + [word];
      JoinSnoc(shorter, word);
      GreedyAhead(before, trimmed, width);
    }
  }

  /** When every word fits, no breaking at spaces uses fewer lines than the wrapped caption. */
  lemma WrapIsOptimal(text: string, width: nat, groups: seq<seq<string>>)
    requires AllFit(Words(text), width) && Breaking(groups, Words(text), width)
    ensures |Wrap(text, width)| <= |groups|
  {
    GreedyAhead(Words(text), groups, width);
  }
}
