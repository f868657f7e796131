/**
 * The text layout of the two stencil scripts: `calculate_text_layout` (identical in
 * printing/stencil.py and printing/text_stencil.py) wraps the words of a text greedily into
 * lines and places each word on a plane; the surrounding helpers choose subdivision counts,
 * sanitise words for file names, place the cutting objects and decide whether to load a font.
 * Widths are the scripts' estimates (`len(word) * 0.6 * h`), in exact real arithmetic.
 */
module TextLayout {
  import opened Strings
  import opened Numeric
  import opened Wrappers
  import opened Seqs

  /** Estimated width of a word: 0.6 of the text height per character. */
  function WordWidth(w: string, h: real): real
  {
    |w| as real * h * 0.6
  }

  function WordSpacing(h: real): real
  {
    h * 0.3
  }

  function LineSpacing(h: real): real
  {
    h * 0.5
  }

  /** The running `current_width` of a line: each word's width plus one trailing word spacing. */
  function RunWidth(line: seq<string>, h: real): real
  {
    if line == [] then 0.0
    else RunWidth(line[..|line| - 1], h) + WordWidth(line[|line| - 1], h) + WordSpacing(h)
  }

  /** Sum of the estimated word widths of a line, without any spacing. */
  function TotalWordWidth(line: seq<string>, h: real): real
  {
    if line == [] then 0.0 else WordWidth(line[0], h) + TotalWordWidth(line[1..], h)
  }

  /** The words of the lines, in order. */
  function Flatten(lines: seq<seq<string>>): seq<string>
  {
    if lines == [] then [] else Flatten(lines[..|lines| - 1]) + lines[|lines| - 1]
  }

  /** Every word after the first was admitted by the test `current_width + word_width <= available`. */
  predicate JoinsChecked(line: seq<string>, h: real, avail: real)
  {
    forall j :: 0 < j < |line| ==> RunWidth(line[..j], h) + WordWidth(line[j], h) <= avail
  }

  /** Greedy: the first word of every line would not have fitted on the line before it. */
  predicate Maximal(lines: seq<seq<string>>, h: real, avail: real)
  {
    forall i :: 0 < i < |lines| && lines[i] != [] ==> RunWidth(lines[i - 1], h) + WordWidth(lines[i][0], h) > avail
  }

  /**
   * What the first loop of `calculate_text_layout` produces from `words`: the words in order,
   * no empty line, every join admitted by the width test and, for a non-negative text height,
   * no line closed while its successor's first word would still have fitted.
   */
  predicate WellBroken(lines: seq<seq<string>>, words: seq<string>, h: real, avail: real)
  {
    && Flatten(lines) == words
    && AllChecked(lines, h, avail)
    && (h >= 0.0 ==> Maximal(lines, h, avail))
  }

  lemma FlattenAppend(lines: seq<seq<string>>, line: seq<string>)
    ensures Flatten(lines + [line]) == Flatten(lines) + line
  {
    assert (lines + [line])[..|lines|] == lines;
  }

  lemma RunWidthAppend(line: seq<string>, w: string, h: real)
    ensures RunWidth(line + [w], h) == RunWidth(line, h) + WordWidth(w, h) + WordSpacing(h)
  {
    assert (line + [w])[..|line|] == line;
  }

  /** A word admitted by the width test keeps the line's joins checked. */
  lemma JoinsCheckedAppend(line: seq<string>, w: string, h: real, avail: real)
    requires JoinsChecked(line, h, avail)
    requires line != [] ==> RunWidth(line, h) + WordWidth(w, h) <= avail
    ensures JoinsChecked(line + [w], h, avail)
  {
    var l := line + [w];
    forall j | 0 < j < |l|
      ensures RunWidth(l[..j], h) + WordWidth(l[j], h) <= avail
    {
      if j < |line| {
        assert l[..j] == line[..j];
      } else {
        assert l[..j] == line;
      }
    }
  }

  /** Every line is non-empty and had each of its joins checked. */
  predicate AllChecked(lines: seq<seq<string>>, h: real, avail: real)
  {
    forall i :: 0 <= i < |lines| ==> lines[i] != [] && JoinsChecked(lines[i], h, avail)
  }

  lemma AllCheckedAppend(lines: seq<seq<string>>, line: seq<string>, h: real, avail: real)
    requires AllChecked(lines, h, avail) && line != [] && JoinsChecked(line, h, avail)
    ensures AllChecked(lines + [line], h, avail)
  {
    var l := lines + [line];
    assert forall i :: 0 <= i < |lines| ==> l[i] == lines[i];
  }

  lemma MaximalAppend(lines: seq<seq<string>>, line: seq<string>, h: real, avail: real)
    requires Maximal(lines, h, avail)
    requires lines != [] && line != [] ==> RunWidth(lines[|lines| - 1], h) + WordWidth(line[0], h) > avail
    ensures Maximal(lines + [line], h, avail)
  {
    var l := lines + [line];
    assert forall i :: 0 <= i < |lines| ==> l[i] == lines[i];
  }

  /**
   * What the first loop keeps while it breaks the first `n` words: the closed lines and the
   * current line hold those words, every line's joins were checked and, for a non-negative
   * text height, the closed lines are maximal and the next line cannot join the last one.
   */
  predicate Breaking(words: seq<string>, n: nat, lines: seq<seq<string>>, currentLine: seq<string>, h: real, avail: real)
  {
    && n <= |words|
    && Flatten(lines) + currentLine == words[..n]
    && AllChecked(lines, h, avail)
    && JoinsChecked(currentLine, h, avail)
    && (h >= 0.0 ==> Pending(lines, currentLine, h, avail))
  }

  predicate Pending(lines: seq<seq<string>>, currentLine: seq<string>, h: real, avail: real)
  {
    && Maximal(lines, h, avail)
    && (lines != [] && currentLine != [] ==> RunWidth(lines[|lines| - 1], h) + WordWidth(currentLine[0], h) > avail)
    && (lines != [] && currentLine == [] ==> RunWidth(lines[|lines| - 1], h) > avail)
  }

  /** The next word fits and joins the current line. */
  lemma StepJoin(words: seq<string>, n: nat, lines: seq<seq<string>>, currentLine: seq<string>, h: real, avail: real)
    requires Breaking(words, n, lines, currentLine, h, avail) && n < |words|
    requires RunWidth(currentLine, h) + WordWidth(words[n], h) <= avail
    ensures Breaking(words, n + 1, lines, currentLine + [words[n]], h, avail)
  {
    assert words[..n + 1] == words[..n] + [words[n]];
    JoinsCheckedAppend(currentLine, words[n], h, avail);
    assert (currentLine + [words[n]])[0] == if currentLine == [] then words[n] else currentLine[0];
  }

  /** The next word does not fit: the current line is closed and the word starts a new one. */
  lemma StepBreak(words: seq<string>, n: nat, lines: seq<seq<string>>, currentLine: seq<string>, h: real, avail: real)
    requires Breaking(words, n, lines, currentLine, h, avail) && n < |words|
    requires currentLine != [] && RunWidth(currentLine, h) + WordWidth(words[n], h) > avail
    ensures Breaking(words, n + 1, lines + [currentLine], [words[n]], h, avail)
  {
    assert words[..n + 1] == words[..n] + [words[n]];
    FlattenAppend(lines, currentLine);
    AllCheckedAppend(lines, currentLine, h, avail);
    if h >= 0.0 {
      MaximalAppend(lines, currentLine, h, avail);
    }
  }

  /** A word that does not fit on an empty line is put on a line of its own. */
  lemma StepAlone(words: seq<string>, n: nat, lines: seq<seq<string>>, h: real, avail: real)
    requires Breaking(words, n, lines, [], h, avail) && n < |words|
    requires WordWidth(words[n], h) > avail
    ensures Breaking(words, n + 1, lines + [[words[n]]], [], h, avail)
  {
    var w := words[n];
    assert words[..n + 1] == words[..n] + [w];
    FlattenAppend(lines, [w]);
    AllCheckedAppend(lines, [w], h, avail);
    if h >= 0.0 {
      MaximalAppend(lines, [w], h, avail);
      RunWidthAppend([], w, h);
      assert [] + [w] == [w];
    }
  }

  /** After the last word, closing a non-empty current line gives a well-broken result. */
  lemma Finish(words: seq<string>, lines: seq<seq<string>>, currentLine: seq<string>, h: real, avail: real)
    requires Breaking(words, |words|, lines, currentLine, h, avail)
    ensures currentLine == [] ==> WellBroken(lines, words, h, avail)
    ensures currentLine != [] ==> WellBroken(lines + [currentLine], words, h, avail)
  {
    assert words[..|words|] == words;
    if currentLine != [] {
      FlattenAppend(lines, currentLine);
      AllCheckedAppend(lines, currentLine, h, avail);
      if h >= 0.0 {
        MaximalAppend(lines, currentLine, h, avail);
      }
    } else {
      assert Flatten(lines) + [] == Flatten(lines);
    }
  }

  /** The first loop of `calculate_text_layout`: greedy line breaking of `words`. */
  method BreakLines(words: seq<string>, h: real, avail: real) returns (lines: seq<seq<string>>)
    ensures WellBroken(lines, words, h, avail)
  {
    lines := [];
    var currentLine: seq<string> := [];
    var currentWidth: real := 0.0;
    var n := 0;
    while n < |words|
      invariant Breaking(words, n, lines, currentLine, h, avail)
      invariant currentWidth == RunWidth(currentLine, h)
    {
      var word := words[n];
      var wordWidth := WordWidth(word, h);
      if currentWidth + wordWidth <= avail {
        StepJoin(words, n, lines, currentLine, h, avail);
        RunWidthAppend(currentLine, word, h);
        currentLine := currentLine + [word];
        currentWidth := currentWidth + wordWidth + WordSpacing(h);
      } else if currentLine != [] {
        StepBreak(words, n, lines, currentLine, h, avail);
        RunWidthAppend([], word, h);
        assert [] + [word] == [word];
        lines := lines + [currentLine];
        currentLine := [word];
        currentWidth := wordWidth + WordSpacing(h);
      } else {
        StepAlone(words, n, lines, h, avail);
        lines := lines + [[word]];
        currentLine := [];
        currentWidth := 0.0;
      }
      n := n + 1;
    }
    Finish(words, lines, currentLine, h, avail);
    if currentLine != [] {
      lines := lines + [currentLine];
    }
  }

  /** `current_width` is the word widths plus one spacing per word. */
  lemma {:induction false} RunWidthClosed(line: seq<string>, h: real)
    ensures RunWidth(line, h) == TotalWordWidth(line, h) + |line| as real * WordSpacing(h)
    decreases |line|
  {
    if line != [] {
      var init := line[..|line| - 1];
      RunWidthClosed(init, h);
      TotalWordWidthAppend(init, line[|line| - 1], h);
      assert init + [line[|line| - 1]] == line;
    }
  }

  lemma {:induction false} TotalWordWidthAppend(line: seq<string>, w: string, h: real)
    ensures TotalWordWidth(line + [w], h) == TotalWordWidth(line, h) + WordWidth(w, h)
    decreases |line|
  {
    if line == [] {
      assert [] + [w] == [w];
    } else {
      assert (line + [w])[1..] == line[1..] + [w];
      TotalWordWidthAppend(line[1..], w, h);
    }
  }

  /** The last join test of a line bounds the whole line. */
  lemma CheckedLineFits(line: seq<string>, h: real, avail: real)
    requires |line| > 1 && JoinsChecked(line, h, avail)
    ensures TotalWordWidth(line, h) + (|line| - 1) as real * WordSpacing(h) <= avail
  {
    LastJoinBoundsLine(line, |line| - 1, h, avail);
  }

  lemma LastJoinBoundsLine(line: seq<string>, k: nat, h: real, avail: real)
    requires k + 1 == |line| && k > 0 && RunWidth(line[..k], h) + WordWidth(line[k], h) <= avail
    ensures TotalWordWidth(line, h) + (|line| - 1) as real * WordSpacing(h) <= avail
  {
    var init := line[..k];
    var spacings := |init| as real * WordSpacing(h);
    assert RunWidth(init, h) == TotalWordWidth(init, h) + spacings by {
      RunWidthClosed(init, h);
    }
    assert TotalWordWidth(line, h) == TotalWordWidth(init, h) + WordWidth(line[k], h) by {
      assert init + [line[k]] == line;
      TotalWordWidthAppend(init, line[k], h);
    }
    assert (|line| - 1) as real * WordSpacing(h) == spacings by {
      assert (|line| - 1) as real == |init| as real;
    }
  }

  /**
   * A line of several words is no wider than the available width: its word widths plus the
   * spacings between its words.
   */
  lemma MultiWordLineFits(lines: seq<seq<string>>, words: seq<string>, h: real, avail: real, i: nat)
    requires WellBroken(lines, words, h, avail)
    requires i < |lines| && |lines[i]| > 1
    ensures TotalWordWidth(lines[i], h) + (|lines[i]| - 1) as real * WordSpacing(h) <= avail
  {
    CheckedLineFits(lines[i], h, avail);
  }

  /** On a line of several words, with a non-negative text height, every word fits on its own. */
  lemma CheckedLineWordsFit(line: seq<string>, h: real, avail: real, j: nat)
    requires h >= 0.0 && JoinsChecked(line, h, avail)
    requires |line| > 1 && j < |line|
    ensures WordWidth(line[j], h) <= avail
  {
    if j > 0 {
      assert RunWidth(line[..j], h) + WordWidth(line[j], h) <= avail;
      RunWidthSign(line[..j], h);
    } else {
      WordWidthNonNegative(line[1], h);
      RunWidthAppend([], line[0], h);
      assert line[..1] == [] + [line[0]];
      assert RunWidth(line[..1], h) + WordWidth(line[1], h) <= avail;
    }
  }

  /** For a non-negative text height, a word wider than the available width is alone on its line. */
  lemma OverlongWordAlone(lines: seq<seq<string>>, words: seq<string>, h: real, avail: real, i: nat, j: nat)
    requires h >= 0.0 && WellBroken(lines, words, h, avail)
    requires i < |lines| && j < |lines[i]| && WordWidth(lines[i][j], h) > avail
    ensures lines[i] == [lines[i][j]]
  {
    if |lines[i]| > 1 {
      CheckedLineWordsFit(lines[i], h, avail, j);
      assert false;
    }
  }

  /** A word is never narrower than nothing, for a non-negative text height. */
  lemma WordWidthNonNegative(w: string, h: real)
    requires h >= 0.0
    ensures WordWidth(w, h) >= 0.0
  {
    assert |w| as real * h >= 0.0;
  }

  /**
   * The running width is never negative for a non-negative text height, and is zero exactly
   * for the empty line when the text height is positive.
   */
  lemma {:induction false} RunWidthSign(line: seq<string>, h: real)
    requires h >= 0.0
    ensures RunWidth(line, h) >= 0.0
    ensures h > 0.0 ==> (RunWidth(line, h) == 0.0 <==> line == [])
    decreases |line|
  {
    if line != [] {
      RunWidthSign(line[..|line| - 1], h);
      WordWidthNonNegative(line[|line| - 1], h);
    }
  }

  lemma {:induction false} FlattenCons(lines: seq<seq<string>>)
    requires lines != []
    ensures Flatten(lines) == lines[0] + Flatten(lines[1..])
    decreases |lines|
  {
    if |lines| == 1 {
      assert lines[..0] == [];
      assert Flatten(lines[1..]) == [];
    } else {
      var init := lines[..|lines| - 1];
      FlattenCons(init);
      assert init[1..] == lines[1..][..|lines| - 2];
      assert init[0] == lines[0];
    }
  }

  lemma {:induction false} FlattenEmpty(lines: seq<seq<string>>)
    requires forall i :: 0 <= i < |lines| ==> lines[i] != []
    ensures Flatten(lines) == [] <==> lines == []
  {
    if lines != [] {
      assert lines[|lines| - 1] != [];
    }
  }

  /**
   * The breaking is determined by `WellBroken`: for a non-negative text height there is only
   * one way to break `words` into lines with these properties, the one the greedy loop finds.
   */
  lemma {:induction false} GreedyBreakUnique(l1: seq<seq<string>>, l2: seq<seq<string>>, words: seq<string>, h: real, avail: real)
    requires h >= 0.0 && WellBroken(l1, words, h, avail) && WellBroken(l2, words, h, avail)
    ensures l1 == l2
    decreases |l1|
  {
    FlattenEmpty(l1);
    FlattenEmpty(l2);
    if l1 != [] && l2 != [] {
      FlattenCons(l1);
      FlattenCons(l2);
      var a, b := l1[0], l2[0];
      if |a| < |b| {
        FirstLineNotShorter(l1, l2, words, h, avail);
      } else if |b| < |a| {
        FirstLineNotShorter(l2, l1, words, h, avail);
      }
      assert a == words[..|a|] == b;
      var rest := words[|a|..];
      assert Flatten(l1[1..]) == rest == Flatten(l2[1..]);
      TailWellBroken(l1, words, h, avail);
      TailWellBroken(l2, words, h, avail);
      GreedyBreakUnique(l1[1..], l2[1..], rest, h, avail);
      assert l1 == [a] + l1[1..];
      assert l2 == [b] + l2[1..];
    }
  }

  lemma FirstLineNotShorter(l1: seq<seq<string>>, l2: seq<seq<string>>, words: seq<string>, h: real, avail: real)
    requires h >= 0.0 && WellBroken(l1, words, h, avail) && WellBroken(l2, words, h, avail)
    requires l1 != [] && l2 != []
    ensures |l1[0]| >= |l2[0]|
  {
    if |l1[0]| < |l2[0]| {
      ShorterFirstLine(l1, l2);
      assert false;
    }
  }

  /** If the first line of `l1` is shorter, the first line of `l2` continues with the start of `l1`'s second line. */
  lemma ShorterFirstLine(l1: seq<seq<string>>, l2: seq<seq<string>>)
    requires Flatten(l1) == Flatten(l2) && l1 != [] && l2 != []
    requires forall i :: 0 <= i < |l1| ==> l1[i] != []
    requires |l1[0]| < |l2[0]|
    ensures |l1| > 1 && l2[0][..|l1[0]|] == l1[0] && l2[0][|l1[0]|] == l1[1][0]
  {
    FlattenCons(l1);
    FlattenCons(l2);
    var a, b := l1[0], l2[0];
    var rest := l1[1..];
    FlattenEmpty(rest);
    assert rest != [];
    FlattenCons(rest);
    assert (a + Flatten(rest))[|a|] == rest[0][0];
    assert (b + Flatten(l2[1..]))[..|a|] == b[..|a|];
  }

  lemma TailWellBroken(lines: seq<seq<string>>, words: seq<string>, h: real, avail: real)
    requires WellBroken(lines, words, h, avail) && lines != []
    ensures |lines[0]| <= |words| && WellBroken(lines[1..], words[|lines[0]|..], h, avail)
  {
    FlattenCons(lines);
    var tail := lines[1..];
    assert forall i :: 0 <= i < |tail| ==> tail[i] == lines[i + 1];
    if h >= 0.0 {
      forall i | 0 < i < |tail| && tail[i] != []
        ensures RunWidth(tail[i - 1], h) + WordWidth(tail[i][0], h) > avail
      {
        assert tail[i - 1] == lines[i] && tail[i] == lines[i + 1];
      }
    }
  }

  /** One placed word of `word_positions`. */
  datatype WordPosition = WordPosition(word: string, x: real, y: real, line: nat)

  /** `y_offset` of line `i`: the top margin plus one text height and one line spacing per line above. */
  function LineY(i: nat, h: real, top: real): real
  {
    top + i as real * (h + LineSpacing(h))
  }

  /** The positions of the words of `line`, which is line number `i`, left to right. */
  function LinePlacement(line: seq<string>, i: nat, h: real, top: real, side: real): (ps: seq<WordPosition>)
    ensures |ps| == |line|
  {
    if line == [] then []
    else
      var init := line[..|line| - 1];
      LinePlacement(init, i, h, top, side)
      + [WordPosition(line[|line| - 1], side + RunWidth(init, h), LineY(i, h, top), i)]
  }

  /** The positions of the words of all lines, line after line. */
  function Placement(lines: seq<seq<string>>, h: real, top: real, side: real): (ps: seq<WordPosition>)
    ensures |ps| == |Flatten(lines)|
  {
    if lines == [] then []
    else Placement(lines[..|lines| - 1], h, top, side) + LinePlacement(lines[|lines| - 1], |lines| - 1, h, top, side)
  }

  /** The second loop of `calculate_text_layout`: `x_offset` and `y_offset` advance word by word. */
  method PlaceWords(lines: seq<seq<string>>, h: real, top: real, side: real) returns (positions: seq<WordPosition>)
    ensures positions == Placement(lines, h, top, side)
  {
    positions := [];
    var yOffset := top;
    var i := 0;
    while i < |lines|
      invariant i <= |lines|
      invariant positions == Placement(lines[..i], h, top, side)
      invariant yOffset == LineY(i, h, top)
    {
      var line := lines[i];
      ghost var before := positions;
      var xOffset := side;
      var j := 0;
      while j < |line|
        invariant j <= |line|
        invariant positions == before + LinePlacement(line[..j], i, h, top, side)
        invariant xOffset == side + RunWidth(line[..j], h)
      {
        LinePlacementSnoc(line, j, i, h, top, side);
        positions := positions + [WordPosition(line[j], xOffset, yOffset, i)];
        xOffset := xOffset + WordWidth(line[j], h) + WordSpacing(h);
        j := j + 1;
      }
      TakeAll(line);
      PlacementSnoc(lines, i, h, top, side);
      LineYStep(i, h, top);
      yOffset := yOffset + h + LineSpacing(h);
      i := i + 1;
    }
    TakeAll(lines);
  }

  /** One more word of a line: its position is appended and the running width grows by it. */
  lemma LinePlacementSnoc(line: seq<string>, j: nat, i: nat, h: real, top: real, side: real)
    requires j < |line|
    ensures LinePlacement(line[..j + 1], i, h, top, side)
      == LinePlacement(line[..j], i, h, top, side) + [WordPosition(line[j], side + RunWidth(line[..j], h), LineY(i, h, top), i)]
    ensures RunWidth(line[..j + 1], h) == RunWidth(line[..j], h) + WordWidth(line[j], h) + WordSpacing(h)
  {
    assert line[..j + 1][..j] == line[..j];
  }

  /** Line `i` is `1.5 h` per line below the top margin. */
  lemma LineYClosed(i: nat, h: real, top: real)
    ensures LineY(i, h, top) == top + i as real * 1.5 * h
  {
    assert i as real * (h + h * 0.5) == i as real * 1.5 * h;
  }

  /** Each line is one text height and one line spacing below the one before. */
  lemma LineYStep(i: nat, h: real, top: real)
    ensures LineY(i + 1, h, top) == LineY(i, h, top) + h + LineSpacing(h)
  {
    assert (i + 1) as real * (h + LineSpacing(h)) == i as real * (h + LineSpacing(h)) + (h + LineSpacing(h));
  }

  /** One more line: its positions are appended. */
  lemma PlacementSnoc(lines: seq<seq<string>>, i: nat, h: real, top: real, side: real)
    requires i < |lines|
    ensures Placement(lines[..i + 1], h, top, side) == Placement(lines[..i], h, top, side) + LinePlacement(lines[i], i, h, top, side)
  {
    assert lines[..i + 1][..i] == lines[..i];
  }

  lemma {:induction false} LinePlacementAt(line: seq<string>, i: nat, h: real, top: real, side: real, j: nat)
    requires j < |line|
    ensures LinePlacement(line, i, h, top, side)[j] == WordPosition(line[j], side + RunWidth(line[..j], h), LineY(i, h, top), i)
    decreases |line|
  {
    var init := line[..|line| - 1];
    if j < |init| {
      LinePlacementAt(init, i, h, top, side, j);
      assert init[..j] == line[..j];
    }
  }

  /**
   * Where word `j` of line `i` is placed: at index `|Flatten(lines[..i])| + j` of the positions,
   * with its own text, `x = side + current_width` of the words before it on the line (so the
   * first word of a line is at the side margin), `y = top + i * 1.5 * h` and line number `i`.
   */
  lemma {:induction false} PlacementAt(lines: seq<seq<string>>, h: real, top: real, side: real, i: nat, j: nat)
    requires i < |lines| && j < |lines[i]|
    ensures |Flatten(lines[..i])| + j < |Placement(lines, h, top, side)|
    ensures Placement(lines, h, top, side)[|Flatten(lines[..i])| + j]
      == WordPosition(lines[i][j], side + RunWidth(lines[i][..j], h), top + i as real * 1.5 * h, i)
    ensures j == 0 ==> Placement(lines, h, top, side)[|Flatten(lines[..i])|].x == side
    decreases |lines|
  {
    var init := lines[..|lines| - 1];
    assert lines[..|lines| - 1 + 1] == lines;
    FlattenAppend(init, lines[|lines| - 1]);
    if i < |init| {
      PlacementAt(init, h, top, side, i, j);
      assert init[..i] == lines[..i];
      FlattenPrefixLength(lines, i);
    } else {
      assert init == lines[..i];
      LinePlacementAt(lines[i], i, h, top, side, j);
      LineYClosed(i, h, top);
    }
    assert lines[i][..0] == [];
  }

  lemma {:induction false} FlattenPrefixLength(lines: seq<seq<string>>, i: nat)
    requires i < |lines|
    ensures |Flatten(lines[..i])| + |lines[i]| <= |Flatten(lines)|
    decreases |lines|
  {
    var init := lines[..|lines| - 1];
    FlattenAppend(init, lines[|lines| - 1]);
    assert init + [lines[|lines| - 1]] == lines;
    if i < |init| {
      FlattenPrefixLength(init, i);
      assert init[..i] == lines[..i];
    } else {
      assert init == lines[..i];
    }
  }

  /** The positions list every word of every line exactly once, in order. */
  lemma {:induction false} PlacementWords(lines: seq<seq<string>>, h: real, top: real, side: real)
    ensures forall k :: 0 <= k < |Flatten(lines)| ==> Placement(lines, h, top, side)[k].word == Flatten(lines)[k]
    decreases |lines|
  {
    if lines != [] {
      var init := lines[..|lines| - 1];
      var last := lines[|lines| - 1];
      PlacementWords(init, h, top, side);
      var ps := Placement(lines, h, top, side);
      var p0 := Placement(init, h, top, side);
      forall k | 0 <= k < |Flatten(lines)|
        ensures ps[k].word == Flatten(lines)[k]
      {
        if k >= |p0| {
          LinePlacementAt(last, |lines| - 1, h, top, side, k - |p0|);
        }
      }
    }
  }

  /** Within a line, each word's x is the previous word's x plus its width and one word spacing. */
  lemma WordAdvance(lines: seq<seq<string>>, h: real, top: real, side: real, i: nat, j: nat)
    requires i < |lines| && j + 1 < |lines[i]|
    ensures |Flatten(lines[..i])| + j + 1 < |Placement(lines, h, top, side)|
    ensures Placement(lines, h, top, side)[|Flatten(lines[..i])| + j + 1].x
      == Placement(lines, h, top, side)[|Flatten(lines[..i])| + j].x + WordWidth(lines[i][j], h) + WordSpacing(h)
  {
    PlacementAt(lines, h, top, side, i, j);
    PlacementAt(lines, h, top, side, i, j + 1);
    assert lines[i][..j + 1] == lines[i][..j] + [lines[i][j]];
    RunWidthAppend(lines[i][..j], lines[i][j], h);
  }

  /** `plane_height`: one text height per line, one line spacing between lines, two margins. */
  function PlaneHeight(lineCount: nat, h: real, top: real): (r: real)
    ensures lineCount > 0 ==> r == LineY(lineCount - 1, h, top) + h + top
  {
    lineCount as real * h + (lineCount as real - 1.0) * LineSpacing(h) + 2.0 * top
  }

  /**
   * `calculate_text_layout`: the plane width is `max_width`, the lines are the greedy breaking
   * of `text.split()` within `max_width - 2 * side_margin`, the height follows from the number
   * of lines and the positions from the lines.
   */
  method CalculateTextLayout(text: string, h: real, maxWidth: real, top: real, side: real)
    returns (planeWidth: real, planeHeight: real, positions: seq<WordPosition>, lines: seq<seq<string>>)
    ensures WellBroken(lines, Words(text), h, maxWidth - 2.0 * side)
    ensures planeWidth == maxWidth
    ensures planeHeight == PlaneHeight(|lines|, h, top)
    ensures positions == Placement(lines, h, top, side)
  {
    var words := Words(text);
    var availableWidth := maxWidth - 2.0 * side;
    lines := BreakLines(words, h, availableWidth);
    planeWidth := maxWidth;
    planeHeight := |lines| as real * h + (|lines| as real - 1.0) * LineSpacing(h) + 2.0 * top;
    positions := PlaceWords(lines, h, top, side);
  }

  /** Subdivisions of the stencil plane: `int(dim / 10)` clamped to [10, 50]. */
  function PlaneSubdivisions(dim: real): (r: int)
    ensures 10 <= r <= 50
    ensures 10 <= Trunc(dim / 10.0) <= 50 ==> r == Trunc(dim / 10.0)
    ensures Trunc(dim / 10.0) < 10 ==> r == 10
    ensures Trunc(dim / 10.0) > 50 ==> r == 50
  {
    Min(50, Max(10, Trunc(dim / 10.0)))
  }

  /** Subdivisions of the textured plane: at least 50, about one per tenth of the text height. */
  function TextureSubdivisions(dim: real, h: real): (r: Option<int>)
    ensures r.None? <==> h == 0.0
    ensures r.Some? ==> r.value >= 50 && r.value >= Trunc(dim / (h * 0.1))
    ensures r.Some? && Trunc(dim / (h * 0.1)) >= 50 ==> r.value == Trunc(dim / (h * 0.1))
  {
    if h == 0.0 then None else Some(Max(50, Trunc(dim / (h * 0.1))))
  }

  /** `safe_word`: each character kept if alphanumeric, otherwise replaced by `_`. */
  function SafeWord(word: string): (r: string)
    ensures |r| == |word|
    ensures forall k :: 0 <= k < |r| ==> IsAsciiAlnum(r[k]) || r[k] == '_'
    ensures forall k :: 0 <= k < |r| ==> IsAsciiAlnum(word[k]) ==> r[k] == word[k]
    ensures forall k :: 0 <= k < |r| ==> !IsAsciiAlnum(word[k]) ==> r[k] == '_'
  {
    seq(|word|, k requires 0 <= k < |word| => if IsAsciiAlnum(word[k]) then word[k] else '_')
  }

  /** Sanitising twice changes nothing more. */
  lemma SafeWordIdempotent(word: string)
    ensures SafeWord(SafeWord(word)) == SafeWord(word)
  {
  }

  /** Where a word's cutting object is put: the centre of its estimated box, 1 above the plane. */
  function CutterLocation(p: WordPosition, h: real): (r: (real, real, real))
    ensures r.0 - p.x == p.x + WordWidth(p.word, h) - r.0
    ensures r.1 - p.y == p.y + h - r.1
    ensures r.2 == 1.0
    ensures h >= 0.0 ==> p.x <= r.0 <= p.x + WordWidth(p.word, h) && p.y <= r.1 <= p.y + h
  {
    (p.x + WordWidth(p.word, h) / 2.0, p.y + h / 2.0, 1.0)
  }

  /** The guard under which a font load is attempted for a text object; the load itself may still fail. */
  predicate UsesCustomFont(fontPath: string)
  {
    fontPath != "" && fontPath != "Arial" && (EndsWith(fontPath, ".ttf") || EndsWith(fontPath, ".otf"))
  }

  /** The first two tests of the guard are implied by the third. */
  lemma CustomFontIffFontFile(fontPath: string)
    ensures UsesCustomFont(fontPath) <==> EndsWith(fontPath, ".ttf") || EndsWith(fontPath, ".otf")
  {
    assert "Arial"[1..] == "rial";
  }
}
