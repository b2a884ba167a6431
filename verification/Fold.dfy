/** Folding text into lines (foldString of src/Clients/cimcli/CIMCLICommon.cpp). */
module Fold {

  // ----- The layout: the lines a text is folded into.

  /** How a line ends: at a new line of the text, at a break put in, or with the text. */
  datatype Ending = AtNewLine | AtBreak | AtEnd

  datatype Line = Line(indented: bool, text: string, ending: Ending)

  function Indent(n: nat): (s: string)
    ensures |s| == n && forall i | 0 <= i < n :: s[i] == ' '
  {
    seq(n, _ => ' ')
  }

  /** What a line looks like: the indentation, if any, and its text. */
  function Shown(l: Line, start: nat): string {
    (if l.indented then Indent(start) else "") + l.text
  }

  function Width(l: Line, start: nat): nat {
    (if l.indented then start else 0) + |l.text|
  }

  function LastShown(l: Line, start: nat): string {
    if Width(l, start) == start then "" else Shown(l, start)
  }

  /** The output: the lines one below the other, but a last line that is as wide as the
      indentation is left out. */
  function Output(lines: seq<Line>, start: nat): string {
    if lines == [] then ""
    else if lines[0].ending.AtEnd? then LastShown(lines[0], start)
    else Shown(lines[0], start) + ("\n" + Output(lines[1..], start))
  }

  /** The part of the text that a line stands for. */
  function Part(l: Line): string {
    l.text + (if l.ending.AtNewLine? then "\n" else "")
  }

  /** The text that was folded: the texts of the lines, and the new lines that were there. */
  function Unfolded(lines: seq<Line>): string {
    if lines == [] then "" else Part(lines[0]) + Unfolded(lines[1..])
  }

  /** The first position from i on that holds a space or a new line, or the end. */
  function WordEnd(input: string, i: nat): (j: nat)
    requires i <= |input|
    ensures i <= j <= |input|
    ensures forall k | i <= k < j :: input[k] != ' ' && input[k] != '\n'
    ensures j < |input| ==> input[j] == ' ' || input[j] == '\n'
    decreases |input| - i
  {
    if i == |input| || input[i] == ' ' || input[i] == '\n' then i else WordEnd(input, i + 1)
  }

  /** The end of the word at i; a led word starts with the space before it. */
  function NextEnd(input: string, i: nat, led: bool): (j: nat)
    requires i <= |input| && (led ==> i < |input|)
    ensures i <= j <= |input| && (led ==> i < j)
  {
    WordEnd(input, if led then i + 1 else i)
  }

  function Wider(l: Line, word: string): Line {
    l.(text := l.text + word)
  }

  predicate Overflows(l: Line, word: string, start: nat, fold: nat) {
    Width(l, start) + |word| >= fold
  }

  /** The line that takes the word: the current one, or a new one if the word does not fit. */
  function Taker(l: Line, word: string, start: nat, fold: nat): Line {
    if Overflows(l, word, start, fold) then Line(true, word, AtEnd) else Wider(l, word)
  }

  function Broken(breaks: bool, l: Line, rest: seq<Line>): seq<Line> {
    if breaks then [l.(ending := AtBreak)] + rest else rest
  }

  const FRESH := Line(true, "", AtEnd)

  /** The lines from the word at i on, when the current line holds what came before. */
  function Lines(input: string, i: nat, led: bool, current: Line, start: nat, fold: nat): seq<Line>
    requires i <= |input| && (led ==> i < |input|)
    decreases |input| - i, if led then 0 else 2
  {
    var j := NextEnd(input, i, led);
    var word := input[i..j];
    if i == j == |input| then [current]
    else
      Broken(Overflows(current, word, start, fold), current,
             Rest(input, j, Taker(current, word, start, fold), start, fold))
  }

  /** The lines once the word before j is on the current line. */
  function Rest(input: string, j: nat, current: Line, start: nat, fold: nat): seq<Line>
    requires j <= |input|
    decreases |input| - j, 1
  {
    if j == |input| then [current]
    else if input[j] == ' ' then Lines(input, j, true, current, start, fold)
    else [current.(ending := AtNewLine)] + Lines(input, j + 1, false, FRESH, start, fold)
  }

  const FIRST := Line(false, "", AtEnd)

  function Layout(input: string, start: nat, fold: nat): seq<Line> {
    Lines(input, 0, false, FIRST, start, fold)
  }

  // ----- The program.

  method Fill(count: nat) returns (s: string)
    ensures s == Indent(count)
  {
    s := "";
    for i := 0 to count
      invariant s == Indent(i)
    {
      s := s + [' '];
    }
  }

  /** Start a new line if the word does not fit on the current one, and add the word. */
  method AddWord(out: string, line: string, word: string, start: nat, fold: nat, ghost current: Line)
    returns (newOut: string, newLine: string)
    requires line == Shown(current, start)
    ensures newOut == if Overflows(current, word, start, fold) then out + line + "\n" else out
    ensures newLine == Shown(Taker(current, word, start, fold), start)
  {
    newOut, newLine := out, line;
    if |newLine| + |word| >= fold {
      newOut := newOut + newLine;
      newOut := newOut + ['\n'];
      newLine := Fill(start);
    }
    newLine := newLine + word;
    assert Shown(Wider(current, word), start) == Shown(current, start) + word;
  }

  lemma OutputCons(l: Line, lines: seq<Line>, start: nat)
    requires !l.ending.AtEnd?
    ensures Output([l] + lines, start) == Shown(l, start) + ("\n" + Output(lines, start))
  {
    assert ([l] + lines)[1..] == lines;
  }

  lemma Regroup(out: string, line: string, rest: string)
    ensures out + (line + ("\n" + rest)) == ((out + line) + "\n") + rest
  {}

  lemma PutOut(out: string, l: Line, ending: Ending, rest: seq<Line>, start: nat)
    requires ending != AtEnd
    ensures out + Output([l.(ending := ending)] + rest, start) == ((out + Shown(l, start)) + "\n") + Output(rest, start)
  {
    OutputCons(l.(ending := ending), rest, start);
    Regroup(out, Shown(l, start), Output(rest, start));
  }

  lemma WordAdded(input: string, i: nat, led: bool, current: Line, out: string, start: nat, fold: nat)
    requires i <= |input| && (led ==> i < |input|)
    requires !(NextEnd(input, i, led) == i == |input|)
    ensures var j := NextEnd(input, i, led); var word := input[i..j];
            out + Output(Lines(input, i, led, current, start, fold), start) ==
            (if Overflows(current, word, start, fold) then (out + Shown(current, start)) + "\n" else out)
            + Output(Rest(input, j, Taker(current, word, start, fold), start, fold), start)
  {
    var j := NextEnd(input, i, led);
    var word := input[i..j];
    PutOut(out, current, AtBreak, Rest(input, j, Taker(current, word, start, fold), start, fold), start);
  }

  lemma NewLineAdded(input: string, j: nat, current: Line, out: string, start: nat, fold: nat)
    requires j < |input| && input[j] == '\n'
    ensures out + Output(Rest(input, j, current, start, fold), start) ==
            (out + (Shown(current, start) + "\n")) + Output(Lines(input, j + 1, false, FRESH, start, fold), start)
  {
    PutOut(out, current, AtNewLine, Lines(input, j + 1, false, FRESH, start, fold), start);
  }

  lemma WordGoesOn(input: string, i: nat, from: nat)
    requires from <= i < |input| && input[i] != ' ' && input[i] != '\n' && WordEnd(input, from) >= i
    ensures WordEnd(input, from) >= i + 1
  {}

  lemma WordStopsHere(input: string, i: nat, from: nat)
    requires from <= i <= |input| && WordEnd(input, from) >= i
    requires i < |input| ==> input[i] == ' ' || input[i] == '\n'
    ensures WordEnd(input, from) == i
  {}

  /** Where the loop stands before position i: what is out, the current line, the word begun at
      some earlier position, and the output they lead to. */
  datatype Standing = Standing(current: Line, begun: nat, led: bool)

  ghost predicate StandsAt(input: string, i: nat, at: Standing, line: string, word: string, start: nat)
  {
    && at.begun <= i <= |input| && (at.led ==> at.begun < i) && at.current.ending.AtEnd?
    && word == input[at.begun..i] && line == Shown(at.current, start)
    && WordEnd(input, if at.led then at.begun + 1 else at.begun) >= i
  }

  ghost function LeadsTo(input: string, i: nat, at: Standing, out: string, line: string, word: string,
                         start: nat, fold: nat): string
    requires StandsAt(input, i, at, line, word, start)
  {
    out + Output(Lines(input, at.begun, at.led && at.begun < |input|, at.current, start, fold), start)
  }

  /** Put out the current line at a new line of the text. */
  method EndLine(input: string, i: nat, out: string, line: string, startPos: nat, foldPos: nat, ghost current: Line)
    returns (newOut: string, newLine: string)
    requires i < |input| && input[i] == '\n' && line == Shown(current, startPos)
    ensures newLine == Shown(FRESH, startPos)
    ensures newOut + Output(Lines(input, i + 1, false, FRESH, startPos, foldPos), startPos) ==
            out + Output(Rest(input, i, current, startPos, foldPos), startPos)
  {
    NewLineAdded(input, i, current, out, startPos, foldPos);
    newLine := line + ['\n'];
    newOut := out + newLine;
    newLine := Fill(startPos);
  }

  /** At a space the next word begins with it. */
  lemma SpaceBegins(input: string, i: nat, current: Line, out: string, line: string, start: nat, fold: nat)
    requires i < |input| && input[i] == ' ' && current.ending.AtEnd? && line == Shown(current, start)
    ensures StandsAt(input, i + 1, Standing(current, i, true), line, [input[i]], start)
    ensures LeadsTo(input, i + 1, Standing(current, i, true), out, line, [input[i]], start, fold) ==
            out + Output(Rest(input, i, current, start, fold), start)
  {}

  /** After a new line everything is fresh. */
  lemma FreshBegins(input: string, i: nat, out: string, line: string, start: nat, fold: nat)
    requires i <= |input| && line == Shown(FRESH, start)
    ensures StandsAt(input, i, Standing(FRESH, i, false), line, "", start)
    ensures LeadsTo(input, i, Standing(FRESH, i, false), out, line, "", start, fold) ==
            out + Output(Lines(input, i, false, FRESH, start, fold), start)
  {}

  /** The word begun is added to the current line. */
  method EndWord(input: string, i: nat, out: string, line: string, word: string, startPos: nat, foldPos: nat,
                 ghost at: Standing)
    returns (newOut: string, newLine: string, ghost current: Line)
    requires i < |input| && (input[i] == ' ' || input[i] == '\n')
    requires StandsAt(input, i, at, line, word, startPos)
    ensures current.ending.AtEnd? && newLine == Shown(current, startPos)
    ensures newOut + Output(Rest(input, i, current, startPos, foldPos), startPos) ==
            LeadsTo(input, i, at, out, line, word, startPos, foldPos)
  {
    WordStopsHere(input, i, if at.led then at.begun + 1 else at.begun);
    WordAdded(input, at.begun, at.led, at.current, out, startPos, foldPos);
    newOut, newLine := AddWord(out, line, word, startPos, foldPos, at.current);
    current := Taker(at.current, word, startPos, foldPos);
  }

  method TakeSeparator(input: string, i: nat, out: string, line: string, word: string, startPos: nat, foldPos: nat,
                       ghost at: Standing)
    returns (newOut: string, newLine: string, newWord: string, ghost now: Standing)
    requires i < |input| && (input[i] == ' ' || input[i] == '\n')
    requires StandsAt(input, i, at, line, word, startPos)
    ensures StandsAt(input, i + 1, now, newLine, newWord, startPos)
    ensures LeadsTo(input, i + 1, now, newOut, newLine, newWord, startPos, foldPos) ==
            LeadsTo(input, i, at, out, line, word, startPos, foldPos)
  {
    ghost var current;
    newOut, newLine, current := EndWord(input, i, out, line, word, startPos, foldPos, at);
    if input[i] == ' ' {
      newWord := [input[i]];
      now := Standing(current, i, true);
      SpaceBegins(input, i, current, newOut, newLine, startPos, foldPos);
    } else {
      newWord := "";
      newOut, newLine := EndLine(input, i, newOut, newLine, startPos, foldPos, current);
      now := Standing(FRESH, i + 1, false);
      FreshBegins(input, i + 1, newOut, newLine, startPos, foldPos);
    }
  }

  method TakeLast(input: string, out: string, line: string, word: string, startPos: nat, foldPos: nat,
                  ghost at: Standing) returns (newOut: string)
    requires StandsAt(input, |input|, at, line, word, startPos)
    ensures newOut == LeadsTo(input, |input|, at, out, line, word, startPos, foldPos)
  {
    WordStopsHere(input, |input|, if at.led then at.begun + 1 else at.begun);
    var newLine := line;
    ghost var current := at.current;
    newOut := out;
    if |word| != 0 {
      WordAdded(input, at.begun, at.led, at.current, out, startPos, foldPos);
      newOut, newLine := AddWord(out, line, word, startPos, foldPos, at.current);
      current := Taker(at.current, word, startPos, foldPos);
    }
    assert LeadsTo(input, |input|, at, out, line, word, startPos, foldPos) == newOut + LastShown(current, startPos);
    if |newLine| != startPos {
      newOut := newOut + newLine;
    }
  }

  lemma WordGrows(input: string, i: nat, at: Standing, out: string, line: string, word: string,
                  start: nat, fold: nat)
    requires i < |input| && input[i] != ' ' && input[i] != '\n' && StandsAt(input, i, at, line, word, start)
    ensures StandsAt(input, i + 1, at, line, word + [input[i]], start)
    ensures LeadsTo(input, i + 1, at, out, line, word + [input[i]], start, fold) ==
            LeadsTo(input, i, at, out, line, word, start, fold)
  {
    WordGoesOn(input, i, if at.led then at.begun + 1 else at.begun);
  }

  method FoldString(input: string, startPos: nat, foldPos: nat) returns (strOut: string)
    ensures strOut == Output(Layout(input, startPos, foldPos), startPos)
  {
    strOut := "";
    var line, word := "", "";
    ghost var at := Standing(FIRST, 0, false);
    ghost var goal := Output(Layout(input, startPos, foldPos), startPos);
    assert strOut + goal == goal;
    var i := 0;
    while i < |input|
      invariant 0 <= i <= |input| && StandsAt(input, i, at, line, word, startPos)
      invariant LeadsTo(input, i, at, strOut, line, word, startPos, foldPos) ==
                Output(Layout(input, startPos, foldPos), startPos)
    {
      if input[i] == ' ' || input[i] == '\n' {
        strOut, line, word, at := TakeSeparator(input, i, strOut, line, word, startPos, foldPos, at);
      } else {
        WordGrows(input, i, at, strOut, line, word, startPos, foldPos);
        word := word + [input[i]];
      }
      i := i + 1;
    }
    strOut := TakeLast(input, strOut, line, word, startPos, foldPos, at);
  }

  // ----- Nothing is lost but what the last test drops.

  lemma UnfoldedCons(l: Line, lines: seq<Line>)
    ensures Unfolded([l] + lines) == Part(l) + Unfolded(lines)
  {
    assert ([l] + lines)[1..] == lines;
  }

  lemma UnfoldedBroken(current: Line, word: string, rest: seq<Line>, start: nat, fold: nat, left: string)
    requires !current.ending.AtNewLine?
    requires Unfolded(rest) == Taker(current, word, start, fold).text + left
    ensures Unfolded(Broken(Overflows(current, word, start, fold), current, rest)) == current.text + (word + left)
  {
    if Overflows(current, word, start, fold) {
      UnfoldedCons(current.(ending := AtBreak), rest);
      assert Part(current.(ending := AtBreak)) == current.text;
    } else {
      assert (current.text + word) + left == current.text + (word + left);
    }
  }

  lemma UnfoldedLast(current: Line)
    requires !current.ending.AtNewLine?
    ensures Unfolded([current]) == current.text + ""
  {
    UnfoldedCons(current, []);
    assert [current] == [current] + [];
  }

  /** The lines unfold to the text. */
  lemma {:induction false} LinesConserve(input: string, i: nat, led: bool, current: Line, start: nat, fold: nat)
    requires i <= |input| && (led ==> i < |input|) && current.ending.AtEnd?
    ensures Unfolded(Lines(input, i, led, current, start, fold)) == current.text + input[i..]
    decreases |input| - i, if led then 0 else 2
  {
    var j := NextEnd(input, i, led);
    var word := input[i..j];
    assert input[i..] == word + input[j..];
    if i == j == |input| {
      UnfoldedLast(current);
    } else {
      var taker := Taker(current, word, start, fold);
      RestConserves(input, j, taker, start, fold);
      UnfoldedBroken(current, word, Rest(input, j, taker, start, fold), start, fold, input[j..]);
    }
  }

  lemma {:induction false} RestConserves(input: string, j: nat, current: Line, start: nat, fold: nat)
    requires j <= |input| && current.ending.AtEnd?
    requires j < |input| ==> input[j] == ' ' || input[j] == '\n'
    ensures Unfolded(Rest(input, j, current, start, fold)) == current.text + input[j..]
    decreases |input| - j, 1
  {
    if j == |input| {
      UnfoldedLast(current);
    } else if input[j] == ' ' {
      LinesConserve(input, j, true, current, start, fold);
    } else {
      LinesConserve(input, j + 1, false, FRESH, start, fold);
      UnfoldedCons(current.(ending := AtNewLine), Lines(input, j + 1, false, FRESH, start, fold));
      assert input[j..] == "\n" + input[j + 1..];
      assert (current.text + "\n") + input[j + 1..] == current.text + ("\n" + input[j + 1..]);
    }
  }

  /** The lines unfold to the text that was folded. */
  lemma LayoutConserves(input: string, start: nat, fold: nat)
    ensures Unfolded(Layout(input, start, fold)) == input
  {
    LinesConserve(input, 0, false, FIRST, start, fold);
    assert "" + input[0..] == input;
  }

  /** The lines but the first are indented, and the last one alone ends with the text. */
  predicate Shaped(lines: seq<Line>, indented: bool) {
    && lines != [] && lines[0].indented == indented
    && if |lines| == 1 then lines[0].ending.AtEnd? else !lines[0].ending.AtEnd? && Shaped(lines[1..], true)
  }

  lemma ShapedCons(l: Line, rest: seq<Line>)
    requires !l.ending.AtEnd? && Shaped(rest, true)
    ensures Shaped([l] + rest, l.indented)
  {
    assert ([l] + rest)[1..] == rest;
  }

  lemma {:induction false} LinesShaped(input: string, i: nat, led: bool, current: Line, start: nat, fold: nat)
    requires i <= |input| && (led ==> i < |input|) && current.ending.AtEnd?
    ensures Shaped(Lines(input, i, led, current, start, fold), current.indented)
    ensures current.text <= Lines(input, i, led, current, start, fold)[0].text
    decreases |input| - i, if led then 0 else 2
  {
    var j := NextEnd(input, i, led);
    var word := input[i..j];
    if !(i == j == |input|) {
      var taker := Taker(current, word, start, fold);
      RestShaped(input, j, taker, start, fold);
      if Overflows(current, word, start, fold) {
        ShapedCons(current.(ending := AtBreak), Rest(input, j, taker, start, fold));
      }
    }
  }

  lemma {:induction false} RestShaped(input: string, j: nat, current: Line, start: nat, fold: nat)
    requires j <= |input| && current.ending.AtEnd?
    ensures Shaped(Rest(input, j, current, start, fold), current.indented)
    ensures current.text <= Rest(input, j, current, start, fold)[0].text
    decreases |input| - j, 1
  {
    if j < |input| {
      if input[j] == ' ' {
        LinesShaped(input, j, true, current, start, fold);
      } else {
        LinesShaped(input, j + 1, false, FRESH, start, fold);
        ShapedCons(current.(ending := AtNewLine), Lines(input, j + 1, false, FRESH, start, fold));
      }
    }
  }

  predicate NoNewLine(input: string, i: nat) {
    forall k | i <= k < |input| :: input[k] != '\n'
  }

  /** One line is enough exactly for a text without new lines that leaves the line narrower than
      the fold. */
  lemma {:induction false} OneLineExactly(input: string, i: nat, led: bool, current: Line, start: nat, fold: nat)
    requires i <= |input| && (led ==> i < |input| && input[i] == ' ') && current.ending.AtEnd?
    ensures |Lines(input, i, led, current, start, fold)| == 1 <==>
            NoNewLine(input, i) && (i < |input| ==> Width(current, start) + (|input| - i) < fold)
    decreases |input| - i, if led then 0 else 2
  {
    var j := NextEnd(input, i, led);
    var word := input[i..j];
    if !(i == j == |input|) {
      var taker := Taker(current, word, start, fold);
      RestShaped(input, j, taker, start, fold);
      OneRestExactly(input, j, taker, start, fold);
      assert NoNewLine(input, j) ==> NoNewLine(input, i);
    }
  }

  lemma {:induction false} OneRestExactly(input: string, j: nat, current: Line, start: nat, fold: nat)
    requires j <= |input| && current.ending.AtEnd?
    requires j < |input| ==> input[j] == ' ' || input[j] == '\n'
    ensures |Rest(input, j, current, start, fold)| == 1 <==>
            NoNewLine(input, j) && (j < |input| ==> Width(current, start) + (|input| - j) < fold)
    decreases |input| - j, 1
  {
    if j < |input| {
      if input[j] == ' ' {
        OneLineExactly(input, j, true, current, start, fold);
      } else {
        LinesShaped(input, j + 1, false, FRESH, start, fold);
      }
    }
  }

  function Last(lines: seq<Line>): Line
    requires lines != []
  {
    lines[|lines| - 1]
  }

  /** The last test drops a line that holds text. */
  predicate LosesText(lines: seq<Line>, start: nat)
    requires lines != []
  {
    Width(Last(lines), start) == start && Last(lines).text != ""
  }

  lemma {:induction false} LastIndented(lines: seq<Line>, indented: bool)
    requires Shaped(lines, indented)
    ensures |lines| > 1 ==> Last(lines).indented
    ensures Last(lines).ending.AtEnd?
    decreases |lines|
  {
    if |lines| > 1 {
      LastIndented(lines[1..], true);
    }
  }

  /** Text is lost exactly when an unbroken text that is not empty is as long as the indentation. */
  lemma TextLostExactly(input: string, start: nat, fold: nat)
    ensures Layout(input, start, fold) != []
    ensures LosesText(Layout(input, start, fold), start) <==>
            input != "" && |input| == start && start < fold && '\n' !in input
  {
    var lines := Layout(input, start, fold);
    LinesShaped(input, 0, false, FIRST, start, fold);
    LastIndented(lines, false);
    OneLineExactly(input, 0, false, FIRST, start, fold);
    LayoutConserves(input, start, fold);
    if |lines| == 1 {
      UnfoldedLast(lines[0]);
      assert lines == [lines[0]] && lines[0].text == input;
    }
  }

  /** The output with every line that holds text. */
  function Everything(lines: seq<Line>, start: nat): string {
    if lines == [] then ""
    else if lines[0].ending.AtEnd? then (if lines[0].text == "" then "" else Shown(lines[0], start))
    else Shown(lines[0], start) + ("\n" + Everything(lines[1..], start))
  }

  lemma SameTail(shown: string, a: string, b: string)
    ensures shown + ("\n" + a) == shown + ("\n" + b) <==> a == b
  {
    assert (shown + ("\n" + a))[|shown| + 1..] == a;
    assert (shown + ("\n" + b))[|shown| + 1..] == b;
  }

  lemma LastIsEverything(l: Line, start: nat)
    ensures LastShown(l, start) == (if l.text == "" then "" else Shown(l, start)) <==>
            !(Width(l, start) == start && l.text != "")
  {
    assert |Shown(l, start)| == Width(l, start);
  }

  lemma FirstOut(lines: seq<Line>, start: nat)
    requires |lines| > 1 && !lines[0].ending.AtEnd?
    ensures Output(lines, start) == Shown(lines[0], start) + ("\n" + Output(lines[1..], start))
    ensures Everything(lines, start) == Shown(lines[0], start) + ("\n" + Everything(lines[1..], start))
    ensures LosesText(lines, start) <==> LosesText(lines[1..], start)
  {}

  lemma {:induction false} OutputIsEverything(lines: seq<Line>, start: nat, indented: bool)
    requires Shaped(lines, indented)
    ensures Output(lines, start) == Everything(lines, start) <==> !LosesText(lines, start)
    decreases |lines|
  {
    if |lines| == 1 {
      LastIsEverything(lines[0], start);
    } else {
      OutputIsEverything(lines[1..], start, true);
      FirstOut(lines, start);
      SameTail(Shown(lines[0], start), Output(lines[1..], start), Everything(lines[1..], start));
    }
  }

  /** foldString conserves its input: the lines it puts out hold the text and nothing else but
      breaks and indentation, all of it exactly when the text is not an unbroken one as long as
      the indentation. */
  lemma FoldConservesExactly(input: string, start: nat, fold: nat)
    ensures Unfolded(Layout(input, start, fold)) == input && Shaped(Layout(input, start, fold), false)
    ensures Output(Layout(input, start, fold), start) == Everything(Layout(input, start, fold), start) <==>
            !(input != "" && |input| == start && start < fold && '\n' !in input)
  {
    LayoutConserves(input, start, fold);
    LinesShaped(input, 0, false, FIRST, start, fold);
    OutputIsEverything(Layout(input, start, fold), start, false);
    TextLostExactly(input, start, fold);
  }

  // ----- How wide the lines are, and why they are broken.

  /** No run without spaces and new lines is longer than w. */
  predicate RunsUpTo(input: string, w: nat) {
    forall i | 0 <= i <= |input| :: WordEnd(input, i) - i <= w
  }

  predicate AllWithin(lines: seq<Line>, start: nat, bound: int) {
    forall k | 0 <= k < |lines| :: Width(lines[k], start) <= bound
  }

  function Bound(start: nat, fold: nat, w: nat): int {
    if fold - 1 > start + w + 1 then fold - 1 else start + w + 1
  }

  lemma {:induction false} LinesWithin(input: string, i: nat, led: bool, current: Line, start: nat, fold: nat, w: nat)
    requires i <= |input| && (led ==> i < |input|) && RunsUpTo(input, w)
    requires Width(current, start) <= Bound(start, fold, w)
    ensures AllWithin(Lines(input, i, led, current, start, fold), start, Bound(start, fold, w))
    decreases |input| - i, if led then 0 else 2
  {
    var j := NextEnd(input, i, led);
    var word := input[i..j];
    assert |word| <= w + 1;
    if !(i == j == |input|) {
      var taker := Taker(current, word, start, fold);
      RestWithin(input, j, taker, start, fold, w);
    }
  }

  lemma {:induction false} RestWithin(input: string, j: nat, current: Line, start: nat, fold: nat, w: nat)
    requires j <= |input| && RunsUpTo(input, w)
    requires Width(current, start) <= Bound(start, fold, w)
    ensures AllWithin(Rest(input, j, current, start, fold), start, Bound(start, fold, w))
    decreases |input| - j, 1
  {
    if j < |input| {
      if input[j] == ' ' {
        LinesWithin(input, j, true, current, start, fold, w);
      } else {
        LinesWithin(input, j + 1, false, FRESH, start, fold, w);
      }
    }
  }

  /** The first position from i on that holds a new line, or the end. */
  function LineEnd(s: string, i: nat): (j: nat)
    requires i <= |s|
    ensures i <= j <= |s| && (j < |s| ==> s[j] == '\n') && forall k | i <= k < j :: s[k] != '\n'
    decreases |s| - i
  {
    if i == |s| || s[i] == '\n' then i else LineEnd(s, i + 1)
  }

  /** No line of the text is longer than the bound. */
  predicate LinesUpTo(s: string, bound: int) {
    forall i | 0 <= i <= |s| :: LineEnd(s, i) - i <= bound
  }

  lemma LineEndIs(s: string, i: nat, j: nat)
    requires i <= j <= |s| && (j < |s| ==> s[j] == '\n') && forall k | i <= k < j :: s[k] != '\n'
    ensures LineEnd(s, i) == j
  {
    assert LineEnd(s, i) == j;
  }

  lemma OneMoreLine(shown: string, rest: string, bound: int)
    requires '\n' !in shown && |shown| <= bound && LinesUpTo(rest, bound)
    ensures LinesUpTo(shown + ("\n" + rest), bound)
  {
    var s, n := shown + ("\n" + rest), |shown|;
    forall i | 0 <= i <= |s| ensures LineEnd(s, i) - i <= bound {
      if i <= n {
        LineEndIs(s, i, n);
      } else {
        var e := LineEnd(rest, i - n - 1);
        assert forall k | i <= k < n + 1 + e :: s[k] == rest[k - n - 1];
        LineEndIs(s, i, n + 1 + e);
      }
    }
  }

  lemma OnlyLine(s: string, bound: int)
    requires '\n' !in s && |s| <= bound
    ensures LinesUpTo(s, bound)
  {}

  /** The texts of the lines hold no new lines. */
  predicate AllOneLine(lines: seq<Line>) {
    forall k | 0 <= k < |lines| :: '\n' !in lines[k].text
  }

  lemma {:induction false} LinesOneLine(input: string, i: nat, led: bool, current: Line, start: nat, fold: nat)
    requires i <= |input| && (led ==> i < |input| && input[i] == ' ') && '\n' !in current.text
    ensures AllOneLine(Lines(input, i, led, current, start, fold))
    decreases |input| - i, if led then 0 else 2
  {
    var j := NextEnd(input, i, led);
    if !(i == j == |input|) {
      RestOneLine(input, j, Taker(current, input[i..j], start, fold), start, fold);
    }
  }

  lemma {:induction false} RestOneLine(input: string, j: nat, current: Line, start: nat, fold: nat)
    requires j <= |input| && '\n' !in current.text
    ensures AllOneLine(Rest(input, j, current, start, fold))
    decreases |input| - j, 1
  {
    if j < |input| {
      if input[j] == ' ' {
        LinesOneLine(input, j, true, current, start, fold);
      } else {
        LinesOneLine(input, j + 1, false, FRESH, start, fold);
      }
    }
  }

  lemma {:induction false} OutputWithin(lines: seq<Line>, start: nat, bound: int)
    requires AllWithin(lines, start, bound) && AllOneLine(lines) && bound >= 0
    ensures LinesUpTo(Output(lines, start), bound)
    decreases |lines|
  {
    if lines == [] || lines[0].ending.AtEnd? {
      OnlyLine(Output(lines, start), bound);
    } else {
      OutputWithin(lines[1..], start, bound);
      OneMoreLine(Shown(lines[0], start), Output(lines[1..], start), bound);
    }
  }

  /** Every line put out is narrower than the fold, or holds no more than the indentation, one
      space and one word. */
  lemma LayoutWithin(input: string, start: nat, fold: nat, w: nat)
    requires RunsUpTo(input, w)
    ensures AllWithin(Layout(input, start, fold), start, Bound(start, fold, w))
    ensures LinesUpTo(Output(Layout(input, start, fold), start), Bound(start, fold, w))
  {
    LinesWithin(input, 0, false, FIRST, start, fold, w);
    LinesOneLine(input, 0, false, FIRST, start, fold);
    OutputWithin(Layout(input, start, fold), start, Bound(start, fold, w));
  }

  /** The length of the first word of a line, with the space before it. */
  function FirstWord(text: string): nat {
    if text == "" then 0 else WordEnd(text, if text[0] == ' ' then 1 else 0)
  }

  /** At every break the next word would not have fitted. */
  predicate BreaksNeeded(lines: seq<Line>, start: nat, fold: nat) {
    forall k | 0 <= k < |lines| - 1 ::
      lines[k].ending.AtBreak? ==> Width(lines[k], start) + FirstWord(lines[k + 1].text) >= fold
  }

  lemma FirstWordCovers(text: string, n: nat)
    requires n <= |text| && forall k | 1 <= k < n :: text[k] != ' ' && text[k] != '\n'
    requires n > 0 ==> text[0] != '\n'
    ensures FirstWord(text) >= n
  {}

  lemma BreakNeeded(current: Line, word: string, rest: seq<Line>, start: nat, fold: nat)
    requires Overflows(current, word, start, fold) && rest != [] && BreaksNeeded(rest, start, fold)
    requires word <= rest[0].text && FirstWord(rest[0].text) >= |word|
    ensures BreaksNeeded([current.(ending := AtBreak)] + rest, start, fold)
  {}

  lemma {:induction false} LinesBreak(input: string, i: nat, led: bool, current: Line, start: nat, fold: nat)
    requires i <= |input| && (led ==> i < |input| && input[i] == ' ') && current.ending.AtEnd?
    ensures BreaksNeeded(Lines(input, i, led, current, start, fold), start, fold)
    decreases |input| - i, if led then 0 else 2
  {
    var j := NextEnd(input, i, led);
    var word := input[i..j];
    if !(i == j == |input|) {
      var taker := Taker(current, word, start, fold);
      var rest := Rest(input, j, taker, start, fold);
      RestBreak(input, j, taker, start, fold);
      RestShaped(input, j, taker, start, fold);
      if Overflows(current, word, start, fold) {
        assert forall k | 0 <= k < |word| :: rest[0].text[k] == input[i + k];
        FirstWordCovers(rest[0].text, |word|);
        BreakNeeded(current, word, rest, start, fold);
      }
    }
  }

  lemma {:induction false} RestBreak(input: string, j: nat, current: Line, start: nat, fold: nat)
    requires j <= |input| && current.ending.AtEnd?
    requires j < |input| ==> input[j] == ' ' || input[j] == '\n'
    ensures BreaksNeeded(Rest(input, j, current, start, fold), start, fold)
    decreases |input| - j, 1
  {
    if j < |input| {
      if input[j] == ' ' {
        LinesBreak(input, j, true, current, start, fold);
      } else {
        LinesBreak(input, j + 1, false, FRESH, start, fold);
      }
    }
  }

  /** A line is broken only where the next word would make it as wide as the fold or wider. */
  lemma LayoutBreaksWhereNeeded(input: string, start: nat, fold: nat)
    ensures BreaksNeeded(Layout(input, start, fold), start, fold)
  {
    LinesBreak(input, 0, false, FIRST, start, fold);
  }
}
