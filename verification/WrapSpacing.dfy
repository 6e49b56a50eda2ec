/** How the words stand on the wrapped lines: single-spaced, each on the first line that has room for it. */
module WrapSpacing {
  import opened Sequences
  import opened Wrapping
  import opened WrapLaws

  /** Spaces only, never at an end, and never two together. */
  ghost predicate SingleSpaced(line: string) {
    forall k {:trigger line[k]} :: 0 <= k < |line| && IsSpace(line[k]) ==>
      line[k] == ' ' && 0 < k < |line| - 1 && !IsSpace(line[k - 1])
  }

  lemma SpacedSnoc(a: string, w: string)
    requires a != "" && SingleSpaced(a) && IsWord(w)
    ensures SingleSpaced(a + " " + w)
  {
    var line := a + " " + w;
    assert forall k :: 0 <= k < |a| ==> line[k] == a[k];
    assert forall k :: |a| < k < |line| ==> line[k] == w[k - |a| - 1];
    assert !IsSpace(a[|a| - 1]);
  }

  lemma {:induction false} JoinIsSpaced(words: seq<string>)
    requires AllWords(words)
    ensures SingleSpaced(Join(words)) && (words != [] ==> Join(words) != "")
  {
    if |words| == 1 {
      assert IsWord(words[0]);
    } else if |words| > 1 {
      JoinIsSpaced(words[..|words| - 1]);
      assert IsWord(words[|words| - 1]);
      SpacedSnoc(Join(words[..|words| - 1]), words[|words| - 1]);
    }
  }

  lemma LineHasWords(lines: seq<seq<Item>>, i: nat)
    requires i < |lines| && AllWords(Texts(Concat(lines)))
    ensures AllWords(Texts(lines[i]))
  {
    ConcatTexts(lines);
    forall k | 0 <= k < |lines[i]|
      ensures IsWord(Texts(lines[i])[k])
    {
      var w := Texts(lines[i])[k];
      ConcatMembers(AllTexts(lines), w);
      assert w in AllTexts(lines)[i];
      var j :| 0 <= j < |Concat(AllTexts(lines))| && Concat(AllTexts(lines))[j] == w;
    }
  }

  /** A text that is wrapped at all comes out single-spaced, whatever it was spaced by. */
  lemma {:induction false} LinesAreSingleSpaced(s: string, width: nat, i: nat)
    requires 0 < width < |s| && i < |WrapLines(s, width)|
    ensures SingleSpaced(WrapLines(s, width)[i])
  {
    WrapIsGreedy(s, width);
    if Fields(s) != [] {
      FieldsAreWords(s);
      PiecesAreWords(Fields(s), width);
      var lines := Greedy(ItemsOf(Fields(s), width), width);
      LineHasWords(lines, i);
      JoinIsSpaced(Texts(lines[i]));
    }
  }

  /** What starts a line did not fit on the line before. */
  ghost predicate Tight(lines: seq<seq<Item>>, width: nat) {
    && (forall i {:trigger lines[i]} :: 0 <= i < |lines| ==> lines[i] != [])
    && forall i, j {:trigger lines[i], lines[j]} :: 0 <= i && j == i + 1 < |lines| ==>
         !Appendable(lines[i], lines[j][0], width)
  }

  lemma GrownIsTight(lines: seq<seq<Item>>, x: Item, width: nat)
    requires lines != [] && Tight(lines, width)
    ensures Tight(Init(lines) + [Last(lines) + [x]], width)
  {
    hide Appendable;
    var grown := Init(lines) + [Last(lines) + [x]];
    assert lines[|lines| - 1] != [];
    assert forall i {:trigger grown[i]} :: 0 <= i < |grown| ==> grown[i] != [] && grown[i][0] == lines[i][0];
    assert forall i {:trigger grown[i]} :: 0 <= i < |grown| - 1 ==> grown[i] == lines[i];
  }

  lemma NewLineIsTight(lines: seq<seq<Item>>, x: Item, width: nat)
    requires Tight(lines, width) && (lines != [] ==> !Appendable(Last(lines), x, width))
    ensures Tight(lines + [[x]], width)
  {
    hide Appendable;
  }

  lemma {:induction false} GreedyIsTight(items: seq<Item>, width: nat)
    ensures Tight(Greedy(items, width), width)
  {
    hide Appendable, Tight;
    if items == [] {
      NothingIsTight(width);
    } else {
      var lines, x := Greedy(Init(items), width), Last(items);
      GreedyIsTight(Init(items), width);
      if lines != [] && Appendable(Last(lines), x, width) {
        GrownIsTight(lines, x, width);
      } else {
        NewLineIsTight(lines, x, width);
      }
    }
  }

  lemma NothingIsTight(width: nat)
    ensures Tight([], width)
  {
  }

  lemma ItemsAreWords(lines: seq<seq<Item>>, words: seq<string>, width: nat, i: nat)
    requires Layout(lines, AsWords(words), width) && i < |lines|
    ensures forall k {:trigger lines[i][k]} :: 0 <= k < |lines[i]| ==> lines[i][k].Word?
  {
    forall k | 0 <= k < |lines[i]|
      ensures lines[i][k].Word?
    {
      ConcatMembers(lines, lines[i][k]);
      assert lines[i][k] in AsWords(words);
    }
  }

  lemma TightLines(lines: seq<seq<Item>>, words: seq<string>, width: nat, i: nat)
    requires Layout(lines, AsWords(words), width) && AllWords(words) && Tight(lines, width) && i + 1 < |lines|
    ensures var next := Fields(Render(lines[i + 1]));
      next != [] && width < |Render(lines[i])| + 1 + |next[0]|
  {
    hide Render, Fields, Layout, AllWords;
    TextsOfWords(words);
    LayoutIsAll(lines, words, width);
    LineHasWords(lines, i + 1);
    RenderedFields(lines[i + 1]);
    ItemsAreWords(lines, words, width, i);
    ItemsAreWords(lines, words, width, i + 1);
    assert !Appendable(lines[i], lines[i + 1][0], width);
  }

  lemma LayoutIsAll(lines: seq<seq<Item>>, words: seq<string>, width: nat)
    requires Layout(lines, AsWords(words), width)
    ensures Concat(lines) == AsWords(words)
  {
  }

  lemma RenderedFields(line: seq<Item>)
    requires AllWords(Texts(line))
    ensures Fields(Render(line)) == Texts(line)
  {
    FieldsOfJoin(Texts(line));
  }

  /**
    With every word short enough, a word starts a line only if the line before has no room
    for it and the space before it: no line could take the next line's first word.
   */
  lemma {:induction false} FirstFit(s: string, width: nat, i: nat)
    requires 0 < width < |s| && AllShort(Fields(s), width) && i + 1 < |WrapLines(s, width)|
    ensures var lines := WrapLines(s, width);
      Fields(lines[i + 1]) != [] && width < |lines[i]| + 1 + |Fields(lines[i + 1])[0]|
  {
    hide Greedy, Fields, Layout, Tight, Render, AllShort;
    WrapIsGreedy(s, width);
    FieldsAreWords(s);
    ShortItems(Fields(s), width);
    GreedyIsTight(AsWords(Fields(s)), width);
    TightLines(Greedy(AsWords(Fields(s)), width), Fields(s), width, i);
  }
}
