/** What word wrapping promises: lines that fit, no text lost, and as few lines as possible. */
module WrapLaws {
  import opened Sequences
  import opened Wrapping

  /** Every item fits on a line by itself. */
  ghost predicate Placeable(items: seq<Item>, width: nat) {
    forall i :: 0 <= i < |items| ==> 0 < |items[i].text| <= width
  }

  /** Words joined by single spaces, or a single item alone; never wider than `width`. */
  ghost predicate LegalLine(line: seq<Item>, width: nat) {
    && line != []
    && |Render(line)| <= width
    && (|line| > 1 ==> forall i :: 0 <= i < |line| ==> line[i].Word?)
  }

  /** Any way of setting `items`, in order, on legal lines. */
  ghost predicate Layout(lines: seq<seq<Item>>, items: seq<Item>, width: nat) {
    Concat(lines) == items && forall i :: 0 <= i < |lines| ==> LegalLine(lines[i], width)
  }

  /** How much of a line is taken; nothing can follow a piece of an over-long word. */
  function Used(line: seq<Item>, width: nat): nat
    requires line != []
  {
    if Last(line).Chunk? then width else |Render(line)|
  }

  lemma {:induction false} ItemsPlaceable(words: seq<string>, width: nat)
    requires width > 0 && forall i :: 0 <= i < |words| ==> words[i] != ""
    ensures Placeable(ItemsOf(words, width), width)
    ensures words != [] ==> ItemsOf(words, width) != []
  {
    if words != [] {
      ItemsPlaceable(words[..|words| - 1], width);
      ChunksExact(Last(words), width);
    }
  }

  lemma LineSnoc(line: seq<Item>, x: Item, width: nat)
    requires LegalLine(line, width) && Appendable(line, x, width)
    ensures LegalLine(line + [x], width)
    ensures Used(line + [x], width) == Used(line, width) + 1 + |x.text|
  {
    RenderSnoc(line, x);
  }

  lemma SingleLine(x: Item, width: nat)
    requires 0 < |x.text| <= width
    ensures LegalLine([x], width)
    ensures Used([x], width) == if x.Chunk? then width else |x.text|
  {
    TextsSnoc([], x);
  }

  lemma ConcatLast<T>(lines: seq<seq<T>>, x: T)
    requires lines != []
    ensures Concat(Init(lines) + [Last(lines) + [x]]) == Concat(lines) + [x]
  {
    ConcatSnoc(Init(lines), Last(lines) + [x]);
    assert Concat(lines) == Concat(Init(lines)) + Last(lines);
  }

  lemma LayoutAddLine(lines: seq<seq<Item>>, items: seq<Item>, width: nat, x: Item)
    requires Layout(lines, items, width) && LegalLine([x], width)
    ensures Layout(lines + [[x]], items + [x], width)
  {
    ConcatSnoc(lines, [x]);
  }

  lemma LayoutGrowLine(lines: seq<seq<Item>>, items: seq<Item>, width: nat, x: Item)
    requires lines != [] && Layout(lines, items, width) && LegalLine(Last(lines) + [x], width)
    ensures Layout(Init(lines) + [Last(lines) + [x]], items + [x], width)
  {
    ConcatLast(lines, x);
  }

  lemma LastIsLegal(lines: seq<seq<Item>>, items: seq<Item>, width: nat)
    requires Layout(lines, items, width)
    ensures items != [] ==> lines != []
    ensures lines != [] ==> items != [] && LegalLine(Last(lines), width) && Last(Last(lines)) == Last(items)
  {
    if lines != [] {
      assert LegalLine(lines[|lines| - 1], width);
      assert Concat(lines) == Concat(Init(lines)) + Last(lines);
    }
  }

  lemma {:induction false} GreedyIsLayout(items: seq<Item>, width: nat)
    requires Placeable(items, width)
    ensures Layout(Greedy(items, width), items, width)
  {
    if items != [] {
      var init, x := items[..|items| - 1], items[|items| - 1];
      assert items == init + [x];
      GreedyIsLayout(init, width);
      PlaceOne(Greedy(init, width), init, width, x);
      GreedySnoc(init, x, width);
    }
  }

  lemma PlaceOne(lines: seq<seq<Item>>, items: seq<Item>, width: nat, x: Item)
    requires Layout(lines, items, width) && 0 < |x.text| <= width
    ensures if lines != [] && Appendable(Last(lines), x, width)
            then Layout(Init(lines) + [Last(lines) + [x]], items + [x], width)
            else Layout(lines + [[x]], items + [x], width)
  {
    LastIsLegal(lines, items, width);
    if lines != [] && Appendable(Last(lines), x, width) {
      LineSnoc(Last(lines), x, width);
      LayoutGrowLine(lines, items, width, x);
    } else {
      SingleLine(x, width);
      LayoutAddLine(lines, items, width, x);
    }
  }

  /**
    How far a layout has got: its number of lines, and how much of the last one is taken.
    Before the first line the (absent) current one counts as full.
   */
  function Reach(lines: seq<seq<Item>>, width: nat): (nat, nat) {
    if lines == [] || Last(lines) == [] then (|lines|, width) else (|lines|, Used(Last(lines), width))
  }

  /** Fewer lines, or equally many with no more of the last one taken. */
  predicate NoFurther(a: (nat, nat), b: (nat, nat)) {
    a.0 < b.0 || (a.0 == b.0 && a.1 <= b.1)
  }

  /** Greedy placement of one item, in terms of how far it gets. */
  function Advance(at: (nat, nat), x: Item, width: nat): (nat, nat) {
    if x.Word? && at.1 + 1 + |x.text| <= width then (at.0, at.1 + 1 + |x.text|)
    else (at.0 + 1, if x.Chunk? then width else |x.text|)
  }

  lemma NewLineReach(lines: seq<seq<Item>>, x: Item, width: nat)
    requires 0 < |x.text| <= width
    ensures Reach(lines + [[x]], width) == (|lines| + 1, if x.Chunk? then width else |x.text|)
  {
    SingleLine(x, width);
  }

  lemma GrownLineReach(lines: seq<seq<Item>>, x: Item, width: nat)
    requires lines != [] && LegalLine(Last(lines), width) && Appendable(Last(lines), x, width)
    ensures Reach(Init(lines) + [Last(lines) + [x]], width)
         == (|lines|, |Render(Last(lines))| + 1 + |x.text|)
  {
    LineSnoc(Last(lines), x, width);
  }

  lemma PlacingAdvances(lines: seq<seq<Item>>, items: seq<Item>, x: Item, width: nat)
    requires Layout(lines, items, width) && 0 < |x.text| <= width
    ensures var placed :=
        if lines != [] && Appendable(Last(lines), x, width) then Init(lines) + [Last(lines) + [x]] else lines + [[x]];
      Reach(placed, width) == Advance(Reach(lines, width), x, width)
  {
    LastIsLegal(lines, items, width);
    if lines != [] && Appendable(Last(lines), x, width) {
      GrownLineReach(lines, x, width);
    } else {
      NewLineReach(lines, x, width);
    }
  }

  lemma GreedyAdvances(items: seq<Item>, x: Item, width: nat)
    requires Placeable(items, width) && 0 < |x.text| <= width
    ensures Reach(Greedy(items + [x], width), width) == Advance(Reach(Greedy(items, width), width), x, width)
  {
    GreedyIsLayout(items, width);
    GreedySnoc(items, x, width);
    PlacingAdvances(Greedy(items, width), items, x, width);
  }

  /** Whatever a layout does with its last item, it was somewhere from which greedy would be no further now. */
  lemma LayoutRetreat(lines: seq<seq<Item>>, items: seq<Item>, width: nat) returns (before: seq<seq<Item>>)
    requires items != [] && Placeable(items, width) && Layout(lines, items, width)
    ensures Layout(before, Init(items), width)
    ensures NoFurther(Advance(Reach(before, width), Last(items), width), Reach(lines, width))
  {
    LastIsLegal(lines, items, width);
    var line, x := Last(lines), Last(items);
    SingleLine(x, width);
    if |line| == 1 {
      before := Init(lines);
      assert line == [x];
      DropLine(lines, items, width);
    } else {
      before := Init(lines) + [Init(line)];
      ShortenLast(lines, items, width);
    }
  }

  lemma DropLine(lines: seq<seq<Item>>, items: seq<Item>, width: nat)
    requires lines != [] && items != [] && Layout(lines, items, width) && Last(lines) == [Last(items)]
    ensures Layout(Init(lines), Init(items), width)
  {
    assert Concat(lines) == Concat(Init(lines)) + [Last(items)];
  }

  /** Taking the last item off a line of several leaves a layout whose last line has room for it. */
  lemma ShortenLast(lines: seq<seq<Item>>, items: seq<Item>, width: nat)
    requires items != [] && lines != [] && Layout(lines, items, width) && |Last(lines)| > 1
    ensures Layout(Init(lines) + [Init(Last(lines))], Init(items), width)
    ensures Init(items) != [] && Last(items).Word?
    ensures var line := Init(Last(lines));
      line != [] && Last(line).Word? && Used(Last(lines), width) == Used(line, width) + 1 + |Last(items).text|
  {
    var line := Last(lines);
    assert LegalLine(lines[|lines| - 1], width);
    var rest, x := Init(line), Last(line);
    assert line == rest + [x];
    RenderSnoc(rest, x);
    assert Concat(lines) == Concat(Init(lines)) + line;
    assert items == (Concat(Init(lines)) + rest) + [x];
    ConcatSnoc(Init(lines), rest);
    assert LegalLine(rest, width);
  }

  lemma AdvanceMonotone(a: (nat, nat), b: (nat, nat), x: Item, width: nat)
    requires NoFurther(a, b) && |x.text| <= width
    ensures NoFurther(Advance(a, x, width), Advance(b, x, width))
  {
  }

  /** Greedy placement is never further than any other layout of the same items. */
  lemma {:induction false} GreedyLeads(items: seq<Item>, width: nat, lines: seq<seq<Item>>)
    requires Placeable(items, width) && Layout(lines, items, width)
    ensures NoFurther(Reach(Greedy(items, width), width), Reach(lines, width))
    decreases |items|
  {
    if items == [] {
      LastIsLegal(lines, items, width);
    } else {
      var init, x := items[..|items| - 1], items[|items| - 1];
      assert items == init + [x];
      var before := LayoutRetreat(lines, items, width);
      GreedyLeads(init, width, before);
      AdvanceMonotone(Reach(Greedy(init, width), width), Reach(before, width), x, width);
      GreedyAdvances(init, x, width);
    }
  }

  // ---------- The theorems about wrapCell ----------

  lemma {:induction false} WrapIsGreedy(s: string, width: nat)
    requires 0 < width < |s|
    ensures Placeable(ItemsOf(Fields(s), width), width)
    ensures Fields(s) != [] ==> WrapLines(s, width) == RenderAll(Greedy(ItemsOf(Fields(s), width), width))
    ensures Fields(s) != [] ==> Layout(Greedy(ItemsOf(Fields(s), width), width), ItemsOf(Fields(s), width), width)
    ensures Fields(s) == [] ==> WrapLines(s, width) == [""]
  {
    FieldsAreWords(s);
    ItemsPlaceable(Fields(s), width);
    GreedyIsLayout(ItemsOf(Fields(s), width), width);
  }

  /** No line is wider than the column. */
  lemma WrapFits(s: string, width: nat)
    requires width > 0
    ensures WrapLines(s, width) != []
    ensures forall i :: 0 <= i < |WrapLines(s, width)| ==> |WrapLines(s, width)[i]| <= width
  {
    if |s| > width {
      WrapIsGreedy(s, width);
      var lines := Greedy(ItemsOf(Fields(s), width), width);
      if Fields(s) != [] {
        forall i | 0 <= i < |lines|
          ensures |Render(lines[i])| <= width
        {
          assert LegalLine(lines[i], width);
        }
      }
    }
  }

  /**
    The comment's promise of lines no wider than the width is kept exactly for positive widths
    and for nothing in no room.
   */
  lemma {:induction false} WrapFitsExactly(s: string, width: int)
    ensures (forall i :: 0 <= i < |WrapLines(s, width)| ==> |WrapLines(s, width)[i]| <= width)
       <==> width > 0 || (width == 0 && s == "")
  {
    if width > 0 {
      WrapFits(s, width);
    } else {
      assert WrapLines(s, width)[0] == s;
    }
  }

  /** No layout of the same words and pieces needs fewer lines. */
  lemma {:induction false} WrapOptimal(s: string, width: nat, lines: seq<seq<Item>>)
    requires width > 0 && Fields(s) != []
    requires Layout(lines, ItemsOf(Fields(s), width), width)
    ensures |WrapLines(s, width)| <= |lines|
  {
    FieldsAreWords(s);
    ItemsPlaceable(Fields(s), width);
    if |s| <= width {
      assert lines != [];
    } else {
      WrapIsGreedy(s, width);
      GreedyLeads(ItemsOf(Fields(s), width), width, lines);
    }
  }

  /** A split of `words` into non-empty runs whose single-spaced lines fit the width. */
  ghost predicate Split(runs: seq<seq<string>>, words: seq<string>, width: nat) {
    Concat(runs) == words && forall i :: 0 <= i < |runs| ==> runs[i] != [] && |Join(runs[i])| <= width
  }

  ghost predicate AllShort(words: seq<string>, width: nat) {
    forall i :: 0 <= i < |words| ==> |words[i]| <= width
  }

  function AsWords(words: seq<string>): (r: seq<Item>)
    ensures |r| == |words|
    ensures forall i {:trigger r[i]} :: 0 <= i < |words| ==> r[i] == Word(words[i])
  {
    if words == [] then [] else AsWords(words[..|words| - 1]) + [Word(words[|words| - 1])]
  }

  function AllAsWords(runs: seq<seq<string>>): (r: seq<seq<Item>>)
    ensures |r| == |runs|
    ensures forall i {:trigger r[i]} :: 0 <= i < |runs| ==> r[i] == AsWords(runs[i])
  {
    if runs == [] then [] else AllAsWords(runs[..|runs| - 1]) + [AsWords(runs[|runs| - 1])]
  }

  function AllTexts(lines: seq<seq<Item>>): (r: seq<seq<string>>)
    ensures |r| == |lines|
    ensures forall i {:trigger r[i]} :: 0 <= i < |lines| ==> r[i] == Texts(lines[i])
  {
    if lines == [] then [] else AllTexts(lines[..|lines| - 1]) + [Texts(lines[|lines| - 1])]
  }

  /** Every line split into its words. */
  function AllFields(lines: seq<string>): (r: seq<seq<string>>)
    ensures |r| == |lines|
  {
    if lines == [] then [] else AllFields(lines[..|lines| - 1]) + [Fields(lines[|lines| - 1])]
  }

  lemma AllFieldsSnoc(lines: seq<string>, line: string)
    ensures AllFields(lines + [line]) == AllFields(lines) + [Fields(line)]
  {
    assert (lines + [line])[..|lines|] == lines;
  }

  lemma AsWordsAppend(a: seq<string>, b: seq<string>)
    ensures AsWords(a + b) == AsWords(a) + AsWords(b)
  {
  }

  lemma TextsAppend(a: seq<Item>, b: seq<Item>)
    ensures Texts(a + b) == Texts(a) + Texts(b)
  {
  }

  lemma {:induction false} ShortItems(words: seq<string>, width: nat)
    requires width > 0 && AllShort(words, width)
    ensures ItemsOf(words, width) == AsWords(words)
  {
    if words != [] {
      ShortItems(Init(words), width);
      assert words == Init(words) + [Last(words)];
    }
  }

  lemma {:induction false} ConcatAsWords(runs: seq<seq<string>>)
    ensures Concat(AllAsWords(runs)) == AsWords(Concat(runs))
  {
    if runs != [] {
      var init, run := runs[..|runs| - 1], runs[|runs| - 1];
      ConcatAsWords(init);
      ConcatSnoc(AllAsWords(init), AsWords(run));
      AsWordsAppend(Concat(init), run);
    }
  }

  /** With every word short enough, no split of the words into lines beats `wrapCell`, and one equals it. */
  lemma WrapMinimizesLines(s: string, width: nat)
    requires width > 0 && Fields(s) != [] && AllShort(Fields(s), width)
    ensures forall runs :: Split(runs, Fields(s), width) ==> |WrapLines(s, width)| <= |runs|
    ensures exists runs :: Split(runs, Fields(s), width) && |runs| == |WrapLines(s, width)|
  {
    forall runs | Split(runs, Fields(s), width)
      ensures |WrapLines(s, width)| <= |runs|
    {
      NoSplitIsShorter(s, width, runs);
    }
    var runs := WrapAsSplit(s, width);
  }

  lemma {:induction false} NoSplitIsShorter(s: string, width: nat, runs: seq<seq<string>>)
    requires width > 0 && Fields(s) != [] && AllShort(Fields(s), width)
    requires Split(runs, Fields(s), width)
    ensures |WrapLines(s, width)| <= |runs|
  {
    ShortItems(Fields(s), width);
    SplitIsLayout(runs, Fields(s), width);
    WrapOptimal(s, width, AllAsWords(runs));
  }

  lemma WrapAsSplit(s: string, width: nat) returns (runs: seq<seq<string>>)
    requires width > 0 && Fields(s) != [] && AllShort(Fields(s), width)
    ensures Split(runs, Fields(s), width) && |runs| == |WrapLines(s, width)|
  {
    if |s| <= width {
      JoinedFieldsFit(s);
      ConcatOne(Fields(s));
      runs := [Fields(s)];
    } else {
      ShortItems(Fields(s), width);
      WrapIsGreedy(s, width);
      LayoutIsSplit(Greedy(AsWords(Fields(s)), width), Fields(s), width);
      runs := AllTexts(Greedy(AsWords(Fields(s)), width));
    }
  }

  lemma SplitIsLayout(runs: seq<seq<string>>, words: seq<string>, width: nat)
    requires Split(runs, words, width)
    ensures Layout(AllAsWords(runs), AsWords(words), width)
  {
    ConcatAsWords(runs);
    forall i | 0 <= i < |runs|
      ensures LegalLine(AsWords(runs[i]), width)
    {
      RunIsLine(runs[i], width);
    }
  }

  lemma RunIsLine(run: seq<string>, width: nat)
    requires run != [] && |Join(run)| <= width
    ensures LegalLine(AsWords(run), width)
  {
    TextsOfWords(run);
  }

  lemma TextsOfWords(words: seq<string>)
    ensures Texts(AsWords(words)) == words
  {
  }

  lemma LayoutIsSplit(lines: seq<seq<Item>>, words: seq<string>, width: nat)
    requires Layout(lines, AsWords(words), width)
    ensures Split(AllTexts(lines), words, width)
  {
    ConcatTexts(lines);
    TextsOfWords(words);
    forall i | 0 <= i < |lines|
      ensures Texts(lines[i]) != [] && |Join(Texts(lines[i]))| <= width
    {
      assert LegalLine(lines[i], width);
    }
  }

  lemma {:induction false} ConcatTexts(lines: seq<seq<Item>>)
    ensures Concat(AllTexts(lines)) == Texts(Concat(lines))
  {
    if lines != [] {
      var init, line := lines[..|lines| - 1], lines[|lines| - 1];
      ConcatTexts(init);
      ConcatSnoc(AllTexts(init), Texts(line));
      TextsAppend(Concat(init), line);
    }
  }

  /**
    A text for which `wrapCell` takes three lines although two would hold its words and
    pieces: the piece left over from the over-long word does not share its line.
   */
  lemma {:induction false} LeftoverPieceNotShared()
    ensures WrapLines("abcd e", 3) == ["abc", "d", "e"]
    ensures Pieces(Fields("abcd e"), 3) == ["abc", "d", "e"]
    ensures Split([["abc"], ["d", "e"]], ["abc", "d", "e"], 3)
  {
    SampleFields();
    SampleChunks();
    SampleItems(["abc", "d"]);
    SampleRendered(Greedy(ItemsOf(Fields("abcd e"), 3), 3));
    SamplePieces();
    SampleSplit();
  }

  lemma SamplePieces()
    ensures Pieces(["abcd", "e"], 3) == ["abc", "d", "e"]
  {
    SampleChunks();
    PiecesSnoc([], "abcd", 3);
    PiecesSnoc(["abcd"], "e", 3);
    assert [] + ["abcd"] == ["abcd"] && ["abcd"] + ["e"] == ["abcd", "e"];
  }

  lemma SampleSplit()
    ensures Split([["abc"], ["d", "e"]], ["abc", "d", "e"], 3)
  {
    ConcatOne(["abc"]);
    ConcatSnoc([["abc"]], ["d", "e"]);
    assert [["abc"]] + [["d", "e"]] == [["abc"], ["d", "e"]];
    assert ["d", "e"][..1] == ["d"];
  }

  lemma SampleItems(pieces: seq<string>)
    requires Chunks("abcd", 3) == pieces == ["abc", "d"]
    ensures Greedy(ItemsOf(["abcd", "e"], 3), 3) == [[Chunk("abc")], [Chunk("d")], [Word("e")]]
  {
    LaidOut([], "abcd", pieces, 3);
    assert ChunkLines(pieces) == [[Chunk("abc")], [Chunk("d")]] by {
      assert pieces[..1] == ["abc"];
    }
    assert [] + ["abcd"] == ["abcd"] && ["abcd"] + ["e"] == ["abcd", "e"];
    ItemsSnoc(["abcd"], "e", 3);
    GreedySnoc(ItemsOf(["abcd"], 3), Word("e"), 3);
  }

  lemma LaidOut(words: seq<string>, word: string, pieces: seq<string>, width: nat)
    requires 0 < width < |word| && Chunks(word, width) == pieces
    ensures Greedy(ItemsOf(words + [word], width), width) == Greedy(ItemsOf(words, width), width) + ChunkLines(pieces)
  {
    ItemsSnoc(words, word, width);
    GreedyChunks(ItemsOf(words, width), pieces, width);
  }

  lemma SampleFields()
    ensures Fields("abcd e") == ["abcd", "e"]
  {
    WordOf("abcd");
    FieldsSnoc("abcd", "e");
    assert "abcd" + " " + "e" == "abcd e";
  }

  lemma SampleChunks()
    ensures Chunks("abcd", 3) == ["abc", "d"]
  {
    assert "abcd"[..3] == "abc" && "abcd"[3..] == "d";
  }

  lemma SampleRendered(lines: seq<seq<Item>>)
    requires lines == [[Chunk("abc")], [Chunk("d")], [Word("e")]]
    ensures RenderAll(lines) == ["abc", "d", "e"]
  {
    assert Texts(lines[0]) == ["abc"] && Texts(lines[1]) == ["d"] && Texts(lines[2]) == ["e"];
  }

  lemma {:induction false} EndAt(s: string, n: nat)
    requires n <= |s| && (n < |s| ==> IsSpace(s[n]))
    requires forall i :: 0 <= i < n ==> !IsSpace(s[i])
    ensures WordEnd(s) == n
  {
  }

  // ---------- Nothing is lost ----------

  /** The words of the text, with every over-long one replaced by its pieces. */
  function Pieces(words: seq<string>, width: nat): seq<string>
    requires width > 0
  {
    Texts(ItemsOf(words, width))
  }

  lemma WordOf(w: string)
    requires IsWord(w)
    ensures Fields(w) == [w]
  {
    EndAt(w, |w|);
    assert w[..|w|] == w && w[|w|..] == "";
  }

  lemma {:induction false} FieldsSnoc(s: string, w: string)
    requires IsWord(w)
    ensures Fields(s + " " + w) == Fields(s) + [w]
    decreases |s|
  {
    var t := s + " " + w;
    if s == "" {
      assert t == " " + w && t[1..] == w;
      WordOf(w);
    } else if IsSpace(s[0]) {
      assert t[1..] == s[1..] + " " + w;
      FieldsSnoc(s[1..], w);
    } else {
      var n := WordEnd(s);
      assert t[n] == if n < |s| then s[n] else ' ';
      EndAt(t, n);
      assert t[..n] == s[..n] && t[n..] == s[n..] + " " + w;
      FieldsSnoc(s[n..], w);
    }
  }

  ghost predicate AllWords(words: seq<string>) {
    forall i :: 0 <= i < |words| ==> IsWord(words[i])
  }

  lemma JoinSnoc(words: seq<string>, w: string)
    requires words != []
    ensures Join(words + [w]) == Join(words) + " " + w
  {
    assert (words + [w])[..|words|] == words;
  }

  /** Splitting a joined line gives its words back. */
  lemma {:induction false} FieldsOfJoin(words: seq<string>)
    requires AllWords(words)
    ensures Fields(Join(words)) == words
    decreases |words|
  {
    if |words| == 1 {
      WordOf(words[0]);
    } else if |words| > 1 {
      var init, w := words[..|words| - 1], words[|words| - 1];
      assert words == init + [w];
      assert AllWords(init) && IsWord(w);
      FieldsOfJoin(init);
      FieldsSnoc(Join(init), w);
      JoinSnoc(init, w);
    }
  }

  lemma PiecesSnoc(words: seq<string>, w: string, width: nat)
    requires width > 0
    ensures Pieces(words + [w], width)
         == Pieces(words, width) + if |w| <= width then [w] else Chunks(w, width)
  {
    ItemsSnoc(words, w, width);
    TextsAppend(ItemsOf(words, width), WordItems(w, width));
    assert Texts(WordItems(w, width)) == if |w| <= width then [w] else Chunks(w, width);
  }

  lemma {:induction false} PiecesAreWords(words: seq<string>, width: nat)
    requires width > 0 && AllWords(words)
    ensures AllWords(Pieces(words, width))
  {
    if words != [] {
      var init, w := words[..|words| - 1], words[|words| - 1];
      PiecesAreWords(init, width);
      ChunksAreWords(w, width);
      assert words == init + [w];
      PiecesSnoc(init, w, width);
    }
  }

  lemma {:induction false} ChunksAreWords(w: string, width: nat)
    requires width > 0 && (w == "" || IsWord(w))
    ensures AllWords(Chunks(w, width))
    decreases |w|
  {
    if |w| > width {
      ChunksAreWords(w[width..], width);
    }
  }

  /** The lines read back word by word: exactly the words of the text, over-long ones in pieces. */
  lemma {:induction false} WrapKeepsWords(s: string, width: nat)
    requires width > 0
    ensures Concat(AllFields(WrapLines(s, width))) == Pieces(Fields(s), width)
  {
    FieldsAreWords(s);
    if |s| <= width {
      ShortPieces(Fields(s), width);
      OneLineFields(s);
    } else if Fields(s) == [] {
      OneLineFields("");
    } else {
      WrapIsGreedy(s, width);
      PiecesAreWords(Fields(s), width);
      LinesReadBack(Greedy(ItemsOf(Fields(s), width), width));
    }
  }

  lemma OneLineFields(s: string)
    ensures Concat(AllFields([s])) == Fields(s)
  {
    AllFieldsSnoc([], s);
    assert [] + [s] == [s];
    ConcatSnoc([], Fields(s));
  }

  lemma ShortPieces(words: seq<string>, width: nat)
    requires width > 0 && AllShort(words, width)
    ensures Pieces(words, width) == words
  {
    ShortItems(words, width);
    TextsOfWords(words);
  }

  lemma AllWordsAppend(a: seq<string>, b: seq<string>)
    requires AllWords(a + b)
    ensures AllWords(a) && AllWords(b)
  {
    assert forall i :: 0 <= i < |a| ==> a[i] == (a + b)[i];
    assert forall i :: 0 <= i < |b| ==> b[i] == (a + b)[|a| + i];
  }

  lemma {:induction false} LinesReadBack(lines: seq<seq<Item>>)
    requires AllWords(Texts(Concat(lines)))
    ensures Concat(AllFields(RenderAll(lines))) == Texts(Concat(lines))
  {
    if lines != [] {
      var init, line := lines[..|lines| - 1], lines[|lines| - 1];
      TextsAppend(Concat(init), line);
      AllWordsAppend(Texts(Concat(init)), Texts(line));
      LinesReadBack(init);
      FieldsOfJoin(Texts(line));
      AllFieldsSnoc(RenderAll(init), Render(line));
      ConcatSnoc(AllFields(RenderAll(init)), Fields(Render(line)));
    }
  }

  lemma WordSpelled(w: string, width: nat)
    requires width > 0
    ensures Concat(if |w| <= width then [w] else Chunks(w, width)) == w
  {
    ConcatOne(w);
    ChunksSpell(w, width);
  }

  lemma {:induction false} PiecesSpellWords(words: seq<string>, width: nat)
    requires width > 0
    ensures Concat(Pieces(words, width)) == Concat(words)
  {
    if words != [] {
      var init, w := words[..|words| - 1], words[|words| - 1];
      var last := if |w| <= width then [w] else Chunks(w, width);
      WordSpelled(w, width);
      assert words == init + [w];
      PiecesSnoc(init, w, width);
      ConcatAppend(Pieces(init, width), last);
      PiecesSpellWords(init, width);
    }
  }

  /** The fields of a text are its non-space characters, in order. */
  lemma {:induction false} FieldsSpellText(s: string)
    ensures Concat(Fields(s)) == Filter(s, NotSpace)
    decreases |s|
  {
    if s == "" {
    } else if IsSpace(s[0]) {
      FieldsSpellText(s[1..]);
      FilterSplit(s, 1, NotSpace);
      FilterNone(s[..1], NotSpace);
    } else {
      var n := WordEnd(s);
      FieldsSpellText(s[n..]);
      FilterSplit(s, n, NotSpace);
      FilterAll(s[..n], NotSpace);
      ConcatCons(s[..n], Fields(s[n..]));
    }
  }

  lemma {:induction false} ConcatFiltered(lines: seq<string>)
    ensures Filter(Concat(lines), NotSpace) == Concat(Concat(AllFields(lines)))
  {
    if lines != [] {
      var init, line := lines[..|lines| - 1], lines[|lines| - 1];
      ConcatFiltered(init);
      FilterAppend(Concat(init), line, NotSpace);
      FieldsSpellText(line);
      ConcatSnoc(AllFields(init), Fields(line));
      ConcatAppend(Concat(AllFields(init)), Fields(line));
    }
  }

  /** The lines carry the non-space characters of the text, all of them and in order. */
  lemma {:induction false} WrapKeepsText(s: string, width: nat)
    requires width > 0
    ensures Filter(Concat(WrapLines(s, width)), NotSpace) == Filter(s, NotSpace)
  {
    WrapKeepsWords(s, width);
    ConcatFiltered(WrapLines(s, width));
    PiecesSpellWords(Fields(s), width);
    FieldsSpellText(s);
  }

  // ---------- A text that fits, fits with single spaces ----------

  lemma {:induction false} JoinCons(w: string, words: seq<string>)
    ensures Join([w] + words) == if words == [] then w else w + " " + Join(words)
  {
    if words == [] {
      assert [w] + words == [w];
    } else if |words| == 1 {
      assert ([w] + words)[..1] == [w];
    } else {
      JoinCons(w, Init(words));
      assert ([w] + words)[..|words|] == [w] + Init(words);
      assert Last([w] + words) == Last(words);
      assert w + " " + Join(Init(words)) + " " + Last(words) == w + " " + Join(words);
    }
  }

  lemma {:induction false} JoinedFieldsFit(s: string)
    ensures |Join(Fields(s))| <= |s|
    decreases |s|
  {
    if s == "" {
    } else if IsSpace(s[0]) {
      JoinedFieldsFit(s[1..]);
    } else {
      var n := WordEnd(s);
      JoinCons(s[..n], Fields(s[n..]));
      if n < |s| {
        JoinedFieldsFit(s[n..][1..]);
      }
    }
  }
}
