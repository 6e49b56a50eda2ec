/**
  How many lines `wrapCell` uses beyond the fewest possible. A piece left over from an
  over-long word never shares its line with the words after it; this file says exactly
  when that costs a line.
 */
module WrapExcess {
  import opened Sequences
  import opened Wrapping
  import opened WrapLaws

  /** Placing `n` characters where they still fit behind a space, otherwise on a new line. */
  function Put(at: (nat, nat), n: nat, width: nat): (nat, nat) {
    if at.1 + 1 + n <= width then (at.0, at.1 + 1 + n) else (at.0 + 1, n)
  }

  /** Placing items with no regard to which of them are pieces. */
  function FreeRun(at: (nat, nat), items: seq<Item>, width: nat): (nat, nat) {
    if items == [] then at else Put(FreeRun(at, items[..|items| - 1], width), |items[|items| - 1].text|, width)
  }

  /** Placing items as `wrapCell` does. */
  function StrictRun(items: seq<Item>, width: nat): (nat, nat) {
    if items == [] then (0, width) else Advance(StrictRun(items[..|items| - 1], width), items[|items| - 1], width)
  }

  /** A piece that takes `taken` characters of its line, and the words up to the next piece. */
  datatype Segment = Segment(taken: nat, words: seq<Item>)

  function Segments(items: seq<Item>): seq<Segment> {
    if items == [] then []
    else
      var segs, x := Segments(items[..|items| - 1]), items[|items| - 1];
      if x.Chunk? then segs + [Segment(|x.text|, [])]
      else if segs == [] then []
      else segs[..|segs| - 1] + [Segment(segs[|segs| - 1].taken, segs[|segs| - 1].words + [x])]
  }

  /** How many lines the words start when the current line is taken up to `taken`. */
  function LinesStarted(taken: nat, words: seq<Item>, width: nat): nat {
    FreeRun((0, taken), words, width).0
  }

  /** Going on behind the piece starts fewer lines than going on below it. */
  predicate Saves(seg: Segment, width: nat) {
    LinesStarted(seg.taken, seg.words, width) < LinesStarted(width, seg.words, width)
  }

  function Waste(segs: seq<Segment>, width: nat): nat {
    if segs == [] then 0
    else Waste(segs[..|segs| - 1], width) + if Saves(segs[|segs| - 1], width) then 1 else 0
  }

  lemma {:induction false} RunsKeepOrder(a: (nat, nat), b: (nat, nat), items: seq<Item>, width: nat)
    requires NoFurther(a, b) && forall i {:trigger items[i]} :: 0 <= i < |items| ==> |items[i].text| <= width
    ensures NoFurther(FreeRun(a, items, width), FreeRun(b, items, width))
  {
    if items != [] {
      RunsKeepOrder(a, b, items[..|items| - 1], width);
    }
  }

  lemma {:induction false} RunShifts(n: nat, at: (nat, nat), items: seq<Item>, width: nat)
    ensures FreeRun((n + at.0, at.1), items, width)
         == (n + FreeRun(at, items, width).0, FreeRun(at, items, width).1)
  {
    if items != [] {
      RunShifts(n, at, items[..|items| - 1], width);
    }
  }

  /** A segment costs one line if sharing would save any, and none otherwise. */
  lemma SavesAtMostOne(seg: Segment, width: nat)
    requires SegmentFits(seg, width)
    ensures LinesStarted(width, seg.words, width)
         == LinesStarted(seg.taken, seg.words, width) + if Saves(seg, width) then 1 else 0
  {
    RunsKeepOrder((0, seg.taken), (0, width), seg.words, width);
    RunsKeepOrder((0, width), (1, seg.taken), seg.words, width);
    RunShifts(1, (0, seg.taken), seg.words, width);
  }

  /** Every piece is as wide as a line, or follows one that is. */
  ghost predicate WellCut(items: seq<Item>, width: nat) {
    forall i {:trigger items[i]} :: 0 <= i < |items| && items[i].Chunk? ==>
      |items[i].text| == width || (i > 0 && |items[i - 1].text| == width)
  }

  lemma WellCutInit(items: seq<Item>, width: nat)
    requires WellCut(items, width) && items != []
    ensures WellCut(items[..|items| - 1], width)
    ensures Placeable(items, width) ==> Placeable(items[..|items| - 1], width)
  {
    var init := items[..|items| - 1];
    assert forall i {:trigger init[i]} :: 0 <= i < |init| ==> init[i] == items[i];
    assert forall i {:trigger init[i]} :: 0 < i < |init| ==> init[i - 1] == items[i - 1];
  }

  lemma FullLine(items: seq<Item>, width: nat)
    requires items == [] || |items[|items| - 1].text| == width
    ensures FreeRun((0, width), items, width).1 == width
  {
  }

  /**
    Where the two ways of placing have got, seen from the last piece on: `a` and `b` lines
    before its words, and then the same words from different starting points.
   */
  ghost predicate Compared(segs: seq<Segment>, strict: (nat, nat), free: (nat, nat), width: nat, a: nat, b: nat) {
    if segs == [] then strict == free
    else
      var seg := segs[|segs| - 1];
      var below, behind := FreeRun((0, width), seg.words, width), FreeRun((0, seg.taken), seg.words, width);
      && strict == (a + below.0, below.1)
      && free == (b + behind.0, behind.1)
      && a == b + Waste(segs[..|segs| - 1], width)
  }

  lemma WordsRunOn(at: (nat, nat), words: seq<Item>, x: Item, width: nat)
    ensures FreeRun(at, words + [x], width) == Put(FreeRun(at, words, width), |x.text|, width)
  {
    assert (words + [x])[..|words|] == words;
  }

  lemma StrictRunOn(items: seq<Item>, x: Item, width: nat)
    ensures StrictRun(items + [x], width) == Advance(StrictRun(items, width), x, width)
  {
    assert (items + [x])[..|items|] == items;
  }

  lemma SegmentsSnoc(items: seq<Item>, x: Item)
    ensures Segments(items + [x]) ==
      if x.Chunk? then Segments(items) + [Segment(|x.text|, [])]
      else if Segments(items) == [] then [] else Longer(Segments(items), x)
  {
    assert (items + [x])[..|items|] == items;
  }

  /** A word more in the last segment. */
  function Longer(segs: seq<Segment>, x: Item): (r: seq<Segment>)
    requires segs != []
    ensures |r| == |segs| && r[..|r| - 1] == segs[..|segs| - 1]
    ensures r[|r| - 1] == Segment(segs[|segs| - 1].taken, segs[|segs| - 1].words + [x])
  {
    segs[..|segs| - 1] + [Segment(segs[|segs| - 1].taken, segs[|segs| - 1].words + [x])]
  }

  lemma CompareWord(segs: seq<Segment>, strict: (nat, nat), free: (nat, nat), x: Item, width: nat, a: nat, b: nat)
    requires Compared(segs, strict, free, width, a, b)
    ensures Compared(if segs == [] then [] else Longer(segs, x),
              Put(strict, |x.text|, width), Put(free, |x.text|, width), width, a, b)
  {
    hide FreeRun, Waste, Longer;
    if segs != [] {
      var seg := segs[|segs| - 1];
      WordsRunOn((0, width), seg.words, x, width);
      WordsRunOn((0, seg.taken), seg.words, x, width);
    }
  }

  lemma WasteSnoc(segs: seq<Segment>, width: nat)
    requires segs != []
    ensures Waste(segs, width) == Waste(segs[..|segs| - 1], width) + if Saves(segs[|segs| - 1], width) then 1 else 0
  {
  }

  ghost predicate SegmentFits(seg: Segment, width: nat) {
    seg.taken <= width && forall i {:trigger seg.words[i]} :: 0 <= i < |seg.words| ==> |seg.words[i].text| <= width
  }

  lemma ComparedTotal(segs: seq<Segment>, strict: (nat, nat), free: (nat, nat), width: nat, a: nat, b: nat)
    requires Compared(segs, strict, free, width, a, b)
    requires segs != [] ==> SegmentFits(segs[|segs| - 1], width)
    ensures strict.0 == free.0 + Waste(segs, width)
  {
    hide FreeRun, Saves;
    if segs != [] {
      hide Waste;
      WasteSnoc(segs, width);
      SavesAtMostOne(segs[|segs| - 1], width);
      StartedIs(segs[|segs| - 1], width);
    }
  }

  lemma StartedIs(seg: Segment, width: nat)
    ensures LinesStarted(width, seg.words, width) == FreeRun((0, width), seg.words, width).0
    ensures LinesStarted(seg.taken, seg.words, width) == FreeRun((0, seg.taken), seg.words, width).0
  {
  }

  /** A piece starts a line either way, and a new segment. */
  lemma CompareChunk(segs: seq<Segment>, strict: (nat, nat), free: (nat, nat), n: nat, width: nat)
    requires strict.0 == free.0 + Waste(segs, width)
    ensures Compared(segs + [Segment(n, [])], (strict.0 + 1, width), (free.0 + 1, n), width, strict.0 + 1, free.0 + 1)
  {
    hide Waste;
    var all := segs + [Segment(n, [])];
    assert all[..|all| - 1] == segs;
  }

  lemma {:induction false} LastSegmentFits(items: seq<Item>, width: nat)
    requires Placeable(items, width)
    ensures Segments(items) != [] ==> SegmentFits(Segments(items)[|Segments(items)| - 1], width)
  {
    if items != [] {
      var init, x := items[..|items| - 1], items[|items| - 1];
      assert forall i :: 0 <= i < |init| ==> init[i] == items[i];
      LastSegmentFits(init, width);
      InitLast(items);
      SegmentsSnoc(init, x);
    }
  }

  lemma ChunkStartsLine(init: seq<Item>, x: Item, width: nat)
    requires WellCut(init + [x], width) && x.Chunk? && 0 < |x.text| <= width
    ensures Put(FreeRun((0, width), init, width), |x.text|, width) == (FreeRun((0, width), init, width).0 + 1, |x.text|)
  {
    assert (init + [x])[|init|] == x;
    if |x.text| != width {
      FullLine(init, width);
    }
  }

  lemma {:induction false} CompareStep(init: seq<Item>, x: Item, width: nat, a: nat, b: nat) returns (a': nat, b': nat)
    requires Placeable(init, width) && 0 < |x.text| <= width && WellCut(init + [x], width)
    requires Compared(Segments(init), StrictRun(init, width), FreeRun((0, width), init, width), width, a, b)
    ensures Compared(Segments(init + [x]), StrictRun(init + [x], width), FreeRun((0, width), init + [x], width),
      width, a', b')
  {
    hide Compared, SegmentFits, Segments, StrictRun, FreeRun, WellCut, Waste, Placeable;
    var segs, strict, free := Segments(init), StrictRun(init, width), FreeRun((0, width), init, width);
    SegmentsSnoc(init, x);
    StrictRunOn(init, x, width);
    WordsRunOn((0, width), init, x, width);
    if x.Word? {
      CompareWord(segs, strict, free, x, width, a, b);
      a', b' := a, b;
    } else {
      LastSegmentFits(init, width);
      ComparedTotal(segs, strict, free, width, a, b);
      ChunkStartsLine(init, x, width);
      CompareChunk(segs, strict, free, |x.text|, width);
      a', b' := strict.0 + 1, free.0 + 1;
    }
  }

  lemma {:induction false} Compare(items: seq<Item>, width: nat) returns (a: nat, b: nat)
    requires Placeable(items, width) && WellCut(items, width)
    ensures Compared(Segments(items), StrictRun(items, width), FreeRun((0, width), items, width), width, a, b)
  {
    if items == [] {
      a, b := 0, 0;
    } else {
      hide Compared, Segments, StrictRun, FreeRun, WellCut;
      var init, x := items[..|items| - 1], items[|items| - 1];
      InitLast(items);
      WellCutInit(items, width);
      a, b := Compare(init, width);
      a, b := CompareStep(init, x, width, a, b);
    }
  }

  // ---------- From runs to lines ----------

  lemma {:induction false} StrictIsGreedy(items: seq<Item>, width: nat)
    requires Placeable(items, width)
    ensures Reach(Greedy(items, width), width) == StrictRun(items, width)
    ensures |Greedy(items, width)| == StrictRun(items, width).0
  {
    if items != [] {
      var init := items[..|items| - 1];
      assert forall i :: 0 <= i < |init| ==> init[i] == items[i];
      StrictIsGreedy(init, width);
      InitLast(items);
      GreedyAdvances(init, items[|items| - 1], width);
    }
  }

  /** Forgetting which items are pieces. */
  function Plain(items: seq<Item>): seq<Item> {
    AsWords(Texts(items))
  }

  lemma {:induction false} PlainRunsFree(items: seq<Item>, width: nat)
    ensures StrictRun(Plain(items), width) == FreeRun((0, width), items, width)
  {
    if items != [] {
      var init := items[..|items| - 1];
      PlainRunsFree(init, width);
      InitLast(items);
      TextsSnoc(init, items[|items| - 1]);
      assert Plain(items)[..|init|] == Plain(init);
    }
  }

  lemma {:induction false} ChunksWellCut(word: string, width: nat)
    requires 0 < width < |word|
    ensures WellCut(ChunkItems(Chunks(word, width)), width)
  {
    ChunksExact(word, width);
    var pieces := Chunks(word, width);
    assert pieces != [];
  }

  lemma WellCutAppend(a: seq<Item>, b: seq<Item>, width: nat)
    requires WellCut(a, width) && WellCut(b, width)
    ensures WellCut(a + b, width)
  {
    var all := a + b;
    forall i {:trigger all[i]} | 0 <= i < |all| && all[i].Chunk?
      ensures |all[i].text| == width || (i > 0 && |all[i - 1].text| == width)
    {
      if i < |a| {
        assert all[i] == a[i];
        assert i > 0 ==> all[i - 1] == a[i - 1];
      } else {
        assert all[i] == b[i - |a|];
        assert i > |a| ==> all[i - 1] == b[i - |a| - 1];
      }
    }
  }

  lemma {:induction false} ItemsWellCut(words: seq<string>, width: nat)
    requires width > 0
    ensures WellCut(ItemsOf(words, width), width)
  {
    if words != [] {
      var w := words[|words| - 1];
      ItemsWellCut(words[..|words| - 1], width);
      if |w| > width {
        ChunksWellCut(w, width);
      }
      WellCutAppend(ItemsOf(words[..|words| - 1], width), WordItems(w, width), width);
    }
  }

  // ---------- The theorem ----------

  function SegmentsOf(s: string, width: nat): seq<Segment>
    requires width > 0
  {
    Segments(ItemsOf(Fields(s), width))
  }

  lemma PlainPlaceable(items: seq<Item>, width: nat)
    requires Placeable(items, width)
    ensures Placeable(Plain(items), width)
  {
  }

  lemma {:induction false} ExcessOfLongText(s: string, width: nat)
    requires 0 < width < |s| && Fields(s) != []
    ensures |WrapLines(s, width)|
         == |Greedy(Plain(ItemsOf(Fields(s), width)), width)| + Waste(SegmentsOf(s, width), width)
    ensures Placeable(Plain(ItemsOf(Fields(s), width)), width)
  {
    var items := ItemsOf(Fields(s), width);
    WrapIsGreedy(s, width);
    ItemsWellCut(Fields(s), width);
    var a, b := Compare(items, width);
    LastSegmentFits(items, width);
    ComparedTotal(Segments(items), StrictRun(items, width), FreeRun((0, width), items, width), width, a, b);
    StrictIsGreedy(items, width);
    PlainPlaceable(items, width);
    StrictIsGreedy(Plain(items), width);
    PlainRunsFree(items, width);
  }

  lemma {:induction false} NoPiecesNoSegments(words: seq<string>)
    ensures Segments(AsWords(words)) == []
  {
    if words != [] {
      NoPiecesNoSegments(words[..|words| - 1]);
      assert AsWords(words)[..|words| - 1] == AsWords(words[..|words| - 1]);
    }
  }

  lemma {:induction false} ShortTextHasNoSegments(s: string, width: nat)
    requires width > 0 && |s| <= width
    ensures SegmentsOf(s, width) == [] && Pieces(Fields(s), width) == Fields(s) && AllShort(Fields(s), width)
  {
    FieldsAreWords(s);
    ShortItems(Fields(s), width);
    ShortPieces(Fields(s), width);
    NoPiecesNoSegments(Fields(s));
  }

  /** `n` is the number of lines of some split into lines that fit, and none has fewer. */
  ghost predicate Fewest(n: nat, pieces: seq<string>, width: nat) {
    && (forall runs {:trigger Split(runs, pieces, width)} :: Split(runs, pieces, width) ==> n <= |runs|)
    && (exists runs {:trigger Split(runs, pieces, width)} :: Split(runs, pieces, width) && |runs| == n)
  }

  lemma {:induction false} GreedyIsFewest(pieces: seq<string>, width: nat)
    requires Placeable(AsWords(pieces), width)
    ensures Fewest(|Greedy(AsWords(pieces), width)|, pieces, width)
  {
    hide Greedy, Split, Layout, Placeable;
    var plain := AsWords(pieces);
    forall runs | Split(runs, pieces, width)
      ensures |Greedy(plain, width)| <= |runs|
    {
      SplitIsLayout(runs, pieces, width);
      GreedyLeads(plain, width, AllAsWords(runs));
    }
    GreedyIsLayout(plain, width);
    LayoutIsSplit(Greedy(plain, width), pieces, width);
    assert |AllTexts(Greedy(plain, width))| == |Greedy(plain, width)|;
  }

  /**
    `wrapCell` exceeds the fewest lines that hold the words, and the pieces of over-long
    words, by exactly one for each segment in which sharing a line with the piece would save one.
   */
  lemma {:induction false} ExcessExactly(s: string, width: nat) returns (fewest: nat)
    requires width > 0 && Fields(s) != []
    ensures Fewest(fewest, Pieces(Fields(s), width), width)
    ensures |WrapLines(s, width)| == fewest + Waste(SegmentsOf(s, width), width)
  {
    hide WrapLines, Greedy, Split;
    if |s| <= width {
      ShortTextHasNoSegments(s, width);
      WrapMinimizesLines(s, width);
      fewest := |WrapLines(s, width)|;
    } else {
      ExcessOfLongText(s, width);
      GreedyIsFewest(Pieces(Fields(s), width), width);
      fewest := |Greedy(Plain(ItemsOf(Fields(s), width)), width)|;
    }
  }

  lemma {:induction false} NoWaste(segs: seq<Segment>, width: nat)
    ensures Waste(segs, width) == 0 <==> forall k {:trigger segs[k]} :: 0 <= k < |segs| ==> !Saves(segs[k], width)
  {
    if segs != [] {
      var init := segs[..|segs| - 1];
      NoWaste(init, width);
      assert forall k {:trigger segs[k]} :: 0 <= k < |init| ==> init[k] == segs[k];
    }
  }

  /** So no split of words and pieces has fewer lines exactly when no segment would save one. */
  lemma {:induction false} MinimalExactly(s: string, width: nat)
    requires width > 0 && Fields(s) != []
    ensures Fewest(|WrapLines(s, width)|, Pieces(Fields(s), width), width)
       <==> forall k {:trigger SegmentsOf(s, width)[k]} :: 0 <= k < |SegmentsOf(s, width)| ==>
         !Saves(SegmentsOf(s, width)[k], width)
  {
    hide Split, Waste, WrapLines, Pieces, Saves, SegmentsOf;
    var fewest := ExcessExactly(s, width);
    NoWaste(SegmentsOf(s, width), width);
  }

  lemma {:induction false} RunCons(at: (nat, nat), x: Item, rest: seq<Item>, width: nat)
    ensures FreeRun(at, [x] + rest, width) == FreeRun(Put(at, |x.text|, width), rest, width)
  {
    if rest == [] {
      WordsRunOn(at, [], x, width);
      assert [] + [x] == [x] == [x] + rest;
    } else {
      var init, y := rest[..|rest| - 1], rest[|rest| - 1];
      RunCons(at, x, init, width);
      assert [x] + rest == ([x] + init) + [y];
      WordsRunOn(at, [x] + init, y, width);
    }
  }

  /** A piece with nothing behind it, or with no room for the next word, costs no line. */
  lemma NoRoomSavesNothing(seg: Segment, width: nat)
    requires seg.words != [] ==> seg.taken + 1 + |seg.words[0].text| > width
    ensures !Saves(seg, width)
  {
    if seg.words != [] {
      assert seg.words == [seg.words[0]] + seg.words[1..];
      RunCons((0, seg.taken), seg.words[0], seg.words[1..], width);
      RunCons((0, width), seg.words[0], seg.words[1..], width);
    }
  }

  /**
    In particular if every piece is the last item, or is followed by another piece or by a word
    that has no room behind it.
   */
  lemma {:induction false} MinimalWithoutRoom(s: string, width: nat)
    requires width > 0 && Fields(s) != []
    requires forall k {:trigger SegmentsOf(s, width)[k]} :: 0 <= k < |SegmentsOf(s, width)| ==>
      var seg := SegmentsOf(s, width)[k];
      seg.words != [] ==> seg.taken + 1 + |seg.words[0].text| > width
    ensures Fewest(|WrapLines(s, width)|, Pieces(Fields(s), width), width)
  {
    hide Fewest, Saves, SegmentsOf, WrapLines, Pieces;
    forall k | 0 <= k < |SegmentsOf(s, width)|
      ensures !Saves(SegmentsOf(s, width)[k], width)
    {
      NoRoomSavesNothing(SegmentsOf(s, width)[k], width);
    }
    MinimalExactly(s, width);
  }
}
