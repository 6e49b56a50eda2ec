/**
  The fewest lines over all ways of cutting over-long words, not only every `width`
  characters: a lower bound for any wrapping of the text, the cut that reaches it, and how
  far `wrapCell` can be from it.
 */
module WrapCuts {
  import opened Sequences
  import opened Wrapping
  import opened WrapLaws
  import opened WrapExcess

  /** A word that fits stays whole; another one is cut into non-empty pieces, anywhere. */
  ghost predicate CutWord(pieces: seq<string>, word: string, width: nat) {
    && Concat(pieces) == word
    && (forall i {:trigger pieces[i]} :: 0 <= i < |pieces| ==> pieces[i] != "")
    && (|word| <= width ==> pieces == [word])
  }

  /** `pieces` are the words, in order, each cut in some way. */
  ghost predicate Cuts(pieces: seq<string>, words: seq<string>, width: nat)
    decreases |words|
  {
    if words == [] then pieces == []
    else
      exists k {:trigger pieces[..k]} :: 0 <= k <= |pieces|
        && Cuts(pieces[..k], words[..|words| - 1], width) && CutWord(pieces[k..], words[|words| - 1], width)
  }

  // ---------- Filling lines to the last column ----------

  /** `n` characters on fresh lines below line `line`, each filled before the next. */
  function FillBelow(line: nat, n: nat, width: nat): (nat, nat)
    requires width > 0
    decreases n
  {
    if n <= width then (line + 1, n) else FillBelow(line + 1, n - width, width)
  }

  /** How many characters still go behind a space on the current line. */
  function Room(at: (nat, nat), width: nat): nat {
    if at.1 + 1 < width then width - at.1 - 1 else 0
  }

  /** `n` characters, the first of them on the current line as far as there is room. */
  function Fill(at: (nat, nat), n: nat, width: nat): (nat, nat)
    requires width > 0
  {
    var r := Room(at, width);
    if r > 0 && n <= r then (at.0, at.1 + 1 + n) else FillBelow(at.0, n - (if n < r then n else r), width)
  }

  /** `m` characters more, right behind the last one. */
  function GoOn(at: (nat, nat), m: nat, width: nat): (nat, nat)
    requires width > 0
  {
    if at.1 + m <= width then (at.0, at.1 + m) else FillBelow(at.0, at.1 + m - width, width)
  }

  /** Where the words end if over-long ones are cut to fill their lines. */
  function CutRun(words: seq<string>, width: nat): (nat, nat)
    requires width > 0
  {
    if words == [] then (0, width)
    else
      var at, w := CutRun(words[..|words| - 1], width), words[|words| - 1];
      if |w| <= width then Put(at, |w|, width) else Fill(at, |w|, width)
  }

  lemma {:induction false} FillBelowBounds(line: nat, n: nat, width: nat)
    requires width > 0
    ensures FillBelow(line, n, width).0 > line && FillBelow(line, n, width).1 <= width
    ensures n > 0 ==> FillBelow(line, n, width).1 > 0
    decreases n
  {
    if n > width {
      FillBelowBounds(line + 1, n - width, width);
    }
  }

  lemma {:induction false} FillBelowShift(line: nat, d: nat, n: nat, width: nat)
    requires width > 0
    ensures FillBelow(line + d, n, width) == (FillBelow(line, n, width).0 + d, FillBelow(line, n, width).1)
    decreases n
  {
    if n > width {
      FillBelowShift(line + 1, d, n - width, width);
    }
  }

  lemma {:induction false} FewerEndEarlier(line: nat, n: nat, n': nat, width: nat)
    requires width > 0 && n <= n'
    ensures NoFurther(FillBelow(line, n, width), FillBelow(line, n', width))
    decreases n
  {
    if n > width {
      FewerEndEarlier(line + 1, n - width, n' - width, width);
    } else if n' > width {
      FillBelowBounds(line + 1, n' - width, width);
    }
  }

  /** A line more to start from is worth a full line of characters. */
  lemma {:induction false} LaterEndsLater(line: nat, n: nat, line': nat, n': nat, width: nat)
    requires width > 0 && n' > 0 && line < line' && n <= n' + width
    ensures NoFurther(FillBelow(line, n, width), FillBelow(line', n', width))
  {
    FillBelowBounds(line', n', width);
    if n > width {
      FewerEndEarlier(line + 1, n - width, n', width);
      FillBelowShift(line + 1, line' - (line + 1), n', width);
    }
  }

  lemma {:induction false} FillBelowGoesOn(line: nat, n: nat, m: nat, width: nat)
    requires width > 0
    ensures FillBelow(line, n + m, width) == GoOn(FillBelow(line, n, width), m, width)
    decreases n
  {
    if n > width {
      FillBelowGoesOn(line + 1, n - width, m, width);
    }
  }

  lemma FillGoesOn(at: (nat, nat), n: nat, m: nat, width: nat)
    requires 0 < width && n > 0
    ensures Fill(at, n + m, width) == GoOn(Fill(at, n, width), m, width)
  {
    var r := Room(at, width);
    if n > r {
      FillBelowGoesOn(at.0, n - r, m, width);
    }
  }

  lemma FillBounds(at: (nat, nat), n: nat, width: nat)
    requires width > 0 && n > 0 && at.1 <= width
    ensures 0 < Fill(at, n, width).1 <= width && Fill(at, n, width).0 >= at.0
  {
    var r := Room(at, width);
    if n > r {
      FillBelowBounds(at.0, n - r, width);
    }
  }

  lemma FillIs(at: (nat, nat), n: nat, width: nat)
    requires width > 0 && n > 0
    ensures n <= Room(at, width) ==> Fill(at, n, width) == (at.0, at.1 + 1 + n)
    ensures n > Room(at, width) ==> Fill(at, n, width) == FillBelow(at.0, n - Room(at, width), width)
  {
  }

  // ---------- No cut is better ----------

  lemma PutMonotone(a: (nat, nat), b: (nat, nat), n: nat, width: nat)
    requires NoFurther(a, b) && n <= width
    ensures NoFurther(Put(a, n, width), Put(b, n, width))
  {
  }

  lemma GoingOnLeads(at: (nat, nat), m: nat, width: nat)
    requires width > 0 && 0 < m <= width && at.1 <= width
    ensures NoFurther(GoOn(at, m, width), Put(at, m, width))
  {
  }

  function Total(pieces: seq<string>): nat {
    if pieces == [] then 0 else Total(pieces[..|pieces| - 1]) + |pieces[|pieces| - 1]|
  }

  lemma {:induction false} TotalIsLength(pieces: seq<string>)
    ensures Total(pieces) == |Concat(pieces)|
  {
    if pieces != [] {
      TotalIsLength(pieces[..|pieces| - 1]);
    }
  }

  ghost predicate PiecesFit(pieces: seq<string>, width: nat) {
    forall i {:trigger pieces[i]} :: 0 <= i < |pieces| ==> 0 < |pieces[i]| <= width
  }

  lemma {:induction false} PlainRunOn(at: (nat, nat), pieces: seq<string>, width: nat)
    requires pieces != []
    ensures FreeRun(at, AsWords(pieces), width)
         == Put(FreeRun(at, AsWords(pieces[..|pieces| - 1]), width), |pieces[|pieces| - 1]|, width)
  {
    assert AsWords(pieces)[..|pieces| - 1] == AsWords(pieces[..|pieces| - 1]);
  }

  /** One piece more: filling still leads. */
  lemma LeadOneMore(a: (nat, nat), n: nat, at: (nat, nat), m: nat, width: nat)
    requires width > 0 && n > 0 && 0 < m <= width && a.1 <= width && NoFurther(Fill(a, n, width), at)
    ensures NoFurther(Fill(a, n + m, width), Put(at, m, width))
  {
    hide Fill, FillBelow;
    FillGoesOn(a, n, m, width);
    FillBounds(a, n, width);
    GoingOnLeads(Fill(a, n, width), m, width);
    PutMonotone(Fill(a, n, width), at, m, width);
  }

  /** Placing the pieces of a word one after the other ends no sooner than filling with its characters. */
  lemma {:induction false} FillLeads(a: (nat, nat), b: (nat, nat), pieces: seq<string>, width: nat)
    requires width > 0 && NoFurther(a, b) && a.1 <= width && b.1 <= width && pieces != [] && PiecesFit(pieces, width)
    ensures NoFurther(Fill(a, Total(pieces), width), FreeRun(b, AsWords(pieces), width))
  {
    hide Fill, FillBelow, FreeRun, Put, AsWords, NoFurther;
    var init, p := pieces[..|pieces| - 1], pieces[|pieces| - 1];
    PlainRunOn(b, pieces, width);
    PartsFit(pieces, |pieces| - 1, width);
    if init == [] {
      RunOfNone(b, width);
      FillOne(a, b, |p|, width);
    } else {
      FillLeads(a, b, init, width);
      TotalPositive(init, width);
      LeadOneMore(a, Total(init), FreeRun(b, AsWords(init), width), |p|, width);
    }
  }

  lemma RunOfNone(at: (nat, nat), width: nat)
    ensures FreeRun(at, AsWords([]), width) == at
  {
  }

  lemma FillOne(a: (nat, nat), b: (nat, nat), n: nat, width: nat)
    requires width > 0 && NoFurther(a, b) && a.1 <= width && b.1 <= width && 0 < n <= width
    ensures NoFurther(Fill(a, n, width), Put(b, n, width))
  {
  }

  lemma {:induction false} TotalPositive(pieces: seq<string>, width: nat)
    requires pieces != [] && PiecesFit(pieces, width)
    ensures Total(pieces) > 0
  {
    assert |pieces[|pieces| - 1]| > 0;
  }

  lemma {:induction false} FreeRunAppend(at: (nat, nat), a: seq<string>, b: seq<string>, width: nat)
    ensures FreeRun(at, AsWords(a + b), width) == FreeRun(FreeRun(at, AsWords(a), width), AsWords(b), width)
  {
    if b == [] {
      assert a + b == a;
    } else {
      var init, p := b[..|b| - 1], b[|b| - 1];
      FreeRunAppend(at, a, init, width);
      assert (a + b)[..|a + b| - 1] == a + init;
      PlainRunOn(at, a + b, width);
      PlainRunOn(FreeRun(at, AsWords(a), width), b, width);
    }
  }

  lemma {:induction false} RunBounds(pieces: seq<string>, width: nat)
    requires PiecesFit(pieces, width)
    ensures FreeRun((0, width), AsWords(pieces), width).1 <= width
  {
    if pieces != [] {
      var init := pieces[..|pieces| - 1];
      assert forall i {:trigger init[i]} :: 0 <= i < |init| ==> init[i] == pieces[i];
      RunBounds(init, width);
      PlainRunOn((0, width), pieces, width);
    }
  }

  lemma {:induction false} CutRunBounds(words: seq<string>, width: nat)
    requires width > 0 && forall i :: 0 <= i < |words| ==> words[i] != ""
    ensures CutRun(words, width).1 <= width
  {
    if words != [] {
      var init := words[..|words| - 1];
      CutRunBounds(init, width);
      if |words[|words| - 1]| > width {
        FillBounds(CutRun(init, width), |words[|words| - 1]|, width);
      }
    }
  }

  /** Where the pieces of all words but the last end. */
  lemma {:induction false} CutParts(pieces: seq<string>, words: seq<string>, width: nat) returns (k: nat)
    requires Cuts(pieces, words, width) && words != []
    ensures k <= |pieces| && Cuts(pieces[..k], words[..|words| - 1], width)
    ensures CutWord(pieces[k..], words[|words| - 1], width) && pieces[..k] + pieces[k..] == pieces
    ensures PiecesFit(pieces, width) ==> PiecesFit(pieces[..k], width) && PiecesFit(pieces[k..], width)
  {
    k :| 0 <= k <= |pieces|
      && Cuts(pieces[..k], words[..|words| - 1], width) && CutWord(pieces[k..], words[|words| - 1], width);
    TakeDrop(pieces, k);
    PartsFit(pieces, k, width);
  }

  lemma PartsFit(pieces: seq<string>, k: nat, width: nat)
    requires k <= |pieces|
    ensures PiecesFit(pieces, width) ==> PiecesFit(pieces[..k], width) && PiecesFit(pieces[k..], width)
  {
    assert forall i {:trigger pieces[k..][i]} :: 0 <= i < |pieces| - k ==> pieces[k..][i] == pieces[k + i];
  }

  /** However the words are cut, placing the pieces ends no sooner than filling does. */
  lemma {:induction false} CutRunLeads(pieces: seq<string>, words: seq<string>, width: nat)
    requires width > 0 && Cuts(pieces, words, width) && PiecesFit(pieces, width)
    requires forall i :: 0 <= i < |words| ==> words[i] != ""
    ensures NoFurther(CutRun(words, width), FreeRun((0, width), AsWords(pieces), width))
  {
    if words == [] {
      assert AsWords(pieces) == [];
    } else {
      hide FreeRun, AsWords, Cuts, CutWord, PiecesFit, Put, Fill, NoFurther;
      var init, w := words[..|words| - 1], words[|words| - 1];
      var k := CutParts(pieces, words, width);
      var before, own := pieces[..k], pieces[k..];
      CutRunLeads(before, init, width);
      FreeRunAppend((0, width), before, own, width);
      RunBounds(before, width);
      CutRunBounds(init, width);
      WordLeads(CutRun(init, width), FreeRun((0, width), AsWords(before), width), own, w, width);
    }
  }

  lemma WordLeads(a: (nat, nat), b: (nat, nat), own: seq<string>, w: string, width: nat)
    requires width > 0 && w != "" && NoFurther(a, b) && a.1 <= width && b.1 <= width
    requires CutWord(own, w, width) && PiecesFit(own, width)
    ensures NoFurther(if |w| <= width then Put(a, |w|, width) else Fill(a, |w|, width), FreeRun(b, AsWords(own), width))
  {
    if |w| <= width {
      PlainRunOn(b, own, width);
      assert own[..0] == [] && AsWords([]) == [];
      PutMonotone(a, b, |w|, width);
    } else {
      TotalIsLength(own);
      assert own != [];
      FillLeads(a, b, own, width);
    }
  }

  // ---------- Some cut is as good ----------

  /** Cut off what fits on the current line, and the rest every `width` characters. */
  function BestPieces(at: (nat, nat), word: string, width: nat): seq<string>
    requires width > 0
  {
    var r := Room(at, width);
    if |word| <= width then [word]
    else if r == 0 then Chunks(word, width)
    else [word[..r]] + Chunks(word[r..], width)
  }

  function BestCuts(words: seq<string>, width: nat): seq<string>
    requires width > 0
  {
    if words == [] then []
    else
      BestCuts(words[..|words| - 1], width)
      + BestPieces(CutRun(words[..|words| - 1], width), words[|words| - 1], width)
  }

  lemma {:induction false} ChunksFillBelow(at: (nat, nat), word: string, width: nat)
    requires width > 0 && word != "" && at.1 + 1 >= width
    ensures FreeRun(at, AsWords(Chunks(word, width)), width) == FillBelow(at.0, |word|, width)
    decreases |word|
  {
    if |word| <= width {
      RunOfOne(at, word, width);
    } else {
      var rest := Chunks(word[width..], width);
      FreeRunAppend(at, [word[..width]], rest, width);
      RunOfOne(at, word[..width], width);
      ChunksFillBelow((at.0 + 1, width), word[width..], width);
    }
  }

  lemma RunOfOne(at: (nat, nat), word: string, width: nat)
    ensures FreeRun(at, AsWords([word]), width) == Put(at, |word|, width)
  {
    PlainRunOn(at, [word], width);
    assert [word][..0] == [] && AsWords([]) == [];
  }

  lemma BestPiecesFill(at: (nat, nat), word: string, width: nat)
    requires 0 < width < |word|
    ensures FreeRun(at, AsWords(BestPieces(at, word, width)), width) == Fill(at, |word|, width)
  {
    hide FreeRun, AsWords, Chunks, Fill, FillBelow;
    var r := Room(at, width);
    FillIs(at, |word|, width);
    if r == 0 {
      ChunksFillBelow(at, word, width);
    } else {
      FreeRunAppend(at, [word[..r]], Chunks(word[r..], width), width);
      RunOfOne(at, word[..r], width);
      ChunksFillBelow((at.0, width), word[r..], width);
    }
  }

  lemma BestPiecesCut(at: (nat, nat), word: string, width: nat)
    requires width > 0 && word != ""
    ensures CutWord(BestPieces(at, word, width), word, width) && PiecesFit(BestPieces(at, word, width), width)
  {
    var r := Room(at, width);
    ConcatOne(word);
    if |word| > width {
      if r == 0 {
        ChunksExact(word, width);
      } else {
        ChunksExact(word[r..], width);
        ConcatCons(word[..r], Chunks(word[r..], width));
        TakeDrop(word, r);
      }
    }
  }

  lemma BestPiecesRun(at: (nat, nat), word: string, width: nat)
    requires width > 0 && word != ""
    ensures FreeRun(at, AsWords(BestPieces(at, word, width)), width)
         == if |word| <= width then Put(at, |word|, width) else Fill(at, |word|, width)
  {
    hide FreeRun, AsWords, Fill, Put;
    if |word| <= width {
      RunOfOne(at, word, width);
    } else {
      BestPiecesFill(at, word, width);
    }
  }

  lemma CutsSnoc(before: seq<string>, own: seq<string>, words: seq<string>, w: string, width: nat)
    requires Cuts(before, words, width) && CutWord(own, w, width)
    ensures Cuts(before + own, words + [w], width)
    ensures PiecesFit(before, width) && PiecesFit(own, width) ==> PiecesFit(before + own, width)
  {
    var all := before + own;
    assert all[..|before|] == before && all[|before|..] == own;
    assert (words + [w])[..|words|] == words;
  }

  lemma {:induction false} BestCutsFill(words: seq<string>, width: nat)
    requires width > 0 && forall i :: 0 <= i < |words| ==> words[i] != ""
    ensures FreeRun((0, width), AsWords(BestCuts(words, width)), width) == CutRun(words, width)
    ensures Cuts(BestCuts(words, width), words, width) && PiecesFit(BestCuts(words, width), width)
  {
    if words == [] {
      assert AsWords(BestCuts(words, width)) == [];
    } else {
      hide FreeRun, AsWords, Cuts, CutWord, PiecesFit, BestPieces, Fill, Put;
      var init, w := words[..|words| - 1], words[|words| - 1];
      var before, at := BestCuts(init, width), CutRun(init, width);
      BestCutsFill(init, width);
      FreeRunAppend((0, width), before, BestPieces(at, w, width), width);
      BestPiecesCut(at, w, width);
      BestPiecesRun(at, w, width);
      InitLast(words);
      CutsSnoc(before, BestPieces(at, w, width), init, w, width);
    }
  }

  // ---------- The theorems ----------

  /** `n` lines suffice for some way of cutting the over-long words, and no way needs fewer. */
  ghost predicate FewestOverCuts(n: nat, words: seq<string>, width: nat) {
    && (forall pieces, runs {:trigger Cuts(pieces, words, width), Split(runs, pieces, width)} ::
         Cuts(pieces, words, width) && Split(runs, pieces, width) ==> n <= |runs|)
    && (exists pieces, runs {:trigger Cuts(pieces, words, width), Split(runs, pieces, width)} ::
         Cuts(pieces, words, width) && Split(runs, pieces, width) && |runs| == n)
  }

  lemma {:induction false} AsWordsRun(pieces: seq<string>, width: nat)
    ensures StrictRun(AsWords(pieces), width) == FreeRun((0, width), AsWords(pieces), width)
  {
    PlainRunsFree(AsWords(pieces), width);
    TextsOfWords(pieces);
  }

  lemma {:induction false} GreedyOfPieces(pieces: seq<string>, width: nat)
    requires PiecesFit(pieces, width)
    ensures Fewest(FreeRun((0, width), AsWords(pieces), width).0, pieces, width)
  {
    var plain := AsWords(pieces);
    assert Placeable(plain, width);
    GreedyIsFewest(pieces, width);
    StrictIsGreedy(plain, width);
    AsWordsRun(pieces, width);
  }

  lemma {:induction false} CutsNonEmpty(pieces: seq<string>, words: seq<string>, width: nat)
    requires Cuts(pieces, words, width) && forall i :: 0 <= i < |words| ==> words[i] != ""
    ensures forall i {:trigger pieces[i]} :: 0 <= i < |pieces| ==> pieces[i] != ""
  {
    if words != [] {
      var k := CutParts(pieces, words, width);
      CutsNonEmpty(pieces[..k], words[..|words| - 1], width);
      forall i | 0 <= i < |pieces|
        ensures pieces[i] != ""
      {
        assert pieces[i] == if i < k then pieces[..k][i] else pieces[k..][i - k];
      }
    }
  }

  lemma {:induction false} SplitPiecesFit(runs: seq<seq<string>>, pieces: seq<string>, width: nat)
    requires Split(runs, pieces, width)
    ensures forall i {:trigger pieces[i]} :: 0 <= i < |pieces| ==> |pieces[i]| <= width
  {
    if runs != [] {
      var init, last := runs[..|runs| - 1], runs[|runs| - 1];
      assert forall i :: 0 <= i < |init| ==> init[i] == runs[i];
      SplitPiecesFit(init, Concat(init), width);
      JoinHolds(last);
      assert pieces == Concat(init) + last;
      assert last != [] && |Join(last)| <= width;
    }
  }

  lemma {:induction false} JoinHolds(words: seq<string>)
    ensures forall i {:trigger words[i]} :: 0 <= i < |words| ==> |words[i]| <= |Join(words)|
  {
    if |words| > 1 {
      var init := words[..|words| - 1];
      JoinHolds(init);
      assert forall i {:trigger words[i]} :: 0 <= i < |init| ==> init[i] == words[i];
    }
  }

  /** The fewest lines over all cuts are those of filling every line on the way. */
  lemma {:induction false} FillingIsFewest(words: seq<string>, width: nat)
    requires width > 0 && forall i :: 0 <= i < |words| ==> words[i] != ""
    ensures FewestOverCuts(CutRun(words, width).0, words, width)
  {
    hide Cuts, Split, CutRun, BestCuts, FreeRun;
    forall pieces, runs | Cuts(pieces, words, width) && Split(runs, pieces, width)
      ensures CutRun(words, width).0 <= |runs|
    {
      CutsNonEmpty(pieces, words, width);
      SplitPiecesFit(runs, pieces, width);
      CutRunLeads(pieces, words, width);
      GreedyOfPieces(pieces, width);
    }
    BestCutsFill(words, width);
    GreedyOfPieces(BestCuts(words, width), width);
  }

  function OverLong(words: seq<string>, width: nat): nat {
    if words == [] then 0 else OverLong(words[..|words| - 1], width) + if |words[|words| - 1]| > width then 1 else 0
  }

  /** A word's pieces fill as many fresh lines as its characters do, less one if some go on the current line. */
  lemma {:induction false} ChunkLines(line: nat, word: string, width: nat)
    requires width > 0 && word != ""
    ensures FillBelow(line, |word|, width).0 == line + |Chunks(word, width)|
    decreases |word|
  {
    if |word| > width {
      ChunkLines(line + 1, word[width..], width);
    }
  }

  lemma {:induction false} StrictChunks(items: seq<Item>, chunks: seq<string>, width: nat)
    ensures chunks != [] ==>
      StrictRun(items + ChunkItems(chunks), width) == (StrictRun(items, width).0 + |chunks|, width)
    ensures chunks == [] ==> StrictRun(items + ChunkItems(chunks), width) == StrictRun(items, width)
  {
    if chunks == [] {
      assert items + ChunkItems(chunks) == items;
    } else {
      hide StrictRun;
      var init, c := chunks[..|chunks| - 1], chunks[|chunks| - 1];
      StrictChunks(items, init, width);
      assert items + ChunkItems(chunks) == (items + ChunkItems(init)) + [Chunk(c)];
      StrictRunOn(items + ChunkItems(init), Chunk(c), width);
    }
  }

  lemma ShortWordLag(strict: (nat, nat), cut: (nat, nat), k: nat, n: nat, width: nat)
    requires n <= width && NoFurther(strict, (cut.0 + 2 * k, cut.1))
    ensures NoFurther(Put(strict, n, width), (Put(cut, n, width).0 + 2 * k, Put(cut, n, width).1))
  {
  }

  lemma LongWordLag(strict: (nat, nat), cut: (nat, nat), k: nat, word: string, width: nat)
    requires 0 < width < |word| && NoFurther(strict, (cut.0 + 2 * k, cut.1)) && cut.1 <= width
    ensures NoFurther((strict.0 + |Chunks(word, width)|, width),
              (Fill(cut, |word|, width).0 + 2 * (k + 1), Fill(cut, |word|, width).1))
  {
    var r := Room(cut, width);
    ChunkLines(cut.0, word, width);
    FillIs(cut, |word|, width);
    LaterEndsLater(cut.0, |word|, cut.0 + 1, |word| - r, width);
    FillBelowShift(cut.0, 1, |word| - r, width);
  }

  lemma SomeChunk(w: string, width: nat)
    requires 0 < width < |w|
    ensures Chunks(w, width) != []
  {
  }

  /** What `wrapCell` does with one word more. */
  lemma StrictWord(words: seq<string>, w: string, width: nat)
    requires width > 0
    ensures var at := StrictRun(ItemsOf(words, width), width);
      StrictRun(ItemsOf(words + [w], width), width)
      == if |w| <= width then Put(at, |w|, width) else (at.0 + |Chunks(w, width)|, width)
  {
    hide StrictRun, ItemsOf, Chunks, ChunkItems;
    ItemsSnoc(words, w, width);
    if |w| <= width {
      StrictRunOn(ItemsOf(words, width), Word(w), width);
    } else {
      SomeChunk(w, width);
      StrictChunks(ItemsOf(words, width), Chunks(w, width), width);
    }
  }

  /** Every over-long word costs at most two lines: the rest of the line before it, and that behind it. */
  lemma {:induction false} StrictLags(words: seq<string>, width: nat)
    requires width > 0 && forall i :: 0 <= i < |words| ==> words[i] != ""
    ensures NoFurther(StrictRun(ItemsOf(words, width), width),
              (CutRun(words, width).0 + 2 * OverLong(words, width), CutRun(words, width).1))
  {
    hide StrictRun, ItemsOf, CutRun, OverLong, NoFurther;
    if words == [] {
      NothingLags(width);
    } else {
      var init, w := words[..|words| - 1], words[|words| - 1];
      StrictLags(init, width);
      CutRunBounds(init, width);
      InitLast(words);
      OneMoreLag(init, w, width);
    }
  }

  lemma NothingLags(width: nat)
    requires width > 0
    ensures NoFurther(StrictRun(ItemsOf([], width), width),
              (CutRun([], width).0 + 2 * OverLong([], width), CutRun([], width).1))
  {
  }

  lemma OneMoreLag(words: seq<string>, w: string, width: nat)
    requires width > 0 && CutRun(words, width).1 <= width
    requires NoFurther(StrictRun(ItemsOf(words, width), width),
               (CutRun(words, width).0 + 2 * OverLong(words, width), CutRun(words, width).1))
    ensures NoFurther(StrictRun(ItemsOf(words + [w], width), width),
              (CutRun(words + [w], width).0 + 2 * OverLong(words + [w], width), CutRun(words + [w], width).1))
  {
    hide StrictRun, ItemsOf, Chunks, Fill, CutRun, OverLong;
    var strict, cut, k := StrictRun(ItemsOf(words, width), width), CutRun(words, width), OverLong(words, width);
    StrictWord(words, w, width);
    CutRunSnoc(words, w, width);
    if |w| <= width {
      ShortWordLag(strict, cut, k, |w|, width);
    } else {
      LongWordLag(strict, cut, k, w, width);
    }
  }

  lemma {:induction false} FieldsNonEmpty(s: string)
    ensures forall i :: 0 <= i < |Fields(s)| ==> Fields(s)[i] != ""
  {
    FieldsAreWords(s);
  }

  lemma {:induction false} ShortCutRun(words: seq<string>, width: nat)
    requires width > 0 && AllShort(words, width)
    ensures CutRun(words, width) == FreeRun((0, width), AsWords(words), width) && OverLong(words, width) == 0
  {
    if words != [] {
      ShortCutRun(words[..|words| - 1], width);
      PlainRunOn((0, width), words, width);
    }
  }

  /**
    Against every wrapping of the text that keeps short words whole and cuts the others
    anywhere, `wrapCell` uses at least as many lines, and at most two more for each over-long word.
   */
  lemma {:induction false} WithinTwoPerLongWord(s: string, width: nat) returns (fewest: nat)
    requires width > 0 && Fields(s) != []
    ensures fewest == CutRun(Fields(s), width).0 && FewestOverCuts(fewest, Fields(s), width)
    ensures fewest <= |WrapLines(s, width)| <= fewest + 2 * OverLong(Fields(s), width)
  {
    hide WrapLines, FewestOverCuts, Fewest;
    var words := Fields(s);
    FieldsNonEmpty(s);
    FillingIsFewest(words, width);
    fewest := CutRun(words, width).0;
    if |s| <= width {
      ShortTextHasNoSegments(s, width);
      ShortCutRun(words, width);
      var f := ExcessExactly(s, width);
      GreedyOfPieces(words, width);
      FewestUnique(f, FreeRun((0, width), AsWords(words), width).0, words, width);
    } else {
      LongTextLags(s, width);
    }
  }

  lemma FewestUnique(m: nat, n: nat, pieces: seq<string>, width: nat)
    requires Fewest(m, pieces, width) && Fewest(n, pieces, width)
    ensures m == n
  {
    hide Split;
    var runs :| Split(runs, pieces, width) && |runs| == m;
    var runs' :| Split(runs', pieces, width) && |runs'| == n;
  }

  lemma {:induction false} LongTextLags(s: string, width: nat)
    requires 0 < width < |s| && Fields(s) != []
    ensures CutRun(Fields(s), width).0 <= |WrapLines(s, width)|
         <= CutRun(Fields(s), width).0 + 2 * OverLong(Fields(s), width)
  {
    hide WrapLines, Greedy, StrictRun, CutRun, Cuts, FreeRun, OverLong, Fields, ItemsOf;
    var words := Fields(s);
    FieldsNonEmpty(s);
    LinesOfLongText(s, words, width);
    StrictLags(words, width);
    CodeIsNoSooner(words, width);
  }

  lemma {:induction false} CodeIsNoSooner(words: seq<string>, width: nat)
    requires width > 0 && forall i :: 0 <= i < |words| ==> words[i] != ""
    ensures CutRun(words, width).0 <= StrictRun(ItemsOf(words, width), width).0
  {
    hide StrictRun, CutRun, Cuts, FreeRun, ItemsOf, Segments, Waste, Compared;
    var items := ItemsOf(words, width);
    CodeCuts(words, width);
    CutRunLeads(Pieces(words, width), words, width);
    ItemsPlaceable(words, width);
    ItemsWellCut(words, width);
    var a, b := Compare(items, width);
    LastSegmentFits(items, width);
    ComparedTotal(Segments(items), StrictRun(items, width), FreeRun((0, width), items, width), width, a, b);
    PlainRunsFree(items, width);
    AsWordsRun(Pieces(words, width), width);
  }

  /** Cutting every `width` characters is one of the ways. */
  lemma {:induction false} CodeCuts(words: seq<string>, width: nat)
    requires width > 0 && forall i :: 0 <= i < |words| ==> words[i] != ""
    ensures Cuts(Pieces(words, width), words, width) && PiecesFit(Pieces(words, width), width)
  {
    if words != [] {
      hide Cuts, CutWord, PiecesFit, Pieces;
      var init, w := words[..|words| - 1], words[|words| - 1];
      CodeCuts(init, width);
      InitLast(words);
      PiecesSnoc(init, w, width);
      CodeCutsWord(w, width);
      CutsSnoc(Pieces(init, width), if |w| <= width then [w] else Chunks(w, width), init, w, width);
    }
  }

  lemma CodeCutsWord(w: string, width: nat)
    requires width > 0 && w != ""
    ensures var own := if |w| <= width then [w] else Chunks(w, width);
      CutWord(own, w, width) && PiecesFit(own, width)
  {
    ConcatOne(w);
    ChunksExact(w, width);
  }

  lemma LinesOfLongText(s: string, words: seq<string>, width: nat)
    requires 0 < width < |s| && Fields(s) == words != []
    ensures |WrapLines(s, width)| == StrictRun(ItemsOf(words, width), width).0
  {
    hide Greedy, StrictRun, ItemsOf;
    WrapIsGreedy(s, width);
    StrictIsGreedy(ItemsOf(words, width), width);
  }

  /** The bound is reached: one over-long word, and four lines where two would do. */
  lemma {:induction false} TwoLinesMore()
    ensures var words := ["aaa", "bbbbbbbbbb", "ccc"];
      && Fields(Join(words)) == words && OverLong(words, 9) == 1
      && |WrapLines(Join(words), 9)| == 4 && FewestOverCuts(2, words, 9)
  {
    hide WrapLines, FewestOverCuts, Fields, Join, CutRun, StrictRun, ItemsOf, OverLong;
    var a, b, c := "aaa", "bbbbbbbbbb", "ccc";
    var words := [a, b, c];
    SampleWords(a, b, c);
    FieldsOfJoin(words);
    JoinOfThree(a, b, c);
    LinesOfLongText(Join(words), words, 9);
    StrictOfSample(a, b, c);
    CutOfSample(a, b, c);
    FillingIsFewest(words, 9);
  }

  lemma SampleWords(a: string, b: string, c: string)
    requires a == "aaa" && b == "bbbbbbbbbb" && c == "ccc"
    ensures AllWords([a, b, c])
  {
    assert IsWord(a) && IsWord(b) && IsWord(c);
  }

  lemma CutRunSnoc(words: seq<string>, w: string, width: nat)
    requires width > 0
    ensures CutRun(words + [w], width)
         == if |w| <= width then Put(CutRun(words, width), |w|, width) else Fill(CutRun(words, width), |w|, width)
    ensures OverLong(words + [w], width) == OverLong(words, width) + if |w| > width then 1 else 0
  {
    assert (words + [w])[..|words|] == words;
  }

  lemma CutOfSample(a: string, b: string, c: string)
    requires |a| == 3 && |b| == 10 && |c| == 3
    ensures CutRun([a, b, c], 9).0 == 2 && OverLong([a, b, c], 9) == 1
  {
    hide CutRun, OverLong;
    NoCutRun();
    CutRunSnoc([], a, 9);
    CutRunSnoc([a], b, 9);
    CutRunSnoc([a, b], c, 9);
    assert [] + [a] == [a] && [a] + [b] == [a, b] && [a, b] + [c] == [a, b, c];
    assert Fill((1, 3), 10, 9) == FillBelow(1, 5, 9) == (2, 5);
  }

  lemma NoCutRun()
    ensures CutRun([], 9) == (0, 9) && OverLong([], 9) == 0
  {
  }

  lemma JoinOfThree(a: string, b: string, c: string)
    ensures |Join([a, b, c])| == |a| + |b| + |c| + 2
  {
    JoinSnoc([a, b], c);
    JoinSnoc([a], b);
    assert [a, b] + [c] == [a, b, c] && [a] + [b] == [a, b];
  }

  lemma NoStrictRun()
    ensures StrictRun(ItemsOf([], 9), 9) == (0, 9)
  {
  }

  lemma StrictOfSample(a: string, b: string, c: string)
    requires |a| == 3 && |b| == 10 && |c| == 3
    ensures StrictRun(ItemsOf([a, b, c], 9), 9).0 == 4
  {
    hide Chunks, StrictRun, ItemsOf;
    NoStrictRun();
    StrictWord([], a, 9);
    StrictWord([a], b, 9);
    StrictWord([a, b], c, 9);
    assert [] + [a] == [a] && [a] + [b] == [a, b] && [a, b] + [c] == [a, b, c];
    TwoChunks(b);
  }

  lemma TwoChunks(b: string)
    requires |b| == 10
    ensures |Chunks(b, 9)| == 2
  {
    assert |b[9..]| == 1;
  }
}
