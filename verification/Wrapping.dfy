/** Greedy word wrapping with hard breaks (`wrapCell` in internal/render/table.go). */
module Wrapping {
  import opened Sequences

  /** Go's `unicode.IsSpace`. */
  predicate IsSpace(c: char) {
    var u := c as int;
    || 9 <= u <= 13 || u == 32 || u == 0x85 || u == 0xA0 || u == 0x1680 || 0x2000 <= u <= 0x200A
    || u == 0x2028 || u == 0x2029 || u == 0x202F || u == 0x205F || u == 0x3000
  }

  predicate NotSpace(c: char) {
    !IsSpace(c)
  }

  ghost predicate IsWord(w: string) {
    w != "" && forall i :: 0 <= i < |w| ==> !IsSpace(w[i])
  }

  /** How many characters of `s` come before its first space. */
  function WordEnd(s: string): (n: nat)
    ensures n <= |s|
    ensures forall i :: 0 <= i < n ==> !IsSpace(s[i])
    ensures n < |s| ==> IsSpace(s[n])
  {
    if s == "" || IsSpace(s[0]) then 0 else 1 + WordEnd(s[1..])
  }

  /** Go's `strings.Fields`: the maximal runs of non-space characters. */
  function Fields(s: string): seq<string>
    decreases |s|
  {
    if s == "" then []
    else if IsSpace(s[0]) then Fields(s[1..])
    else
      var n := WordEnd(s);
      [s[..n]] + Fields(s[n..])
  }

  /** The words of a line with single spaces between them. */
  function Join(words: seq<string>): string {
    if words == [] then ""
    else if |words| == 1 then words[0]
    else Join(words[..|words| - 1]) + " " + words[|words| - 1]
  }

  /** `word` cut every `width` characters. */
  function Chunks(word: string, width: nat): seq<string>
    requires width > 0
    decreases |word|
  {
    if word == "" then []
    else if |word| <= width then [word]
    else [word[..width]] + Chunks(word[width..], width)
  }

  /** What gets placed on lines: a word, or one piece of a word too long for any line. */
  datatype Item = Word(text: string) | Chunk(text: string)

  function WordItems(word: string, width: nat): seq<Item>
    requires width > 0
  {
    if |word| <= width then [Word(word)] else ChunkItems(Chunks(word, width))
  }

  function ItemsOf(words: seq<string>, width: nat): seq<Item>
    requires width > 0
  {
    if words == [] then []
    else ItemsOf(words[..|words| - 1], width) + WordItems(words[|words| - 1], width)
  }

  function Texts(line: seq<Item>): (r: seq<string>)
    ensures |r| == |line|
    ensures forall i {:trigger r[i]} :: 0 <= i < |line| ==> r[i] == line[i].text
  {
    if line == [] then [] else Texts(line[..|line| - 1]) + [line[|line| - 1].text]
  }

  function Render(line: seq<Item>): string {
    Join(Texts(line))
  }

  function RenderAll(lines: seq<seq<Item>>): (r: seq<string>)
    ensures |r| == |lines|
    ensures forall i {:trigger r[i]} :: 0 <= i < |lines| ==> r[i] == Render(lines[i])
  {
    if lines == [] then [] else RenderAll(lines[..|lines| - 1]) + [Render(lines[|lines| - 1])]
  }

  lemma TextsSnoc(line: seq<Item>, x: Item)
    ensures Texts(line + [x]) == Texts(line) + [x.text]
    ensures Texts([x]) == [x.text]
  {
    assert (line + [x])[..|line|] == line;
  }

  lemma RenderAllSnoc(lines: seq<seq<Item>>, line: seq<Item>)
    ensures RenderAll(lines + [line]) == RenderAll(lines) + [Render(line)]
  {
    assert (lines + [line])[..|lines|] == lines;
  }

  function Last<T>(s: seq<T>): T
    requires s != []
  {
    s[|s| - 1]
  }

  function Init<T>(s: seq<T>): seq<T>
    requires s != []
  {
    s[..|s| - 1]
  }

  predicate Appendable(line: seq<Item>, x: Item, width: nat) {
    line != [] && Last(line).Word? && x.Word? && |Render(line)| + 1 + |x.text| <= width
  }

  /** Each item goes on the current line if it still fits there, otherwise on a new one. */
  function Greedy(items: seq<Item>, width: nat): seq<seq<Item>> {
    if items == [] then []
    else
      var lines := Greedy(Init(items), width);
      var x := Last(items);
      if lines != [] && Appendable(Last(lines), x, width)
      then Init(lines) + [Last(lines) + [x]]
      else lines + [[x]]
  }

  /** The lines `wrapCell` returns. */
  function WrapLines(s: string, width: int): seq<string> {
    if width <= 0 || |s| <= width then [s]
    else
      var lines := Greedy(ItemsOf(Fields(s), width), width);
      if lines == [] then [""] else RenderAll(lines)
  }

  /** What the line buffer and the finished lines say about the greedy layout built so far. */
  ghost predicate Buffered(lines: seq<seq<Item>>, out: seq<string>, line: string) {
    if line == ""
    then out == RenderAll(lines) && (lines != [] ==> Last(lines) != [] && Last(Last(lines)).Chunk?)
    else
      && lines != [] && Last(lines) != [] && Last(Last(lines)).Word?
      && out == RenderAll(Init(lines)) && line == Render(Last(lines))
  }

  /** The inner loop of `wrapCell`: an over-long word goes out in pieces of `width`. */
  method HardBreak(word: string, width: nat, before: seq<string>) returns (out: seq<string>)
    requires width > 0
    ensures out == before + Chunks(word, width)
  {
    out := before;
    var i := 0;
    while i < |word|
      invariant 0 <= i
      invariant out + Chunks(if i < |word| then word[i..] else "", width) == before + Chunks(word, width)
      decreases |word| - i
    {
      var end := i + width;
      if end > |word| {
        end := |word|;
      }
      ghost var rest := word[i..];
      assert |rest| > width ==> rest[..width] == word[i..end] && rest[width..] == word[end..];
      assert |rest| <= width ==> word[i..end] == rest;
      out := out + [word[i..end]];
      i := i + width;
    }
  }

  method WrapCell(s: string, width: int) returns (out: seq<string>)
    ensures out == WrapLines(s, width)
  {
    if width <= 0 || s == "" {
      return [s];
    }
    if |s| <= width {
      return [s];
    }
    FieldsAreWords(s);
    out := WrapWords(Fields(s), width);
    if |out| == 0 {
      return [""];
    }
  }

  /** The word loop of `wrapCell`: a line buffer, flushed when the next word does not fit. */
  method WrapWords(words: seq<string>, width: nat) returns (out: seq<string>)
    requires width > 0 && forall i :: 0 <= i < |words| ==> words[i] != ""
    ensures out == RenderAll(Greedy(ItemsOf(words, width), width))
  {
    out := [];
    var line := "";
    var lineLen := 0;
    for k := 0 to |words|
      invariant lineLen == |line|
      invariant Wrapped(words[..k], width, out, line)
    {
      var word := words[k];
      assert words[..k + 1] == words[..k] + [word];
      if |word| > width {
        FlushWrapped(words[..k], width, out, line);
        if lineLen > 0 {
          out, line, lineLen := out + [line], "", 0;
        }
        PlaceLongWord(words[..k], word, width);
        out := HardBreak(word, width, out);
        continue;
      }
      PlaceWord(words[..k], word, width, out, line);
      var need := |word|;
      if lineLen > 0 {
        need := need + 1;
      }
      if lineLen + need > width {
        out, line, lineLen := out + [line], word, |word|;
        continue;
      }
      if lineLen > 0 {
        line, lineLen := line + " ", lineLen + 1;
      }
      line, lineLen := line + word, lineLen + |word|;
    }
    assert words[..|words|] == words;
    FlushWrapped(words, width, out, line);
    if lineLen > 0 {
      out := out + [line];
    }
  }

  /** The buffers after the given words, as a greedy layout. */
  ghost predicate Wrapped(words: seq<string>, width: nat, out: seq<string>, line: string) {
    width > 0 && Buffered(Greedy(ItemsOf(words, width), width), out, line)
  }

  lemma FlushWrapped(words: seq<string>, width: nat, out: seq<string>, line: string)
    requires Wrapped(words, width, out, line)
    ensures (if line == "" then out else out + [line]) == RenderAll(Greedy(ItemsOf(words, width), width))
  {
    FlushBuffer(Greedy(ItemsOf(words, width), width), out, line);
  }

  lemma ItemsSnoc(words: seq<string>, word: string, width: nat)
    requires width > 0
    ensures ItemsOf(words + [word], width) == ItemsOf(words, width) + WordItems(word, width)
  {
    assert (words + [word])[..|words|] == words;
  }

  lemma PlaceLongWord(words: seq<string>, word: string, width: nat)
    requires 0 < width < |word|
    ensures Wrapped(words + [word], width, RenderAll(Greedy(ItemsOf(words, width), width)) + Chunks(word, width), "")
  {
    ItemsSnoc(words, word, width);
    GreedyChunks(ItemsOf(words, width), Chunks(word, width), width);
    RenderChunks(Greedy(ItemsOf(words, width), width), Chunks(word, width));
  }

  lemma PlaceWord(words: seq<string>, word: string, width: nat, out: seq<string>, line: string)
    requires 0 < width && 0 < |word| <= width
    requires Wrapped(words, width, out, line)
    ensures if line == "" then Wrapped(words + [word], width, out, word)
            else if |line| + 1 + |word| > width then Wrapped(words + [word], width, out + [line], word)
            else Wrapped(words + [word], width, out, line + " " + word)
  {
    var items := ItemsOf(words, width);
    ItemsSnoc(words, word, width);
    GreedySnoc(items, Word(word), width);
    RenderWord(Greedy(items, width), out, line, word);
  }

  lemma FlushBuffer(lines: seq<seq<Item>>, out: seq<string>, line: string)
    requires Buffered(lines, out, line)
    ensures (if line == "" then out else out + [line]) == RenderAll(lines)
  {
    if line != "" {
      RenderAllSnoc(Init(lines), Last(lines));
      assert lines == Init(lines) + [Last(lines)];
    }
  }

  lemma GreedySnoc(items: seq<Item>, x: Item, width: nat)
    ensures var lines := Greedy(items, width);
      Greedy(items + [x], width) ==
        if lines != [] && Appendable(Last(lines), x, width) then Init(lines) + [Last(lines) + [x]] else lines + [[x]]
  {
    assert Init(items + [x]) == items;
  }

  /** One word more, in terms of the buffer: it extends the line or starts the next one. */
  lemma RenderWord(lines: seq<seq<Item>>, out: seq<string>, line: string, word: string)
    requires Buffered(lines, out, line) && word != ""
    ensures line == "" ==> Buffered(lines + [[Word(word)]], out, word)
    ensures line != "" ==> Buffered(lines + [[Word(word)]], out + [line], word)
    ensures line != "" ==> Buffered(Init(lines) + [Last(lines) + [Word(word)]], out, line + " " + word)
  {
    TextsSnoc([], Word(word));
    assert Init(lines + [[Word(word)]]) == lines;
    if line != "" {
      RenderSnoc(Last(lines), Word(word));
      assert Init(Init(lines) + [Last(lines) + [Word(word)]]) == Init(lines);
      FlushBuffer(lines, out, line);
    }
  }

  lemma RenderSnoc(line: seq<Item>, x: Item)
    requires line != []
    ensures Render(line + [x]) == Render(line) + " " + x.text
    ensures Render([x]) == x.text
  {
    TextsSnoc(line, x);
    assert (Texts(line) + [x.text])[..|line|] == Texts(line);
  }

  function ChunkItems(chunks: seq<string>): (r: seq<Item>)
    ensures |r| == |chunks|
    ensures forall i {:trigger r[i]} :: 0 <= i < |chunks| ==> r[i] == Chunk(chunks[i])
  {
    if chunks == [] then [] else ChunkItems(chunks[..|chunks| - 1]) + [Chunk(chunks[|chunks| - 1])]
  }

  function ChunkLines(chunks: seq<string>): (r: seq<seq<Item>>)
    ensures |r| == |chunks|
    ensures forall i {:trigger r[i]} :: 0 <= i < |chunks| ==> r[i] == [Chunk(chunks[i])]
  {
    if chunks == [] then [] else ChunkLines(chunks[..|chunks| - 1]) + [[Chunk(chunks[|chunks| - 1])]]
  }

  lemma ChunkSnoc(chunks: seq<string>, c: string)
    ensures ChunkItems(chunks + [c]) == ChunkItems(chunks) + [Chunk(c)]
    ensures ChunkLines(chunks + [c]) == ChunkLines(chunks) + [[Chunk(c)]]
  {
    assert (chunks + [c])[..|chunks|] == chunks;
  }

  lemma GreedyChunk(items: seq<Item>, c: string, width: nat)
    ensures Greedy(items + [Chunk(c)], width) == Greedy(items, width) + [[Chunk(c)]]
  {
    GreedySnoc(items, Chunk(c), width);
  }

  /** Each piece of an over-long word is a line of its own. */
  lemma {:induction false} GreedyChunks(items: seq<Item>, chunks: seq<string>, width: nat)
    ensures Greedy(items + ChunkItems(chunks), width) == Greedy(items, width) + ChunkLines(chunks)
  {
    if chunks == [] {
      assert items + ChunkItems(chunks) == items;
    } else {
      var init, c := Init(chunks), Last(chunks);
      GreedyChunks(items, init, width);
      assert chunks == init + [c];
      ChunkSnoc(init, c);
      assert items + ChunkItems(chunks) == (items + ChunkItems(init)) + [Chunk(c)];
      GreedyChunk(items + ChunkItems(init), c, width);
      SnocAssoc(Greedy(items, width), ChunkLines(init), [Chunk(c)]);
    }
  }

  lemma SnocAssoc<T>(a: seq<T>, b: seq<T>, x: T)
    ensures (a + b) + [x] == a + (b + [x])
  {
  }

  lemma RenderOneMore(lines: seq<seq<Item>>, chunks: seq<string>, c: string)
    requires RenderAll(lines + ChunkLines(chunks)) == RenderAll(lines) + chunks
    ensures RenderAll(lines + ChunkLines(chunks + [c])) == RenderAll(lines) + (chunks + [c])
  {
    ChunkSnoc(chunks, c);
    SnocAssoc(lines, ChunkLines(chunks), [Chunk(c)]);
    RenderAllSnoc(lines + ChunkLines(chunks), [Chunk(c)]);
    TextsSnoc([], Chunk(c));
    SnocAssoc(RenderAll(lines), chunks, c);
  }

  lemma {:induction false} RenderChunkLines(lines: seq<seq<Item>>, chunks: seq<string>)
    ensures RenderAll(lines + ChunkLines(chunks)) == RenderAll(lines) + chunks
  {
    if chunks == [] {
      assert lines + ChunkLines(chunks) == lines;
    } else {
      RenderChunkLines(lines, Init(chunks));
      RenderOneMore(lines, Init(chunks), Last(chunks));
      assert chunks == Init(chunks) + [Last(chunks)];
    }
  }

  lemma RenderChunks(lines: seq<seq<Item>>, chunks: seq<string>)
    requires chunks != []
    ensures Buffered(lines + ChunkLines(chunks), RenderAll(lines) + chunks, "")
  {
    RenderChunkLines(lines, chunks);
    assert Last(lines + ChunkLines(chunks)) == ChunkLines(chunks)[|chunks| - 1];
  }

  // ---------- Words and pieces ----------

  lemma {:induction false} FieldsAreWords(s: string)
    ensures forall i :: 0 <= i < |Fields(s)| ==> IsWord(Fields(s)[i]) && |Fields(s)[i]| <= |s|
    decreases |s|
  {
    if s != "" {
      if IsSpace(s[0]) {
        FieldsAreWords(s[1..]);
      } else {
        FieldsAreWords(s[WordEnd(s)..]);
      }
    }
  }

  /** `k` is `n / width`, rounded up. */
  ghost predicate RoundsUp(k: nat, n: nat, width: nat) {
    n <= k * width && (k == 0 || (k - 1) * width < n)
  }

  lemma {:induction false} ChunksSpell(word: string, width: nat)
    requires width > 0
    ensures Concat(Chunks(word, width)) == word
    decreases |word|
  {
    if |word| <= width {
      if word != "" {
        ConcatOne(word);
      }
    } else {
      ChunksSpell(word[width..], width);
      ConcatCons(word[..width], Chunks(word[width..], width));
      assert word[..width] + word[width..] == word;
    }
  }

  /** An over-long word gives ceil(n / width) pieces, all full but perhaps the last, that spell the word. */
  lemma {:induction false} ChunksExact(word: string, width: nat)
    requires width > 0
    ensures RoundsUp(|Chunks(word, width)|, |word|, width)
    ensures forall i :: 0 <= i < |Chunks(word, width)| - 1 ==> |Chunks(word, width)[i]| == width
    ensures forall i :: 0 <= i < |Chunks(word, width)| ==> 0 < |Chunks(word, width)[i]| <= width
    ensures Concat(Chunks(word, width)) == word
    decreases |word|
  {
    ChunksSpell(word, width);
    if |word| > width {
      ChunksExact(word[width..], width);
      var k := |Chunks(word[width..], width)|;
      assert k != 0;
      assert (k + 1) * width == k * width + width == (k - 1) * width + 2 * width;
    }
  }
}
