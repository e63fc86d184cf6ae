/** The fallback for a file without symbols: cut by lines. */
module LineChunks {
  import opened Prelude
  import opened Spans
  import opened Text
  import opened Chunking

  /** Characters of the lines with their line breaks. */
  function CharCount(lines: seq<string>): nat {
    if lines == [] then 0 else CharCount(lines[..|lines| - 1]) + |lines[|lines| - 1]| + 1
  }

  lemma CountOneMore(current: seq<string>, line: string)
    ensures CharCount(current + [line]) == CharCount(current) + |line| + 1
  {
    assert (current + [line])[..|current|] == current;
  }

  /** int(tokens * 3.6), which truncates toward zero. */
  function MaxChars(maxTokens: int): int {
    if maxTokens >= 0 then maxTokens * 18 / 5 else -(-maxTokens * 18 / 5)
  }

  /** The limit in characters is 3.6 a token, cut toward zero. */
  lemma MaxCharsCutsTowardZero(maxTokens: int)
    ensures maxTokens >= 0 ==> 5 * MaxChars(maxTokens) <= 18 * maxTokens < 5 * MaxChars(maxTokens) + 5
    ensures maxTokens <= 0 ==> 5 * MaxChars(maxTokens) - 5 < 18 * maxTokens <= 5 * MaxChars(maxTokens)
  {
  }

  predicate AllBlank(lines: seq<string>) {
    forall i :: 0 <= i < |lines| ==> Blank(lines[i])
  }

  // ---------------------------------------------------------------- what the fallback promises

  /** A non-empty range of lines, carrying their text. */
  ghost predicate RangeChunk(c: CodeChunk, index: nat, lines: seq<string>) {
    && c.index == index && c.symbols == [] && c.truncated
    && 1 <= c.lineStart <= c.lineEnd <= |lines|
    && c.source == Join("\n", lines[c.lineStart - 1..c.lineEnd])
  }

  /** The chunk ends at the first line where the limit is reached. */
  ghost predicate CutAtLimit(c: CodeChunk, lines: seq<string>, maxChars: int) {
    && 1 <= c.lineStart <= c.lineEnd <= |lines|
    && CharCount(lines[c.lineStart - 1..c.lineEnd]) >= maxChars
    && (c.lineStart < c.lineEnd ==> CharCount(lines[c.lineStart - 1..c.lineEnd - 1]) < maxChars)
  }

  /** The chunks split the lines after `from`: each range starts where the one before
      ended, each is cut at the limit unless it ends the file, and what no chunk covers
      is blank. */
  ghost predicate IsLineSplit(chunks: seq<CodeChunk>, lines: seq<string>, from: nat, index: nat, maxChars: int)
    decreases |chunks|
  {
    if chunks == [] then from <= |lines| && AllBlank(lines[from..])
    else
      var c := chunks[0];
      && c.lineStart == from + 1 && RangeChunk(c, index, lines)
      && (CutAtLimit(c, lines, maxChars) || c.lineEnd == |lines|)
      && IsLineSplit(chunks[1..], lines, c.lineEnd, index + 1, maxChars)
  }

  /** No gap and no overlap: line 1 first, then each range starts right after the one before. */
  lemma {:induction false} RangesAreContiguous(chunks: seq<CodeChunk>, lines: seq<string>, from: nat, index: nat,
                                               maxChars: int, k: nat)
    requires IsLineSplit(chunks, lines, from, index, maxChars) && k < |chunks|
    ensures RangeChunk(chunks[k], index + k, lines)
    ensures chunks[k].lineStart == if k == 0 then from + 1 else chunks[k - 1].lineEnd + 1
    ensures CutAtLimit(chunks[k], lines, maxChars) || (k == |chunks| - 1 && chunks[k].lineEnd == |lines|)
    decreases |chunks|
  {
    if k > 0 {
      RangesAreContiguous(chunks[1..], lines, chunks[0].lineEnd, index + 1, maxChars, k - 1);
    } else if |chunks| > 1 {
      assert chunks[1..][0].lineStart == chunks[0].lineEnd + 1;
    }
  }

  /** The texts of the chunks, with the text of the dropped tail after them if there is one. */
  function Pieces(chunks: seq<CodeChunk>, lines: seq<string>, from: int): seq<string> {
    if chunks != [] then [chunks[0].source] + Pieces(chunks[1..], lines, chunks[0].lineEnd)
    else if 0 <= from < |lines| then [Join("\n", lines[from..])]
    else []
  }

  lemma {:induction false} PiecesRebuild(chunks: seq<CodeChunk>, lines: seq<string>, from: nat, index: nat,
                                         maxChars: int)
    requires IsLineSplit(chunks, lines, from, index, maxChars) && from < |lines|
    ensures Join("\n", Pieces(chunks, lines, from)) == Join("\n", lines[from..])
    decreases |chunks|
  {
    if chunks != [] {
      var mid := chunks[0].lineEnd;
      var rest := Pieces(chunks[1..], lines, mid);
      if mid < |lines| {
        PiecesRebuild(chunks[1..], lines, mid, index + 1, maxChars);
        JoinConcat("\n", [chunks[0].source], rest);
        JoinConcat("\n", lines[from..mid], lines[mid..]);
        assert lines[from..mid] + lines[mid..] == lines[from..];
      } else {
        NothingAfterTheEnd(chunks[1..], lines, index + 1, maxChars);
        assert lines[from..mid] == lines[from..];
      }
    }
  }

  lemma NothingAfterTheEnd(chunks: seq<CodeChunk>, lines: seq<string>, index: nat, maxChars: int)
    requires IsLineSplit(chunks, lines, |lines|, index, maxChars)
    ensures chunks == [] && Pieces(chunks, lines, |lines|) == []
  {
  }

  // ---------------------------------------------------------------- the loop

  /** The chunks still to come when line `i` is next and `current` is pending since `startLine`. */
  function CutFrom(lines: seq<string>, i: nat, current: seq<string>, startLine: int, index: nat,
                   maxChars: int): seq<CodeChunk>
    requires i <= |lines|
    decreases |lines| - i
  {
    if i == |lines| then
      if AllBlank(current) then [] else [CodeChunk(index, Join("\n", current), [], startLine, i, true)]
    else
      var grown := current + [lines[i]];
      if CharCount(grown) >= maxChars then
        [CodeChunk(index, Join("\n", grown), [], startLine, i + 1, true)]
          + CutFrom(lines, i + 1, [], i + 2, index + 1, maxChars)
      else
        CutFrom(lines, i + 1, grown, startLine, index, maxChars)
  }

  lemma SliceOneMore(lines: seq<string>, from: nat, i: nat)
    requires from <= i < |lines|
    ensures lines[from..i] + [lines[i]] == lines[from..i + 1]
  {
  }

  lemma OneRangeMore(lines: seq<string>, i: nat, current: seq<string>, from: nat, index: nat, maxChars: int,
                     rest: seq<CodeChunk>)
    requires from <= i < |lines| && current == lines[from..i]
    requires CharCount(current + [lines[i]]) >= maxChars && (current != [] ==> CharCount(current) < maxChars)
    requires IsLineSplit(rest, lines, i + 1, index + 1, maxChars)
    ensures var c := CodeChunk(index, Join("\n", current + [lines[i]]), [], from + 1, i + 1, true);
            IsLineSplit([c] + rest, lines, from, index, maxChars)
  {
    var c := CodeChunk(index, Join("\n", current + [lines[i]]), [], from + 1, i + 1, true);
    SliceOneMore(lines, from, i);
    assert ([c] + rest)[1..] == rest;
    assert CutAtLimit(c, lines, maxChars);
  }

  /** What is still to come splits the lines from the pending ones on. */
  ghost predicate CutIsRight(lines: seq<string>, i: nat, current: seq<string>, from: nat, index: nat, maxChars: int)
    requires i <= |lines|
  {
    IsLineSplit(CutFrom(lines, i, current, from + 1, index, maxChars), lines, from, index, maxChars)
  }

  lemma CutAtTheEnd(lines: seq<string>, current: seq<string>, from: nat, index: nat, maxChars: int)
    requires from <= |lines| && current == lines[from..]
    ensures CutIsRight(lines, |lines|, current, from, index, maxChars)
  {
    if !AllBlank(current) {
      var c := CodeChunk(index, Join("\n", current), [], from + 1, |lines|, true);
      assert lines[from..|lines|] == current && [c][1..] == [];
      assert CutFrom(lines, |lines|, current, from + 1, index, maxChars) == [c];
      assert AllBlank(lines[|lines|..]);
    }
  }

  lemma CutAtALimit(lines: seq<string>, i: nat, current: seq<string>, from: nat, index: nat, maxChars: int)
    requires from <= i < |lines| && current == lines[from..i]
    requires CharCount(current + [lines[i]]) >= maxChars && (current != [] ==> CharCount(current) < maxChars)
    requires CutIsRight(lines, i + 1, [], i + 1, index + 1, maxChars)
    ensures CutIsRight(lines, i, current, from, index, maxChars)
  {
    OneRangeMore(lines, i, current, from, index, maxChars, CutFrom(lines, i + 1, [], i + 2, index + 1, maxChars));
  }

  lemma NoCutYet(lines: seq<string>, i: nat, current: seq<string>, from: nat, index: nat, maxChars: int)
    requires i < |lines| && CharCount(current + [lines[i]]) < maxChars
    requires CutIsRight(lines, i + 1, current + [lines[i]], from, index, maxChars)
    ensures CutIsRight(lines, i, current, from, index, maxChars)
  {
    assert CutFrom(lines, i, current, from + 1, index, maxChars)
        == CutFrom(lines, i + 1, current + [lines[i]], from + 1, index, maxChars);
  }

  lemma {:induction false} CutFromIsLineSplit(lines: seq<string>, i: nat, current: seq<string>, from: nat, index: nat,
                                              maxChars: int)
    requires from <= i <= |lines| && current == lines[from..i]
    requires current != [] ==> CharCount(current) < maxChars
    ensures CutIsRight(lines, i, current, from, index, maxChars)
    decreases |lines| - i
  {
    if i == |lines| {
      CutAtTheEnd(lines, current, from, index, maxChars);
    } else if CharCount(current + [lines[i]]) >= maxChars {
      assert lines[i + 1..i + 1] == [];
      CutFromIsLineSplit(lines, i + 1, [], i + 1, index + 1, maxChars);
      CutAtALimit(lines, i, current, from, index, maxChars);
    } else {
      SliceOneMore(lines, from, i);
      CutFromIsLineSplit(lines, i + 1, current + [lines[i]], from, index, maxChars);
      NoCutYet(lines, i, current, from, index, maxChars);
    }
  }

  /** On every file and every limit: contiguous ranges from line 1, only blank lines
      dropped, and the pieces joined by line breaks are the source again. */
  lemma FallbackLosesOnlyBlankLines(source: string, maxChars: int)
    ensures var lines := SplitLines(source);
            var chunks := CutFrom(lines, 0, [], 1, 0, maxChars);
            && IsLineSplit(chunks, lines, 0, 0, maxChars)
            && Join("\n", Pieces(chunks, lines, 0)) == source
  {
    var lines := SplitLines(source);
    var chunks := CutFrom(lines, 0, [], 1, 0, maxChars);
    CutFromIsLineSplit(lines, 0, [], 0, 0, maxChars);
    PiecesRebuild(chunks, lines, 0, 0, maxChars);
    JoinSplitLines(source);
    assert lines[0..] == lines;
  }

  lemma CutHere(chunks: seq<CodeChunk>, lines: seq<string>, i: nat, current: seq<string>, startLine: int,
                maxChars: int, c: CodeChunk)
    requires i < |lines| && CharCount(current + [lines[i]]) >= maxChars
    requires c == CodeChunk(|chunks|, Join("\n", current + [lines[i]]), [], startLine, i + 1, true)
    ensures chunks + CutFrom(lines, i, current, startLine, |chunks|, maxChars)
         == (chunks + [c]) + CutFrom(lines, i + 1, [], i + 2, |chunks| + 1, maxChars)
  {
  }

  /** _fallback_line_chunks. */
  method FallbackLineChunks(parsed: ParsedFile, maxTokens: int) returns (chunks: seq<CodeChunk>)
    ensures chunks == CutFrom(SplitLines(parsed.source), 0, [], 1, 0, MaxChars(maxTokens))
  {
    var lines := SplitLines(parsed.source);
    var maxChars := MaxChars(maxTokens);
    chunks := [];
    var current: seq<string> := [];
    var currentChars := 0;
    var startLine := 1;
    for i := 0 to |lines|
      invariant currentChars == CharCount(current)
      invariant chunks + CutFrom(lines, i, current, startLine, |chunks|, maxChars)
             == CutFrom(lines, 0, [], 1, 0, maxChars)
    {
      CountOneMore(current, lines[i]);
      ghost var before := current;
      current := current + [lines[i]];
      currentChars := currentChars + |lines[i]| + 1;
      if currentChars >= maxChars {
        var chunk := CodeChunk(|chunks|, Join("\n", current), [], startLine, i + 1, true);
        CutHere(chunks, lines, i, before, startLine, maxChars, chunk);
        chunks := chunks + [chunk];
        current, currentChars := [], 0;
        startLine := i + 2;
      }
    }
    if current != [] && !AllBlank(current) {
      chunks := chunks + [CodeChunk(|chunks|, Join("\n", current), [], startLine, |lines|, true)];
    }
  }

  /** build_chunks. */
  method BuildChunks(parsed: ParsedFile, maxTokens: int, includeHeader: bool) returns (chunks: seq<CodeChunk>)
    ensures parsed.symbols == [] ==>
              && IsLineSplit(chunks, SplitLines(parsed.source), 0, 0, MaxChars(maxTokens))
              && Join("\n", Pieces(chunks, SplitLines(parsed.source), 0)) == parsed.source
    ensures parsed.symbols != [] ==>
              && Flatten(SymbolLists(chunks)) == parsed.symbols
              && (forall i :: 0 <= i < |chunks| ==> chunks[i].index == i && chunks[i].symbols != [])
              && SymbolLists(chunks) == Pack(parsed.symbols, BudgetFor(maxTokens, HeaderFor(parsed, includeHeader)))
    ensures parsed.symbols != [] ==>
              var header := HeaderFor(parsed, includeHeader);
              Renders(chunks, Pack(parsed.symbols, BudgetFor(maxTokens, header)), header, BudgetFor(maxTokens, header))
  {
    if parsed.symbols == [] {
      chunks := FallbackLineChunks(parsed, maxTokens);
      FallbackLosesOnlyBlankLines(parsed.source, MaxChars(maxTokens));
    } else {
      chunks := PackSymbols(parsed, maxTokens, includeHeader);
      var header := HeaderFor(parsed, includeHeader);
      ChunksAreLossless(parsed.symbols, BudgetFor(maxTokens, header), header, chunks);
    }
  }
}
