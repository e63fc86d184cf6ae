/** Splitting a file into chunks for one model call each, as chunking.py does. */
module Chunking {
  import opened Prelude
  import opened Spans
  import opened Text

  datatype CodeChunk = CodeChunk(index: nat, source: string, symbols: seq<SymbolSpan>, lineStart: int, lineEnd: int,
                                 truncated: bool)

  /** int(chars / 3.6) + 1, with 3.6 taken as the exact rational 18/5. */
  function TokensOfLength(chars: nat): nat {
    chars * 5 / 18 + 1
  }

  function EstimateTokens(text: string): nat {
    TokensOfLength(|text|)
  }

  function Tokens(symbol: SymbolSpan): nat {
    EstimateTokens(symbol.source)
  }

  function Weight(run: seq<SymbolSpan>): nat {
    if run == [] then 0 else Tokens(run[0]) + Weight(run[1..])
  }

  // ---------------------------------------------------------------- greedy packing

  /** How many of the next symbols still fit into `room`. */
  function Extend(symbols: seq<SymbolSpan>, room: int): nat {
    if symbols == [] || Tokens(symbols[0]) > room then 0
    else 1 + Extend(symbols[1..], room - Tokens(symbols[0]))
  }

  function FirstRun(symbols: seq<SymbolSpan>, budget: nat): (k: nat)
    requires symbols != []
    ensures 1 <= k <= |symbols|
  {
    ExtendBound(symbols, budget);
    if Tokens(symbols[0]) > budget then 1 else Extend(symbols, budget)
  }

  lemma {:induction false} ExtendBound(symbols: seq<SymbolSpan>, room: int)
    ensures Extend(symbols, room) <= |symbols|
  {
    if symbols != [] && Tokens(symbols[0]) <= room {
      ExtendBound(symbols[1..], room - Tokens(symbols[0]));
    }
  }

  function Pack(symbols: seq<SymbolSpan>, budget: nat): seq<seq<SymbolSpan>>
    decreases |symbols|
  {
    if symbols == [] then []
    else
      var k := FirstRun(symbols, budget);
      [symbols[..k]] + Pack(symbols[k..], budget)
  }

  function Flatten(runs: seq<seq<SymbolSpan>>): seq<SymbolSpan> {
    if runs == [] then [] else runs[0] + Flatten(runs[1..])
  }

  /** A run that may be sent as one chunk: within budget, or one symbol alone. */
  predicate Fits(run: seq<SymbolSpan>, budget: nat) {
    run != [] && (Weight(run) <= budget || |run| == 1)
  }

  /** A split of the symbols into contiguous runs, each of which may be sent. */
  ghost predicate IsSplit(runs: seq<seq<SymbolSpan>>, symbols: seq<SymbolSpan>, budget: nat) {
    Flatten(runs) == symbols && forall r :: 0 <= r < |runs| ==> Fits(runs[r], budget)
  }

  lemma {:induction false} ExtendIsLongest(symbols: seq<SymbolSpan>, room: int, k: nat)
    requires k <= |symbols|
    ensures k <= Extend(symbols, room) <==> k == 0 || Weight(symbols[..k]) <= room
  {
    if k > 0 {
      assert symbols[..k][1..] == symbols[1..][..k - 1];
      if Tokens(symbols[0]) <= room {
        ExtendIsLongest(symbols[1..], room - Tokens(symbols[0]), k - 1);
        if k == 1 {
          assert Weight(symbols[..k][1..]) == 0;
        }
      }
    }
  }

  /** The first greedy run is the longest prefix that may be sent. */
  lemma FirstRunIsLongest(symbols: seq<SymbolSpan>, budget: nat, k: nat)
    requires symbols != [] && k <= |symbols|
    ensures Fits(symbols[..FirstRun(symbols, budget)], budget)
    ensures Fits(symbols[..k], budget) ==> k <= FirstRun(symbols, budget)
  {
    var first := FirstRun(symbols, budget);
    ExtendBound(symbols, budget);
    ExtendIsLongest(symbols, budget, first);
    ExtendIsLongest(symbols, budget, k);
  }

  /** The greedy split is a split: nothing lost, nothing repeated, order kept. */
  lemma {:induction false} PackIsSplit(symbols: seq<SymbolSpan>, budget: nat)
    ensures IsSplit(Pack(symbols, budget), symbols, budget)
    decreases |symbols|
  {
    if symbols != [] {
      var k := FirstRun(symbols, budget);
      FirstRunIsLongest(symbols, budget, k);
      PackIsSplit(symbols[k..], budget);
      OneRunMore(symbols, k, Pack(symbols[k..], budget), budget);
    }
  }

  lemma OneRunMore(symbols: seq<SymbolSpan>, k: nat, rest: seq<seq<SymbolSpan>>, budget: nat)
    requires k <= |symbols| && Fits(symbols[..k], budget) && IsSplit(rest, symbols[k..], budget)
    ensures IsSplit([symbols[..k]] + rest, symbols, budget)
  {
    assert ([symbols[..k]] + rest)[1..] == rest;
    assert symbols[..k] + symbols[k..] == symbols;
  }

  lemma {:induction false} WeightOfTail(run: seq<SymbolSpan>, i: nat)
    requires i <= |run|
    ensures Weight(run[i..]) <= Weight(run)
  {
    if i > 0 {
      WeightOfTail(run[1..], i - 1);
      assert run[1..][i - 1..] == run[i..];
    }
  }

  /** The first run after dropping i symbols reaches at least as far as the one before. */
  lemma LaterRunEndsNoEarlier(symbols: seq<SymbolSpan>, budget: nat, i: nat)
    requires symbols != [] && i < FirstRun(symbols, budget)
    ensures symbols[i..] != [] && FirstRun(symbols, budget) <= i + FirstRun(symbols[i..], budget)
  {
    var k := FirstRun(symbols, budget);
    FirstRunIsLongest(symbols, budget, k);
    WeightOfTail(symbols[..k], i);
    assert symbols[..k][i..] == symbols[i..][..k - i];
    FirstRunIsLongest(symbols[i..], budget, k - i);
  }

  /** Dropping symbols from the front never costs a chunk. */
  lemma {:induction false} FewerSymbolsFewerChunks(symbols: seq<SymbolSpan>, budget: nat, i: nat)
    requires i <= |symbols|
    ensures |Pack(symbols[i..], budget)| <= |Pack(symbols, budget)|
    decreases |symbols|
  {
    if i < |symbols| && i > 0 {
      var k := FirstRun(symbols, budget);
      if i >= k {
        FewerSymbolsFewerChunks(symbols[k..], budget, i - k);
        assert symbols[k..][i - k..] == symbols[i..];
      } else {
        var rest := symbols[i..];
        var r := FirstRun(rest, budget);
        LaterRunEndsNoEarlier(symbols, budget, i);
        FewerSymbolsFewerChunks(symbols[k..], budget, i + r - k);
        assert symbols[k..][i + r - k..] == rest[r..];
      }
    } else if i == 0 {
      assert symbols[0..] == symbols;
    }
  }

  /** Optimality: no split into runs that may be sent uses fewer chunks. */
  lemma {:induction false} PackIsOptimal(symbols: seq<SymbolSpan>, budget: nat, runs: seq<seq<SymbolSpan>>)
    requires IsSplit(runs, symbols, budget)
    ensures |Pack(symbols, budget)| <= |runs|
    decreases |runs|
  {
    if symbols != [] {
      var k := FirstRun(symbols, budget);
      var q := |runs[0]|;
      assert symbols[..q] == runs[0] && symbols[q..] == Flatten(runs[1..]);
      FirstRunIsLongest(symbols, budget, q);
      PackIsOptimal(symbols[q..], budget, runs[1..]);
      FewerSymbolsFewerChunks(symbols[q..], budget, k - q);
      assert symbols[q..][k - q..] == symbols[k..];
    }
  }

  /** A run that is full, because nothing follows or the next symbol does not fit,
      is where the greedy split cuts. */
  lemma FullRunIsCut(run: seq<SymbolSpan>, rest: seq<SymbolSpan>, budget: nat)
    requires run != [] && Weight(run) <= budget
    requires rest == [] || Weight(run) + Tokens(rest[0]) > budget
    ensures Pack(run + rest, budget) == [run] + Pack(rest, budget)
  {
    var all := run + rest;
    var k := FirstRun(all, budget);
    assert all[..|run|] == run && all[|run|..] == rest;
    FirstRunIsLongest(all, budget, |run|);
    if k > |run| {
      FirstRunIsLongest(all, budget, k);
      WeightOfPrefix(all, |run| + 1, k);
      assert all[..|run| + 1] == run + [rest[0]];
      WeightOfConcat(run, [rest[0]]);
    }
  }

  lemma {:induction false} WeightOfConcat(a: seq<SymbolSpan>, b: seq<SymbolSpan>)
    ensures Weight(a + b) == Weight(a) + Weight(b)
  {
    if a == [] {
      assert a + b == b;
    } else {
      WeightOfConcat(a[1..], b);
      assert (a + b)[1..] == a[1..] + b;
    }
  }

  lemma WeightOfPrefix(run: seq<SymbolSpan>, i: nat, k: nat)
    requires i <= k <= |run|
    ensures Weight(run[..i]) <= Weight(run[..k])
  {
    assert run[..i] + run[i..k] == run[..k];
    WeightOfConcat(run[..i], run[i..k]);
  }

  // ---------------------------------------------------------------- chunks

  function Sources(symbols: seq<SymbolSpan>): seq<string> {
    seq(|symbols|, i requires 0 <= i < |symbols| => symbols[i].source)
  }

  function Names(symbols: seq<SymbolSpan>): seq<string> {
    seq(|symbols|, i requires 0 <= i < |symbols| => symbols[i].name)
  }

  const FILE_LABEL: string := "// Arquivo: "
  const LANGUAGE_LABEL: string := "\n// Linguagem: "
  const SYMBOLS_LABEL: string := "\n// Simbolos no arquivo: "

  function FileHeader(parsed: ParsedFile): string {
    var joined := Join(", ", Names(parsed.symbols[..Min(40, |parsed.symbols|)]));
    var names := if joined == "" then "nenhum" else joined;
    FILE_LABEL + parsed.path + LANGUAGE_LABEL + parsed.language + SYMBOLS_LABEL + names + "\n\n"
  }

  function FirstLine(run: seq<SymbolSpan>): int
    requires run != []
  {
    if |run| == 1 then run[0].lineStart else Min(run[0].lineStart, FirstLine(run[1..]))
  }

  function LastLine(run: seq<SymbolSpan>): int
    requires run != []
  {
    if |run| == 1 then run[0].lineEnd else Max(run[0].lineEnd, LastLine(run[1..]))
  }

  function MakeChunk(index: nat, run: seq<SymbolSpan>, header: string): CodeChunk
    requires run != []
  {
    CodeChunk(index, header + Join("\n\n", Sources(run)), run, FirstLine(run), LastLine(run), false)
  }

  const TRUNCATION_MARK: string := "\n\n// [TRUNCADO] O corpo desta funcao excede o limite do modelo."

  function MakeOversizedChunk(index: nat, symbol: SymbolSpan, header: string, budget: nat): CodeChunk {
    var maxChars := budget * 18 / 5;
    var truncated := |symbol.source| > maxChars;
    var source := if truncated then symbol.source[..maxChars] + TRUNCATION_MARK else symbol.source;
    CodeChunk(index, header + source, [symbol], symbol.lineStart, symbol.lineEnd, truncated)
  }

  function ChunkOf(index: nat, run: seq<SymbolSpan>, header: string, budget: nat): CodeChunk
    requires run != []
  {
    if Tokens(run[0]) > budget then MakeOversizedChunk(index, run[0], header, budget) else MakeChunk(index, run, header)
  }

  function SymbolLists(chunks: seq<CodeChunk>): seq<seq<SymbolSpan>> {
    seq(|chunks|, i requires 0 <= i < |chunks| => chunks[i].symbols)
  }

  lemma {:induction false} LinesCover(run: seq<SymbolSpan>, i: nat)
    requires i < |run|
    ensures FirstLine(run) <= run[i].lineStart && run[i].lineEnd <= LastLine(run)
    ensures exists k :: 0 <= k < |run| && run[k].lineStart == FirstLine(run)
    ensures exists k :: 0 <= k < |run| && run[k].lineEnd == LastLine(run)
  {
    if |run| == 1 {
      assert run[0].lineStart == FirstLine(run) && run[0].lineEnd == LastLine(run);
    } else {
      LinesCover(run[1..], if i == 0 then 0 else i - 1);
      var a :| 0 <= a < |run[1..]| && run[1..][a].lineStart == FirstLine(run[1..]);
      var b :| 0 <= b < |run[1..]| && run[1..][b].lineEnd == LastLine(run[1..]);
      assert run[a + 1].lineStart == FirstLine(run[1..]) && run[b + 1].lineEnd == LastLine(run[1..]);
      assert run[0].lineStart == FirstLine(run) || run[a + 1].lineStart == FirstLine(run);
      assert run[0].lineEnd == LastLine(run) || run[b + 1].lineEnd == LastLine(run);
    }
  }

  // ---------------------------------------------------------------- the token bound

  lemma {:induction false} WeightBoundsLength(run: seq<SymbolSpan>)
    ensures 18 * Weight(run) >= 5 * TotalLength(Sources(run)) + |run|
  {
    if run != [] {
      WeightBoundsLength(run[1..]);
      assert Sources(run)[1..] == Sources(run[1..]);
    }
  }

  /** The real size of a chunk of k symbols: header, budget, and at most one token
      for every two symbols, from the blank lines between them. */
  lemma ChunkTokensAreBounded(index: nat, run: seq<SymbolSpan>, header: string, budget: nat)
    requires run != [] && Weight(run) <= budget
    ensures EstimateTokens(MakeChunk(index, run, header).source) <= EstimateTokens(header) + budget + |run| / 2
  {
    JoinLength("\n\n", Sources(run));
    WeightBoundsLength(run);
  }

  /** A symbol over budget goes alone: whole, or cut to a prefix that fills the budget and
      marked, and only the mark comes on top of header and budget. */
  lemma OversizedChunkIsBounded(index: nat, symbol: SymbolSpan, header: string, budget: nat)
    requires Tokens(symbol) > budget
    ensures var c := MakeOversizedChunk(index, symbol, header, budget);
            && c.symbols == [symbol]
            && (!c.truncated ==> c.source == header + symbol.source)
            && (c.truncated ==> exists k :: 0 <= k < |symbol.source| && EstimateTokens(symbol.source[..k]) >= budget
                                            && c.source == header + symbol.source[..k] + TRUNCATION_MARK)
            && EstimateTokens(c.source) <= EstimateTokens(header) + budget + 1 + EstimateTokens(TRUNCATION_MARK)
  {
    var c := MakeOversizedChunk(index, symbol, header, budget);
    var k := budget * 18 / 5;
    if c.truncated {
      assert c.source == header + symbol.source[..k] + TRUNCATION_MARK;
      assert EstimateTokens(symbol.source[..k]) >= budget;
    }
  }

  lemma {:induction false} SevenCharacters(run: seq<SymbolSpan>)
    requires forall i :: 0 <= i < |run| ==> |run[i].source| == 7
    ensures Weight(run) == 2 * |run| && TotalLength(Sources(run)) == 7 * |run|
  {
    if run != [] {
      SevenCharacters(run[1..]);
      assert Sources(run)[1..] == Sources(run[1..]);
    }
  }

  /** The bound is reached for every number of symbols: sources and header of seven
      characters round up so little that every second blank line costs a token. */
  lemma HalfATokenEachIsReached(index: nat, run: seq<SymbolSpan>, header: string)
    requires run != [] && |header| == 7 && forall i :: 0 <= i < |run| ==> |run[i].source| == 7
    ensures EstimateTokens(MakeChunk(index, run, header).source) == EstimateTokens(header) + Weight(run) + |run| / 2
  {
    SevenCharacters(run);
    JoinLength("\n\n", Sources(run));
  }

  /** A chunk of k symbols in budget stays within header and budget. */
  ghost predicate StaysWithin(index: nat, run: seq<SymbolSpan>, header: string, budget: nat, k: nat) {
    run != [] && |run| == k && Weight(run) <= budget ==>
      EstimateTokens(MakeChunk(index, run, header).source) <= EstimateTokens(header) + budget
  }

  /** Every chunk of k symbols in a budget of at least `least` stays within header and budget. */
  ghost predicate KeptByAll(header: string, least: nat, k: nat) {
    forall index, run, budget :: budget >= least ==> StaysWithin(index, run, header, budget, k)
  }

  lemma {:induction false} AlikeSources(run: seq<SymbolSpan>, source: string)
    requires forall i :: 0 <= i < |run| ==> run[i].source == source
    ensures Weight(run) == |run| * EstimateTokens(source) && TotalLength(Sources(run)) == |run| * |source|
  {
    if run != [] {
      AlikeSources(run[1..], source);
      assert Sources(run)[1..] == Sources(run[1..]);
    }
  }

  /** A function of 18n + 7 characters, one of the lengths that lose least by rounding up. */
  function Costly(n: nat): (source: string)
    requires n >= 1
    ensures |source| == 18 * n + 7 && EstimateTokens(source) == 5 * n + 2
  {
    "def f(): " + seq(18 * n - 2, i => '1')
  }

  /** The i-th of such functions in a file that separates them by a blank line. */
  function CostlyAt(n: nat, i: nat): SymbolSpan
    requires n >= 1
  {
    SymbolSpan("f", "function", Costly(n), 2 * i + 1, 2 * i + 1, i * (18 * n + 9), i * (18 * n + 9) + 18 * n + 7, None,
               "def f():", 1)
  }

  function CostlyRun(k: nat, n: nat): (run: seq<SymbolSpan>)
    requires k >= 1 && n >= 1
    ensures |run| == k
  {
    seq(k, i requires 0 <= i < k => CostlyAt(n, i))
  }

  lemma CostlyTokens(k: nat, n: nat, header: string)
    requires k >= 1 && n >= 1
    ensures Weight(CostlyRun(k, n)) == k * (5 * n + 2) >= n
    ensures EstimateTokens(MakeChunk(0, CostlyRun(k, n), header).source)
         == EstimateTokens(header) + Weight(CostlyRun(k, n)) + (9 * k + 5 * |header| % 18 - 10) / 18
  {
    var run := CostlyRun(k, n);
    AlikeSources(run, Costly(n));
    JoinLength("\n\n", Sources(run));
    ScaledSizes(k, n);
  }

  lemma ScaledSizes(k: nat, n: nat)
    requires k >= 1
    ensures 5 * (k * (18 * n + 7)) == 18 * (k * (5 * n + 2)) - k && k * (5 * n + 2) >= n
  {
    assert k * (18 * n + 7) == 18 * (k * n) + 7 * k && k * (5 * n + 2) == 5 * (k * n) + 2 * k;
    assert k * n >= n;
  }

  /** Exactly when the budget is kept, known before the symbols are: it depends on their
      number and on how far the header rounds up. No minimum budget changes that. */
  lemma BudgetIsKeptExactlyWhen(header: string, least: nat, k: nat)
    requires k >= 1
    ensures KeptByAll(header, least, k) <==> 9 * k + 5 * |header| % 18 < 28
  {
    if 9 * k + 5 * |header| % 18 < 28 {
      forall index, run, budget
        ensures StaysWithin(index, run, header, budget, k)
      {
        if run != [] && |run| == k && Weight(run) <= budget {
          JoinLength("\n\n", Sources(run));
          WeightBoundsLength(run);
        }
      }
    } else {
      var run := CostlyRun(k, least + 1);
      CostlyTokens(k, least + 1, header);
      assert !StaysWithin(0, run, header, Weight(run), k);
    }
  }

  /** Every chunk of k symbols in budget that build_chunks returns for this file stays
      within header and budget. */
  ghost predicate KeptFor(parsed: ParsedFile, maxTokens: int, includeHeader: bool, k: nat) {
    var header := HeaderFor(parsed, includeHeader);
    var budget := BudgetFor(maxTokens, header);
    forall i :: 0 <= i < |Pack(parsed.symbols, budget)| ==>
      StaysWithin(i, Pack(parsed.symbols, budget)[i], header, budget, k)
  }

  /** The header of a file but for its path. */
  lemma PathLengthens(parsed: ParsedFile, path: string)
    ensures |FileHeader(parsed.(path := path))| == |FileHeader(parsed.(path := ""))| + |path|
  {
  }

  /** The symbols in a file whose path makes the header round up as little as two symbols need. */
  lemma FileOf(run: seq<SymbolSpan>) returns (parsed: ParsedFile)
    ensures parsed.symbols == run && |FileHeader(parsed)| % 18 == 2
  {
    var nameless := ParsedFile("", "python", Join("\n\n", Sources(run)), run, false);
    var path := seq(20 - |FileHeader(nameless)| % 18, i => 'p');
    PathLengthens(nameless, path);
    parsed := nameless.(path := path);
  }

  /** A file of k such functions is one chunk over budget. */
  lemma OverBudget(k: nat, includeHeader: bool) returns (parsed: ParsedFile, maxTokens: int)
    requires if includeHeader then k >= 2 else k >= 4
    ensures !KeptFor(parsed, maxTokens, includeHeader, k)
  {
    var run := CostlyRun(k, 512);
    parsed := FileOf(run);
    var header := HeaderFor(parsed, includeHeader);
    CostlyTokens(k, 512, header);
    maxTokens := Weight(run) + EstimateTokens(header);
    OneChunkOver(parsed, maxTokens, includeHeader);
  }

  /** A file that fills the budget exactly is one chunk. */
  lemma OneChunkOver(parsed: ParsedFile, maxTokens: int, includeHeader: bool)
    requires parsed.symbols != []
    requires var header := HeaderFor(parsed, includeHeader);
             && BudgetFor(maxTokens, header) == Weight(parsed.symbols)
             && EstimateTokens(MakeChunk(0, parsed.symbols, header).source)
                  > EstimateTokens(header) + Weight(parsed.symbols)
    ensures !KeptFor(parsed, maxTokens, includeHeader, |parsed.symbols|)
  {
    var run := parsed.symbols;
    FullRunIsCut(run, [], Weight(run));
    assert run + [] == run && Pack(run, Weight(run))[0] == run;
    assert !StaysWithin(0, run, HeaderFor(parsed, includeHeader), Weight(run), |run|);
  }

  /** Over all calls of build_chunks: the budget is kept by every chunk of k symbols if and
      only if k is one; without the file header, if and only if k is at most three. */
  lemma BudgetIsKeptExactlyByOneSymbol(k: nat)
    requires k >= 1
    ensures (forall parsed, maxTokens, includeHeader :: KeptFor(parsed, maxTokens, includeHeader, k)) <==> k == 1
    ensures (forall parsed, maxTokens :: KeptFor(parsed, maxTokens, false, k)) <==> k <= 3
  {
    if k == 1 {
      forall parsed, maxTokens, includeHeader
        ensures KeptFor(parsed, maxTokens, includeHeader, k)
      {
        FewStayWithin(parsed, maxTokens, includeHeader, k);
      }
    } else {
      var parsed, maxTokens := OverBudget(k, true);
    }
    if k <= 3 {
      forall parsed, maxTokens
        ensures KeptFor(parsed, maxTokens, false, k)
      {
        FewStayWithin(parsed, maxTokens, false, k);
      }
    } else {
      var parsed, maxTokens := OverBudget(k, false);
    }
  }

  lemma FewStayWithin(parsed: ParsedFile, maxTokens: int, includeHeader: bool, k: nat)
    requires k == 1 || (!includeHeader && 1 <= k <= 3)
    ensures KeptFor(parsed, maxTokens, includeHeader, k)
  {
    var header := HeaderFor(parsed, includeHeader);
    var least := BudgetFor(maxTokens, header);
    BudgetIsKeptExactlyWhen(header, least, k);
    assert KeptByAll(header, least, k);
  }

  /** Over budget as build_chunks returns it: a file of 256 symbols of seven characters
      under a limit that leaves the minimum budget is one chunk, at least 127 tokens over. */
  lemma BuiltChunkExceedsItsBudget(parsed: ParsedFile, maxTokens: int, includeHeader: bool, chunks: seq<CodeChunk>)
    requires |parsed.symbols| == 256 && forall i :: 0 <= i < 256 ==> |parsed.symbols[i].source| == 7
    requires var header := HeaderFor(parsed, includeHeader);
             && maxTokens <= 512 + EstimateTokens(header)
             && Renders(chunks, Pack(parsed.symbols, BudgetFor(maxTokens, header)), header,
                        BudgetFor(maxTokens, header))
    ensures var header := HeaderFor(parsed, includeHeader);
            && BudgetFor(maxTokens, header) == 512 && |chunks| == 1
            && EstimateTokens(chunks[0].source) >= EstimateTokens(header) + 512 + 127
  {
    var symbols, header := parsed.symbols, HeaderFor(parsed, includeHeader);
    SevenCharacters(symbols);
    FullRunIsCut(symbols, [], 512);
    assert symbols + [] == symbols && Pack(symbols, 512) == [symbols];
    JoinLength("\n\n", Sources(symbols));
  }

  // ---------------------------------------------------------------- build_chunks

  function BudgetFor(maxTokens: int, header: string): nat {
    Max(maxTokens - EstimateTokens(header), 512)
  }

  function HeaderFor(parsed: ParsedFile, includeHeader: bool): string {
    if includeHeader then FileHeader(parsed) else ""
  }

  /** The chunks are these runs, rendered in order. */
  ghost predicate Renders(chunks: seq<CodeChunk>, runs: seq<seq<SymbolSpan>>, header: string, budget: nat) {
    && |chunks| == |runs|
    && forall i :: 0 <= i < |chunks| ==> runs[i] != [] && chunks[i] == ChunkOf(i, runs[i], header, budget)
  }

  lemma RendersOneMore(chunks: seq<CodeChunk>, runs: seq<seq<SymbolSpan>>, header: string, budget: nat,
                       run: seq<SymbolSpan>)
    requires Renders(chunks, runs, header, budget) && run != []
    ensures Renders(chunks + [ChunkOf(|chunks|, run, header, budget)], runs + [run], header, budget)
  {
  }

  /** Where the loop stands: `done` is rendered and the greedy split of what is
      left completes it. */
  ghost predicate Packing(done: seq<seq<SymbolSpan>>, current: seq<SymbolSpan>, rest: seq<SymbolSpan>,
                          symbols: seq<SymbolSpan>, budget: nat) {
    Weight(current) <= budget && done + Pack(current + rest, budget) == Pack(symbols, budget)
  }

  lemma ConcatAssociates(a: seq<seq<SymbolSpan>>, b: seq<seq<SymbolSpan>>, c: seq<seq<SymbolSpan>>)
    ensures (a + b) + c == a + (b + c)
  {
  }

  lemma Flush(done: seq<seq<SymbolSpan>>, current: seq<SymbolSpan>, rest: seq<SymbolSpan>, symbols: seq<SymbolSpan>,
              budget: nat)
    requires Packing(done, current, rest, symbols, budget) && current != []
    requires rest == [] || Weight(current) + Tokens(rest[0]) > budget
    ensures Packing(done + [current], [], rest, symbols, budget)
    ensures Tokens(current[0]) <= budget
  {
    FullRunIsCut(current, rest, budget);
    FirstFits(current, budget);
    assert [] + rest == rest;
    ConcatAssociates(done, [current], Pack(rest, budget));
  }

  lemma SendAlone(done: seq<seq<SymbolSpan>>, rest: seq<SymbolSpan>, symbols: seq<SymbolSpan>, budget: nat)
    requires Packing(done, [], rest, symbols, budget) && rest != [] && Tokens(rest[0]) > budget
    ensures Packing(done + [[rest[0]]], [], rest[1..], symbols, budget)
  {
    assert [] + rest == rest && [] + rest[1..] == rest[1..];
    OversizedAlone(rest, budget);
    ConcatAssociates(done, [[rest[0]]], Pack(rest[1..], budget));
  }

  lemma Append(done: seq<seq<SymbolSpan>>, current: seq<SymbolSpan>, rest: seq<SymbolSpan>, symbols: seq<SymbolSpan>,
               budget: nat)
    requires Packing(done, current, rest, symbols, budget) && rest != []
    requires Weight(current) + Tokens(rest[0]) <= budget
    ensures Packing(done, current + [rest[0]], rest[1..], symbols, budget)
    ensures Weight(current + [rest[0]]) == Weight(current) + Tokens(rest[0])
  {
    WeightOfConcat(current, [rest[0]]);
    assert Weight([rest[0]]) == Tokens(rest[0]);
    assert (current + [rest[0]]) + rest[1..] == current + rest;
  }

  /** build_chunks for a file with symbols. */
  method PackSymbols(parsed: ParsedFile, maxTokens: int, includeHeader: bool) returns (chunks: seq<CodeChunk>)
    ensures var header := HeaderFor(parsed, includeHeader);
            Renders(chunks, Pack(parsed.symbols, BudgetFor(maxTokens, header)), header, BudgetFor(maxTokens, header))
  {
    var header := HeaderFor(parsed, includeHeader);
    var headerTokens := EstimateTokens(header);
    var budget: nat := Max(maxTokens - headerTokens, 512);
    var symbols := parsed.symbols;
    ghost var done: seq<seq<SymbolSpan>> := [];
    chunks := [];
    var current: seq<SymbolSpan> := [];
    var currentTokens := 0;
    assert [] + symbols[0..] == symbols;
    for i := 0 to |symbols|
      invariant currentTokens == Weight(current)
      invariant Packing(done, current, symbols[i..], symbols, budget)
      invariant Renders(chunks, done, header, budget)
    {
      var symbol := symbols[i];
      var symbolTokens := EstimateTokens(symbol.source);
      ghost var rest := symbols[i..];
      assert rest[0] == symbol && rest[1..] == symbols[i + 1..];
      if symbolTokens > budget {
        if current != [] {
          Flush(done, current, rest, symbols, budget);
          RendersOneMore(chunks, done, header, budget, current);
          chunks := chunks + [MakeChunk(|chunks|, current, header)];
          done := done + [current];
          current, currentTokens := [], 0;
        }
        SendAlone(done, rest, symbols, budget);
        RendersOneMore(chunks, done, header, budget, [symbol]);
        chunks := chunks + [MakeOversizedChunk(|chunks|, symbol, header, budget)];
        done := done + [[symbol]];
        continue;
      }
      if current != [] && currentTokens + symbolTokens > budget {
        Flush(done, current, rest, symbols, budget);
        RendersOneMore(chunks, done, header, budget, current);
        chunks := chunks + [MakeChunk(|chunks|, current, header)];
        done := done + [current];
        current, currentTokens := [], 0;
      }
      Append(done, current, rest, symbols, budget);
      current := current + [symbol];
      currentTokens := currentTokens + symbolTokens;
    }
    if current != [] {
      assert symbols[|symbols|..] == [];
      Flush(done, current, [], symbols, budget);
      RendersOneMore(chunks, done, header, budget, current);
      chunks := chunks + [MakeChunk(|chunks|, current, header)];
      done := done + [current];
    }
    assert done + Pack([], budget) == done;
  }

  lemma FirstFits(run: seq<SymbolSpan>, budget: nat)
    requires run != [] && Weight(run) <= budget
    ensures Tokens(run[0]) <= budget
  {
  }

  lemma OversizedAlone(symbols: seq<SymbolSpan>, budget: nat)
    requires symbols != [] && Tokens(symbols[0]) > budget
    ensures Pack(symbols, budget) == [[symbols[0]]] + Pack(symbols[1..], budget)
  {
    assert symbols[..1] == [symbols[0]];
  }

  /** Lossless: the chunks' symbol lists are the greedy split, so joined end to end
      they are the symbols of the file, and indices run from zero. */
  lemma ChunksAreLossless(symbols: seq<SymbolSpan>, budget: nat, header: string, chunks: seq<CodeChunk>)
    requires Renders(chunks, Pack(symbols, budget), header, budget)
    ensures SymbolLists(chunks) == Pack(symbols, budget)
    ensures Flatten(SymbolLists(chunks)) == symbols
    ensures forall i :: 0 <= i < |chunks| ==> chunks[i].index == i && chunks[i].symbols != []
  {
    var runs := Pack(symbols, budget);
    PackIsSplit(symbols, budget);
    forall i | 0 <= i < |chunks|
      ensures chunks[i].symbols == runs[i]
    {
      assert Fits(runs[i], budget);
      if Tokens(runs[i][0]) > budget {
        OversizedRun(runs[i], budget);
      }
    }
  }

  /** The chunk's source has the header first, and this symbol's text somewhere after it. */
  predicate StandsIn(text: string, header: string, before: string, part: string, after: string) {
    text == header + before + part + after
  }

  lemma {:induction false} PartOfJoin(sep: string, parts: seq<string>, k: nat)
    returns (before: string, after: string)
    requires k < |parts|
    ensures Join(sep, parts) == before + parts[k] + after
  {
    if |parts| == 1 {
      return "", "";
    }
    if k == 0 {
      return "", sep + Join(sep, parts[1..]);
    }
    before, after := PartOfJoin(sep, parts[1..], k - 1);
    before := parts[0] + sep + before;
  }

  /** The header tells the model the file, its language, and the first forty symbols by name,
      each behind its label and in this order. */
  lemma HeaderTellsTheFile(parsed: ParsedFile, k: nat) returns (before: string, after: string)
    requires k < |parsed.symbols| && k < 40
    ensures FileHeader(parsed)
         == FILE_LABEL + parsed.path + LANGUAGE_LABEL + parsed.language + SYMBOLS_LABEL
            + (before + parsed.symbols[k].name + after) + "\n\n"
  {
    var names := Names(parsed.symbols[..Min(40, |parsed.symbols|)]);
    before, after := PartOfJoin(", ", names, k);
    if Join(", ", names) == "" {
      before, after := "nenhum", "";
    }
  }

  /** Every chunk shows its symbols: its lines are theirs, first to last; under the header stands
      the text of each of them, in full unless the chunk says it is cut; and it is cut just
      when its one symbol is longer than the whole budget allows. */
  lemma ChunksShowTheirSymbols(symbols: seq<SymbolSpan>, budget: nat, header: string, chunks: seq<CodeChunk>, i: nat,
                               k: nat)
    requires Renders(chunks, Pack(symbols, budget), header, budget)
    requires i < |chunks| && k < |chunks[i].symbols|
    ensures var c := chunks[i];
            && header <= c.source
            && c.lineStart <= c.symbols[k].lineStart && c.symbols[k].lineEnd <= c.lineEnd
            && (exists a :: 0 <= a < |c.symbols| && c.symbols[a].lineStart == c.lineStart)
            && (exists b :: 0 <= b < |c.symbols| && c.symbols[b].lineEnd == c.lineEnd)
            && (!c.truncated ==> exists before, after :: StandsIn(c.source, header, before, c.symbols[k].source, after))
            && (c.truncated <==> |c.symbols| == 1 && 5 * |c.symbols[0].source| > 18 * budget)
  {
    var run := Pack(symbols, budget)[i];
    PackIsSplit(symbols, budget);
    assert Fits(run, budget);
    if Tokens(run[0]) > budget {
      OversizedRun(run, budget);
      ShowsAlone(i, run[0], header, budget);
    } else {
      ShowsAll(i, run, header, k);
      ShortEnough(run, budget);
    }
  }

  lemma ShowsAlone(index: nat, symbol: SymbolSpan, header: string, budget: nat)
    ensures var c := MakeOversizedChunk(index, symbol, header, budget);
            && c.symbols == [symbol] && c.lineStart == symbol.lineStart && c.lineEnd == symbol.lineEnd
            && header <= c.source
            && (!c.truncated ==> StandsIn(c.source, header, "", symbol.source, ""))
            && (c.truncated <==> 5 * |symbol.source| > 18 * budget)
  {
    var c := MakeOversizedChunk(index, symbol, header, budget);
    if !c.truncated {
      assert c.source == header + "" + symbol.source + "";
    }
  }

  lemma ShowsAll(index: nat, run: seq<SymbolSpan>, header: string, k: nat)
    requires k < |run|
    ensures var c := MakeChunk(index, run, header);
            && c.symbols == run && !c.truncated && header <= c.source
            && c.lineStart <= run[k].lineStart && run[k].lineEnd <= c.lineEnd
            && (exists a :: 0 <= a < |run| && run[a].lineStart == c.lineStart)
            && (exists b :: 0 <= b < |run| && run[b].lineEnd == c.lineEnd)
            && (exists before, after :: StandsIn(c.source, header, before, run[k].source, after))
  {
    var c := MakeChunk(index, run, header);
    LinesCover(run, k);
    var before, after := PartOfJoin("\n\n", Sources(run), k);
    assert c.source == header + (before + run[k].source + after) == header + before + run[k].source + after;
    assert StandsIn(c.source, header, before, run[k].source, after);
  }

  lemma ShortEnough(run: seq<SymbolSpan>, budget: nat)
    requires run != [] && Tokens(run[0]) <= budget
    ensures 5 * |run[0].source| <= 18 * budget
  {
  }

  /** Tokens and characters: a text of n characters counts the least whole number of tokens
      that is more than n divided by 3.6. */
  lemma TokensRoundUp(chars: nat)
    ensures 18 * (TokensOfLength(chars) - 1) <= 5 * chars < 18 * TokensOfLength(chars)
  {
  }

  lemma OversizedRun(run: seq<SymbolSpan>, budget: nat)
    requires Fits(run, budget) && Tokens(run[0]) > budget
    ensures run == [run[0]]
  {
  }
}
