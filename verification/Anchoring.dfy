/** Anchoring what a model wrote to what the parser found, as pipeline.py does. */
module Anchoring {
  import opened Prelude
  import opened Spans

  /** Documentation of one symbol. `prose` stands for the fields nothing here looks at. */
  datatype SymbolDoc = SymbolDoc(
    name: string,
    parent: Option<string>,
    signature: string,
    language: string,
    lineStart: int,
    lineEnd: int,
    description: string,
    complexity: Option<int>,
    prose: string)

  /** The document describes the span: its name and its lines. */
  predicate Describes(doc: SymbolDoc, span: SymbolSpan) {
    doc.name == span.name && doc.lineStart == span.lineStart && doc.lineEnd == span.lineEnd
  }

  ghost predicate Anchored(doc: SymbolDoc, spans: seq<SymbolSpan>) {
    exists k :: 0 <= k < |spans| && Describes(doc, spans[k])
  }

  ghost predicate AllAnchored(docs: seq<SymbolDoc>, spans: seq<SymbolSpan>) {
    forall i :: 0 <= i < |docs| ==> Anchored(docs[i], spans)
  }

  // ---------------------------------------------------------------- names of a span

  /** s.rsplit(".", 1)[-1]. */
  function LastSegment(s: string): string {
    if s == "" then ""
    else if '.' in s[1..] then LastSegment(s[1..])
    else if s[0] == '.' then s[1..]
    else s
  }

  /** The last segment is what follows the last dot, the whole of a name without one. */
  lemma {:induction false} LastSegmentMeans(front: string, last: string)
    requires '.' !in last
    ensures LastSegment(last) == last && LastSegment(front + "." + last) == last
    decreases |front|
  {
    LastSegmentOfPlain(last);
    var whole := front + "." + last;
    if front == "" {
      assert whole == "." + last && whole[1..] == last;
    } else {
      LastSegmentMeans(front[1..], last);
      assert whole[1..] == front[1..] + "." + last;
      assert whole[1..][|front| - 1] == '.';
    }
  }

  lemma LastSegmentOfPlain(s: string)
    requires '.' !in s
    ensures LastSegment(s) == s
  {
    if s != "" {
      assert '.' !in s[1..] && s[0] != '.';
    }
  }

  /** The ways a model may name a symbol whose parent is `outer` with `inner` as last segment. */
  lemma AliasesOfNested(span: SymbolSpan, outer: string, inner: string, name: string)
    requires '.' !in inner && inner != ""
    requires span.parent == Some(inner) || span.parent == Some(outer + "." + inner)
    ensures name in Aliases(span) <==>
              name == span.name || name == inner + "." + span.name || name == span.parent.value + "." + span.name
  {
    LastSegmentMeans(outer, inner);
  }

  /** The names a model may use for a span. */
  function Aliases(span: SymbolSpan): set<string> {
    if span.parent.Some? && span.parent.value != "" then
      {span.name, span.parent.value + "." + span.name, LastSegment(span.parent.value) + "." + span.name}
    else {span.name}
  }

  /** The last span that goes by a name. */
  function LastNamed(spans: seq<SymbolSpan>, name: string): Option<SymbolSpan> {
    if spans == [] then None
    else
      var last := spans[|spans| - 1];
      if name in Aliases(last) then Some(last) else LastNamed(spans[..|spans| - 1], name)
  }

  lemma {:induction false} LastNamedIsTheLast(spans: seq<SymbolSpan>, name: string)
    ensures var found := LastNamed(spans, name);
            if found.None? then forall k :: 0 <= k < |spans| ==> name !in Aliases(spans[k])
            else exists k :: 0 <= k < |spans| && spans[k] == found.value && name in Aliases(spans[k])
                             && forall j :: k < j < |spans| ==> name !in Aliases(spans[j])
  {
    if spans != [] {
      var n := |spans| - 1;
      if name in Aliases(spans[n]) {
        assert spans[n] == LastNamed(spans, name).value;
      } else {
        LastNamedIsTheLast(spans[..n], name);
        if LastNamed(spans[..n], name).Some? {
          var k :| 0 <= k < n && spans[..n][k] == LastNamed(spans, name).value && name in Aliases(spans[..n][k])
                   && forall j :: k < j < n ==> name !in Aliases(spans[..n][j]);
          assert forall j :: k < j < n ==> spans[..n][j] == spans[j];
          assert spans[k] == LastNamed(spans, name).value;
        } else {
          assert forall k :: 0 <= k < n ==> spans[..n][k] == spans[k];
        }
      }
    }
  }

  function Lookup(index: map<string, SymbolSpan>, name: string): Option<SymbolSpan> {
    if name in index then Some(index[name]) else None
  }

  /** _spans_by_name: later spans overwrite earlier ones. */
  method SpansByName(symbols: seq<SymbolSpan>) returns (index: map<string, SymbolSpan>)
    ensures forall name :: Lookup(index, name) == LastNamed(symbols, name)
  {
    index := map[];
    for i := 0 to |symbols|
      invariant forall name :: Lookup(index, name) == LastNamed(symbols[..i], name)
    {
      var span := symbols[i];
      assert symbols[..i + 1][..i] == symbols[..i];
      index := index[span.name := span];
      if span.parent.Some? && span.parent.value != "" {
        index := index[span.parent.value + "." + span.name := span];
        index := index[LastSegment(span.parent.value) + "." + span.name := span];
      }
    }
    assert symbols[..|symbols|] == symbols;
  }

  // ---------------------------------------------------------------- enriching

  function InLanguage(doc: SymbolDoc, language: string): SymbolDoc {
    if doc.language == "" then doc.(language := language) else doc
  }

  function AnchorTo(doc: SymbolDoc, span: SymbolSpan): SymbolDoc {
    doc.(name := span.name, lineStart := span.lineStart, lineEnd := span.lineEnd,
         complexity := Some(span.complexity),
         parent := if span.parent.Some? && span.parent.value != "" then span.parent else doc.parent,
         signature := if doc.signature == "" then span.signature else doc.signature)
  }

  /** What a chunk keeps of a model's answer, and the names it drops. */
  function Kept(docs: seq<SymbolDoc>, spans: seq<SymbolSpan>, language: string): seq<SymbolDoc> {
    if docs == [] then []
    else
      var n := |docs| - 1;
      var span := LastNamed(spans, docs[n].name);
      Kept(docs[..n], spans, language) +
      if span.Some? then [AnchorTo(InLanguage(docs[n], language), span.value)] else []
  }

  function Dropped(docs: seq<SymbolDoc>, spans: seq<SymbolSpan>): seq<string> {
    if docs == [] then []
    else
      var n := |docs| - 1;
      Dropped(docs[..n], spans) + if LastNamed(spans, docs[n].name).None? then [docs[n].name] else []
  }

  /** A chunk without spans, from the line fallback, has nothing to anchor to. */
  function Accepted(docs: seq<SymbolDoc>, spans: seq<SymbolSpan>, language: string): seq<SymbolDoc> {
    if spans != [] then Kept(docs, spans, language)
    else seq(|docs|, i requires 0 <= i < |docs| => InLanguage(docs[i], language))
  }

  /** _enrich. */
  method Enrich(symbols: seq<SymbolDoc>, spans: seq<SymbolSpan>, language: string)
    returns (accepted: seq<SymbolDoc>, discarded: seq<string>)
    ensures accepted == Accepted(symbols, spans, language)
    ensures discarded == if spans == [] then [] else Dropped(symbols, spans)
  {
    var docs := seq(|symbols|, i requires 0 <= i < |symbols| => InLanguage(symbols[i], language));
    if spans == [] {
      return docs, [];
    }
    var index := SpansByName(spans);
    accepted, discarded := [], [];
    for i := 0 to |docs|
      invariant accepted == Kept(symbols[..i], spans, language) && discarded == Dropped(symbols[..i], spans)
    {
      assert symbols[..i + 1][..i] == symbols[..i];
      var doc := docs[i];
      assert Lookup(index, doc.name) == LastNamed(spans, doc.name);
      if doc.name in index {
        accepted := accepted + [AnchorTo(doc, index[doc.name])];
      } else {
        discarded := discarded + [doc.name];
      }
    }
    assert symbols[..|symbols|] == symbols;
  }

  /** Whatever the model wrote, what a chunk keeps is anchored in the chunk, and every
      answer is either kept or reported by name. */
  lemma {:induction false} KeptIsAnchored(docs: seq<SymbolDoc>, spans: seq<SymbolSpan>, language: string)
    ensures AllAnchored(Kept(docs, spans, language), spans)
    ensures |Kept(docs, spans, language)| + |Dropped(docs, spans)| == |docs|
  {
    if docs != [] {
      var n := |docs| - 1;
      KeptIsAnchored(docs[..n], spans, language);
      LastNamedIsTheLast(spans, docs[n].name);
      var span := LastNamed(spans, docs[n].name);
      if span.Some? {
        var k :| 0 <= k < |spans| && spans[k] == span.value;
        assert Describes(AnchorTo(InLanguage(docs[n], language), span.value), spans[k]);
      }
    }
  }

  /** The document is this answer with the facts of this span: name, lines and complexity
      always, its parent where it has one, its signature where the answer gave none, and
      the file's language where the answer gave none; the text of the answer is untouched. */
  predicate TakesItsFactsFrom(doc: SymbolDoc, answer: SymbolDoc, span: SymbolSpan, language: string) {
    && Describes(doc, span) && doc.complexity == Some(span.complexity)
    && doc.description == answer.description && doc.prose == answer.prose
    && (answer.language != "" ==> doc.language == answer.language)
    && (answer.language == "" ==> doc.language == language)
    && (span.parent.Some? && span.parent.value != "" ==> doc.parent == span.parent)
    && (span.parent.None? || span.parent.value == "" ==> doc.parent == answer.parent)
    && (answer.signature != "" ==> doc.signature == answer.signature)
    && (answer.signature == "" ==> doc.signature == span.signature)
  }

  lemma {:induction false} KeptTakesItsFactsFromTheSpan(docs: seq<SymbolDoc>, spans: seq<SymbolSpan>, language: string,
                                                        m: nat)
    requires m < |Kept(docs, spans, language)|
    ensures exists i, k :: 0 <= i < |docs| && 0 <= k < |spans| && docs[i].name in Aliases(spans[k])
                           && TakesItsFactsFrom(Kept(docs, spans, language)[m], docs[i], spans[k], language)
  {
    var n := |docs| - 1;
    if m < |Kept(docs[..n], spans, language)| {
      KeptTakesItsFactsFromTheSpan(docs[..n], spans, language, m);
      var i, k :| 0 <= i < n && 0 <= k < |spans| && docs[..n][i].name in Aliases(spans[k])
                  && TakesItsFactsFrom(Kept(docs[..n], spans, language)[m], docs[..n][i], spans[k], language);
      assert TakesItsFactsFrom(Kept(docs, spans, language)[m], docs[i], spans[k], language);
    } else {
      LastNamedIsTheLast(spans, docs[n].name);
      var k :| 0 <= k < |spans| && spans[k] == LastNamed(spans, docs[n].name).value
               && docs[n].name in Aliases(spans[k]);
      assert TakesItsFactsFrom(Kept(docs, spans, language)[m], docs[n], spans[k], language);
    }
  }

  /** A document that names a span in any of its ways is kept, at its place among the
      answers, with the facts of the last span it names. */
  lemma {:induction false} NamedDocsAreKept(docs: seq<SymbolDoc>, spans: seq<SymbolSpan>, language: string, i: nat,
                                            k: nat)
    requires i < |docs| && k < |spans| && docs[i].name in Aliases(spans[k])
    ensures var m := |Kept(docs[..i], spans, language)|;
            var span := LastNamed(spans, docs[i].name);
            && m < |Kept(docs, spans, language)| && span.Some?
            && TakesItsFactsFrom(Kept(docs, spans, language)[m], docs[i], span.value, language)
  {
    var n := |docs| - 1;
    if i < n {
      NamedDocsAreKept(docs[..n], spans, language, i, k);
      assert docs[..n][..i] == docs[..i];
    } else {
      LastNamedIsTheLast(spans, docs[n].name);
      var m := |Kept(docs[..n], spans, language)|;
      assert TakesItsFactsFrom(Kept(docs, spans, language)[m], docs[n], LastNamed(spans, docs[n].name).value,
                               language);
    }
  }

  // ---------------------------------------------------------------- duplicates

  type DocKey = (string, Option<string>)

  function KeyOf(doc: SymbolDoc): DocKey {
    (doc.name, doc.parent)
  }

  /** Keys in order of first appearance. */
  function Keys(docs: seq<SymbolDoc>): seq<DocKey> {
    if docs == [] then []
    else
      var n := |docs| - 1;
      Keys(docs[..n]) + if KeyOf(docs[n]) in Keys(docs[..n]) then [] else [KeyOf(docs[n])]
  }

  /** The longest description under a key; of several, the first. */
  function Winner(docs: seq<SymbolDoc>, key: DocKey): Option<SymbolDoc> {
    if docs == [] then None
    else
      var n := |docs| - 1;
      var best := Winner(docs[..n], key);
      if KeyOf(docs[n]) != key then best
      else if best.None? || |docs[n].description| > |best.value.description| then Some(docs[n])
      else best
  }

  lemma {:induction false} WinnerIsFirstLongest(docs: seq<SymbolDoc>, key: DocKey)
    ensures Winner(docs, key).None? <==> key !in Keys(docs)
    ensures forall i :: 0 <= i < |docs| && KeyOf(docs[i]) == key ==>
              Winner(docs, key).Some? && |docs[i].description| <= |Winner(docs, key).value.description|
    ensures Winner(docs, key).Some? ==>
              exists j :: 0 <= j < |docs| && docs[j] == Winner(docs, key).value && KeyOf(docs[j]) == key
                          && forall i :: 0 <= i < j && KeyOf(docs[i]) == key ==>
                               |docs[i].description| < |docs[j].description|
  {
    if docs != [] {
      var n := |docs| - 1;
      var front := docs[..n];
      WinnerIsFirstLongest(front, key);
      assert forall i :: 0 <= i < n ==> front[i] == docs[i];
      if Winner(front, key).Some? {
        var j :| 0 <= j < n && front[j] == Winner(front, key).value && KeyOf(front[j]) == key
                 && forall i :: 0 <= i < j && KeyOf(front[i]) == key ==>
                      |front[i].description| < |front[j].description|;
        assert docs[j] == front[j];
      }
    }
  }

  /** One document per key, in order of first appearance of the key. */
  function Best(docs: seq<SymbolDoc>): seq<SymbolDoc> {
    var keys := Keys(docs);
    seq(|keys|, k requires 0 <= k < |keys| => WinnerIsFirstLongest(docs, keys[k]); Winner(docs, keys[k]).value)
  }

  // The order of sorted(): by first line, then by name, comparing code points.

  predicate StringLess(a: string, b: string) {
    b != "" && (a == "" || a[0] < b[0] || (a[0] == b[0] && StringLess(a[1..], b[1..])))
  }

  /** Where two strings first differ, the smaller character decides; a prefix comes first. */
  predicate FirstDifference(a: string, b: string, p: nat) {
    && p <= |a| && p < |b| && a[..p] == b[..p] && (p == |a| || a[p] < b[p])
  }

  lemma {:induction false} StringLessMeans(a: string, b: string)
    ensures StringLess(a, b) <==> exists p: nat :: FirstDifference(a, b, p)
  {
    if b != "" && (a == "" || a[0] < b[0]) {
      assert FirstDifference(a, b, 0);
    } else if a != "" && b != "" && a[0] == b[0] {
      StringLessMeans(a[1..], b[1..]);
      if StringLess(a[1..], b[1..]) {
        var p: nat :| FirstDifference(a[1..], b[1..], p);
        assert a[..p + 1] == [a[0]] + a[1..][..p] && b[..p + 1] == [b[0]] + b[1..][..p];
        assert FirstDifference(a, b, p + 1);
      }
      if p: nat :| FirstDifference(a, b, p) {
        assert p > 0;
        assert a[1..][..p - 1] == a[..p][1..] && b[1..][..p - 1] == b[..p][1..];
        assert FirstDifference(a[1..], b[1..], p - 1);
      }
    }
  }

  predicate DocLess(a: SymbolDoc, b: SymbolDoc) {
    a.lineStart < b.lineStart || (a.lineStart == b.lineStart && StringLess(a.name, b.name))
  }

  lemma {:induction false} StringOrder(a: string, b: string, c: string)
    ensures StringLess(a, b) ==> !StringLess(b, a)
    ensures !StringLess(a, b) && !StringLess(b, c) ==> !StringLess(a, c)
  {
    if a != "" && b != "" {
      StringOrder(a[1..], b[1..], if c != "" then c[1..] else "");
    }
  }

  function Insert(doc: SymbolDoc, sorted: seq<SymbolDoc>): seq<SymbolDoc> {
    if sorted == [] then [doc]
    else if DocLess(doc, sorted[|sorted| - 1]) then Insert(doc, sorted[..|sorted| - 1]) + [sorted[|sorted| - 1]]
    else sorted + [doc]
  }

  /** sorted(): stable. */
  function Sorted(docs: seq<SymbolDoc>): seq<SymbolDoc> {
    if docs == [] then [] else Insert(docs[|docs| - 1], Sorted(docs[..|docs| - 1]))
  }

  ghost predicate InOrder(docs: seq<SymbolDoc>) {
    forall i, j :: 0 <= i < j < |docs| ==> !DocLess(docs[j], docs[i])
  }

  lemma DocOrder(a: SymbolDoc, b: SymbolDoc, c: SymbolDoc)
    ensures DocLess(a, b) ==> !DocLess(b, a)
    ensures !DocLess(a, b) && !DocLess(b, c) ==> !DocLess(a, c)
  {
    StringOrder(a.name, b.name, c.name);
  }

  lemma {:induction false} InsertAdds(doc: SymbolDoc, sorted: seq<SymbolDoc>)
    ensures multiset(Insert(doc, sorted)) == multiset(sorted) + multiset{doc}
    ensures forall d :: d in Insert(doc, sorted) ==> d in sorted || d == doc
  {
    if sorted != [] {
      var n := |sorted| - 1;
      assert sorted == sorted[..n] + [sorted[n]];
      if DocLess(doc, sorted[n]) {
        InsertAdds(doc, sorted[..n]);
      }
    }
  }

  lemma {:induction false} InsertKeepsOrder(doc: SymbolDoc, sorted: seq<SymbolDoc>)
    requires InOrder(sorted)
    ensures InOrder(Insert(doc, sorted))
  {
    if sorted != [] {
      var n := |sorted| - 1;
      var front, last := sorted[..n], sorted[n];
      if DocLess(doc, last) {
        InsertKeepsOrder(doc, front);
        InsertAdds(doc, front);
        DocOrder(doc, last, last);
        var inner := Insert(doc, front);
        forall i | 0 <= i < |inner|
          ensures !DocLess(last, inner[i])
        {
          assert inner[i] in inner;
        }
      } else {
        forall i | 0 <= i < n
          ensures !DocLess(doc, sorted[i])
        {
          DocOrder(doc, last, sorted[i]);
        }
      }
    }
  }

  lemma {:induction false} SortedIsSorted(docs: seq<SymbolDoc>)
    ensures InOrder(Sorted(docs)) && multiset(Sorted(docs)) == multiset(docs)
  {
    if docs != [] {
      var n := |docs| - 1;
      SortedIsSorted(docs[..n]);
      InsertKeepsOrder(docs[n], Sorted(docs[..n]));
      InsertAdds(docs[n], Sorted(docs[..n]));
      assert docs == docs[..n] + [docs[n]];
    }
  }

  ghost predicate UniqueKeys(docs: seq<SymbolDoc>) {
    forall i, j :: 0 <= i < j < |docs| ==> KeyOf(docs[i]) != KeyOf(docs[j])
  }

  lemma {:induction false} InsertKeepsUnique(doc: SymbolDoc, sorted: seq<SymbolDoc>)
    requires InOrder(sorted) && UniqueKeys(sorted)
    requires forall i :: 0 <= i < |sorted| ==> KeyOf(sorted[i]) != KeyOf(doc)
    ensures UniqueKeys(Insert(doc, sorted))
  {
    if sorted != [] {
      var n := |sorted| - 1;
      var front, last := sorted[..n], sorted[n];
      if DocLess(doc, last) {
        InsertKeepsUnique(doc, front);
        InsertAdds(doc, front);
        var inner := Insert(doc, front);
        forall i | 0 <= i < |inner|
          ensures KeyOf(inner[i]) != KeyOf(last)
        {
          assert inner[i] in inner;
        }
      }
    }
  }

  lemma {:induction false} SortKeepsUnique(docs: seq<SymbolDoc>)
    requires UniqueKeys(docs)
    ensures UniqueKeys(Sorted(docs))
  {
    if docs != [] {
      var n := |docs| - 1;
      var front := Sorted(docs[..n]);
      SortKeepsUnique(docs[..n]);
      SortedIsSorted(docs[..n]);
      forall i | 0 <= i < |front|
        ensures KeyOf(front[i]) != KeyOf(docs[n])
      {
        assert front[i] in multiset(front);
        assert front[i] in multiset(docs[..n]);
      }
      InsertKeepsUnique(docs[n], front);
    }
  }

  lemma {:induction false} KeysAreDistinct(docs: seq<SymbolDoc>)
    ensures forall i, j :: 0 <= i < j < |Keys(docs)| ==> Keys(docs)[i] != Keys(docs)[j]
    ensures forall i :: 0 <= i < |docs| ==> KeyOf(docs[i]) in Keys(docs)
  {
    if docs != [] {
      KeysAreDistinct(docs[..|docs| - 1]);
    }
  }

  lemma BestIsUnique(docs: seq<SymbolDoc>)
    ensures UniqueKeys(Best(docs)) && |Best(docs)| == |Keys(docs)|
    ensures forall k :: 0 <= k < |Best(docs)| ==>
              KeyOf(Best(docs)[k]) == Keys(docs)[k] && Best(docs)[k] in docs
  {
    KeysAreDistinct(docs);
    forall k | 0 <= k < |Best(docs)|
      ensures KeyOf(Best(docs)[k]) == Keys(docs)[k] && Best(docs)[k] in docs
    {
      WinnerIsFirstLongest(docs, Keys(docs)[k]);
    }
  }

  /** _dedupe_symbols: for every (name, parent) exactly one document survives, the first
      of the longest, and the result is in order. */
  lemma DedupeKeepsTheFirstLongest(docs: seq<SymbolDoc>)
    ensures var kept := Sorted(Best(docs));
            && InOrder(kept) && UniqueKeys(kept)
            && (forall d :: d in kept <==> d in docs && Winner(docs, KeyOf(d)) == Some(d))
            && (forall d :: d in docs ==>
                  exists w :: w in kept && KeyOf(w) == KeyOf(d) && Winner(docs, KeyOf(d)) == Some(w))
  {
    var best := Best(docs);
    var kept := Sorted(best);
    BestIsUnique(docs);
    SortedIsSorted(best);
    SortKeepsUnique(best);
    KeysAreDistinct(docs);
    forall d
      ensures d in kept <==> d in best
    {
      assert d in multiset(kept) <==> d in multiset(best);
    }
    forall d | d in best
      ensures d in docs && Winner(docs, KeyOf(d)) == Some(d)
    {
      var k :| 0 <= k < |best| && best[k] == d;
      WinnerIsFirstLongest(docs, Keys(docs)[k]);
    }
    forall d | d in docs
      ensures exists w :: w in best && KeyOf(w) == KeyOf(d) && Winner(docs, KeyOf(d)) == Some(w)
    {
      var k :| 0 <= k < |Keys(docs)| && Keys(docs)[k] == KeyOf(d);
      WinnerIsFirstLongest(docs, Keys(docs)[k]);
      assert best[k] in best;
    }
  }

  /** In the terms of a reader: no two documents of one name and parent are left, none was lost
      whose description is longer than the one left, and the lines are in order, then the names. */
  lemma OneDocumentEach(docs: seq<SymbolDoc>)
    ensures var kept := Sorted(Best(docs));
            && (forall i, j :: 0 <= i < j < |kept| ==>
                  && (kept[i].name != kept[j].name || kept[i].parent != kept[j].parent)
                  && kept[i].lineStart <= kept[j].lineStart
                  && (kept[i].lineStart == kept[j].lineStart ==> !StringLess(kept[j].name, kept[i].name)))
            && (forall d :: d in docs ==>
                  exists w :: w in kept && w.name == d.name && w.parent == d.parent
                              && |w.description| >= |d.description|)
  {
    var kept := Sorted(Best(docs));
    DedupeKeepsTheFirstLongest(docs);
    forall i, j | 0 <= i < j < |kept|
      ensures kept[i].name != kept[j].name || kept[i].parent != kept[j].parent
      ensures kept[i].lineStart <= kept[j].lineStart
      ensures kept[i].lineStart == kept[j].lineStart ==> !StringLess(kept[j].name, kept[i].name)
    {
      assert KeyOf(kept[i]) != KeyOf(kept[j]) && !DocLess(kept[j], kept[i]);
    }
    forall d | d in docs
      ensures exists w :: w in kept && w.name == d.name && w.parent == d.parent && |w.description| >= |d.description|
    {
      WinnerIsFirstLongest(docs, KeyOf(d));
    }
  }

  /** The documents of one line and name, in order. */
  function OfRank(docs: seq<SymbolDoc>, line: int, name: string): seq<SymbolDoc> {
    if docs == [] then []
    else
      var n := |docs| - 1;
      OfRank(docs[..n], line, name) + if docs[n].lineStart == line && docs[n].name == name then [docs[n]] else []
  }

  lemma {:induction false} InsertIsStable(doc: SymbolDoc, sorted: seq<SymbolDoc>, line: int, name: string)
    ensures OfRank(Insert(doc, sorted), line, name)
         == OfRank(sorted, line, name) + if doc.lineStart == line && doc.name == name then [doc] else []
  {
    if sorted == [] {
      assert [doc][..0] == [];
    } else {
      var n := |sorted| - 1;
      if DocLess(doc, sorted[n]) {
        InsertIsStable(doc, sorted[..n], line, name);
        StringOrder(doc.name, doc.name, doc.name);
        assert (Insert(doc, sorted[..n]) + [sorted[n]])[..|Insert(doc, sorted[..n])|] == Insert(doc, sorted[..n]);
      } else {
        assert (sorted + [doc])[..n + 1] == sorted;
      }
    }
  }

  /** Documents that share line and name keep the order in which they came. */
  lemma {:induction false} SortingIsStable(docs: seq<SymbolDoc>, line: int, name: string)
    ensures OfRank(Sorted(docs), line, name) == OfRank(docs, line, name)
  {
    if docs != [] {
      var n := |docs| - 1;
      SortingIsStable(docs[..n], line, name);
      InsertIsStable(docs[n], Sorted(docs[..n]), line, name);
    }
  }

  /** _dedupe_symbols. The dictionary keeps the order in which keys first came. */
  method DedupeSymbols(symbols: seq<SymbolDoc>) returns (kept: seq<SymbolDoc>)
    ensures kept == Sorted(Best(symbols))
  {
    var order: seq<DocKey> := [];
    var best: map<DocKey, SymbolDoc> := map[];
    for i := 0 to |symbols|
      invariant order == Keys(symbols[..i])
      invariant forall key :: (if key in best then Some(best[key]) else None) == Winner(symbols[..i], key)
    {
      assert symbols[..i + 1][..i] == symbols[..i];
      var symbol := symbols[i];
      var key := KeyOf(symbol);
      WinnerIsFirstLongest(symbols[..i], key);
      if key !in best {
        order := order + [key];
        best := best[key := symbol];
      } else if |symbol.description| > |best[key].description| {
        best := best[key := symbol];
      }
    }
    assert symbols[..|symbols|] == symbols;
    forall k | 0 <= k < |order|
      ensures order[k] in best && Winner(symbols, order[k]) == Some(best[order[k]])
    {
      WinnerIsFirstLongest(symbols, order[k]);
    }
    var values := seq(|order|, k requires 0 <= k < |order| => best[order[k]]);
    assert values == Best(symbols);
    kept := Sorted(values);
  }
}
