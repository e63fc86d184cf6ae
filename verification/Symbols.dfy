/** Extracting the symbols of a file from its syntax tree, as symbols.py does. */
module Symbols {
  import opened Prelude
  import opened Spans
  import opened Text

  /** A syntax node as the extractor sees it. `name`, `text`, `header` and `signature`
      are what the name resolver and the source slices give for the node. */
  datatype Node = Node(
    kind: string,
    startByte: nat,
    endByte: nat,
    startLine: nat,
    endLine: nat,
    name: string,
    text: string,
    header: string,
    signature: string,
    children: seq<Node>)

  /** A container whose syntax kind contains one of `parts`, or is one of `names`. */
  datatype KindRule = KindRule(parts: seq<string>, names: set<string>, kind: string)

  /** The tables the extractor works with. The laws below hold for any tables. */
  datatype Grammar = Grammar(functions: set<string>, containers: set<string>, branches: set<string>,
                             operators: set<string>, rules: seq<KindRule>)

  const FUNCTION_KINDS: set<string> := {
    "function_definition", "function_declaration", "function_item", "method_definition", "method_declaration",
    "constructor_declaration", "destructor_declaration", "subroutine", "function", "method", "arrow_function",
    "lambda", "def", "singleton_method", "local_function_statement", "function_signature", "external_declaration",
    "defProc", "function_clause", "subprogram_body", "subroutine_declaration_statement", "function_statement"}

  const CONTAINER_KINDS: set<string> := {
    "class_definition", "class_declaration", "class_specifier", "struct_specifier", "struct_item",
    "struct_declaration", "interface_declaration", "trait_item", "impl_item", "enum_declaration", "enum_specifier",
    "module", "namespace_definition", "object_declaration", "record_declaration", "protocol_declaration",
    "extension_declaration", "type_declaration", "package_body"}

  const BRANCH_KINDS: set<string> := {
    "if_statement", "elif_clause", "else_clause", "for_statement", "for_range_loop", "for_in_statement",
    "while_statement", "do_statement", "switch_statement", "case_statement", "switch_section", "catch_clause",
    "except_clause", "rescue", "conditional_expression", "ternary_expression", "match_arm", "when_entry",
    "guard_statement"}

  const BRANCH_OPERATORS: set<string> := {"&&", "||", "and", "or", "??"}

  const KIND_RULES: seq<KindRule> := [
    KindRule(["interface", "protocol", "trait"], {}, "interface"),
    KindRule(["namespace"], {"module"}, "namespace"),
    KindRule(["extension"], {"impl_item"}, "impl"),
    KindRule(["struct", "record"], {}, "struct"),
    KindRule(["enum"], {}, "enum")]

  const TABLES := Grammar(FUNCTION_KINDS, CONTAINER_KINDS, BRANCH_KINDS, BRANCH_OPERATORS, KIND_RULES)

  predicate IsFunction(g: Grammar, node: Node) {
    node.kind in g.functions
  }

  /** The test for functions comes first. */
  predicate IsContainer(g: Grammar, node: Node) {
    node.kind in g.containers && !IsFunction(g, node)
  }

  predicate Contains(s: string, part: string) {
    part <= s || (s != "" && Contains(s[1..], part))
  }

  predicate ContainsAny(s: string, parts: seq<string>) {
    parts != [] && (Contains(s, parts[0]) || ContainsAny(s, parts[1..]))
  }

  /** The first rule that applies, else a class. */
  function FirstRule(kind: string, rules: seq<KindRule>): string {
    if rules == [] then "class"
    else if ContainsAny(kind, rules[0].parts) || kind in rules[0].names then rules[0].kind
    else FirstRule(kind, rules[1..])
  }

  predicate StandsAt(s: string, part: string, i: nat) {
    i + |part| <= |s| && s[i..i + |part|] == part
  }

  lemma {:induction false} ContainsFrom(s: string, part: string, i: nat)
    requires StandsAt(s, part, i)
    ensures Contains(s, part)
  {
    if i > 0 {
      assert s[1..][i - 1..i - 1 + |part|] == s[i..i + |part|];
      ContainsFrom(s[1..], part, i - 1);
    }
  }

  /** Containing is what it says: the part stands somewhere in the string. */
  lemma {:induction false} ContainsMeans(s: string, part: string)
    ensures Contains(s, part) <==> exists i: nat :: StandsAt(s, part, i)
  {
    if part <= s {
      assert StandsAt(s, part, 0);
    } else if Contains(s, part) {
      ContainsMeans(s[1..], part);
      var i: nat :| StandsAt(s[1..], part, i);
      assert s[1..][i..i + |part|] == s[i + 1..i + 1 + |part|];
      assert StandsAt(s, part, i + 1);
    }
    if i: nat :| StandsAt(s, part, i) {
      ContainsFrom(s, part, i);
    }
  }

  lemma {:induction false} ContainsAnyMeans(s: string, parts: seq<string>)
    ensures ContainsAny(s, parts) <==> exists p :: 0 <= p < |parts| && Contains(s, parts[p])
  {
    if parts != [] {
      ContainsAnyMeans(s, parts[1..]);
      if ContainsAny(s, parts[1..]) {
        var p :| 0 <= p < |parts[1..]| && Contains(s, parts[1..][p]);
        assert Contains(s, parts[p + 1]);
      }
      if p :| 0 < p < |parts| && Contains(s, parts[p]) {
        assert Contains(s, parts[1..][p - 1]);
      }
    }
  }

  predicate Applies(rule: KindRule, kind: string) {
    kind in rule.names || exists p :: 0 <= p < |rule.parts| && Contains(kind, rule.parts[p])
  }

  /** The kind of a container: that of the first rule that applies, a class if none does. */
  lemma {:induction false} KindIsOfTheFirstRule(kind: string, rules: seq<KindRule>)
    ensures (forall r :: 0 <= r < |rules| ==> !Applies(rules[r], kind)) ==> FirstRule(kind, rules) == "class"
    ensures forall r :: 0 <= r < |rules| && Applies(rules[r], kind)
                        && (forall q :: 0 <= q < r ==> !Applies(rules[q], kind)) ==>
                          FirstRule(kind, rules) == rules[r].kind
  {
    if rules != [] {
      ContainsAnyMeans(kind, rules[0].parts);
      KindIsOfTheFirstRule(kind, rules[1..]);
      assert forall r :: 0 < r < |rules| ==> rules[1..][r - 1] == rules[r];
    }
  }

  /** "function" is kept for functions. */
  predicate RulesAreForContainers(g: Grammar) {
    forall r :: 0 <= r < |g.rules| ==> g.rules[r].kind != "function"
  }

  lemma {:induction false} FirstRuleIsForContainers(kind: string, rules: seq<KindRule>)
    requires forall r :: 0 <= r < |rules| ==> rules[r].kind != "function"
    ensures FirstRule(kind, rules) != "function"
  {
    if rules != [] {
      FirstRuleIsForContainers(kind, rules[1..]);
    }
  }

  // ---------------------------------------------------------------- complexity

  predicate IsBranch(g: Grammar, node: Node) {
    node.kind in g.branches || (node.children == [] && node.kind in g.operators)
  }

  /** Branch points in a tree, itself included. */
  function BranchCount(g: Grammar, node: Node): nat {
    (if IsBranch(g, node) then 1 else 0) + BranchCountAll(g, node.children)
  }

  function BranchCountAll(g: Grammar, nodes: seq<Node>): nat {
    if nodes == [] then 0 else BranchCount(g, nodes[0]) + BranchCountAll(g, nodes[1..])
  }

  function Size(node: Node): nat {
    1 + SizeAll(node.children)
  }

  function SizeAll(nodes: seq<Node>): nat {
    if nodes == [] then 0 else Size(nodes[0]) + SizeAll(nodes[1..])
  }

  lemma {:induction false} CountsAdd(g: Grammar, a: seq<Node>, b: seq<Node>)
    ensures BranchCountAll(g, a + b) == BranchCountAll(g, a) + BranchCountAll(g, b)
    ensures SizeAll(a + b) == SizeAll(a) + SizeAll(b)
  {
    if a == [] {
      assert a + b == b;
    } else {
      CountsAdd(g, a[1..], b);
      assert (a + b)[1..] == a[1..] + b;
    }
  }

  lemma CountsOfOne(g: Grammar, node: Node)
    ensures BranchCountAll(g, [node]) == BranchCount(g, node) && SizeAll([node]) == Size(node)
  {
    assert [node][1..] == [];
  }

  /** The explicit stack visits every node exactly once: one plus the branch points. */
  method CyclomaticComplexity(g: Grammar, node: Node) returns (count: nat)
    ensures count == 1 + BranchCount(g, node)
  {
    count := 1;
    var stack := [node];
    CountsOfOne(g, node);
    while stack != []
      invariant count + BranchCountAll(g, stack) == 1 + BranchCount(g, node)
      decreases SizeAll(stack)
    {
      var current := stack[|stack| - 1];
      var below := stack[..|stack| - 1];
      assert stack == below + [current];
      CountsAdd(g, below, [current]);
      CountsOfOne(g, current);
      CountsAdd(g, below, current.children);
      stack := below;
      if IsBranch(g, current) {
        count := count + 1;
      }
      stack := stack + current.children;
    }
  }

  /** All nodes of the trees, each before those below it. */
  function Nodes(nodes: seq<Node>): seq<Node>
    decreases nodes
  {
    if nodes == [] then [] else [nodes[0]] + Nodes(nodes[0].children) + Nodes(nodes[1..])
  }

  /** The decision points among them: branching statements, and logical operators as tokens
      of their own. */
  function Decisions(g: Grammar, nodes: seq<Node>): set<nat> {
    set i: nat |
      i < |nodes| && (nodes[i].kind in g.branches || (|nodes[i].children| == 0 && nodes[i].kind in g.operators))
  }

  lemma {:induction false} DecisionsAdd(g: Grammar, a: seq<Node>, b: seq<Node>)
    ensures |Decisions(g, a + b)| == |Decisions(g, a)| + |Decisions(g, b)|
    decreases |b|
  {
    if b == [] {
      assert a + b == a;
    } else {
      var n := |b| - 1;
      DecisionsAdd(g, a, b[..n]);
      LastDecision(g, a + b[..n], b[n]);
      LastDecision(g, b[..n], b[n]);
      assert a + b == (a + b[..n]) + [b[n]] && b == b[..n] + [b[n]];
    }
  }

  lemma LastDecision(g: Grammar, nodes: seq<Node>, last: Node)
    ensures |Decisions(g, nodes + [last])| == |Decisions(g, nodes)| + if IsBranch(g, last) then 1 else 0
  {
    var n: nat, all := |nodes|, nodes + [last];
    assert forall i: nat :: i < n ==> all[i] == nodes[i];
    assert Decisions(g, all) == Decisions(g, nodes) + if IsBranch(g, last) then {n} else {};
    assert n !in Decisions(g, nodes);
  }

  /** The complexity of a node counts the decision points among all its nodes, each once. */
  lemma {:induction false} ComplexityCountsDecisions(g: Grammar, nodes: seq<Node>)
    ensures BranchCountAll(g, nodes) == |Decisions(g, Nodes(nodes))|
    decreases nodes
  {
    if nodes != [] {
      var below, rest := Nodes(nodes[0].children), Nodes(nodes[1..]);
      ComplexityCountsDecisions(g, nodes[0].children);
      ComplexityCountsDecisions(g, nodes[1..]);
      DecisionsAdd(g, [nodes[0]] + below, rest);
      DecisionsAdd(g, [nodes[0]], below);
      LastDecision(g, [], nodes[0]);
      assert [] + [nodes[0]] == [nodes[0]];
    }
  }

  // ---------------------------------------------------------------- collecting

  function Qualify(parent: Option<string>, name: string): Option<string> {
    if name == "" then parent
    else if parent.Some? then Some(parent.value + "." + name)
    else Some(name)
  }

  function SpanOf(g: Grammar, node: Node, parent: Option<string>): SymbolSpan {
    if IsFunction(g, node) then
      SymbolSpan(node.name, "function", node.text, node.startLine + 1, node.endLine + 1, node.startByte, node.endByte,
                 parent, node.signature, 1 + BranchCount(g, node))
    else
      SymbolSpan(node.name, FirstRule(node.kind, g.rules), node.header, node.startLine + 1, node.endLine + 1,
                 node.startByte, node.endByte, parent, node.signature, 0)
  }

  function Own(g: Grammar, node: Node, parent: Option<string>): seq<SymbolSpan> {
    if (IsFunction(g, node) || IsContainer(g, node)) && node.name != "" then [SpanOf(g, node, parent)] else []
  }

  /** The parent that the symbols inside a node get. */
  function Inside(g: Grammar, node: Node, parent: Option<string>): Option<string> {
    if IsContainer(g, node) then Qualify(parent, node.name) else parent
  }

  function CollectedOf(g: Grammar, node: Node, parent: Option<string>): seq<SymbolSpan>
    decreases node
  {
    Own(g, node, parent) + if IsFunction(g, node) then [] else Collected(g, node.children, Inside(g, node, parent))
  }

  function Collected(g: Grammar, nodes: seq<Node>, parent: Option<string>): seq<SymbolSpan>
    decreases nodes
  {
    if nodes == [] then [] else CollectedOf(g, nodes[0], parent) + Collected(g, nodes[1..], parent)
  }

  /** The symbol shows the node: its name, its lines counted from one, its bytes, its
      signature; a function with its text and its decisions, a container with its header. */
  predicate Shows(g: Grammar, symbol: SymbolSpan, node: Node) {
    && symbol.name == node.name && symbol.signature == node.signature
    && symbol.lineStart == node.startLine + 1 && symbol.lineEnd == node.endLine + 1
    && symbol.byteStart == node.startByte && symbol.byteEnd == node.endByte
    && if node.kind in g.functions then
         && symbol.kind == "function" && symbol.source == node.text
         && symbol.complexity == 1 + |Decisions(g, Nodes([node]))|
       else
         symbol.kind == FirstRule(node.kind, g.rules) && symbol.source == node.header && symbol.complexity == 0
  }

  lemma SpanShowsItsNode(g: Grammar, node: Node, parent: Option<string>)
    ensures Shows(g, SpanOf(g, node, parent), node) && SpanOf(g, node, parent).parent == parent
  {
    ComplexityCountsDecisions(g, [node]);
    CountsOfOne(g, node);
  }

  method BuildSymbol(g: Grammar, node: Node, parent: Option<string>) returns (symbol: Option<SymbolSpan>)
    requires IsFunction(g, node) || IsContainer(g, node)
    ensures symbol == if node.name == "" then None else Some(SpanOf(g, node, parent))
    ensures symbol.Some? ==> Shows(g, symbol.value, node) && symbol.value.parent == parent
  {
    if node.name == "" {
      return None;
    }
    var complexity := 0;
    if IsFunction(g, node) {
      complexity := CyclomaticComplexity(g, node);
    }
    SpanShowsItsNode(g, node, parent);
    return Some(SymbolSpan(
      node.name, if IsFunction(g, node) then "function" else FirstRule(node.kind, g.rules),
      if IsFunction(g, node) then node.text else node.header,
      node.startLine + 1, node.endLine + 1, node.startByte, node.endByte, parent, node.signature, complexity));
  }

  lemma OneChildMore(g: Grammar, found: seq<SymbolSpan>, nodes: seq<Node>, i: nat, parent: Option<string>)
    requires i < |nodes|
    ensures found + Collected(g, nodes[i..], parent)
         == (found + CollectedOf(g, nodes[i], parent)) + Collected(g, nodes[i + 1..], parent)
  {
    assert nodes[i..][1..] == nodes[i + 1..];
    ConcatAssociates(found, CollectedOf(g, nodes[i], parent), Collected(g, nodes[i + 1..], parent));
  }

  lemma ConcatAssociates(a: seq<SymbolSpan>, b: seq<SymbolSpan>, c: seq<SymbolSpan>)
    ensures (a + b) + c == a + (b + c)
  {
  }

  /** _collect. */
  method Collect(g: Grammar, node: Node, parent: Option<string>) returns (found: seq<SymbolSpan>)
    ensures found == Collected(g, node.children, parent)
    decreases node, 1
  {
    found := [];
    for i := 0 to |node.children|
      invariant found + Collected(g, node.children[i..], parent) == Collected(g, node.children, parent)
    {
      OneChildMore(g, found, node.children, i, parent);
      var more := CollectChild(g, node.children[i], parent);
      found := found + more;
    }
  }

  /** One turn of the loop in _collect. */
  method CollectChild(g: Grammar, child: Node, parent: Option<string>) returns (found: seq<SymbolSpan>)
    ensures found == CollectedOf(g, child, parent)
    decreases child, 2
  {
    if IsFunction(g, child) {
      var symbol := BuildSymbol(g, child, parent);
      return if symbol.Some? then [symbol.value] else [];
    }
    if IsContainer(g, child) {
      var container := BuildSymbol(g, child, parent);
      found := if container.Some? then [container.value] else [];
      var inner := Collect(g, child, Qualify(parent, child.name));
      return found + inner;
    }
    found := Collect(g, child, parent);
  }

  // ---------------------------------------------------------------- laminar ranges

  /** What a parser guarantees of ranges: children lie inside their parent, in order. */
  ghost predicate WellFormed(node: Node)
    decreases node
  {
    node.startByte <= node.endByte && WellFormedRow(node.children, node.startByte, node.endByte)
  }

  /** Well-formed siblings, one after the other within the range. */
  ghost predicate WellFormedRow(nodes: seq<Node>, from: nat, to: nat)
    decreases nodes
  {
    nodes != [] ==>
      && from <= nodes[0].startByte && nodes[0].endByte <= to && WellFormed(nodes[0])
      && WellFormedRow(nodes[1..], nodes[0].endByte, to)
  }

  /** `a` collected before `b`: apart and in order, or `b` inside the container `a`. */
  ghost predicate Laminar(a: SymbolSpan, b: SymbolSpan) {
    || a.byteEnd <= b.byteStart
    || (a.byteStart <= b.byteStart && b.byteEnd <= a.byteEnd && a.kind != "function")
  }

  ghost predicate Within(spans: seq<SymbolSpan>, from: nat, to: nat) {
    forall i :: 0 <= i < |spans| ==> from <= spans[i].byteStart <= spans[i].byteEnd <= to
  }

  ghost predicate LaminarFamily(spans: seq<SymbolSpan>) {
    forall i, j :: 0 <= i < j < |spans| ==> Laminar(spans[i], spans[j])
  }

  lemma {:induction false} CollectedIsLaminar(g: Grammar, nodes: seq<Node>, parent: Option<string>, from: nat, to: nat)
    requires WellFormedRow(nodes, from, to) && RulesAreForContainers(g)
    ensures LaminarFamily(Collected(g, nodes, parent)) && Within(Collected(g, nodes, parent), from, to)
    decreases nodes
  {
    if nodes != [] {
      var mid := nodes[0].endByte;
      CollectedOfIsLaminar(g, nodes[0], parent);
      CollectedIsLaminar(g, nodes[1..], parent, mid, to);
      RowIsLaminar(CollectedOf(g, nodes[0], parent), Collected(g, nodes[1..], parent), from, nodes[0].startByte, mid,
                   to);
    }
  }

  lemma {:induction false} CollectedOfIsLaminar(g: Grammar, node: Node, parent: Option<string>)
    requires WellFormed(node) && RulesAreForContainers(g)
    ensures LaminarFamily(CollectedOf(g, node, parent))
    ensures Within(CollectedOf(g, node, parent), node.startByte, node.endByte)
    decreases node
  {
    FirstRuleIsForContainers(node.kind, g.rules);
    if !IsFunction(g, node) {
      CollectedIsLaminar(g, node.children, Inside(g, node, parent), node.startByte, node.endByte);
    }
  }

  lemma RowIsLaminar(a: seq<SymbolSpan>, b: seq<SymbolSpan>, from: nat, start: nat, mid: nat, to: nat)
    requires LaminarFamily(a) && LaminarFamily(b) && from <= start <= mid <= to
    requires Within(a, start, mid) && Within(b, mid, to)
    ensures LaminarFamily(a + b) && Within(a + b, from, to)
  {
  }

  /** Sorting by start byte afterwards changes nothing: the walk is already in order. */
  lemma CollectedIsSorted(g: Grammar, root: Node)
    requires WellFormed(root) && RulesAreForContainers(g)
    ensures StableSort(Collected(g, root.children, None)) == Collected(g, root.children, None)
  {
    CollectedIsLaminar(g, root.children, None, root.startByte, root.endByte);
    SortOfSorted(Collected(g, root.children, None));
  }

  /** sort(key=byte_start): stable, so ties keep their order. */
  function StableSort(spans: seq<SymbolSpan>): seq<SymbolSpan> {
    if spans == [] then [] else Insert(spans[0], StableSort(spans[1..]))
  }

  function Insert(span: SymbolSpan, sorted: seq<SymbolSpan>): seq<SymbolSpan> {
    if sorted == [] || span.byteStart <= sorted[0].byteStart then [span] + sorted
    else [sorted[0]] + Insert(span, sorted[1..])
  }

  lemma {:induction false} SortOfSorted(spans: seq<SymbolSpan>)
    requires forall i, j :: 0 <= i < j < |spans| ==> spans[i].byteStart <= spans[j].byteStart
    ensures StableSort(spans) == spans
  {
    if |spans| > 1 {
      SortOfSorted(spans[1..]);
      assert spans[0].byteStart <= spans[1].byteStart;
    }
  }

  /** parse_file, given the tree or the fact that no grammar could be loaded. */
  method ParseFile(path: string, language: string, source: string, tree: Option<Node>) returns (parsed: ParsedFile)
    requires tree.Some? ==> WellFormed(tree.value)
    ensures parsed.path == path && parsed.language == language && parsed.source == source
    ensures parsed.parseFailed == tree.None? && LaminarFamily(parsed.symbols)
    ensures parsed.symbols == if tree.None? then [] else Collected(TABLES, tree.value.children, None)
  {
    parsed := ParsedFile(path, language, source, [], false);
    if tree.None? {
      return parsed.(parseFailed := true);
    }
    var symbols := Collect(TABLES, tree.value, None);
    CollectedIsLaminar(TABLES, tree.value.children, None, tree.value.startByte, tree.value.endByte);
    CollectedIsSorted(TABLES, tree.value);
    parsed := parsed.(symbols := StableSort(symbols));
  }

  // ---------------------------------------------------------------- which symbols, and whose

  /** A path names a node by the child to take at each level. */
  predicate ValidPath(nodes: seq<Node>, path: seq<nat>) {
    path != [] && path[0] < |nodes| && (|path| > 1 ==> ValidPath(nodes[path[0]].children, path[1..]))
  }

  function At(nodes: seq<Node>, path: seq<nat>): Node
    requires ValidPath(nodes, path)
  {
    if |path| == 1 then nodes[path[0]] else At(nodes[path[0]].children, path[1..])
  }

  /** No function stands above the node. */
  predicate Visible(g: Grammar, nodes: seq<Node>, path: seq<nat>)
    requires ValidPath(nodes, path)
  {
    |path| > 1 ==> !IsFunction(g, nodes[path[0]]) && Visible(g, nodes[path[0]].children, path[1..])
  }

  /** The names of the named containers above the node, outermost first. */
  function Chain(g: Grammar, nodes: seq<Node>, path: seq<nat>): seq<string>
    requires ValidPath(nodes, path)
  {
    if |path| == 1 then []
    else
      var top := nodes[path[0]];
      (if IsContainer(g, top) && top.name != "" then [top.name] else []) + Chain(g, top.children, path[1..])
  }

  predicate IsSymbolAt(g: Grammar, nodes: seq<Node>, path: seq<nat>) {
    && ValidPath(nodes, path) && Visible(g, nodes, path)
    && (IsFunction(g, At(nodes, path)) || IsContainer(g, At(nodes, path))) && At(nodes, path).name != ""
  }

  function Under(parent: Option<string>, chain: seq<string>): Option<string>
    decreases |chain|
  {
    if chain == [] then parent else Under(Qualify(parent, chain[0]), chain[1..])
  }

  function SymbolAt(g: Grammar, nodes: seq<Node>, parent: Option<string>, path: seq<nat>): SymbolSpan
    requires ValidPath(nodes, path)
  {
    SpanOf(g, At(nodes, path), Under(parent, Chain(g, nodes, path)))
  }

  /** Descending one level keeps what a path says about its node. */
  lemma OneLevelDown(g: Grammar, nodes: seq<Node>, parent: Option<string>, k: nat, below: seq<nat>)
    requires k < |nodes| && ValidPath(nodes[k].children, below)
    ensures ValidPath(nodes, [k] + below)
    ensures IsSymbolAt(g, nodes, [k] + below)
       <==> !IsFunction(g, nodes[k]) && IsSymbolAt(g, nodes[k].children, below)
    ensures SymbolAt(g, nodes, parent, [k] + below)
         == SymbolAt(g, nodes[k].children, Inside(g, nodes[k], parent), below)
  {
    var top := nodes[k];
    assert ([k] + below)[1..] == below;
    var deeper := Chain(g, top.children, below);
    if IsContainer(g, top) && top.name != "" {
      assert ([top.name] + deeper)[1..] == deeper;
    } else {
      assert [] + deeper == deeper;
    }
  }

  /** Moving a path past a first sibling. */
  lemma OneSiblingOver(g: Grammar, nodes: seq<Node>, parent: Option<string>, path: seq<nat>)
    requires nodes != [] && ValidPath(nodes[1..], path)
    ensures var shifted := [path[0] + 1] + path[1..];
            && ValidPath(nodes, shifted)
            && (IsSymbolAt(g, nodes, shifted) <==> IsSymbolAt(g, nodes[1..], path))
            && SymbolAt(g, nodes, parent, shifted) == SymbolAt(g, nodes[1..], parent, path)
  {
    var shifted := [path[0] + 1] + path[1..];
    assert shifted[1..] == path[1..];
    assert nodes[1..][path[0]] == nodes[path[0] + 1];
  }

  /** Nothing is missed: every named function or container with no function above it is
      collected, with the dotted chain of its named containers as parent. */
  lemma {:induction false} EverySymbolIsCollected(g: Grammar, nodes: seq<Node>, parent: Option<string>, path: seq<nat>)
    requires IsSymbolAt(g, nodes, path)
    ensures SymbolAt(g, nodes, parent, path) in Collected(g, nodes, parent)
    decreases nodes
  {
    var head, tail := CollectedOf(g, nodes[0], parent), Collected(g, nodes[1..], parent);
    if path[0] > 0 {
      var back := [path[0] - 1] + path[1..];
      assert back[1..] == path[1..] && [back[0] + 1] + back[1..] == path;
      OneSiblingOver(g, nodes, parent, back);
      EverySymbolIsCollected(g, nodes[1..], parent, back);
    } else if |path| > 1 {
      assert [path[0]] + path[1..] == path;
      OneLevelDown(g, nodes, parent, 0, path[1..]);
      EverySymbolIsCollected(g, nodes[0].children, Inside(g, nodes[0], parent), path[1..]);
    } else {
      assert SymbolAt(g, nodes, parent, path) == SpanOf(g, nodes[0], parent);
      assert SpanOf(g, nodes[0], parent) in Own(g, nodes[0], parent);
    }
  }

  /** And it is collected as it stands in the tree, whatever the parent. */
  lemma EverySymbolIsShown(g: Grammar, nodes: seq<Node>, parent: Option<string>, path: seq<nat>)
    requires IsSymbolAt(g, nodes, path)
    ensures exists i :: 0 <= i < |Collected(g, nodes, parent)|
                        && Shows(g, Collected(g, nodes, parent)[i], At(nodes, path))
  {
    EverySymbolIsCollected(g, nodes, parent, path);
    var i :| 0 <= i < |Collected(g, nodes, parent)|
             && Collected(g, nodes, parent)[i] == SymbolAt(g, nodes, parent, path);
    SpanShowsItsNode(g, At(nodes, path), Under(parent, Chain(g, nodes, path)));
  }

  /** Where the i-th collected symbol stands in the tree. */
  function SiteOf(g: Grammar, nodes: seq<Node>, parent: Option<string>, i: nat): (path: seq<nat>)
    requires i < |Collected(g, nodes, parent)|
    decreases nodes, 1
  {
    var head := |CollectedOf(g, nodes[0], parent)|;
    if i < head then SiteWithin(g, nodes[0], 0, parent, i)
    else
      var path := SiteOf(g, nodes[1..], parent, i - head);
      if path == [] then [] else [path[0] + 1] + path[1..]
  }

  function SiteWithin(g: Grammar, top: Node, k: nat, parent: Option<string>, i: nat): seq<nat>
    requires i < |CollectedOf(g, top, parent)|
    decreases top, 1
  {
    var own := |Own(g, top, parent)|;
    if i < own then [k] else [k] + SiteOf(g, top.children, Inside(g, top, parent), i - own)
  }

  /** Nothing is made up: every collected symbol is such a node. */
  lemma {:induction false} EveryCollectedIsASymbol(g: Grammar, nodes: seq<Node>, parent: Option<string>, i: nat)
    requires i < |Collected(g, nodes, parent)|
    ensures var path := SiteOf(g, nodes, parent, i);
            IsSymbolAt(g, nodes, path) && Collected(g, nodes, parent)[i] == SymbolAt(g, nodes, parent, path)
    decreases nodes, 1
  {
    var head := CollectedOf(g, nodes[0], parent);
    if i < |head| {
      EveryCollectedOfIsASymbol(g, nodes, parent, i);
    } else {
      EveryCollectedIsASymbol(g, nodes[1..], parent, i - |head|);
      OneSiblingOver(g, nodes, parent, SiteOf(g, nodes[1..], parent, i - |head|));
    }
  }

  /** So each collected symbol shows the node it stands at. */
  lemma EveryCollectedShowsItsNode(g: Grammar, nodes: seq<Node>, parent: Option<string>, i: nat)
    requires i < |Collected(g, nodes, parent)|
    ensures var path := SiteOf(g, nodes, parent, i);
            && ValidPath(nodes, path) && Visible(g, nodes, path)
            && Shows(g, Collected(g, nodes, parent)[i], At(nodes, path))
            && (At(nodes, path).kind in g.functions || At(nodes, path).kind in g.containers)
            && At(nodes, path).name != ""
  {
    EveryCollectedIsASymbol(g, nodes, parent, i);
    var path := SiteOf(g, nodes, parent, i);
    SpanShowsItsNode(g, At(nodes, path), Under(parent, Chain(g, nodes, path)));
  }

  lemma {:induction false} EveryCollectedOfIsASymbol(g: Grammar, nodes: seq<Node>, parent: Option<string>, i: nat)
    requires nodes != [] && i < |CollectedOf(g, nodes[0], parent)|
    ensures var path := SiteWithin(g, nodes[0], 0, parent, i);
            IsSymbolAt(g, nodes, path) && CollectedOf(g, nodes[0], parent)[i] == SymbolAt(g, nodes, parent, path)
    decreases nodes, 0
  {
    var top := nodes[0];
    var own := |Own(g, top, parent)|;
    if i >= own {
      EveryCollectedIsASymbol(g, top.children, Inside(g, top, parent), i - own);
      OneLevelDown(g, nodes, parent, 0, SiteOf(g, top.children, Inside(g, top, parent), i - own));
    }
  }

  /** Order of places in the text: outer before inner, earlier before later. */
  predicate Before(a: seq<nat>, b: seq<nat>) {
    b != [] && (a == [] || a[0] < b[0] || (a[0] == b[0] && Before(a[1..], b[1..])))
  }

  lemma {:induction false} BeforeIsStrict(a: seq<nat>, b: seq<nat>)
    requires Before(a, b)
    ensures a != b && !Before(b, a)
    decreases |a|
  {
    if a != [] && a[0] == b[0] {
      BeforeIsStrict(a[1..], b[1..]);
    }
  }

  /** The symbols of a first sibling stand before those of the others. */
  lemma FirstSiblingComesFirst(g: Grammar, nodes: seq<Node>, parent: Option<string>, i: nat, j: nat)
    requires j < |Collected(g, nodes, parent)|
    requires nodes != [] && i < |CollectedOf(g, nodes[0], parent)| <= j
    ensures Before(SiteOf(g, nodes, parent, i), SiteOf(g, nodes, parent, j))
  {
    var head := |CollectedOf(g, nodes[0], parent)|;
    EveryCollectedIsASymbol(g, nodes[1..], parent, j - head);
    assert SiteOf(g, nodes, parent, i) == SiteWithin(g, nodes[0], 0, parent, i);
  }

  function Shifted(path: seq<nat>): seq<nat>
    requires path != []
  {
    [path[0] + 1] + path[1..]
  }

  lemma SiteOfALaterSibling(g: Grammar, nodes: seq<Node>, parent: Option<string>, i: nat, path: seq<nat>)
    requires nodes != [] && |CollectedOf(g, nodes[0], parent)| <= i < |Collected(g, nodes, parent)|
    requires path == SiteOf(g, nodes[1..], parent, i - |CollectedOf(g, nodes[0], parent)|)
    ensures path != [] && SiteOf(g, nodes, parent, i) == Shifted(path)
  {
    EveryCollectedIsASymbol(g, nodes[1..], parent, i - |CollectedOf(g, nodes[0], parent)|);
  }

  lemma LaterSiblingsAreInOrder(g: Grammar, nodes: seq<Node>, parent: Option<string>, i: nat, j: nat, a: seq<nat>,
                                b: seq<nat>)
    requires nodes != [] && |CollectedOf(g, nodes[0], parent)| <= i < j < |Collected(g, nodes, parent)|
    requires a == SiteOf(g, nodes[1..], parent, i - |CollectedOf(g, nodes[0], parent)|)
    requires b == SiteOf(g, nodes[1..], parent, j - |CollectedOf(g, nodes[0], parent)|)
    requires Before(a, b)
    ensures Before(SiteOf(g, nodes, parent, i), SiteOf(g, nodes, parent, j))
  {
    SiteOfALaterSibling(g, nodes, parent, i, a);
    SiteOfALaterSibling(g, nodes, parent, j, b);
    ShiftKeepsOrder(a, b);
  }

  /** Nothing is collected twice, and the order is that of the text. */
  lemma {:induction false} SitesAreInOrder(g: Grammar, nodes: seq<Node>, parent: Option<string>, i: nat, j: nat)
    requires i < j < |Collected(g, nodes, parent)|
    ensures Before(SiteOf(g, nodes, parent, i), SiteOf(g, nodes, parent, j))
    decreases nodes, 1
  {
    var head := |CollectedOf(g, nodes[0], parent)|;
    if j < head {
      SitesWithinAreInOrder(g, nodes[0], 0, parent, i, j);
    } else if i < head {
      FirstSiblingComesFirst(g, nodes, parent, i, j);
    } else {
      SitesAreInOrder(g, nodes[1..], parent, i - head, j - head);
      LaterSiblingsAreInOrder(g, nodes, parent, i, j, SiteOf(g, nodes[1..], parent, i - head),
                              SiteOf(g, nodes[1..], parent, j - head));
    }
  }

  lemma ShiftKeepsOrder(a: seq<nat>, b: seq<nat>)
    requires a != [] && Before(a, b)
    ensures Before(Shifted(a), Shifted(b))
  {
    assert Shifted(a)[1..] == a[1..] && Shifted(b)[1..] == b[1..];
  }

  lemma {:induction false} SitesWithinAreInOrder(g: Grammar, top: Node, k: nat, parent: Option<string>, i: nat, j: nat)
    requires i < j < |CollectedOf(g, top, parent)|
    ensures Before(SiteWithin(g, top, k, parent, i), SiteWithin(g, top, k, parent, j))
    decreases top, 1
  {
    var own, inner := |Own(g, top, parent)|, Inside(g, top, parent);
    var later := SiteOf(g, top.children, inner, j - own);
    if i < own {
      EveryCollectedIsASymbol(g, top.children, inner, j - own);
      PrefixKeepsOrder(k, [], later);
      assert [k] + [] == [k];
    } else {
      SitesAreInOrder(g, top.children, inner, i - own, j - own);
      PrefixKeepsOrder(k, SiteOf(g, top.children, inner, i - own), later);
    }
  }

  lemma PrefixKeepsOrder(k: nat, a: seq<nat>, b: seq<nat>)
    requires Before(a, b)
    ensures Before([k] + a, [k] + b)
  {
    assert ([k] + a)[1..] == a && ([k] + b)[1..] == b;
  }

  /** The parent is the chain of names joined by dots. */
  lemma {:induction false} ChainIsDotted(parent: string, chain: seq<string>)
    requires forall k :: 0 <= k < |chain| ==> chain[k] != ""
    ensures Under(Some(parent), chain) == Some(Join(".", [parent] + chain))
    ensures chain != [] ==> Under(None, chain) == Some(Join(".", chain))
    decreases |chain|
  {
    if chain != [] {
      ChainIsDotted(parent + "." + chain[0], chain[1..]);
      ChainIsDotted(chain[0], chain[1..]);
      assert [chain[0]] + chain[1..] == chain;
      assert ([parent] + chain)[1..] == chain;
      FirstTwo(parent, chain);
    }
  }

  lemma FirstTwo(parent: string, chain: seq<string>)
    requires chain != []
    ensures Join(".", [parent + "." + chain[0]] + chain[1..]) == Join(".", [parent] + chain)
  {
    var merged := [parent + "." + chain[0]] + chain[1..];
    assert merged[1..] == chain[1..] && ([parent] + chain)[1..] == chain;
    if |chain| > 1 {
      Regroup(parent, chain[0], Join(".", chain[1..]));
    }
  }

  lemma Regroup(a: string, b: string, c: string)
    ensures (a + "." + b) + "." + c == a + "." + (b + "." + c)
  {
  }

  lemma {:induction false} ChainNamesAreNotEmpty(g: Grammar, nodes: seq<Node>, path: seq<nat>, k: nat)
    requires ValidPath(nodes, path) && k < |Chain(g, nodes, path)|
    ensures Chain(g, nodes, path)[k] != ""
    decreases |path|
  {
    var top := nodes[path[0]];
    var named := IsContainer(g, top) && top.name != "";
    if !named {
      ChainNamesAreNotEmpty(g, top.children, path[1..], k);
    } else if k > 0 {
      ChainNamesAreNotEmpty(g, top.children, path[1..], k - 1);
    }
  }

  /** The parent of a symbol of a file, as users read it. */
  lemma ParentIsTheDottedChain(g: Grammar, root: Node, path: seq<nat>)
    requires IsSymbolAt(g, root.children, path)
    ensures var chain := Chain(g, root.children, path);
            SymbolAt(g, root.children, None, path).parent == if chain == [] then None else Some(Join(".", chain))
  {
    var chain := Chain(g, root.children, path);
    forall k | 0 <= k < |chain|
      ensures chain[k] != ""
    {
      ChainNamesAreNotEmpty(g, root.children, path, k);
    }
    ChainIsDotted("", chain);
  }
}
