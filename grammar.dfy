/**
 * The position-annotated syntax tree of an API description and the read-only queries
 * over it (src/grammar/openapi-grammar.ts). The native tree-sitter parser is not part of
 * this model: its output is the input datatype `SyntaxNode`.
 */
module OpenApiGrammar {
  import opened Wrappers

  /** A zero-based row/column position. */
  datatype Point = Point(row: int, column: int)

  /** A node as the native parser hands it over: every node has a text. */
  datatype SyntaxNode = SyntaxNode(
    kind: string, startPosition: Point, endPosition: Point,
    children: seq<SyntaxNode>, text: string)

  /** `OpenAPINode`. An empty `children` stands for an absent child list: every query
      below treats the two alike, since iterating an empty list visits nothing. */
  datatype Node = Node(
    kind: string, startPosition: Point, endPosition: Point,
    children: seq<Node>, text: Option<string>)

  // ---------------------------------------------------------------------------
  // transformNode

  /** A composite node keeps its transformed children and drops its text; a node
      without children keeps its text. */
  function Transform(t: SyntaxNode): Node
    decreases t
  {
    if |t.children| > 0 then
      Node(t.kind, t.startPosition, t.endPosition,
           seq(|t.children|, i requires 0 <= i < |t.children| => Transform(t.children[i])), None)
    else
      Node(t.kind, t.startPosition, t.endPosition, [], Some(t.text))
  }

  /** Every node of the tree has either a non-empty child list or a text, never both. */
  ghost predicate WellFormed(n: Node)
    decreases n
  {
    && (|n.children| > 0 <==> n.text.None?)
    && forall i :: 0 <= i < |n.children| ==> WellFormed(n.children[i])
  }

  /** `n` has the shape of `t`: same kind and positions, children matched one to one and
      in order, and the text of every childless node. */
  ghost predicate Mirrors(t: SyntaxNode, n: Node)
    decreases t
  {
    && n.kind == t.kind
    && n.startPosition == t.startPosition
    && n.endPosition == t.endPosition
    && |n.children| == |t.children|
    && (|t.children| == 0 ==> n.text == Some(t.text))
    && forall i :: 0 <= i < |t.children| ==> Mirrors(t.children[i], n.children[i])
  }

  lemma {:induction false} TransformWellFormed(t: SyntaxNode)
    ensures WellFormed(Transform(t))
    ensures Mirrors(t, Transform(t))
    decreases t
  {
    forall i | 0 <= i < |t.children| {
      TransformWellFormed(t.children[i]);
    }
  }

  // ---------------------------------------------------------------------------
  // Pre-order and findNodes

  /** The nodes of the tree rooted at `n` in depth-first pre-order. */
  function PreOrder(n: Node): seq<Node>
    decreases n, 1
  {
    [n] + PreOrderForest(n, |n.children|)
  }

  /** The pre-orders of the first `i` children of `n`, one after another. */
  function PreOrderForest(n: Node, i: nat): seq<Node>
    requires i <= |n.children|
    decreases n, 0, i
  {
    if i == 0 then [] else PreOrderForest(n, i - 1) + PreOrder(n.children[i - 1])
  }

  /** The nodes of `ns` whose type is `kind`, in their order. */
  function OfKind(ns: seq<Node>, kind: string): seq<Node> {
    if ns == [] then []
    else
      var last := ns[|ns| - 1];
      OfKind(ns[..|ns| - 1], kind) + (if last.kind == kind then [last] else [])
  }

  lemma {:induction false} OfKindMembers(ns: seq<Node>, kind: string)
    ensures forall m :: m in OfKind(ns, kind) <==> m in ns && m.kind == kind
    decreases |ns|
  {
    if ns != [] {
      OfKindMembers(ns[..|ns| - 1], kind);
      assert ns == ns[..|ns| - 1] + [ns[|ns| - 1]];
    }
  }

  lemma {:induction false} OfKindAppend(a: seq<Node>, b: seq<Node>, kind: string)
    ensures OfKind(a + b, kind) == OfKind(a, kind) + OfKind(b, kind)
    decreases |b|
  {
    if b != [] {
      var b' := b[..|b| - 1];
      assert (a + b)[..|a + b| - 1] == a + b';
      OfKindAppend(a, b', kind);
    } else {
      assert a + b == a;
    }
  }

  /** findNodes: every node of type `kind`, in depth-first pre-order. */
  method FindNodes(root: Node, kind: string) returns (nodes: seq<Node>)
    ensures nodes == OfKind(PreOrder(root), kind)
    ensures forall m :: m in nodes <==> m in PreOrder(root) && m.kind == kind
    ensures root.kind == kind ==> |nodes| > 0 && nodes[0] == root
  {
    nodes := CollectOfKind(root, kind, []);
    OfKindAppend([root], PreOrderForest(root, |root.children|), kind);
    OfKindMembers(PreOrder(root), kind);
  }

  /** The `traverse` closure of findNodes, pushing onto the accumulator `acc`. */
  method CollectOfKind(node: Node, kind: string, acc: seq<Node>) returns (nodes: seq<Node>)
    ensures nodes == acc + OfKind(PreOrder(node), kind)
    decreases node, 1
  {
    nodes := acc;
    if node.kind == kind {
      nodes := nodes + [node];
    }
    ghost var own := OfKind([node], kind);
    assert [node][..0] == [];
    assert own == OfKind([], kind) + (if node.kind == kind then [node] else []);
    assert nodes == acc + own;
    nodes := CollectInChildren(node, kind, nodes);
    OfKindAppend([node], PreOrderForest(node, |node.children|), kind);
    assert nodes == acc + (own + OfKind(PreOrderForest(node, |node.children|), kind));
  }

  /** The loop of `traverse` over the children, each traversed in turn. */
  method CollectInChildren(node: Node, kind: string, acc: seq<Node>) returns (nodes: seq<Node>)
    ensures nodes == acc + OfKind(PreOrderForest(node, |node.children|), kind)
    decreases node, 0
  {
    nodes := acc;
    var i := 0;
    while i < |node.children|
      invariant i <= |node.children|
      invariant nodes == acc + OfKind(PreOrderForest(node, i), kind)
    {
      ghost var done := OfKind(PreOrderForest(node, i), kind);
      nodes := CollectOfKind(node.children[i], kind, nodes);
      OfKindAppend(PreOrderForest(node, i), PreOrder(node.children[i]), kind);
      assert nodes == acc + (done + OfKind(PreOrder(node.children[i]), kind));
      i := i + 1;
    }
  }

  // ---------------------------------------------------------------------------
  // isPositionInNode and getNodeAtPosition

  /** isPositionInNode: at or after the start and at or before the end, row first. */
  predicate IsPositionInNode(n: Node, row: int, column: int) {
    && (row > n.startPosition.row || (row == n.startPosition.row && column >= n.startPosition.column))
    && (row < n.endPosition.row || (row == n.endPosition.row && column <= n.endPosition.column))
  }

  /** Row-major order on positions. */
  predicate AtOrBefore(a: Point, b: Point) {
    a.row < b.row || (a.row == b.row && a.column <= b.column)
  }

  lemma AtOrBeforeIsTotalOrder(a: Point, b: Point, c: Point)
    ensures AtOrBefore(a, a)
    ensures AtOrBefore(a, b) && AtOrBefore(b, a) ==> a == b
    ensures AtOrBefore(a, b) && AtOrBefore(b, c) ==> AtOrBefore(a, c)
    ensures AtOrBefore(a, b) || AtOrBefore(b, a)
  {
  }

  /** A point is in a node iff it lies between its start and its end, both included. */
  lemma PositionInNodeIsClosedRange(n: Node, row: int, column: int)
    ensures IsPositionInNode(n, row, column) <==>
      AtOrBefore(n.startPosition, Point(row, column)) && AtOrBefore(Point(row, column), n.endPosition)
    ensures AtOrBefore(n.startPosition, n.endPosition) ==>
      IsPositionInNode(n, n.startPosition.row, n.startPosition.column) &&
      IsPositionInNode(n, n.endPosition.row, n.endPosition.column)
  {
  }

  /** The nodes getNodeAtPosition assigns to `result`, in the order it assigns them: a node
      that contains the point, then what its children yield; nothing below a node that
      does not contain it. */
  function Visits(n: Node, row: int, column: int): seq<Node>
    decreases n, 1
  {
    if IsPositionInNode(n, row, column) then [n] + VisitsForest(n, |n.children|, row, column) else []
  }

  function VisitsForest(n: Node, i: nat, row: int, column: int): seq<Node>
    requires i <= |n.children|
    decreases n, 0, i
  {
    if i == 0 then [] else VisitsForest(n, i - 1, row, column) + Visits(n.children[i - 1], row, column)
  }

  /** The last element of `s`, or `d` when `s` is empty. */
  function LastOr(s: seq<Node>, d: Option<Node>): Option<Node> {
    if s == [] then d else Some(s[|s| - 1])
  }

  /** The last visited node contains the point and none of its children does. */
  ghost predicate Innermost(m: Node, row: int, column: int) {
    IsPositionInNode(m, row, column) &&
    forall i :: 0 <= i < |m.children| ==> !IsPositionInNode(m.children[i], row, column)
  }

  lemma {:induction false} VisitsLastIsInnermost(n: Node, row: int, column: int)
    requires Visits(n, row, column) != []
    ensures Innermost(LastOr(Visits(n, row, column), None).value, row, column)
    decreases n, 1
  {
    var k := |n.children|;
    if VisitsForest(n, k, row, column) != [] {
      VisitsForestLastIsInnermost(n, k, row, column);
    } else {
      forall i | 0 <= i < k ensures !IsPositionInNode(n.children[i], row, column) {
        VisitsForestEmpty(n, k, i, row, column);
      }
    }
  }

  lemma {:induction false} VisitsForestLastIsInnermost(n: Node, i: nat, row: int, column: int)
    requires i <= |n.children| && VisitsForest(n, i, row, column) != []
    ensures Innermost(LastOr(VisitsForest(n, i, row, column), None).value, row, column)
    decreases n, 0, i
  {
    var child := Visits(n.children[i - 1], row, column);
    if child != [] {
      VisitsLastIsInnermost(n.children[i - 1], row, column);
    } else {
      VisitsForestLastIsInnermost(n, i - 1, row, column);
    }
  }

  lemma {:induction false} VisitsForestEmpty(n: Node, i: nat, j: nat, row: int, column: int)
    requires j < i <= |n.children| && VisitsForest(n, i, row, column) == []
    ensures Visits(n.children[j], row, column) == []
    decreases i
  {
    if j < i - 1 {
      VisitsForestEmpty(n, i - 1, j, row, column);
    }
  }

  /** Every visited node belongs to the tree. */
  lemma {:induction false} VisitsInTree(n: Node, row: int, column: int)
    ensures forall m :: m in Visits(n, row, column) ==> m in PreOrder(n)
    decreases n, 1
  {
    if IsPositionInNode(n, row, column) {
      VisitsForestInTree(n, |n.children|, row, column);
    }
  }

  lemma {:induction false} VisitsForestInTree(n: Node, i: nat, row: int, column: int)
    requires i <= |n.children|
    ensures forall m :: m in VisitsForest(n, i, row, column) ==> m in PreOrderForest(n, i)
    decreases n, 0, i
  {
    if i > 0 {
      VisitsForestInTree(n, i - 1, row, column);
      VisitsInTree(n.children[i - 1], row, column);
    }
  }

  /** getNodeAtPosition. */
  method GetNodeAtPosition(root: Node, row: int, column: int) returns (result: Option<Node>)
    ensures result == LastOr(Visits(root, row, column), None)
    ensures result.None? <==> !IsPositionInNode(root, row, column)
    ensures result.Some? ==> Innermost(result.value, row, column) && result.value in PreOrder(root)
  {
    result := VisitFrom(root, row, column, None);
    if result.Some? {
      VisitsLastIsInnermost(root, row, column);
      VisitsInTree(root, row, column);
    }
  }

  /** The `traverse` closure of getNodeAtPosition, overwriting the captured `result`. */
  method VisitFrom(node: Node, row: int, column: int, result: Option<Node>) returns (last: Option<Node>)
    ensures last == LastOr(Visits(node, row, column), result)
    decreases node
  {
    last := result;
    if IsPositionInNode(node, row, column) {
      last := Some(node);
      var i := 0;
      while i < |node.children|
        invariant i <= |node.children|
        invariant last == LastOr([node] + VisitsForest(node, i, row, column), result)
      {
        var before := [node] + VisitsForest(node, i, row, column);
        last := VisitFrom(node.children[i], row, column, last);
        assert before + Visits(node.children[i], row, column) == [node] + VisitsForest(node, i + 1, row, column);
        i := i + 1;
      }
    }
  }

  // ---------------------------------------------------------------------------
  // Single-level key scans: getOpenAPINodes, getPathOperations, getSchemaProperties

  const PairKind := "block_mapping_pair"
  const SectionNames: set<string> := {"info", "paths", "components", "servers", "security"}
  const HttpVerbs: seq<string> := ["get", "post", "put", "delete", "patch", "options", "head", "trace"]

  /** Which keys a scan keeps, and under which name. `SectionKeysAsWritten` is the lookup
      getOpenAPINodes actually performs (see SectionKeyAsWritten); `SectionKeys` is the
      intended one, used by GetOpenApiNodes. */
  datatype KeyRule = SectionKeys | SectionKeysAsWritten | VerbKeys | AnyKey

  /** The properties every plain object inherits from `Object.prototype`. */
  const PrototypeNames: set<string> := {
    "constructor", "hasOwnProperty", "isPrototypeOf", "propertyIsEnumerable",
    "toLocaleString", "toString", "valueOf", "__defineGetter__", "__defineSetter__",
    "__lookupGetter__", "__lookupSetter__", "__proto__"}

  /** `mapping[key]` as getOpenAPINodes reads it: the mapping is an object literal, so an
      inherited name reads as truthy too, and the name recorded is that value converted to
      a property key: a method's source text, the source text of `Object` for
      `constructor`, or `[object Object]` for the prototype itself. */
  function SectionKeyAsWritten(key: string): Option<string> {
    if key in SectionNames then Some(key)
    else if key == "__proto__" then Some("[object Object]")
    else if key == "constructor" then Some(NativeSource("Object"))
    else if key in PrototypeNames then Some(NativeSource(key))
    else None
  }

  /** The source text `String()` gives for a built-in method called `name`. */
  function NativeSource(name: string): string {
    "function " + name + "() { [native code] }"
  }

  /** `toLowerCase` on ASCII letters. */
  function LowerAscii(s: string): (r: string)
    ensures |r| == |s|
  {
    seq(|s|, i requires 0 <= i < |s| => if 'A' <= s[i] <= 'Z' then (s[i] as int + 32) as char else s[i])
  }

  /** `child.children?.[0]?.text` when it is a non-empty string. */
  function KeyText(child: Node): Option<string> {
    if |child.children| > 0 && child.children[0].text.Some? && child.children[0].text.value != ""
    then child.children[0].text else None
  }

  /** `child.children?.[1]` */
  function PairValue(child: Node): Option<Node> {
    if |child.children| > 1 then Some(child.children[1]) else None
  }

  /** The name under which a scan records `child`, if it records it at all. */
  function PairKey(rule: KeyRule, child: Node): (r: Option<string>)
    ensures r.Some? ==> r.value != ""
    ensures r.Some? && rule.SectionKeys? ==> r.value in SectionNames
    ensures r.Some? && rule.VerbKeys? ==> r.value in HttpVerbs
    ensures r.Some? && rule.AnyKey? ==> r.value != "__proto__"
  {
    if child.kind != PairKind || KeyText(child).None? then None
    else
      var key := KeyText(child).value;
      match rule
      case SectionKeys => if key in SectionNames then Some(key) else None
      case SectionKeysAsWritten => SectionKeyAsWritten(key)
      case VerbKeys => var m := LowerAscii(key); if m in HttpVerbs then Some(m) else None
      case AnyKey => if key == "__proto__" then None else Some(key)
  }

  /** The index of the last element of `xs` equal to `x`. */
  function LastIndexOf<T(==)>(xs: seq<T>, x: T): Option<nat> {
    if xs == [] then None
    else if xs[|xs| - 1] == x then Some(|xs| - 1)
    else LastIndexOf(xs[..|xs| - 1], x)
  }

  lemma {:induction false} LastIndexOfIsLast<T>(xs: seq<T>, x: T)
    ensures LastIndexOf(xs, x).None? <==> forall i :: 0 <= i < |xs| ==> xs[i] != x
    ensures LastIndexOf(xs, x).Some? ==>
      var i := LastIndexOf(xs, x).value;
      i < |xs| && xs[i] == x && forall j :: i < j < |xs| ==> xs[j] != x
    decreases |xs|
  {
    if xs != [] && xs[|xs| - 1] != x {
      var front := xs[..|xs| - 1];
      LastIndexOfIsLast(front, x);
      assert forall i :: 0 <= i < |front| ==> front[i] == xs[i];
    }
  }

  /** The name under which a scan records each child of `cs`. */
  function RecordedKeys(rule: KeyRule, cs: seq<Node>): seq<Option<string>> {
    seq(|cs|, i requires 0 <= i < |cs| => PairKey(rule, cs[i]))
  }

  /** The index of the last child of `cs` recorded under the name `k`. */
  function LastRecorded(rule: KeyRule, cs: seq<Node>, k: string): Option<nat> {
    LastIndexOf(RecordedKeys(rule, cs), Some(k))
  }

  /** LastRecorded finds a child recorded under `k` iff there is one, and no later child is. */
  lemma LastRecordedIsLast(rule: KeyRule, cs: seq<Node>, k: string)
    ensures LastRecorded(rule, cs, k).None? <==> forall i :: 0 <= i < |cs| ==> PairKey(rule, cs[i]) != Some(k)
    ensures LastRecorded(rule, cs, k).Some? ==>
      var i := LastRecorded(rule, cs, k).value;
      i < |cs| && PairKey(rule, cs[i]) == Some(k) && forall j :: i < j < |cs| ==> PairKey(rule, cs[j]) != Some(k)
  {
    var keys := RecordedKeys(rule, cs);
    LastIndexOfIsLast(keys, Some(k));
    assert forall i :: 0 <= i < |cs| ==> keys[i] == PairKey(rule, cs[i]);
  }

  /** `r` maps each name that occurs in `keys` to the value at its last occurrence, and
      holds no other name. */
  ghost predicate Records<V>(keys: seq<Option<string>>, values: seq<V>, r: map<string, V>)
    requires |keys| == |values|
  {
    forall k :: (k in r <==> LastIndexOf(keys, Some(k)).Some?) &&
      (k in r ==> LastIndexOf(keys, Some(k)).value < |values| && r[k] == values[LastIndexOf(keys, Some(k)).value])
  }

  /** The value of each child of `cs`. */
  function PairValues(cs: seq<Node>): seq<Option<Node>> {
    seq(|cs|, i requires 0 <= i < |cs| => PairValue(cs[i]))
  }

  /** `r` is the record a scan of `cs` builds: a name is present iff some child is recorded
      under it, and it maps to the value of the last such child. */
  ghost predicate ScanOf(rule: KeyRule, cs: seq<Node>, r: map<string, Option<Node>>) {
    Records(RecordedKeys(rule, cs), PairValues(cs), r)
  }

  /** The `forEach` over a node's direct children shared by the three scans. */
  method ScanPairs(rule: KeyRule, cs: seq<Node>) returns (r: map<string, Option<Node>>)
    ensures ScanOf(rule, cs, r)
  {
    r := map[];
    var i := 0;
    while i < |cs|
      invariant i <= |cs|
      invariant ScanOf(rule, cs[..i], r)
    {
      var key := PairKey(rule, cs[i]);
      ScannedSnoc(rule, cs, i);
      RecordsSnoc(RecordedKeys(rule, cs[..i]), PairValues(cs[..i]), r, key, PairValue(cs[i]));
      if key.Some? {
        r := r[key.value := PairValue(cs[i])];
      }
      i := i + 1;
    }
    assert cs[..|cs|] == cs;
  }

  lemma ScannedSnoc(rule: KeyRule, cs: seq<Node>, i: nat)
    requires i < |cs|
    ensures RecordedKeys(rule, cs[..i + 1]) == RecordedKeys(rule, cs[..i]) + [PairKey(rule, cs[i])]
    ensures PairValues(cs[..i + 1]) == PairValues(cs[..i]) + [PairValue(cs[i])]
  {
    assert RecordedKeys(rule, cs[..i + 1])[..i] == RecordedKeys(rule, cs[..i]);
  }

  /** One more child: its name, if it has one, now maps to its value. */
  lemma RecordsSnoc<V>(keys: seq<Option<string>>, values: seq<V>, r: map<string, V>, key: Option<string>, value: V)
    requires |keys| == |values| && Records(keys, values, r)
    ensures Records(keys + [key], values + [value], if key.Some? then r[key.value := value] else r)
  {
    var r' := if key.Some? then r[key.value := value] else r;
    forall k
      ensures k in r' <==> LastIndexOf(keys + [key], Some(k)).Some?
      ensures k in r' ==> LastIndexOf(keys + [key], Some(k)).value < |values| + 1
                          && r'[k] == (values + [value])[LastIndexOf(keys + [key], Some(k)).value]
    {
      LastIndexOfSnoc(keys, key, Some(k));
      if key != Some(k) && k in r {
        LastIndexOfIsLast(keys, Some(k));
        assert (values + [value])[LastIndexOf(keys, Some(k)).value] == values[LastIndexOf(keys, Some(k)).value];
      }
    }
  }

  lemma LastIndexOfSnoc<T>(xs: seq<T>, y: T, x: T)
    ensures LastIndexOf(xs + [y], x) == if y == x then Some(|xs|) else LastIndexOf(xs, x)
  {
    assert (xs + [y])[..|xs|] == xs;
  }

  /** getOpenAPINodes: the top-level sections among the root's direct pairs only. */
  method GetOpenApiNodes(root: Node) returns (sections: map<string, Option<Node>>)
    ensures sections.Keys <= SectionNames
    ensures ScanOf(SectionKeys, root.children, sections)
    ensures root.children == [] ==> sections == map[]
  {
    sections := ScanPairs(SectionKeys, root.children);
    forall k | k in sections ensures k in SectionNames {
      LastRecordedIsLast(SectionKeys, root.children, k);
    }
  }

  /** A root pair `toString: x`: its key is not a section name. */
  const ToStringPair := Node(PairKind, Point(0, 0), Point(0, 11),
    [Node("plain_scalar", Point(0, 0), Point(0, 8), [], Some("toString")),
     Node("plain_scalar", Point(0, 10), Point(0, 11), [], Some("x"))], None)

  /** As written, getOpenAPINodes records the pair `toString: x` under a name that is not a
      section; the intended scan records nothing for it. */
  lemma PrototypeKeyIsRecorded()
    ensures LastRecorded(SectionKeysAsWritten, [ToStringPair], NativeSource("toString")) == Some(0)
    ensures NativeSource("toString") !in SectionNames
    ensures forall k :: LastRecorded(SectionKeys, [ToStringPair], k).None?
  {
    assert KeyText(ToStringPair) == Some("toString");
    assert "toString" !in SectionNames && "toString" in PrototypeNames && "toString" != "__proto__";
    var written := Some(NativeSource("toString"));
    assert PairKey(SectionKeysAsWritten, ToStringPair) == written;
    var keys: seq<Option<string>> := [written];
    assert RecordedKeys(SectionKeysAsWritten, [ToStringPair]) == keys && keys[..0] == [];
    var none: seq<Option<string>> := [None];
    assert RecordedKeys(SectionKeys, [ToStringPair]) == none && none[..0] == [];
  }

  /** getPathOperations: the direct pairs whose lower-cased key is an HTTP verb. */
  method GetPathOperations(pathNode: Node) returns (operations: map<string, Option<Node>>)
    ensures forall m :: m in operations ==> m in HttpVerbs
    ensures ScanOf(VerbKeys, pathNode.children, operations)
  {
    operations := ScanPairs(VerbKeys, pathNode.children);
    forall m | m in operations ensures m in HttpVerbs {
      LastRecordedIsLast(VerbKeys, pathNode.children, m);
    }
  }

  /** getSchemaProperties: every direct pair with a non-empty key. Assigning to `__proto__`
      replaces the record's prototype instead of adding a key, so that key never appears. */
  method GetSchemaProperties(schemaNode: Node) returns (properties: map<string, Option<Node>>)
    ensures forall k :: k in properties ==> k != "" && k != "__proto__"
    ensures ScanOf(AnyKey, schemaNode.children, properties)
  {
    properties := ScanPairs(AnyKey, schemaNode.children);
    forall k | k in properties ensures k != "" && k != "__proto__" {
      LastRecordedIsLast(AnyKey, schemaNode.children, k);
    }
  }
}
