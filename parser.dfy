/**
 * The full parser (src/parser/OpenAPIParser.ts): building a parse result from the external
 * decoders, and the read-only projections of a decoded document (version, info, servers,
 * components, paths, references).
 */
module Parser {
  import opened Wrappers
  import opened JsonValue
  import opened Diagnostics

  // ---------------------------------------------------------------------------
  // parse

  /** What `parseJSON` / `parseYAML` of the external parser library do with a fresh
      collector: push some diagnostics into it, or throw. */
  datatype AstPass = AstDiagnostics(found: seq<Diagnostic>) | AstThrew(message: string)

  /** The external collaborators of parse, received as parameters. */
  datatype Decoders = Decoders(
    isJsonContent: string -> bool,
    parseJson: string -> AstPass,
    parseYaml: string -> AstPass,
    text: TextDecoders)

  /** ParserResult; `None` stands for an absent property. */
  datatype ParserResult = ParserResult(
    isValid: bool,
    document: Option<Value>,
    errors: Option<seq<string>>,
    diagnostics: Option<seq<Diagnostic>>)

  /** The result of a parse that threw. */
  function Failed(message: string): ParserResult {
    ParserResult(false, None, Some([message]), None)
  }

  /** The AST pass parse runs on `content`, chosen by `isJsonContent`. */
  function AstPassOf(content: string, dec: Decoders): AstPass {
    if dec.isJsonContent(content) then dec.parseJson(content) else dec.parseYaml(content)
  }

  /** The document decode parse runs on `content`, chosen by the same test. */
  function DocumentOf(content: string, dec: Decoders): Decoded {
    if dec.isJsonContent(content) then dec.text.json(content) else dec.text.yaml(content)
  }

  /** What parse returns for `content`: it depends on nothing else, so no diagnostic of an
      earlier call can show up in it. */
  function ParseOutcome(content: string, dec: Decoders): (r: ParserResult)
    ensures r.isValid <==> r.diagnostics == Some([])
    ensures r.errors.Some? <==> r.document.None?
    ensures r.errors.Some? ==> !r.isValid && |r.errors.value| == 1 && r.diagnostics.None?
    ensures r.errors.Some? <==> AstPassOf(content, dec).AstThrew? || DocumentOf(content, dec).DecodeError?
    ensures r.document.Some? ==>
      DocumentOf(content, dec) == Decoded(r.document.value) &&
      r.diagnostics == Some(AstPassOf(content, dec).found)
  {
    match AstPassOf(content, dec)
    case AstThrew(m) => Failed(m)
    case AstDiagnostics(found) =>
      match DocumentOf(content, dec)
      case DecodeError(m) => Failed(m)
      case Decoded(doc) => ParserResult(|found| == 0, Some(doc), None, Some(found))
  }

  /** OpenAPIParser. */
  class OpenApiParser {
    var collector: DefaultDiagnosticCollector

    constructor ()
      ensures fresh(collector) && collector.entries == [] && collector.Untagged()
    {
      collector := new DefaultDiagnosticCollector();
    }

    /** parse: a fresh collector for every call, filled by the AST pass; valid iff it stays
        empty; an exception becomes the single entry of `errors`. */
    method Parse(content: string, dec: Decoders) returns (r: ParserResult)
      modifies this
      ensures fresh(collector)
      ensures r == ParseOutcome(content, dec)
      ensures r.diagnostics.Some? ==> collector.entries == r.diagnostics.value
    {
      collector := new DefaultDiagnosticCollector();
      var isJson := dec.isJsonContent(content);
      var pass := if isJson then dec.parseJson(content) else dec.parseYaml(content);
      if pass.AstThrew? {
        return Failed(pass.message);
      }
      var i := 0;
      while i < |pass.found|
        invariant i <= |pass.found|
        invariant fresh(collector)
        invariant collector.entries == pass.found[..i]
      {
        collector.Add(pass.found[i]);
        assert pass.found[..i + 1] == pass.found[..i] + [pass.found[i]];
        i := i + 1;
      }
      assert pass.found[..|pass.found|] == pass.found;
      var diagnostics := collector.Diagnostics();
      var decoded := if isJson then dec.text.json(content) else dec.text.yaml(content);
      if decoded.DecodeError? {
        return Failed(decoded.message);
      }
      r := ParserResult(|diagnostics| == 0, Some(decoded.value), None, Some(diagnostics));
    }
  }

  // ---------------------------------------------------------------------------
  // getVersion, getInfo, getServers (the document must not be null: `document.x` throws)

  /** getVersion: `openapi` when truthy, otherwise whatever `swagger` holds. */
  function GetVersion(doc: Value): (r: Option<Value>)
    requires !doc.Null?
    ensures Present(Get(doc, "openapi")) ==> r == Get(doc, "openapi")
    ensures !Present(Get(doc, "openapi")) ==> r == Get(doc, "swagger")
    ensures Present(r) <==> Present(Get(doc, "openapi")) || Present(Get(doc, "swagger"))
  {
    var openapi := Get(doc, "openapi");
    if Present(openapi) then openapi else Get(doc, "swagger")
  }

  datatype DocInfo = DocInfo(title: Value, version: Value, description: Option<Value>)

  /** The info section, or an empty object when it is absent or falsy. */
  function InfoSection(doc: Value): Value {
    Or(Get(doc, "info"), Obj([]))
  }

  /** getInfo: title and version default to the empty string, description passes through. */
  function GetInfo(doc: Value): (r: DocInfo)
    requires !doc.Null?
    ensures Present(Get(InfoSection(doc), "title")) ==> r.title == Get(InfoSection(doc), "title").value
    ensures !Present(Get(InfoSection(doc), "title")) ==> r.title == Str("")
    ensures Present(Get(InfoSection(doc), "version")) ==> r.version == Get(InfoSection(doc), "version").value
    ensures !Present(Get(InfoSection(doc), "version")) ==> r.version == Str("")
    ensures r.description == Get(InfoSection(doc), "description")
    ensures !Present(Get(doc, "info")) ==> r == DocInfo(Str(""), Str(""), None)
  {
    var info := InfoSection(doc);
    DocInfo(Or(Get(info, "title"), Str("")), Or(Get(info, "version"), Str("")), Get(info, "description"))
  }

  /** getServers: the servers section, or an empty list. */
  function GetServers(doc: Value): (r: Value)
    requires !doc.Null?
    ensures Truthy(r)
    ensures Present(Get(doc, "servers")) ==> r == Get(doc, "servers").value
    ensures !Present(Get(doc, "servers")) ==> r == Arr([])
  {
    Or(Get(doc, "servers"), Arr([]))
  }

  // ---------------------------------------------------------------------------
  // getComponents

  /** OpenAPIComponent: `category` is the `type` field, the category it was found under. */
  datatype Component = Component(name: string, category: string, properties: Option<Value>, required: Option<Value>)

  /** `Object.entries(document.components || {})`: (category, group) pairs. */
  function Categories(doc: Value): seq<(string, Value)> {
    Entries(Or(Get(doc, "components"), Obj([])))
  }

  /** The entry pushed for component `named` of category `type`. */
  function MakeComponent(category: string, named: (string, Value)): Component {
    Component(named.0, category, Get(named.1, "properties"), Get(named.1, "required"))
  }

  /** The components the first `j` entries of one category yield. */
  function CategoryPrefix(category: string, named: seq<(string, Value)>, j: nat): seq<Component>
    requires j <= |named|
  {
    seq(j, k requires 0 <= k < j => MakeComponent(category, named[k]))
  }

  /** All the components category `k` yields, in the order of its entries. */
  function Group(cats: seq<(string, Value)>, k: nat): seq<Component>
    requires k < |cats|
  {
    CategoryPrefix(cats[k].0, Entries(cats[k].1), |Entries(cats[k].1)|)
  }

  function Groups(cats: seq<(string, Value)>): seq<seq<Component>> {
    seq(|cats|, k requires 0 <= k < |cats| => Group(cats, k))
  }

  /** The groups one after another. */
  function Concat(gs: seq<seq<Component>>): seq<Component> {
    if gs == [] then [] else gs[0] + Concat(gs[1..])
  }

  /** What getComponents returns: every category's group, category by category. */
  function Components(doc: Value): seq<Component> {
    Concat(Groups(Categories(doc)))
  }

  /** getComponents reads without throwing: the document is not null, no category is null
      (`Object.entries(null)` throws) and no component is null (`null.properties` throws). */
  predicate ComponentsReadable(doc: Value) {
    && !doc.Null?
    && forall i :: 0 <= i < |Categories(doc)| ==>
         && !Categories(doc)[i].1.Null?
         && forall named :: named in Entries(Categories(doc)[i].1) ==> !named.1.Null?
  }

  /** getComponents: the nested `forEach` loops pushing one entry per component. */
  method GetComponents(doc: Value) returns (result: seq<Component>)
    requires ComponentsReadable(doc)
    ensures result == Components(doc)
  {
    var cats := Entries(Or(Get(doc, "components"), Obj([])));
    ghost var gs := Groups(cats);
    result := [];
    var i := 0;
    while i < |cats|
      invariant i <= |cats|
      invariant result == Concat(gs[..i])
    {
      result := PushCategory(result, cats[i].0, Entries(cats[i].1));
      ConcatSnoc(gs, i);
      i := i + 1;
    }
    assert gs[..|cats|] == gs;
  }

  /** The inner `forEach` of getComponents: one entry per named component of a category,
      pushed in order. */
  method PushCategory(result: seq<Component>, category: string, named: seq<(string, Value)>)
    returns (result': seq<Component>)
    ensures result' == result + CategoryPrefix(category, named, |named|)
  {
    result' := result;
    var j := 0;
    while j < |named|
      invariant j <= |named|
      invariant result' == result + CategoryPrefix(category, named, j)
    {
      var name := named[j].0;
      var component := named[j].1;
      result' := result' + [Component(name, category, Get(component, "properties"), Get(component, "required"))];
      assert CategoryPrefix(category, named, j + 1) == CategoryPrefix(category, named, j) + [MakeComponent(category, named[j])];
      j := j + 1;
    }
  }

  lemma {:induction false} ConcatAppend(a: seq<seq<Component>>, b: seq<seq<Component>>)
    ensures Concat(a + b) == Concat(a) + Concat(b)
  {
    if a != [] {
      assert (a + b)[1..] == a[1..] + b;
      ConcatAppend(a[1..], b);
    } else {
      assert a + b == b;
    }
  }

  lemma ConcatSnoc(gs: seq<seq<Component>>, i: nat)
    requires i < |gs|
    ensures Concat(gs[..i + 1]) == Concat(gs[..i]) + gs[i]
  {
    ConcatAppend(gs[..i], [gs[i]]);
    assert gs[..i + 1] == gs[..i] + [gs[i]];
    assert Concat([gs[i]]) == gs[i] + Concat([]);
  }

  /** Element `j` of group `i` sits right after the groups before it. */
  lemma ConcatAt(gs: seq<seq<Component>>, i: nat, j: nat)
    requires i < |gs| && j < |gs[i]|
    ensures |Concat(gs[..i])| + j < |Concat(gs)|
    ensures Concat(gs)[|Concat(gs[..i])| + j] == gs[i][j]
  {
    assert gs == gs[..i] + ([gs[i]] + gs[i + 1..]);
    ConcatAppend(gs[..i], [gs[i]] + gs[i + 1..]);
    assert Concat([gs[i]] + gs[i + 1..]) == gs[i] + Concat(gs[i + 1..]) by {
      assert ([gs[i]] + gs[i + 1..])[1..] == gs[i + 1..];
    }
  }

  /** How many components the categories hold: the sum of their sizes. */
  function EntryCount(cats: seq<(string, Value)>): nat {
    if cats == [] then 0 else |Entries(cats[0].1)| + EntryCount(cats[1..])
  }

  /** Where category `i` starts in the result: the sizes of the categories before it. */
  function Offset(cats: seq<(string, Value)>, i: nat): nat
    requires i <= |cats|
  {
    EntryCount(cats[..i])
  }

  lemma {:induction false} ConcatSize(cats: seq<(string, Value)>)
    ensures |Concat(Groups(cats))| == EntryCount(cats)
  {
    if cats != [] {
      assert Groups(cats)[1..] == Groups(cats[1..]);
      ConcatSize(cats[1..]);
    }
  }

  /** One entry per (category, name) pair, in category-then-name order: for the categories
      of a document, getComponents returns EntryCount entries, and component `j` of
      category `i` is at Offset(i) + j. */
  lemma ComponentAt(cats: seq<(string, Value)>, i: nat, j: nat)
    requires i < |cats| && j < |Entries(cats[i].1)|
    ensures |Concat(Groups(cats))| == EntryCount(cats)
    ensures Offset(cats, i) + j < |Concat(Groups(cats))|
    ensures Concat(Groups(cats))[Offset(cats, i) + j] == MakeComponent(cats[i].0, Entries(cats[i].1)[j])
  {
    var gs := Groups(cats);
    ConcatSize(cats);
    ConcatSize(cats[..i]);
    GroupsPrefix(cats, i);
    ConcatAt(gs, i, j);
    GroupAt(cats, i, j);
  }

  lemma GroupsPrefix(cats: seq<(string, Value)>, i: nat)
    requires i <= |cats|
    ensures Groups(cats)[..i] == Groups(cats[..i])
  {
    assert forall k :: 0 <= k < i ==> cats[..i][k] == cats[k];
  }

  lemma GroupAt(cats: seq<(string, Value)>, i: nat, j: nat)
    requires i < |cats| && j < |Entries(cats[i].1)|
    ensures j < |Groups(cats)[i]|
    ensures Groups(cats)[i][j] == MakeComponent(cats[i].0, Entries(cats[i].1)[j])
  {
    var named := Entries(cats[i].1);
    assert Groups(cats)[i] == CategoryPrefix(cats[i].0, named, |named|);
  }

  // ---------------------------------------------------------------------------
  // getPaths and getPathMethods

  const HttpMethods: seq<string> := ["get", "post", "put", "delete", "patch", "options", "head", "trace"]

  /** The `methods` record the first `i` verbs of the fixed list yield, in that order. */
  function MethodsUpTo(item: Value, i: nat): seq<(string, Value)>
    requires i <= |HttpMethods|
  {
    if i == 0 then []
    else
      var verb := HttpMethods[i - 1];
      MethodsUpTo(item, i - 1) + (if Present(Get(item, verb)) then [(verb, Get(item, verb).value)] else [])
  }

  /** The members of the record getPathMethods builds for a path item. */
  function PathMethods(item: Value): seq<(string, Value)> {
    MethodsUpTo(item, |HttpMethods|)
  }

  /** A verb is in the record iff it is one of the fixed eight and the path item's value
      for it is truthy, and it maps to that value. */
  lemma {:induction false} MethodsUpToMembers(item: Value, i: nat)
    requires i <= |HttpMethods|
    ensures forall verb, v :: (verb, v) in MethodsUpTo(item, i) <==>
      verb in HttpMethods[..i] && Get(item, verb) == Some(v) && Truthy(v)
  {
    if i > 0 {
      MethodsUpToMembers(item, i - 1);
      assert HttpMethods[..i] == HttpMethods[..i - 1] + [HttpMethods[i - 1]];
    }
  }

  /** getPathMethods: the loop over the fixed verbs. The path item must not be null. */
  method GetPathMethods(item: Value) returns (methods: Value)
    requires !item.Null?
    ensures methods == Obj(PathMethods(item))
    ensures forall verb, v :: (verb, v) in methods.members <==>
      verb in HttpMethods && Get(item, verb) == Some(v) && Truthy(v)
  {
    var members: seq<(string, Value)> := [];
    var i := 0;
    while i < |HttpMethods|
      invariant i <= |HttpMethods|
      invariant members == MethodsUpTo(item, i)
    {
      var verb := HttpMethods[i];
      var value := Get(item, verb);
      if Present(value) {
        members := members + [(verb, value.value)];
      }
      i := i + 1;
    }
    methods := Obj(members);
    MethodsUpToMembers(item, |HttpMethods|);
    assert HttpMethods[..|HttpMethods|] == HttpMethods;
  }

  datatype PathEntry = PathEntry(path: string, methods: Value)

  /** `Object.entries(document.paths || {})` */
  function PathItems(doc: Value): seq<(string, Value)> {
    Entries(Or(Get(doc, "paths"), Obj([])))
  }

  /** getPaths reads without throwing: no path item is null. */
  predicate PathsReadable(doc: Value) {
    !doc.Null? && forall item :: item in PathItems(doc) ==> !item.1.Null?
  }

  /** getPaths: one entry per path key in order, each with its verb record. */
  function GetPaths(doc: Value): (r: seq<PathEntry>)
    requires PathsReadable(doc)
    ensures |r| == |PathItems(doc)|
    ensures forall i :: 0 <= i < |r| ==>
      && r[i].path == PathItems(doc)[i].0
      && r[i].methods.Obj?
      && forall verb, v :: (verb, v) in r[i].methods.members <==>
           verb in HttpMethods && Get(PathItems(doc)[i].1, verb) == Some(v) && Truthy(v)
  {
    var items := PathItems(doc);
    MethodsUpToMembersAll();
    seq(|items|, i requires 0 <= i < |items| => PathEntry(items[i].0, Obj(PathMethods(items[i].1))))
  }

  lemma MethodsUpToMembersAll()
    ensures forall item: Value, verb, v :: (verb, v) in PathMethods(item) <==>
      verb in HttpMethods && Get(item, verb) == Some(v) && Truthy(v)
  {
    forall item: Value {
      MethodsUpToMembers(item, |HttpMethods|);
    }
    assert HttpMethods[..|HttpMethods|] == HttpMethods;
  }

  // ---------------------------------------------------------------------------
  // getReferences and findReferences

  /** An object's own contribution: its `$ref` when that is a non-empty string. */
  function OwnRef(v: Value): seq<string> {
    match Get(v, "$ref")
    case Some(Str(s)) => if s != "" then [s] else []
    case _ => []
  }

  /** The references findReferences collects from `v`, in the order it collects them. */
  function Refs(v: Value): seq<string>
    decreases v, 1
  {
    if IsObject(v) then OwnRef(v) + RefsForest(v, ChildCount(v)) else []
  }

  function RefsForest(v: Value, i: nat): seq<string>
    requires i <= ChildCount(v)
    decreases v, 0, i
  {
    if i == 0 then [] else RefsForest(v, i - 1) + Refs(ChildAt(v, i - 1))
  }

  /** findReferences: the recursive walk appending to the shared `refs`. */
  method FindReferences(obj: Value, refs: seq<string>) returns (refs': seq<string>)
    ensures refs' == refs + Refs(obj)
    decreases obj, 1
  {
    refs' := refs;
    if !IsObject(obj) {
      return;
    }
    var ref := Get(obj, "$ref");
    if ref.Some? && ref.value.Str? && ref.value.s != "" {
      refs' := refs' + [ref.value.s];
    }
    refs' := FindInValues(obj, refs');
    assert Refs(obj) == OwnRef(obj) + RefsForest(obj, ChildCount(obj));
  }

  /** The loop of findReferences over `Object.values(obj)`, each value walked in turn. */
  method FindInValues(obj: Value, refs: seq<string>) returns (refs': seq<string>)
    ensures refs' == refs + RefsForest(obj, ChildCount(obj))
    decreases obj, 0
  {
    refs' := refs;
    var i := 0;
    while i < ChildCount(obj)
      invariant i <= ChildCount(obj)
      invariant refs' == refs + RefsForest(obj, i)
    {
      refs' := FindReferences(ChildAt(obj, i), refs');
      AppendAssoc(refs, RefsForest(obj, i), Refs(ChildAt(obj, i)));
      i := i + 1;
    }
  }

  /** Appending to a list that already holds `a + b` is appending `b + c` to `a`. */
  lemma AppendAssoc<T>(a: seq<T>, b: seq<T>, c: seq<T>)
    ensures a + b + c == a + (b + c)
  {
  }

  /** getReferences */
  method GetReferences(doc: Value) returns (refs: seq<string>)
    ensures refs == Refs(doc)
    ensures forall s :: s in refs <==> exists w :: w in ValuesPreOrder(doc) && HasRef(w, s)
  {
    refs := FindReferences(doc, []);
    RefsMembers(doc);
  }

  /** Every value inside `v`, `v` first, in depth-first pre-order. */
  function ValuesPreOrder(v: Value): seq<Value>
    decreases v, 1
  {
    [v] + ValuesForest(v, ChildCount(v))
  }

  function ValuesForest(v: Value, i: nat): seq<Value>
    requires i <= ChildCount(v)
    decreases v, 0, i
  {
    if i == 0 then [] else ValuesForest(v, i - 1) + ValuesPreOrder(ChildAt(v, i - 1))
  }

  /** `w` is an object whose `$ref` is the non-empty string `s`. */
  ghost predicate HasRef(w: Value, s: string) {
    Get(w, "$ref") == Some(Str(s)) && s != ""
  }

  lemma {:induction false} RefsMembers(v: Value)
    ensures forall s :: s in Refs(v) <==> exists w :: w in ValuesPreOrder(v) && HasRef(w, s)
    decreases v, 1
  {
    RefsForestMembers(v, ChildCount(v));
    var below := ValuesForest(v, ChildCount(v));
    var forest := RefsForest(v, ChildCount(v));
    assert ValuesPreOrder(v) == [v] + below;
    assert Refs(v) == if IsObject(v) then OwnRef(v) + forest else [];
    forall s ensures s in Refs(v) <==> exists w :: w in ValuesPreOrder(v) && HasRef(w, s) {
      if s in Refs(v) {
        if s in OwnRef(v) {
          assert v in ValuesPreOrder(v) && HasRef(v, s);
        } else {
          assert s in forest;
          var w :| w in below && HasRef(w, s);
          assert w in ValuesPreOrder(v);
        }
      }
      if exists w :: w in ValuesPreOrder(v) && HasRef(w, s) {
        var w :| w in ValuesPreOrder(v) && HasRef(w, s);
        if w == v {
          assert s in OwnRef(v);
        } else {
          assert w in below;
        }
      }
    }
  }

  lemma {:induction false} RefsForestMembers(v: Value, i: nat)
    requires i <= ChildCount(v)
    ensures forall s :: s in RefsForest(v, i) <==> exists w :: w in ValuesForest(v, i) && HasRef(w, s)
    decreases v, 0, i
  {
    if i > 0 {
      var c := ChildAt(v, i - 1);
      RefsForestMembers(v, i - 1);
      RefsMembers(c);
      assert ValuesForest(v, i) == ValuesForest(v, i - 1) + ValuesPreOrder(c);
      assert RefsForest(v, i) == RefsForest(v, i - 1) + Refs(c);
    }
  }
}
