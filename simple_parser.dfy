/**
 * The simple parser (src/parser/SimpleOpenAPIParser.ts): format detection by the first
 * non-blank character, the four required-field checks, and lenient projections that fall
 * back to defaults instead of throwing.
 */
module SimpleParser {
  import opened Wrappers
  import opened JsonValue
  import opened Parser

  // ---------------------------------------------------------------------------
  // Format detection

  /** The characters `String.prototype.trim` removes: ECMAScript WhiteSpace and
      LineTerminator. */
  predicate IsJsSpace(c: char) {
    || c == '\t' || c == '\n' || c == '\U{B}' || c == '\U{C}' || c == '\r' || c == ' '
    || c == '\U{A0}' || c == '\U{1680}' || ('\U{2000}' <= c <= '\U{200A}')
    || c == '\U{2028}' || c == '\U{2029}' || c == '\U{202F}' || c == '\U{205F}'
    || c == '\U{3000}' || c == '\U{FEFF}'
  }

  /** How many blank characters `s` starts with. */
  function LeadingSpaces(s: string): (k: nat)
    ensures k <= |s|
    ensures forall j :: 0 <= j < k ==> IsJsSpace(s[j])
    ensures k < |s| ==> !IsJsSpace(s[k])
  {
    if s != [] && IsJsSpace(s[0]) then 1 + LeadingSpaces(s[1..]) else 0
  }

  /** `s` without its trailing blanks. */
  function TrimEnd(s: string): string {
    if s != [] && IsJsSpace(s[|s| - 1]) then TrimEnd(s[..|s| - 1]) else s
  }

  /** `s.trim()` */
  function Trim(s: string): string {
    TrimEnd(s[LeadingSpaces(s)..])
  }

  /** Trimming the end never touches a first character that is not blank. */
  lemma {:induction false} TrimEndKeepsFirst(s: string)
    requires s != [] && !IsJsSpace(s[0])
    ensures TrimEnd(s) != [] && TrimEnd(s)[0] == s[0]
    decreases |s|
  {
    if IsJsSpace(s[|s| - 1]) {
      TrimEndKeepsFirst(s[..|s| - 1]);
    }
  }

  lemma {:induction false} TrimEndOfBlanks(s: string)
    requires forall j :: 0 <= j < |s| ==> IsJsSpace(s[j])
    ensures TrimEnd(s) == []
    decreases |s|
  {
    if s != [] {
      TrimEndOfBlanks(s[..|s| - 1]);
    }
  }

  /** The trimmed text starts with the first character that is not blank, and is empty
      when there is none. */
  lemma TrimStartsAtFirstSolid(s: string)
    ensures LeadingSpaces(s) < |s| ==> Trim(s) != [] && Trim(s)[0] == s[LeadingSpaces(s)]
    ensures LeadingSpaces(s) == |s| ==> Trim(s) == []
  {
    var k := LeadingSpaces(s);
    if k < |s| {
      TrimEndKeepsFirst(s[k..]);
    } else {
      TrimEndOfBlanks(s[k..]);
    }
  }

  datatype Format = Json | Yaml

  /** The test parse applies: JSON when the trimmed content starts with `{` or `[`. */
  function DetectFormat(content: string): (f: Format)
    ensures f == Json <==> exists i :: 0 <= i < |content| && (content[i] == '{' || content[i] == '[')
                                         && forall j :: 0 <= j < i ==> IsJsSpace(content[j])
  {
    TrimStartsAtFirstSolid(content);
    var trimmed := Trim(content);
    if |trimmed| > 0 && (trimmed[0] == '{' || trimmed[0] == '[') then Json else Yaml
  }

  /** The decode parse runs: on the whole, untrimmed content. */
  function Decode(content: string, dec: TextDecoders): Decoded {
    if DetectFormat(content) == Json then dec.json(content) else dec.yaml(content)
  }

  // ---------------------------------------------------------------------------
  // Validation and parse

  const OpenApiMissing := "Missing required field: openapi"
  const InfoMissing := "Missing required field: info"
  const TitleMissing := "Missing required field: info.title"
  const VersionMissing := "Missing required field: info.version"

  /** What reading `document.openapi` from a null document throws. */
  const NullDocumentError := "Cannot read properties of null (reading 'openapi')"

  /** All four required fields are truthy. */
  predicate Complete(doc: Value) {
    && Present(Get(doc, "openapi"))
    && Present(Get(doc, "info"))
    && Present(Get(Get(doc, "info").value, "title"))
    && Present(Get(Get(doc, "info").value, "version"))
  }

  /** The messages the checks of parse produce, in the order they run. A missing info is
      reported once, without the two checks inside it. */
  function ValidationErrors(doc: Value): (errors: seq<string>)
    ensures errors == [] <==> Complete(doc)
  {
    var info := Get(doc, "info");
    (if Present(Get(doc, "openapi")) then [] else [OpenApiMissing]) +
    (if !Present(info) then [InfoMissing]
     else (if Present(Get(info.value, "title")) then [] else [TitleMissing]) +
          (if Present(Get(info.value, "version")) then [] else [VersionMissing]))
  }

  /** Each message is reported exactly when its field is falsy, and nothing else is. */
  lemma ValidationErrorsMembers(doc: Value)
    ensures var errors := ValidationErrors(doc);
      && (OpenApiMissing in errors <==> !Present(Get(doc, "openapi")))
      && (InfoMissing in errors <==> !Present(Get(doc, "info")))
      && (TitleMissing in errors <==> Present(Get(doc, "info")) && !Present(Get(Get(doc, "info").value, "title")))
      && (VersionMissing in errors <==> Present(Get(doc, "info")) && !Present(Get(Get(doc, "info").value, "version")))
      && (forall e :: e in errors ==> e in [OpenApiMissing, InfoMissing, TitleMissing, VersionMissing])
      && |errors| <= 3
  {
  }

  /** The required-field checks of parse, pushing each message as it is found. */
  method CheckRequired(document: Value) returns (errors: seq<string>)
    ensures errors == ValidationErrors(document)
  {
    errors := [];
    if !Present(Get(document, "openapi")) {
      errors := errors + [OpenApiMissing];
    }
    var info := Get(document, "info");
    if !Present(info) {
      errors := errors + [InfoMissing];
    } else {
      if !Present(Get(info.value, "title")) {
        errors := errors + [TitleMissing];
      }
      if !Present(Get(info.value, "version")) {
        errors := errors + [VersionMissing];
      }
    }
  }

  /** ParserResult as this parser fills it (it never sets diagnostics). */
  datatype SimpleResult = SimpleResult(isValid: bool, document: Option<Value>, errors: Option<seq<string>>)

  /** parse: detect the format, decode, check the required fields; a throw (from a decoder,
      or from reading a null document) becomes an invalid result with that one error. */
  method Parse(content: string, dec: TextDecoders) returns (r: SimpleResult)
    ensures Decode(content, dec).DecodeError? ==>
      r == SimpleResult(false, None, Some([Decode(content, dec).message]))
    ensures Decode(content, dec) == Decoded(Null) ==>
      r == SimpleResult(false, None, Some([NullDocumentError]))
    ensures Decode(content, dec).Decoded? && !Decode(content, dec).value.Null? ==>
      var doc := Decode(content, dec).value;
      && r.document == Some(doc)
      && (r.isValid <==> Complete(doc))
      && (r.errors.None? <==> Complete(doc))
      && (r.errors.Some? ==> r.errors.value == ValidationErrors(doc))
  {
    var trimmed := Trim(content);
    var isJson := |trimmed| > 0 && (trimmed[0] == '{' || trimmed[0] == '[');
    assert isJson <==> DetectFormat(content) == Json;
    var decoded := if isJson then dec.json(content) else dec.yaml(content);
    assert decoded == Decode(content, dec);
    if decoded.DecodeError? {
      return SimpleResult(false, None, Some([decoded.message]));
    }
    var document := decoded.value;
    if document.Null? {
      return SimpleResult(false, None, Some([NullDocumentError]));
    }
    var errors := CheckRequired(document);
    r := SimpleResult(|errors| == 0, Some(document), if |errors| > 0 then Some(errors) else None);
  }

  // ---------------------------------------------------------------------------
  // Lenient projections (`document?.x || default`: a null document reads as absent)

  /** getVersion */
  function GetVersion(doc: Value): (r: Value)
    ensures Truthy(r)
    ensures Present(Get(doc, "openapi")) ==> r == Get(doc, "openapi").value
    ensures !Present(Get(doc, "openapi")) ==> r == Str("unknown")
  {
    Or(Get(doc, "openapi"), Str("unknown"))
  }

  /** getInfo */
  function GetInfo(doc: Value): (r: Value)
    ensures Truthy(r)
    ensures Present(Get(doc, "info")) ==> r == Get(doc, "info").value
    ensures !Present(Get(doc, "info")) ==>
      Get(r, "title") == Some(Str("Unknown")) && Get(r, "version") == Some(Str("Unknown"))
  {
    Or(Get(doc, "info"), Obj([("title", Str("Unknown")), ("version", Str("Unknown"))]))
  }

  /** getServers */
  function GetServers(doc: Value): (r: Value)
    ensures Truthy(r)
    ensures Present(Get(doc, "servers")) ==> r == Get(doc, "servers").value
    ensures !Present(Get(doc, "servers")) ==> r == Arr([])
  {
    Or(Get(doc, "servers"), Arr([]))
  }

  /** getSecuritySchemes */
  function GetSecuritySchemes(doc: Value): (r: Value)
    ensures Truthy(r)
    ensures Present(Path(Get(doc, "components"), "securitySchemes")) ==>
      r == Path(Get(doc, "components"), "securitySchemes").value
    ensures !Present(Path(Get(doc, "components"), "securitySchemes")) ==> r == Obj([])
  {
    Or(Path(Get(doc, "components"), "securitySchemes"), Obj([]))
  }

  /** getResponsesByPath: the `responses` of one operation, or an empty record. */
  function GetResponsesByPath(doc: Value, path: string, verb: string): (r: Value)
    ensures Truthy(r)
    ensures var responses := Path(Path(Path(Get(doc, "paths"), path), verb), "responses");
      (Present(responses) ==> r == responses.value) && (!Present(responses) ==> r == Obj([]))
  {
    Or(Path(Path(Path(Get(doc, "paths"), path), verb), "responses"), Obj([]))
  }

  /** getTags reads without throwing: `tags` is absent, null, or an array without null
      elements (`.map` of anything else, or `null.name`, throws). */
  predicate TagsReadable(doc: Value) {
    var tags := Get(doc, "tags");
    tags.None? || tags.value.Null? || (tags.value.Arr? && forall t :: t in tags.value.elems ==> !t.Null?)
  }

  /** getTags: every tag's `name`, `undefined` for a tag without one. */
  function GetTags(doc: Value): (r: seq<Option<Value>>)
    requires TagsReadable(doc)
    ensures Get(doc, "tags").Some? && Get(doc, "tags").value.Arr? ==>
      var tags := Get(doc, "tags").value.elems;
      |r| == |tags| && forall i :: 0 <= i < |r| ==> r[i] == Get(tags[i], "name")
    ensures Get(doc, "tags").None? || Get(doc, "tags").value.Null? ==> r == []
  {
    match Get(doc, "tags")
    case Some(Arr(tags)) => seq(|tags|, i requires 0 <= i < |tags| => Get(tags[i], "name"))
    case _ => []
  }

  // ---------------------------------------------------------------------------
  // getComponents

  /** `document?.components?.schemas` */
  function Schemas(doc: Value): Option<Value> {
    Path(Get(doc, "components"), "schemas")
  }

  /** getComponents reads without throwing: no schema is null. */
  predicate SchemasReadable(doc: Value) {
    Present(Schemas(doc)) ==> forall named :: named in Entries(Schemas(doc).value) ==> !named.1.Null?
  }

  /** The entry getComponents maps a schema to. */
  function SchemaComponent(named: (string, Value)): Component {
    Component(named.0, "schemas", Some(Or(Get(named.1, "properties"), Obj([]))),
      Some(Or(Get(named.1, "required"), Arr([]))))
  }

  /** getComponents: only schemas, with `properties` and `required` defaulted. */
  function GetComponents(doc: Value): (r: seq<Component>)
    requires SchemasReadable(doc)
    ensures !Present(Schemas(doc)) ==> r == []
    ensures Present(Schemas(doc)) ==> |r| == |Entries(Schemas(doc).value)|
    ensures forall i :: 0 <= i < |r| ==>
      && r[i].name == Entries(Schemas(doc).value)[i].0
      && r[i].category == "schemas"
      && r[i].properties == Some(Or(Get(Entries(Schemas(doc).value)[i].1, "properties"), Obj([])))
      && r[i].required == Some(Or(Get(Entries(Schemas(doc).value)[i].1, "required"), Arr([])))
      && Truthy(r[i].properties.value) && Truthy(r[i].required.value)
  {
    if !Present(Schemas(doc)) then []
    else
      var named := Entries(Schemas(doc).value);
      seq(|named|, i requires 0 <= i < |named| => SchemaComponent(named[i]))
  }

  /** The components among `cs` whose category is `schemas`. */
  function OnlySchemas(cs: seq<Component>): seq<Component> {
    if cs == [] then [] else (if cs[0].category == "schemas" then [cs[0]] else []) + OnlySchemas(cs[1..])
  }

  /** The defaults the simple parser fills in. */
  function WithDefaults(c: Component): Component {
    c.(properties := Some(Or(c.properties, Obj([]))), required := Some(Or(c.required, Arr([]))))
  }

  function Defaulted(cs: seq<Component>): seq<Component> {
    seq(|cs|, i requires 0 <= i < |cs| => WithDefaults(cs[i]))
  }

  /** No category name repeats `schemas` (decoded objects never repeat a key). */
  predicate SchemasKeyUnique(cats: seq<(string, Value)>) {
    forall i, j :: 0 <= i < j < |cats| && cats[i].0 == "schemas" ==> cats[j].0 != "schemas"
  }

  lemma {:induction false} OnlySchemasOfGroup(cats: seq<(string, Value)>)
    requires cats != []
    ensures OnlySchemas(Group(cats, 0)) == if cats[0].0 == "schemas" then Group(cats, 0) else []
  {
    var named := Entries(cats[0].1);
    OnlySchemasOfPrefix(cats[0].0, named, |named|);
  }

  lemma {:induction false} OnlySchemasOfPrefix(category: string, named: seq<(string, Value)>, j: nat)
    requires j <= |named|
    ensures OnlySchemas(CategoryPrefix(category, named, j))
         == if category == "schemas" then CategoryPrefix(category, named, j) else []
  {
    if j > 0 {
      var front := CategoryPrefix(category, named, j - 1);
      var last := MakeComponent(category, named[j - 1]);
      assert CategoryPrefix(category, named, j) == front + [last];
      OnlySchemasOfPrefix(category, named, j - 1);
      OnlySchemasAppend(front, [last]);
      assert OnlySchemas([last]) == (if category == "schemas" then [last] else []) + OnlySchemas([]);
    }
  }

  lemma {:induction false} OnlySchemasAppend(a: seq<Component>, b: seq<Component>)
    ensures OnlySchemas(a + b) == OnlySchemas(a) + OnlySchemas(b)
  {
    if a == [] {
      assert a + b == b;
    } else {
      var head := if a[0].category == "schemas" then [a[0]] else [];
      assert (a + b)[0] == a[0] && (a + b)[1..] == a[1..] + b;
      assert OnlySchemas(a + b) == head + OnlySchemas(a[1..] + b);
      assert OnlySchemas(a) == head + OnlySchemas(a[1..]);
      OnlySchemasAppend(a[1..], b);
    }
  }

  /** Filtering the full list by category leaves the one `schemas` group, if any. */
  lemma {:induction false} OnlySchemasOfCategories(cats: seq<(string, Value)>)
    requires SchemasKeyUnique(cats)
    ensures OnlySchemas(Concat(Groups(cats))) == match Lookup(cats, "schemas")
      case None => []
      case Some(v) => CategoryPrefix("schemas", Entries(v), |Entries(v)|)
  {
    if cats != [] {
      var rest := cats[1..];
      assert Groups(cats) == [Group(cats, 0)] + Groups(rest);
      assert Concat(Groups(cats)) == Group(cats, 0) + Concat(Groups(rest));
      OnlySchemasAppend(Group(cats, 0), Concat(Groups(rest)));
      OnlySchemasOfGroup(cats);
      SchemasKeyUniqueTail(cats);
      OnlySchemasOfCategories(rest);
      if cats[0].0 == "schemas" {
        NoSchemasAfter(cats);
      } else {
        assert Lookup(cats, "schemas") == Lookup(rest, "schemas");
      }
    }
  }

  lemma SchemasKeyUniqueTail(cats: seq<(string, Value)>)
    requires cats != [] && SchemasKeyUnique(cats)
    ensures SchemasKeyUnique(cats[1..])
  {
    var rest := cats[1..];
    forall i, j | 0 <= i < j < |rest| && rest[i].0 == "schemas"
      ensures rest[j].0 != "schemas"
    {
      assert cats[i + 1] == rest[i] && cats[j + 1] == rest[j];
    }
  }

  lemma NoSchemasAfter(cats: seq<(string, Value)>)
    requires cats != [] && SchemasKeyUnique(cats) && cats[0].0 == "schemas"
    ensures Lookup(cats[1..], "schemas") == None
  {
    var rest := cats[1..];
    forall i | 0 <= i < |rest|
      ensures rest[i].0 != "schemas"
    {
      assert cats[i + 1] == rest[i];
    }
  }

  /** Digit keys (array and string indices) never spell `schemas`. */
  lemma NoIndexIsSchemas(v: Value)
    requires !v.Obj?
    ensures Lookup(Entries(v), "schemas") == None
    ensures SchemasKeyUnique(Entries(v))
  {
    forall i | 0 <= i < |Entries(v)|
      ensures Entries(v)[i].0 != "schemas"
    {
      var key := Entries(v)[i].0;
      assert '0' <= key[0] <= '9';
    }
  }

  /** The simple parser's components are the full parser's `schemas` category with
      `properties` and `required` defaulted to `{}` and `[]`. */
  lemma ComponentsAgree(doc: Value)
    requires ComponentsReadable(doc)
    requires SchemasKeyUnique(Categories(doc))
    ensures SchemasReadable(doc)
    ensures GetComponents(doc) == Defaulted(OnlySchemas(Components(doc)))
  {
    var cats := Categories(doc);
    var section := Get(doc, "components");
    OnlySchemasOfCategories(cats);
    if Present(section) && !section.value.Obj? {
      NoIndexIsSchemas(section.value);
    }
    assert Lookup(cats, "schemas") == Schemas(doc);
    if Present(Schemas(doc)) {
      var v := Schemas(doc).value;
      var i :| 0 <= i < |cats| && cats[i] == ("schemas", v);
      assert forall named :: named in Entries(cats[i].1) ==> !named.1.Null?;
      SchemasDefaulted(doc);
    }
  }

  /** Mapping the schemas with defaults is defaulting the full parser's `schemas` group. */
  lemma SchemasDefaulted(doc: Value)
    requires SchemasReadable(doc) && Present(Schemas(doc))
    ensures var v := Schemas(doc).value;
      GetComponents(doc) == Defaulted(CategoryPrefix("schemas", Entries(v), |Entries(v)|))
  {
    var named := Entries(Schemas(doc).value);
    var group := CategoryPrefix("schemas", named, |named|);
    assert forall k :: 0 <= k < |named| ==> group[k] == MakeComponent("schemas", named[k]);
  }

  // ---------------------------------------------------------------------------
  // getPaths

  /** getPaths: one entry per path key, the path item passed through unchanged. */
  function GetPaths(doc: Value): (r: seq<PathEntry>)
    ensures !Present(Get(doc, "paths")) ==> r == []
    ensures Present(Get(doc, "paths")) ==>
      var items := Entries(Get(doc, "paths").value);
      |r| == |items| && forall i :: 0 <= i < |r| ==> r[i] == PathEntry(items[i].0, items[i].1)
  {
    var paths := Get(doc, "paths");
    if !Present(paths) then []
    else
      var items := Entries(paths.value);
      seq(|items|, i requires 0 <= i < |items| => PathEntry(items[i].0, items[i].1))
  }

  // ---------------------------------------------------------------------------
  // getReferences

  /** An object's own contribution: its `$ref`, whatever it holds, when truthy. */
  function OwnRefValue(v: Value): seq<Value> {
    if Present(Get(v, "$ref")) then [Get(v, "$ref").value] else []
  }

  /** The values `findRefs` collects from `v`, in the order it collects them. */
  function RefValues(v: Value): seq<Value>
    decreases v, 1
  {
    if IsObject(v) then OwnRefValue(v) + RefValuesForest(v, ChildCount(v)) else []
  }

  function RefValuesForest(v: Value, i: nat): seq<Value>
    requires i <= ChildCount(v)
    decreases v, 0, i
  {
    if i == 0 then [] else RefValuesForest(v, i - 1) + RefValues(ChildAt(v, i - 1))
  }

  /** findRefs: the recursive walk appending to the shared `refs`. */
  method FindRefs(obj: Value, refs: seq<Value>) returns (refs': seq<Value>)
    ensures refs' == refs + RefValues(obj)
    decreases obj, 1
  {
    refs' := refs;
    if !IsObject(obj) {
      return;
    }
    var ref := Get(obj, "$ref");
    if Present(ref) {
      refs' := refs' + [ref.value];
    }
    refs' := FindRefsInValues(obj, refs');
    assert RefValues(obj) == OwnRefValue(obj) + RefValuesForest(obj, ChildCount(obj));
  }

  /** The loop of findRefs over `Object.values(obj)`, each value walked in turn. */
  method FindRefsInValues(obj: Value, refs: seq<Value>) returns (refs': seq<Value>)
    ensures refs' == refs + RefValuesForest(obj, ChildCount(obj))
    decreases obj, 0
  {
    refs' := refs;
    var i := 0;
    while i < ChildCount(obj)
      invariant i <= ChildCount(obj)
      invariant refs' == refs + RefValuesForest(obj, i)
    {
      refs' := FindRefs(ChildAt(obj, i), refs');
      AppendAssoc(refs, RefValuesForest(obj, i), RefValues(ChildAt(obj, i)));
      i := i + 1;
    }
  }

  /** getReferences */
  method GetReferences(doc: Value) returns (refs: seq<Value>)
    ensures refs == RefValues(doc)
    ensures forall r :: r in refs ==> Truthy(r)
    ensures forall x :: x in refs <==> exists w :: w in ValuesPreOrder(doc) && HasRefValue(w, x)
  {
    refs := FindRefs(doc, []);
    RefValuesTruthy(doc);
    RefValuesMembers(doc);
  }

  /** `w` is an object whose `$ref` is truthy and equal to `x`, string or not. */
  ghost predicate HasRefValue(w: Value, x: Value) {
    Present(Get(w, "$ref")) && Get(w, "$ref").value == x
  }

  /** A value is collected iff some value of the pre-order traversal carries it as a truthy
      `$ref`. */
  lemma {:induction false} RefValuesMembers(v: Value)
    ensures forall x :: x in RefValues(v) <==> exists w :: w in ValuesPreOrder(v) && HasRefValue(w, x)
    decreases v, 1
  {
    RefValuesForestMembers(v, ChildCount(v));
    var below := ValuesForest(v, ChildCount(v));
    var forest := RefValuesForest(v, ChildCount(v));
    assert ValuesPreOrder(v) == [v] + below;
    assert RefValues(v) == if IsObject(v) then OwnRefValue(v) + forest else [];
    forall x ensures x in RefValues(v) <==> exists w :: w in ValuesPreOrder(v) && HasRefValue(w, x) {
      if x in RefValues(v) {
        if x in OwnRefValue(v) {
          assert v in ValuesPreOrder(v) && HasRefValue(v, x);
        } else {
          assert x in forest;
          var w :| w in below && HasRefValue(w, x);
          assert w in ValuesPreOrder(v);
        }
      }
      if exists w :: w in ValuesPreOrder(v) && HasRefValue(w, x) {
        var w :| w in ValuesPreOrder(v) && HasRefValue(w, x);
        if w == v {
          assert x in OwnRefValue(v);
        } else {
          assert w in below;
        }
      }
    }
  }

  lemma {:induction false} RefValuesForestMembers(v: Value, i: nat)
    requires i <= ChildCount(v)
    ensures forall x :: x in RefValuesForest(v, i) <==> exists w :: w in ValuesForest(v, i) && HasRefValue(w, x)
    decreases v, 0, i
  {
    if i > 0 {
      var c := ChildAt(v, i - 1);
      RefValuesForestMembers(v, i - 1);
      RefValuesMembers(c);
      assert ValuesForest(v, i) == ValuesForest(v, i - 1) + ValuesPreOrder(c);
      assert RefValuesForest(v, i) == RefValuesForest(v, i - 1) + RefValues(c);
    }
  }

  lemma {:induction false} RefValuesTruthy(v: Value)
    ensures forall r :: r in RefValues(v) ==> Truthy(r)
    decreases v, 1
  {
    if IsObject(v) {
      RefValuesForestTruthy(v, ChildCount(v));
    }
  }

  lemma {:induction false} RefValuesForestTruthy(v: Value, i: nat)
    requires i <= ChildCount(v)
    ensures forall r :: r in RefValuesForest(v, i) ==> Truthy(r)
    decreases v, 0, i
  {
    if i > 0 {
      RefValuesForestTruthy(v, i - 1);
      RefValuesTruthy(ChildAt(v, i - 1));
    }
  }

  /** The string references among a list of collected values. */
  function StringsOf(vs: seq<Value>): seq<string> {
    if vs == [] then []
    else StringsOf(vs[..|vs| - 1]) + (if vs[|vs| - 1].Str? then [vs[|vs| - 1].s] else [])
  }

  lemma {:induction false} StringsOfAppend(a: seq<Value>, b: seq<Value>)
    ensures StringsOf(a + b) == StringsOf(a) + StringsOf(b)
    decreases |b|
  {
    if b == [] {
      assert a + b == a;
    } else {
      assert (a + b)[..|a + b| - 1] == a + b[..|b| - 1];
      StringsOfAppend(a, b[..|b| - 1]);
    }
  }

  /** The two parsers walk the document the same way: the full parser's references are
      exactly the string-valued ones the simple parser collects, in the same order. */
  lemma {:induction false} ReferencesAgree(v: Value)
    ensures Refs(v) == StringsOf(RefValues(v))
    decreases v, 1
  {
    if IsObject(v) {
      ReferencesForestAgree(v, ChildCount(v));
      StringsOfAppend(OwnRefValue(v), RefValuesForest(v, ChildCount(v)));
      assert StringsOf(OwnRefValue(v)) == OwnRef(v) by {
        if Present(Get(v, "$ref")) {
          assert OwnRefValue(v)[..0] == [];
        }
      }
    }
  }

  lemma {:induction false} ReferencesForestAgree(v: Value, i: nat)
    requires i <= ChildCount(v)
    ensures RefsForest(v, i) == StringsOf(RefValuesForest(v, i))
    decreases v, 0, i
  {
    if i > 0 {
      ReferencesForestAgree(v, i - 1);
      ReferencesAgree(ChildAt(v, i - 1));
      StringsOfAppend(RefValuesForest(v, i - 1), RefValues(ChildAt(v, i - 1)));
    }
  }

  // ---------------------------------------------------------------------------
  // getParametersByPath

  /** What spreading a value into an array adds: an array's elements, a string's
      characters. */
  function Spread(v: Value): seq<Value>
    requires v.Arr? || v.Str?
  {
    if v.Arr? then v.elems else seq(|v.s|, i requires 0 <= i < |v.s| => Str([v.s[i]]))
  }

  /** The path-level `parameters` spread, when truthy. */
  function OwnParameters(pathObj: Value): seq<Value>
    requires Present(Get(pathObj, "parameters")) ==> Get(pathObj, "parameters").value.Arr? || Get(pathObj, "parameters").value.Str?
  {
    if Present(Get(pathObj, "parameters")) then Spread(Get(pathObj, "parameters").value) else []
  }

  /** An operation (a member value of the path item) contributes its parameters when it is
      an object with truthy `parameters`. */
  predicate Contributes(operation: Value) {
    IsObject(operation) && Present(Get(operation, "parameters"))
  }

  /** Every truthy `parameters` the loop spreads is an array or a string. */
  predicate Spreadable(pathObj: Value) {
    && (Present(Get(pathObj, "parameters")) ==>
          Get(pathObj, "parameters").value.Arr? || Get(pathObj, "parameters").value.Str?)
    && forall i :: 0 <= i < ChildCount(pathObj) && Contributes(ChildAt(pathObj, i)) ==>
         Get(ChildAt(pathObj, i), "parameters").value.Arr? || Get(ChildAt(pathObj, i), "parameters").value.Str?
  }

  /** The operation-level parameters of the first `i` member values. */
  function OperationParameters(pathObj: Value, i: nat): seq<Value>
    requires i <= ChildCount(pathObj) && Spreadable(pathObj)
  {
    if i == 0 then []
    else
      var operation := ChildAt(pathObj, i - 1);
      OperationParameters(pathObj, i - 1) +
      (if Contributes(operation) then Spread(Get(operation, "parameters").value) else [])
  }

  /** `document?.paths?.[path]` */
  function PathItem(doc: Value, path: string): Option<Value> {
    Path(Get(doc, "paths"), path)
  }

  /** getParametersByPath: the path-level parameters, then each operation's, in member
      order; nothing for an unknown path. */
  function ParametersByPath(doc: Value, path: string): (r: seq<Value>)
    requires Present(PathItem(doc, path)) ==> Spreadable(PathItem(doc, path).value)
    ensures !Present(PathItem(doc, path)) ==> r == []
  {
    var pathObj := PathItem(doc, path);
    if !Present(pathObj) then []
    else OwnParameters(pathObj.value) + OperationParameters(pathObj.value, ChildCount(pathObj.value))
  }

  /** Member value `k` of the path item contributes `p` to the operation-level parameters. */
  predicate SuppliedBy(pathObj: Value, k: nat, p: Value)
    requires k < ChildCount(pathObj) && Spreadable(pathObj)
  {
    Contributes(ChildAt(pathObj, k)) && p in Spread(Get(ChildAt(pathObj, k), "parameters").value)
  }

  /** A parameter is in the list iff some operation that contributes supplies it. */
  lemma {:induction false} OperationParametersMembers(pathObj: Value, i: nat, p: Value)
    requires i <= ChildCount(pathObj) && Spreadable(pathObj)
    ensures p in OperationParameters(pathObj, i) <==> exists k :: 0 <= k < i && SuppliedBy(pathObj, k, p)
  {
    if i > 0 {
      OperationParametersMembers(pathObj, i - 1, p);
      if p in OperationParameters(pathObj, i) && !SuppliedBy(pathObj, i - 1, p) {
        assert p in OperationParameters(pathObj, i - 1);
      }
    }
  }

  /** getParametersByPath: the path-level parameters, then each operation's. */
  method GetParametersByPath(doc: Value, path: string) returns (parameters: seq<Value>)
    requires Present(PathItem(doc, path)) ==> Spreadable(PathItem(doc, path).value)
    ensures parameters == ParametersByPath(doc, path)
  {
    var item := Path(Get(doc, "paths"), path);
    if !Present(item) {
      return [];
    }
    var pathObj := item.value;
    parameters := [];
    var own := Get(pathObj, "parameters");
    if Present(own) {
      parameters := parameters + Spread(own.value);
    }
    assert parameters == OwnParameters(pathObj);
    parameters := PushOperationParameters(pathObj, parameters);
  }

  /** The `forEach` over the operations: each object with truthy `parameters` spreads them
      onto the list, in member order. */
  method PushOperationParameters(pathObj: Value, parameters: seq<Value>) returns (parameters': seq<Value>)
    requires Spreadable(pathObj)
    ensures parameters' == parameters + OperationParameters(pathObj, ChildCount(pathObj))
  {
    parameters' := parameters;
    var i := 0;
    while i < ChildCount(pathObj)
      invariant i <= ChildCount(pathObj)
      invariant parameters' == parameters + OperationParameters(pathObj, i)
    {
      var operation := ChildAt(pathObj, i);
      ghost var before := OperationParameters(pathObj, i);
      if IsObject(operation) && Present(Get(operation, "parameters")) {
        parameters' := parameters' + Spread(Get(operation, "parameters").value);
        assert OperationParameters(pathObj, i + 1) == before + Spread(Get(operation, "parameters").value);
      } else {
        assert OperationParameters(pathObj, i + 1) == before;
      }
      i := i + 1;
    }
  }
}
