# OpenAPI core: a verified model

This project models the core of an OpenAPI tooling repository in Dafny:

- the read-only queries over the position-annotated syntax tree of an API description (`openapi-grammar.ts`);
- the diagnostic collector (`DiagnosticCollector.ts`);
- the full parser and its document projections (`OpenAPIParser.ts`);
- the lenient "simple" parser (`SimpleOpenAPIParser.ts`);
- the hover and completion features of the language server (`server.ts`).

A decoded document is the datatype `JsonValue.Value`:

- `Null`, `Bool`, `Num`, `Str`, `Arr`, and `Obj` with its members in decoding order;
- `undefined` is `Option.None` wherever a read may yield it.

The JavaScript semantics the source relies on are written out:

- truthiness, `||` and optional chaining;
- `Object.entries` and `Object.values`, including the index keys of arrays and strings;
- `String(x)` inside template literals, including the TypeError it raises for an object carrying its own `toString` key.

Every place where the source would throw is either modelled or excluded:

- **Modelled, where the source catches the throw:** parse, hover and completion. The throw becomes a result value.
- **Excluded, where the source lets it escape:** a `requires`. Examples are a null document in the full parser's projections, a null component, or a null path item.

External collaborators are parameters:

- the JSON and YAML text decoders;
- the external AST parser that fills the collector;
- `isJsonContent`.

Files:

- `wrappers.dfy`: `Option`.
- `json_value.dfy`: the value and its JavaScript reads.
- `grammar.dfy`: `transformNode`, `findNodes`, `getNodeAtPosition`, `isPositionInNode`, and the three key scans.
- `diagnostics.dfy`: `Diagnostic` and `DefaultDiagnosticCollector`, as classes.
- `parser.dfy`: `OpenAPIParser`.
- `simple_parser.dfy`: `SimpleOpenAPIParser`.
- `server.dfy`: word lookup, documentation rendering, hover, completion.

Behaviours of the source worth noting:

- **Position ranges.** A node's range is closed at both ends (`isPositionInNode`, lines 97-100).
- **Innermost node.** `getNodeAtPosition` answers with the last node its descent visits. That node is the deepest one on the path taken. It is not necessarily the deepest node overall when sibling ranges overlap.
- **Empty properties still get a section.** The documentation's properties section is written whenever `properties` is truthy. An empty object therefore gets a heading with no lines under it.
- **Documentation can throw on conversion.** The hover text writes a property's `type` and `description`, and each required name, with `${…}`. A decoded object with its own `toString` key cannot be converted, and neither can an array holding one. The render then throws, so the hover answers null and completion gives no items.
- **Projections can throw.** The full parser's projections throw on a null document and on null nested values. Only absent or falsy sections fall back to defaults.

## Model

| member | source | states |
|---|---|---|
| JsonValue.Lookup | src/parser/OpenAPIParser.ts:80 | a property read finds a value iff some member has the key, and the value is that member's |
| JsonValue.Entries | src/parser/OpenAPIParser.ts:103-104 | `Object.entries`: an object's members in order; an array's or string's elements under index keys; nothing for numbers and booleans |
| JsonValue.ChildAt | src/parser/OpenAPIParser.ts:164 | each value `Object.values` yields is strictly inside its parent, so the recursive walks terminate |
| JsonValue.NatToString | src/parser/OpenAPIParser.ts:103 | an index key is a non-empty string of decimal digits |
| JsonValue.NatToStringRoundTrip | src/parser/OpenAPIParser.ts:103 | reading an index key back gives the index |
| JsonValue.Stringify | NUS-Project/src/language-server/server.ts:141-148 | `${x}` throws iff x is an object with its own `toString` key (a JSON value is never callable, and the inherited `valueOf` gives back the object) or an array with such an element at any depth; otherwise it gives the text `String()` gives |
| JsonValue.JoinThrowsMembers | NUS-Project/src/language-server/server.ts:148 | `join` over the first i elements of an array throws iff one of those elements cannot be converted |
| JsonValue.IndexKeysDistinct | src/parser/OpenAPIParser.ts:103 | the index keys `Object.entries` gives an array or a string are pairwise distinct |
| OpenApiGrammar.TransformWellFormed | src/grammar/openapi-grammar.ts:36-50 | the transformed tree mirrors the native one node by node (kind, positions, children in order); each node has children or text, never both |
| OpenApiGrammar.OfKindMembers | src/grammar/openapi-grammar.ts:55-69 | a node is selected iff it is in the traversal and its kind matches exactly |
| OpenApiGrammar.OfKindAppend | src/grammar/openapi-grammar.ts:58-65 | selecting from two traversals one after the other is selecting from each in turn |
| OpenApiGrammar.FindNodes | src/grammar/openapi-grammar.ts:55-69 | the result is the pre-order traversal filtered by kind; a node is in it iff it is in the tree with that kind; a matching root comes first |
| OpenApiGrammar.CollectOfKind | src/grammar/openapi-grammar.ts:58-65 | the recursive `traverse` appends the matching nodes of the subtree, in pre-order, to what was collected before |
| OpenApiGrammar.CollectInChildren | src/grammar/openapi-grammar.ts:62-64 | the loop over the children appends each child subtree's matching nodes in turn |
| OpenApiGrammar.AtOrBeforeIsTotalOrder | src/grammar/openapi-grammar.ts:97-100 | row-major position order is reflexive, antisymmetric, transitive and total |
| OpenApiGrammar.PositionInNodeIsClosedRange | src/grammar/openapi-grammar.ts:93-101 | a position is in a node iff it lies between start and end inclusive in row-major order |
| OpenApiGrammar.VisitsLastIsInnermost | src/grammar/openapi-grammar.ts:74-88 | the node reported is a containing node none of whose children contains the position |
| OpenApiGrammar.VisitsForestLastIsInnermost | src/grammar/openapi-grammar.ts:77-84 | the same for the descent into the first children of a node |
| OpenApiGrammar.VisitsForestEmpty | src/grammar/openapi-grammar.ts:80-82 | when the descent into a node's children visits nothing, no child contains the position |
| OpenApiGrammar.VisitsInTree | src/grammar/openapi-grammar.ts:74-88 | every visited node is a node of the tree |
| OpenApiGrammar.VisitsForestInTree | src/grammar/openapi-grammar.ts:80-82 | every node visited below the first children is in their subtrees |
| OpenApiGrammar.GetNodeAtPosition | src/grammar/openapi-grammar.ts:74-88 | the answer is the last visited node; none iff the root does not contain the position; otherwise an innermost containing node of the tree |
| OpenApiGrammar.VisitFrom | src/grammar/openapi-grammar.ts:77-84 | the recursive `traverse` leaves the last node visited in its subtree, or the earlier result if it visits none |
| OpenApiGrammar.LowerAscii | src/grammar/openapi-grammar.ts:146 | lower-casing keeps the length |
| OpenApiGrammar.PairKey | src/grammar/openapi-grammar.ts:124-131 | a recorded name is non-empty; section scans record only the five section names; verb scans record only the eight verbs; the any-key scan never records `__proto__` |
| OpenApiGrammar.LastIndexOfIsLast | src/grammar/openapi-grammar.ts:124-131 | a key is found iff it occurs, and the position found is its last occurrence |
| OpenApiGrammar.LastIndexOfSnoc | src/grammar/openapi-grammar.ts:124-131 | one more key moves the last occurrence of that key to the end and leaves the others |
| OpenApiGrammar.RecordsSnoc | src/grammar/openapi-grammar.ts:124-131 | storing one more pair keeps the record equal to "each name maps to its last pair's value" |
| OpenApiGrammar.ScannedSnoc | src/grammar/openapi-grammar.ts:124-131 | one more child adds its recorded key and value at the end |
| OpenApiGrammar.LastRecordedIsLast | src/grammar/openapi-grammar.ts:124-131 | a name is recorded iff some direct pair maps to it, and it holds the value of the last such pair |
| OpenApiGrammar.ScanPairs | src/grammar/openapi-grammar.ts:124-131 | the loop builds exactly that record: one name per recorded key, last pair wins |
| OpenApiGrammar.GetOpenApiNodes | src/grammar/openapi-grammar.ts:106-134 | only the five section names appear, each with the value of its last root pair; a childless root gives an empty record |
| OpenApiGrammar.GetPathOperations | src/grammar/openapi-grammar.ts:139-155 | only lower-cased HTTP verbs appear, each with the value of its last pair |
| OpenApiGrammar.GetSchemaProperties | src/grammar/openapi-grammar.ts:160-175 | every pair with a non-empty key other than `__proto__` appears, with the value of its last pair; `__proto__` (an assignment to the prototype) never appears |
| OpenApiGrammar.PrototypeKeyIsRecorded | src/grammar/openapi-grammar.ts:116-128 | as written, a root pair `toString` is recorded under the native function text of `toString`, which is not a section name; the intended scan records nothing for it |
| Diagnostics.Diagnostic.constructor | src/parser/DiagnosticCollector.ts:1-7 | a diagnostic carries the given message, severity and optional position and source |
| Diagnostics.WithoutMembers | src/parser/DiagnosticCollector.ts:37 | the category filter keeps exactly the entries not in the category set |
| Diagnostics.WithoutAppend | src/parser/DiagnosticCollector.ts:37 | the filter keeps the entries' order: filtering a concatenation filters each part |
| Diagnostics.WithoutUntagged | src/parser/DiagnosticCollector.ts:36-39 | filtering by a set holding none of the entries changes nothing |
| Diagnostics.WithoutIdempotent | src/parser/DiagnosticCollector.ts:36-39 | filtering twice by the same set is filtering once |
| Diagnostics.DefaultDiagnosticCollector.constructor | src/parser/DiagnosticCollector.ts:17-20 | a new collector has an empty list and empty category sets |
| Diagnostics.DefaultDiagnosticCollector.Diagnostics | src/parser/DiagnosticCollector.ts:22-24 | the accessor returns the current list and changes nothing |
| Diagnostics.DefaultDiagnosticCollector.Add | src/parser/DiagnosticCollector.ts:26-28 | appends at the end; earlier entries and both category sets stay as they were |
| Diagnostics.DefaultDiagnosticCollector.ClearDiagnostics | src/parser/DiagnosticCollector.ts:30-34 | the list and both sets become empty |
| Diagnostics.DefaultDiagnosticCollector.ClearAstDiagnostics | src/parser/DiagnosticCollector.ts:36-39 | drops the AST-tagged entries keeping the rest in order, empties the AST set, leaves the syntax set |
| Diagnostics.DefaultDiagnosticCollector.ClearSyntaxDiagnostics | src/parser/DiagnosticCollector.ts:41-44 | the same for the syntax set, leaving the AST set |
| Diagnostics.AddThenClear | src/parser/DiagnosticCollector.ts:26-39 | a collector filled only through `add` keeps its whole list through both category clears, and a repeated clear changes nothing |
| Parser.ParseOutcome | src/parser/OpenAPIParser.ts:45-74 | valid iff the diagnostics are present and empty; a throw gives exactly one error and no document or diagnostics; otherwise the document is the decoded text and the diagnostics are this parse's alone |
| Parser.OpenApiParser.constructor | src/parser/OpenAPIParser.ts:36-38 | a new parser owns a fresh, empty collector |
| Parser.OpenApiParser.Parse | src/parser/OpenAPIParser.ts:45-74 | every parse installs a fresh collector filled by the AST pass, and returns the outcome above with the collector's list as its diagnostics |
| Parser.GetVersion | src/parser/OpenAPIParser.ts:79-81 | `openapi` when truthy, otherwise `swagger`; a truthy version exists iff one of the two is truthy |
| Parser.GetInfo | src/parser/OpenAPIParser.ts:86-93 | title and version are the info's when truthy, otherwise the empty string; the description passes through; without info all three are defaults |
| Parser.GetServers | src/parser/OpenAPIParser.ts:140-142 | the servers section when truthy, otherwise an empty list; never falsy |
| Parser.GetComponents | src/parser/OpenAPIParser.ts:98-115 | the nested loops produce every category's components, category by category, name by name |
| Parser.PushCategory | src/parser/OpenAPIParser.ts:104-110 | the inner loop appends one component per named member of a category, in member order |
| Parser.ConcatSnoc | src/parser/OpenAPIParser.ts:103-112 | one more category appends its whole group after the earlier ones |
| Parser.ConcatAppend | src/parser/OpenAPIParser.ts:103-112 | flattening two runs of categories one after the other is flattening each in turn |
| Parser.ConcatAt | src/parser/OpenAPIParser.ts:103-112 | element `j` of group `i` sits right after all earlier groups |
| Parser.ConcatSize | src/parser/OpenAPIParser.ts:103-112 | the number of components is the sum of the category sizes |
| Parser.ComponentAt | src/parser/OpenAPIParser.ts:103-112 | one entry per (category, name) pair: component `j` of category `i` is at the offset of category `i` plus `j`, with that name, category, properties and required |
| Parser.GroupsPrefix | src/parser/OpenAPIParser.ts:103-112 | the groups of the first categories are the first groups |
| Parser.GroupAt | src/parser/OpenAPIParser.ts:104-110 | entry `j` of a category's group is the component built from its `j`-th member |
| Parser.MethodsUpToMembers | src/parser/OpenAPIParser.ts:144-155 | after the first verbs, a verb is in the record iff it is one of them and the path item's value for it is truthy, mapped to that value |
| Parser.GetPathMethods | src/parser/OpenAPIParser.ts:144-155 | the record holds exactly the verbs among the fixed eight whose value is truthy, with those values, in verb order |
| Parser.MethodsUpToMembersAll | src/parser/OpenAPIParser.ts:148-152 | the same for the whole verb list, for every path item |
| Parser.GetPaths | src/parser/OpenAPIParser.ts:120-126 | one entry per path key in order, each holding exactly the truthy verbs of its item |
| Parser.FindReferences | src/parser/OpenAPIParser.ts:157-167 | the recursive walk appends the references below `obj` to what was collected |
| Parser.FindInValues | src/parser/OpenAPIParser.ts:164-166 | the loop over `Object.values` appends the references below each child in turn |
| Parser.GetReferences | src/parser/OpenAPIParser.ts:131-135 | the result is the walk over the whole document, in depth-first pre-order; a string is collected iff some object in the document has it as a non-empty `$ref` string |
| Parser.RefsMembers | src/parser/OpenAPIParser.ts:157-167 | a string is collected below a value iff some value of its pre-order traversal is an object with that non-empty `$ref` string |
| Parser.RefsForestMembers | src/parser/OpenAPIParser.ts:164-166 | the same for the values below the first children of a value |
| SimpleParser.LeadingSpaces | src/parser/SimpleOpenAPIParser.ts:45 | the count of leading blanks: all of them are blank and the next character is not |
| SimpleParser.TrimEndKeepsFirst | src/parser/SimpleOpenAPIParser.ts:45 | trimming the end keeps a first character that is not blank |
| SimpleParser.TrimEndOfBlanks | src/parser/SimpleOpenAPIParser.ts:45 | an all-blank text trims to nothing |
| SimpleParser.TrimStartsAtFirstSolid | src/parser/SimpleOpenAPIParser.ts:45 | the trimmed text starts at the first non-blank character, and is empty when there is none |
| SimpleParser.DetectFormat | src/parser/SimpleOpenAPIParser.ts:45-53 | JSON iff the first non-blank character is `{` or `[` |
| SimpleParser.ValidationErrors | src/parser/SimpleOpenAPIParser.ts:58-71 | no message iff all four required fields are truthy |
| SimpleParser.ValidationErrorsMembers | src/parser/SimpleOpenAPIParser.ts:58-71 | each message is present iff its field is falsy; title and version are checked only under a truthy info; no other message; at most three |
| SimpleParser.CheckRequired | src/parser/SimpleOpenAPIParser.ts:58-71 | the checks, pushing in turn, produce exactly those messages in that order |
| SimpleParser.Parse | src/parser/SimpleOpenAPIParser.ts:39-86 | a decode failure or a null document gives one error and no document; otherwise the document is kept, valid iff complete, and errors are absent iff there are none |
| SimpleParser.GetVersion | src/parser/SimpleOpenAPIParser.ts:88-90 | the truthy `openapi`, otherwise "unknown" |
| SimpleParser.GetInfo | src/parser/SimpleOpenAPIParser.ts:92-94 | the truthy info, otherwise an object whose title and version are "Unknown" |
| SimpleParser.GetServers | src/parser/SimpleOpenAPIParser.ts:96-98 | the truthy servers, otherwise an empty list |
| SimpleParser.GetSecuritySchemes | src/parser/SimpleOpenAPIParser.ts:145-147 | the truthy security schemes of the components, otherwise an empty object |
| SimpleParser.GetResponsesByPath | src/parser/SimpleOpenAPIParser.ts:170-172 | the truthy responses of that path's operation, otherwise an empty object |
| SimpleParser.GetTags | src/parser/SimpleOpenAPIParser.ts:141-143 | one entry per tag, its `name` (possibly undefined); none when tags are absent or null |
| SimpleParser.GetComponents | src/parser/SimpleOpenAPIParser.ts:100-111 | one component per schema, in order, named by its key, category "schemas", with `properties` the schema's when truthy and `{}` otherwise, `required` the schema's when truthy and `[]` otherwise (so both always truthy); none without schemas |
| SimpleParser.OnlySchemasOfGroup | src/parser/SimpleOpenAPIParser.ts:100-111 | a category's group passes the "schemas" filter whole or not at all |
| SimpleParser.OnlySchemasOfPrefix | src/parser/SimpleOpenAPIParser.ts:100-111 | the same for the first components of a group |
| SimpleParser.OnlySchemasAppend | src/parser/SimpleOpenAPIParser.ts:100-111 | filtering a concatenation filters each part |
| SimpleParser.OnlySchemasOfCategories | src/parser/SimpleOpenAPIParser.ts:100-111 | filtering the full component list by "schemas" leaves exactly the group of the `schemas` category, or nothing |
| SimpleParser.SchemasKeyUniqueTail | src/parser/SimpleOpenAPIParser.ts:100-111 | a `schemas` key that does not repeat does not repeat in the later categories |
| SimpleParser.NoSchemasAfter | src/parser/SimpleOpenAPIParser.ts:100-111 | after the only `schemas` category no later category is called `schemas` |
| SimpleParser.NoIndexIsSchemas | src/parser/SimpleOpenAPIParser.ts:101 | the index keys of an array or a string never spell `schemas` |
| SimpleParser.ComponentsAgree | src/parser/SimpleOpenAPIParser.ts:100-111 | the simple parser's components are the full parser's `schemas` components with properties and required defaulted |
| SimpleParser.SchemasDefaulted | src/parser/SimpleOpenAPIParser.ts:105-110 | the simple parser's components are the full parser's `schemas` group with `properties` and `required` defaulted |
| SimpleParser.GetPaths | src/parser/SimpleOpenAPIParser.ts:113-122 | one entry per path key in order, holding the path item unchanged; none without paths |
| SimpleParser.FindRefs | src/parser/SimpleOpenAPIParser.ts:127-134 | the recursive walk appends the truthy `$ref` values below `obj` to what was collected |
| SimpleParser.FindRefsInValues | src/parser/SimpleOpenAPIParser.ts:132 | the loop over `Object.values` appends the values found below each child in turn |
| SimpleParser.GetReferences | src/parser/SimpleOpenAPIParser.ts:124-138 | the collected values are the walk's, each is truthy, and a value is collected iff some object in the document carries it as a truthy `$ref`, string or not |
| SimpleParser.RefValuesMembers | src/parser/SimpleOpenAPIParser.ts:127-134 | a value is collected below a value iff some value of its pre-order traversal is an object whose `$ref` is that truthy value |
| SimpleParser.RefValuesForestMembers | src/parser/SimpleOpenAPIParser.ts:132 | the same for the values below the first children of a value |
| SimpleParser.RefValuesTruthy | src/parser/SimpleOpenAPIParser.ts:129-131 | only truthy `$ref` values are collected |
| SimpleParser.RefValuesForestTruthy | src/parser/SimpleOpenAPIParser.ts:132 | the same below the first children |
| SimpleParser.StringsOfAppend | src/parser/SimpleOpenAPIParser.ts:124-138 | picking strings from two lists is picking from each in turn |
| SimpleParser.ReferencesAgree | src/parser/SimpleOpenAPIParser.ts:124-138 | the full parser's references are exactly the string values the simple parser collects, in the same order |
| SimpleParser.ReferencesForestAgree | src/parser/SimpleOpenAPIParser.ts:132 | the same below the first children |
| SimpleParser.ParametersByPath | src/parser/SimpleOpenAPIParser.ts:149-168 | an unknown or falsy path item yields no parameters |
| SimpleParser.OperationParametersMembers | src/parser/SimpleOpenAPIParser.ts:161-165 | a parameter comes from the operations iff some object-valued member with truthy `parameters` contributes it |
| SimpleParser.GetParametersByPath | src/parser/SimpleOpenAPIParser.ts:149-168 | the loop returns the path-level parameters followed by each operation's, in member order |
| SimpleParser.PushOperationParameters | src/parser/SimpleOpenAPIParser.ts:161-165 | the loop appends the spread `parameters` of each contributing member value, in member order |
| LanguageServer.RunStart | NUS-Project/src/language-server/server.ts:157 | growing left from a position stops at the start of its word |
| LanguageServer.RunEnd | NUS-Project/src/language-server/server.ts:157 | growing right from a position stops at the end of its word |
| LanguageServer.RunContaining | NUS-Project/src/language-server/server.ts:160-165 | a word match whose closed range holds the offset is the one found by growing from it |
| LanguageServer.RunsApart | NUS-Project/src/language-server/server.ts:160-165 | two word matches are the same or separated by a character |
| LanguageServer.WordRangeMeaning | NUS-Project/src/language-server/server.ts:156-169 | the range found is a word match holding the offset, and any such match is the one found |
| LanguageServer.WordRangeAt | NUS-Project/src/language-server/server.ts:156-169 | the scan over matches from the left returns the word around the offset, or nothing when no match holds it |
| LanguageServer.WriteProperties | NUS-Project/src/language-server/server.ts:140-142 | one line per property in order, or a throw iff some property is null or its `type` or truthy `description` cannot be converted to text |
| LanguageServer.WriteProperty | NUS-Project/src/language-server/server.ts:140-142 | the callback for one entry writes that property's line, and throws iff the property is null or its `type` or truthy `description` cannot be converted |
| LanguageServer.WriteRequired | NUS-Project/src/language-server/server.ts:147-149 | one line per required name, in order, or a throw iff some name cannot be converted to text |
| LanguageServer.LineThrowsSnoc | NUS-Project/src/language-server/server.ts:140-142 | a prefix of the entries throws one entry later iff it already threw or that entry's line throws; a throwing line makes all entries throw |
| LanguageServer.NameThrowsSnoc | NUS-Project/src/language-server/server.ts:147-149 | the same for the required names |
| LanguageServer.RenderDocumentation | NUS-Project/src/language-server/server.ts:135-153 | the text built with `+=` is the documentation; the render throws iff a property is null, a property's `type` or truthy `description` or a required name cannot be converted to text, or a listed `required` is not an array |
| LanguageServer.WritePropertiesSection | NUS-Project/src/language-server/server.ts:138-143 | the properties section is written iff no property is null and every `type` and truthy `description` converts to text, and is then its heading and lines |
| LanguageServer.WriteRequiredSection | NUS-Project/src/language-server/server.ts:145-150 | the required section is written iff an unlisted `required` is skipped or a listed one is an array whose names all convert to text, and is then its heading and lines |
| LanguageServer.PropertyLinesSnoc | NUS-Project/src/language-server/server.ts:140-142 | one more property adds its line at the end |
| LanguageServer.LinesSnoc | NUS-Project/src/language-server/server.ts:140-149 | one more line is written at the end |
| LanguageServer.OccursShift | NUS-Project/src/language-server/server.ts:135-153 | text stays present when more text is written around it |
| LanguageServer.LinesPrefix | NUS-Project/src/language-server/server.ts:140-149 | the first lines written are a prefix of all of them |
| LanguageServer.LineOccurs | NUS-Project/src/language-server/server.ts:140-149 | each line appears right after the lines before it |
| LanguageServer.LinesListed | NUS-Project/src/language-server/server.ts:140-149 | every line written occurs in any text that embeds the lines |
| LanguageServer.PropertiesListed | NUS-Project/src/language-server/server.ts:138-143 | every property entry is non-null and its line occurs in the documentation |
| LanguageServer.RequiredSectionLast | NUS-Project/src/language-server/server.ts:145-150 | a listed `required` is an array and its section ends the documentation |
| LanguageServer.RequiredNamesListed | NUS-Project/src/language-server/server.ts:145-150 | the line of every required name occurs in the documentation |
| LanguageServer.DocumentationMentions | NUS-Project/src/language-server/server.ts:135-153 | no text iff rendering throws (a null property, a `type`, truthy `description` or required name that cannot be converted to text, a listed non-array `required`); otherwise it opens with name and type, every property converts and has its line in the text, and every required name converts and has its line |
| LanguageServer.OwnToStringThrows | NUS-Project/src/language-server/server.ts:141-148 | a property `type`, or a required name nested in an array, that is an object with its own non-callable `toString` leaves the component with no documentation |
| LanguageServer.FirstNamed | NUS-Project/src/language-server/server.ts:116 | `find`: the first component with that name, or none iff no component has it |
| LanguageServer.Hover | NUS-Project/src/language-server/server.ts:104-132 | the hover handler answers with the documentation of the first component named by the word under the cursor, and null when anything is missing or throws, including a value in the documentation that cannot be converted to text |
| LanguageServer.Completions | NUS-Project/src/language-server/server.ts:82-101 | no items unless the parse is usable and every component can be read and documented (its documentation throws when a value in it cannot be converted to text); otherwise one item per component, in order, labelled with its name, of kind Class, with detail "<type> component" and the component's documentation |
| LanguageServer.HoverMatchesCompletion | NUS-Project/src/language-server/server.ts:82-132 | while completion offers items, hover answers iff an item's label is the word, with the documentation of the first such item |

## Left out

- Tree-sitter parsing (`OpenAPIGrammar.parse`) is native code. Its output is the input datatype `SyntaxNode`.
- JSON and YAML decoding, `isJsonContent`, and the external AST parsers are parameters.
- The shapes of the diagnostics those parsers push are not modelled.
- The language server's connection is left out: LSP wiring, document management, `validateDocument` and the console logging in the `catch` blocks.
- Asynchrony is left out; every operation is modelled as synchronous.
- Hover and completion use the parse outcome as a value. Replacing the shared parser's collector while they parse is not modelled.
- Numbers are integers. Floating point, `NaN` and its falsiness, and the text `String()` gives non-integers are left out.
- Property reads on arrays and strings give `undefined`, apart from enumeration:
  - the model has no `length` and no numeric-key reads through `Get`;
  - this affects `paths[path]` on an array, and a `required` object carrying its own `length` key.
- Inherited prototype properties are not modelled. There are two exceptions. The finding below, where the source reads them by accident. And conversion to text, where an own `toString` key hides the inherited method.
- Objects enumerate in member order. JavaScript's enumeration of integer-like keys ahead of other keys is not modelled.
- A decoded object may hold a key twice; reads see the first occurrence. For that reason `SimpleParser.ComponentsAgree` requires the `schemas` key not to repeat.
- `toLowerCase` is ASCII-only (`OpenApiGrammar.LowerAscii`).
- Strings are sequences of Unicode characters, whereas JavaScript indexes strings by UTF-16 code unit. A character outside the Basic Multilingual Plane (an emoji, say) counts as one position in the model and two in the source. This shifts the cursor offset, `match.index` and `substring` in the word lookup of the language server, and the index keys and elements `Object.entries` gives for a string.
- In `getSchemaProperties`, a pair keyed `__proto__` replaces the prototype of the returned record instead of adding a key. The model records no key for it; the inherited reads the new prototype then answers are not modelled.
- The grammar's key scans return a Dafny `map`, so the insertion order of the resulting record is not modelled.
- The message of the exception that reading `openapi` from a null document raises is engine-specific. `SimpleParser.NullDocumentError` fixes the V8 wording.
- The returned diagnostics array is an alias of the collector's internal array; that aliasing is not modelled.
- A parse whose AST pass throws after adding diagnostics leaves them in the (private) collector; that collector state is not modelled.
- Parser.GetVersion, Parser.GetInfo, Parser.GetServers: require a non-null document, because `document.x` throws on null and the source does not catch it.
- Parser.GetComponents: requires non-null categories and components, because `Object.entries(null)` and `null.properties` throw.
- Parser.GetPathMethods, Parser.GetPaths: require non-null path items.
- SimpleParser.GetTags: requires `tags` to be absent, null, or an array of non-null tags. `.map` on anything else throws, and so does `null.name`.
- SimpleParser.GetComponents: requires non-null schemas.
- SimpleParser.GetParametersByPath: requires every spread `parameters` to be an array or a string. Spreading any other value throws.

## Findings

| source | as written | input that shows it | evidently intended | confidence | as-written member | corrected member |
|---|---|---|---|---|---|---|
| src/grammar/openapi-grammar.ts:116-128 | `mapping[key]` on an object literal also answers for inherited names such as `toString`, and the result is stored under that value converted to a key (the source text of the method, or of `Object` for `constructor`) | a root pair `toString: x` is recorded under the key `function toString() { [native code] }` | record only the five section names | high (not executed) | OpenApiGrammar.PrototypeKeyIsRecorded | OpenApiGrammar.GetOpenApiNodes |
