/**
 * The language-server features built on the full parser
 * (NUS-Project/src/language-server/server.ts): the word under the cursor, the Markdown
 * documentation of a component, hover and completion.
 */
module LanguageServer {
  import opened Wrappers
  import opened JsonValue
  import opened Parser

  // ---------------------------------------------------------------------------
  // getWordRangeAtPosition

  /** The character class `[a-zA-Z0-9_\-]`. */
  predicate IsWordChar(c: char) {
    ('a' <= c <= 'z') || ('A' <= c <= 'Z') || ('0' <= c <= '9') || c == '_' || c == '-'
  }

  /** `text[s..e]` is one match of `/[a-zA-Z0-9_\-]+/g`: a maximal run of word characters. */
  predicate IsRun(text: string, s: int, e: int) {
    && 0 <= s < e <= |text|
    && (forall j :: s <= j < e ==> IsWordChar(text[j]))
    && (s == 0 || !IsWordChar(text[s - 1]))
    && (e == |text| || !IsWordChar(text[e]))
  }

  /** Where the word characters just before `k` begin. */
  function RunStart(text: string, k: nat): (s: nat)
    requires k <= |text|
    ensures s <= k
    ensures forall j :: s <= j < k ==> IsWordChar(text[j])
    ensures s == 0 || !IsWordChar(text[s - 1])
  {
    if k > 0 && IsWordChar(text[k - 1]) then RunStart(text, k - 1) else k
  }

  /** Where the word characters from `k` on end. */
  function RunEnd(text: string, k: nat): (e: nat)
    requires k <= |text|
    ensures k <= e <= |text|
    ensures forall j :: k <= j < e ==> IsWordChar(text[j])
    ensures e == |text| || !IsWordChar(text[e])
    decreases |text| - k
  {
    if k < |text| && IsWordChar(text[k]) then RunEnd(text, k + 1) else k
  }

  /** The word around `offset`, found by growing outwards from it. */
  function WordRange(text: string, offset: int): Option<(nat, nat)> {
    if 0 <= offset <= |text| && RunStart(text, offset) < RunEnd(text, offset)
    then Some((RunStart(text, offset), RunEnd(text, offset)))
    else None
  }

  /** A run containing `offset` is the one growing from it finds. */
  lemma RunContaining(text: string, s: int, e: int, offset: int)
    requires IsRun(text, s, e) && s <= offset <= e
    ensures RunStart(text, offset) == s && RunEnd(text, offset) == e
  {
  }

  /** Two matches are the same match or lie apart, with a character between them. */
  lemma RunsApart(text: string, s1: int, e1: int, s2: int, e2: int)
    requires IsRun(text, s1, e1) && IsRun(text, s2, e2)
    ensures (s1 == s2 && e1 == e2) || e1 < s2 || e2 < s1
  {
    if s1 <= s2 <= e1 {
      RunContaining(text, s1, e1, s2);
      RunContaining(text, s2, e2, s2);
    } else if s2 <= s1 <= e2 {
      RunContaining(text, s2, e2, s1);
      RunContaining(text, s1, e1, s1);
    }
  }

  /** WordRange answers with the run containing `offset`, and with nothing exactly when no
      run contains it; the runs being separated, there is at most one. */
  lemma WordRangeMeaning(text: string, offset: int)
    ensures WordRange(text, offset).Some? ==>
      var (s, e) := WordRange(text, offset).value;
      IsRun(text, s, e) && s <= offset <= e
    ensures forall s, e :: IsRun(text, s, e) && s <= offset <= e ==> WordRange(text, offset) == Some((s, e))
  {
    forall s, e | IsRun(text, s, e) && s <= offset <= e
      ensures WordRange(text, offset) == Some((s, e))
    {
      RunContaining(text, s, e, offset);
    }
  }

  /** getWordRangeAtPosition: walk the matches from the left and stop at the first one
      whose closed range holds `offset`. */
  method WordRangeAt(text: string, offset: int) returns (r: Option<(nat, nat)>)
    ensures r == WordRange(text, offset)
  {
    WordRangeMeaning(text, offset);
    var i := 0;
    while i < |text|
      invariant i <= |text|
      invariant i == 0 || i == |text| || !IsWordChar(text[i - 1]) || !IsWordChar(text[i])
      invariant WordRange(text, offset).Some? ==> WordRange(text, offset).value.0 >= i
      decreases |text| - i
    {
      if !IsWordChar(text[i]) {
        i := i + 1;
        continue;
      }
      var start := i;
      i := i + 1;
      while i < |text| && IsWordChar(text[i])
        invariant start < i <= |text|
        invariant forall j :: start <= j < i ==> IsWordChar(text[j])
        decreases |text| - i
      {
        i := i + 1;
      }
      var end := i;
      assert IsRun(text, start, end);
      if start <= offset <= end {
        return Some((start, end));
      }
      if WordRange(text, offset).Some? {
        var (s, e) := WordRange(text, offset).value;
        RunsApart(text, start, end, s, e);
      }
    }
    return None;
  }

  // ---------------------------------------------------------------------------
  // generateComponentDocumentation

  /** The heading every documentation starts with. */
  function Header(c: Component): string {
    "### " + c.name + "\n\n**Type:** " + c.category + "\n\n"
  }

  const PropertiesHeading := "\n**Properties:**\n\n"
  const RequiredHeading := "\n**Required Properties:**\n\n"

  /** The line of one property; reading `type` of a null property throws. */
  function PropertyLine(entry: (string, Value)): string
    requires !entry.1.Null?
  {
    var description := Get(entry.1, "description");
    "- `" + entry.0 + "`: " + Display(Get(entry.1, "type"))
      + (if Present(description) then " - " + Display(description) else "") + "\n"
  }

  /** One line per property. */
  function PropertyLineSeq(entries: seq<(string, Value)>): seq<string>
    requires forall k :: 0 <= k < |entries| ==> !entries[k].1.Null?
  {
    seq(|entries|, k requires 0 <= k < |entries| => PropertyLine(entries[k]))
  }

  /** The line of one required name. */
  function RequiredLine(x: Value): string {
    "- `" + Show(x) + "`\n"
  }

  /** One line per required name. */
  function RequiredLineSeq(xs: seq<Value>): seq<string> {
    seq(|xs|, k requires 0 <= k < |xs| => RequiredLine(xs[k]))
  }

  /** Lines written one after another. */
  function Lines(ls: seq<string>): string {
    if ls == [] then "" else Lines(ls[..|ls| - 1]) + ls[|ls| - 1]
  }

  /** `required.length`: an array's or a string's length; undefined (so never above zero)
      for anything else. */
  function RequiredLength(v: Value): nat {
    match v
    case Arr(elems) => |elems|
    case Str(s) => |s|
    case _ => 0
  }

  /** The required section is written: `required` is truthy with a positive length. */
  predicate RequiredListed(c: Component) {
    Present(c.required) && RequiredLength(c.required.value) > 0
  }

  /** Writing the line of a property throws: reading `type` of a null property, or
      converting its `type` or its truthy `description` to text. */
  predicate PropertyLineThrows(entry: (string, Value)) {
    || entry.1.Null?
    || (Get(entry.1, "type").Some? && ShowThrows(Get(entry.1, "type").value))
    || (Present(Get(entry.1, "description")) && ShowThrows(Get(entry.1, "description").value))
  }

  /** Writing the line of some entry throws. */
  predicate LineThrowsIn(entries: seq<(string, Value)>) {
    exists k :: 0 <= k < |entries| && PropertyLineThrows(entries[k])
  }

  /** Writing the line of some required name throws. */
  predicate NameThrowsIn(xs: seq<Value>) {
    exists k :: 0 <= k < |xs| && ShowThrows(xs[k])
  }

  /** The properties section throws at some property. */
  predicate PropertiesThrow(c: Component) {
    Present(c.properties) && LineThrowsIn(Entries(c.properties.value))
  }

  /** The required section throws: a non-empty string `required` has no `forEach`, and an
      array's element may fail to convert to text. */
  predicate RequiredThrows(c: Component) {
    RequiredListed(c) && (!c.required.value.Arr? || NameThrowsIn(c.required.value.elems))
  }

  /** generateComponentDocumentation throws. */
  predicate DocumentationThrows(c: Component) {
    PropertiesThrow(c) || RequiredThrows(c)
  }

  /** The properties section, written when `properties` is truthy. */
  function PropertiesPart(c: Component): string
    requires !PropertiesThrow(c)
  {
    if Present(c.properties) then PropertiesHeading + Lines(PropertyLineSeq(Entries(c.properties.value))) else ""
  }

  /** The required section, written when `required` is a non-empty array. */
  function RequiredPart(c: Component): string
    requires !RequiredThrows(c)
  {
    if RequiredListed(c) then RequiredHeading + Lines(RequiredLineSeq(c.required.value.elems)) else ""
  }

  /** The Markdown text generateComponentDocumentation returns, `None` when it throws. */
  function Documentation(c: Component): Option<string> {
    if DocumentationThrows(c) then None else Some(Header(c) + PropertiesPart(c) + RequiredPart(c))
  }

  /** The `forEach` over the property entries: one line each, or a throw at the first
      property that is null or whose `type` or `description` cannot be converted. */
  method WriteProperties(entries: seq<(string, Value)>) returns (lines: Option<string>)
    ensures lines.None? <==> LineThrowsIn(entries)
    ensures lines.Some? ==> lines.value == Lines(PropertyLineSeq(entries))
  {
    var text := "";
    var i := 0;
    while i < |entries|
      invariant i <= |entries|
      invariant !LineThrowsIn(entries[..i])
      invariant text == Lines(PropertyLineSeq(entries[..i]))
    {
      var line := WriteProperty(entries[i]);
      LineThrowsSnoc(entries, i);
      if line.None? {
        return None;
      }
      NoNullWritten(entries, i);
      PropertyLinesSnoc(entries, i);
      text := text + line.value;
      i := i + 1;
    }
    assert entries[..i] == entries;
    lines := Some(text);
  }

  /** The `forEach` callback for one `[name, prop]` entry: its line, or a throw when `prop`
      is null or its `type` or truthy description cannot be converted to text. */
  method WriteProperty(entry: (string, Value)) returns (line: Option<string>)
    ensures line.None? <==> PropertyLineThrows(entry)
    ensures line.Some? ==> line.value == PropertyLine(entry)
  {
    var (name, prop) := entry;
    if prop.Null? {
      return None;
    }
    var kind := Stringify(Get(prop, "type"));
    if kind.None? {
      return None;
    }
    var description := Get(prop, "description");
    var suffix := "";
    if Present(description) {
      var shown := Stringify(description);
      if shown.None? {
        return None;
      }
      suffix := " - " + shown.value;
    }
    line := Some("- `" + name + "`: " + kind.value + suffix + "\n");
  }

  /** The `forEach` over the required names: one line each, or a throw at the first name
      that cannot be converted to text. */
  method WriteRequired(xs: seq<Value>) returns (lines: Option<string>)
    ensures lines.None? <==> NameThrowsIn(xs)
    ensures lines.Some? ==> lines.value == Lines(RequiredLineSeq(xs))
  {
    var text := "";
    var i := 0;
    while i < |xs|
      invariant i <= |xs|
      invariant !NameThrowsIn(xs[..i])
      invariant text == Lines(RequiredLineSeq(xs[..i]))
    {
      var shown := Stringify(Some(xs[i]));
      NameThrowsSnoc(xs, i);
      if shown.None? {
        return None;
      }
      var line := "- `" + shown.value + "`\n";
      RequiredLineWritten(xs, i, shown.value);
      text := text + line;
      i := i + 1;
    }
    assert xs[..i] == xs;
    lines := Some(text);
  }

  /** The properties block of generateComponentDocumentation: heading and lines when
      `properties` is truthy, nothing otherwise, a throw at a property it cannot write. */
  method WritePropertiesSection(c: Component) returns (part: Option<string>)
    ensures part.None? <==> PropertiesThrow(c)
    ensures part.Some? ==> part.value == PropertiesPart(c)
  {
    if !Present(c.properties) {
      return Some("");
    }
    var lines := WriteProperties(Entries(c.properties.value));
    if lines.None? {
      return None;
    }
    part := Some(PropertiesHeading + lines.value);
  }

  /** The required block: heading and lines when `required` is truthy with a positive
      length, nothing otherwise, a throw when it is not an array or a name cannot be
      converted to text. */
  method WriteRequiredSection(c: Component) returns (part: Option<string>)
    ensures part.None? <==> RequiredThrows(c)
    ensures part.Some? ==> part.value == RequiredPart(c)
  {
    if !Present(c.required) || RequiredLength(c.required.value) == 0 {
      return Some("");
    }
    if !c.required.value.Arr? {
      return None;
    }
    var lines := WriteRequired(c.required.value.elems);
    if lines.None? {
      return None;
    }
    part := Some(RequiredHeading + lines.value);
  }

  /** generateComponentDocumentation: the text is built up with `+=`, section by section. */
  method RenderDocumentation(c: Component) returns (doc: Option<string>)
    ensures doc == Documentation(c)
  {
    var text := "### " + c.name + "\n\n**Type:** " + c.category + "\n\n";
    var properties := WritePropertiesSection(c);
    if properties.None? {
      return None;
    }
    text := text + properties.value;
    var required := WriteRequiredSection(c);
    if required.None? {
      return None;
    }
    text := text + required.value;
    doc := Some(text);
  }

  /** The line WriteRequired assembles from the converted name is RequiredLine, and it
      extends the lines written so far. */
  lemma RequiredLineWritten(xs: seq<Value>, i: nat, shown: string)
    requires i < |xs| && shown == Display(Some(xs[i]))
    ensures Lines(RequiredLineSeq(xs[..i + 1])) == Lines(RequiredLineSeq(xs[..i])) + ("- `" + shown + "`\n")
  {
    assert RequiredLineSeq(xs[..i + 1]) == RequiredLineSeq(xs[..i]) + [RequiredLine(xs[i])];
    LinesSnoc(RequiredLineSeq(xs[..i]), RequiredLine(xs[i]));
  }

  /** Some line of the first i + 1 entries throws iff some line of the first i does or line
      i does; a throwing line makes the whole sequence throw. */
  lemma LineThrowsSnoc(entries: seq<(string, Value)>, i: nat)
    requires i < |entries|
    ensures LineThrowsIn(entries[..i + 1]) <==> LineThrowsIn(entries[..i]) || PropertyLineThrows(entries[i])
    ensures PropertyLineThrows(entries[i]) ==> LineThrowsIn(entries)
  {
    if LineThrowsIn(entries[..i + 1]) && !PropertyLineThrows(entries[i]) {
      var k :| 0 <= k < i + 1 && PropertyLineThrows(entries[..i + 1][k]);
      assert entries[..i][k] == entries[k];
    }
    if LineThrowsIn(entries[..i]) {
      var k :| 0 <= k < i && PropertyLineThrows(entries[..i][k]);
      assert entries[..i + 1][k] == entries[k];
    }
    assert entries[..i + 1][i] == entries[i];
  }

  /** The same for the required names. */
  lemma NameThrowsSnoc(xs: seq<Value>, i: nat)
    requires i < |xs|
    ensures NameThrowsIn(xs[..i + 1]) <==> NameThrowsIn(xs[..i]) || ShowThrows(xs[i])
    ensures ShowThrows(xs[i]) ==> NameThrowsIn(xs)
  {
    if NameThrowsIn(xs[..i + 1]) && !ShowThrows(xs[i]) {
      var k :| 0 <= k < i + 1 && ShowThrows(xs[..i + 1][k]);
      assert xs[..i][k] == xs[k];
    }
    if NameThrowsIn(xs[..i]) {
      var k :| 0 <= k < i && ShowThrows(xs[..i][k]);
      assert xs[..i + 1][k] == xs[k];
    }
    assert xs[..i + 1][i] == xs[i];
  }

  /** Entries whose lines were all written are not null. */
  lemma NoNullWritten(entries: seq<(string, Value)>, i: nat)
    requires i < |entries| && !LineThrowsIn(entries[..i + 1])
    ensures forall k :: 0 <= k <= i ==> !entries[k].1.Null?
  {
    forall k | 0 <= k <= i
      ensures !entries[k].1.Null?
    {
      assert entries[..i + 1][k] == entries[k];
    }
  }

  lemma PropertyLinesSnoc(entries: seq<(string, Value)>, i: nat)
    requires i < |entries| && forall k :: 0 <= k <= i ==> !entries[k].1.Null?
    ensures Lines(PropertyLineSeq(entries[..i + 1])) == Lines(PropertyLineSeq(entries[..i])) + PropertyLine(entries[i])
  {
    assert PropertyLineSeq(entries[..i + 1]) == PropertyLineSeq(entries[..i]) + [PropertyLine(entries[i])];
    LinesSnoc(PropertyLineSeq(entries[..i]), PropertyLine(entries[i]));
  }

  lemma LinesSnoc(ls: seq<string>, line: string)
    ensures Lines(ls + [line]) == Lines(ls) + line
  {
    assert (ls + [line])[..|ls|] == ls;
  }

  /** `t` occurs in `s` at position `k`. */
  predicate OccursAt(s: string, t: string, k: int) {
    0 <= k && k + |t| <= |s| && s[k..k + |t|] == t
  }

  /** `t` occurs in `s`. */
  ghost predicate Contains(s: string, t: string) {
    exists k :: OccursAt(s, t, k)
  }

  lemma OccursShift(a: string, s: string, b: string, t: string, k: int)
    requires OccursAt(s, t, k)
    ensures OccursAt(a + s + b, t, |a| + k)
  {
    assert (a + s + b)[|a| + k..|a| + k + |t|] == s[k..k + |t|];
  }

  lemma {:induction false} LinesPrefix(ls: seq<string>, n: nat)
    requires n <= |ls|
    ensures Lines(ls[..n]) <= Lines(ls)
    decreases |ls|
  {
    if n < |ls| {
      assert ls[..|ls| - 1][..n] == ls[..n];
      LinesPrefix(ls[..|ls| - 1], n);
    } else {
      assert ls[..n] == ls;
    }
  }

  /** Line `i` follows the lines before it. */
  lemma LineOccurs(ls: seq<string>, i: nat)
    requires i < |ls|
    ensures OccursAt(Lines(ls), ls[i], |Lines(ls[..i])|)
  {
    LinesPrefix(ls, i + 1);
    assert ls[..i + 1][..i] == ls[..i];
    var whole := Lines(ls);
    var upto := Lines(ls[..i + 1]);
    assert upto == Lines(ls[..i]) + ls[i];
    assert whole[|Lines(ls[..i])|..|upto|] == upto[|Lines(ls[..i])|..];
  }

  /** Each of the lines occurs in any text that embeds them. */
  lemma LinesListed(a: string, ls: seq<string>, b: string)
    ensures forall i :: 0 <= i < |ls| ==> Contains(a + Lines(ls) + b, ls[i])
  {
    forall i | 0 <= i < |ls|
      ensures Contains(a + Lines(ls) + b, ls[i])
    {
      LineOccurs(ls, i);
      OccursShift(a, Lines(ls), b, ls[i], |Lines(ls[..i])|);
    }
  }

  /** Every property entry has a line in the rendered documentation. */
  lemma PropertiesListed(c: Component)
    requires Documentation(c).Some? && Present(c.properties)
    ensures forall i :: 0 <= i < |Entries(c.properties.value)| ==>
      !Entries(c.properties.value)[i].1.Null? &&
      Contains(Documentation(c).value, PropertyLine(Entries(c.properties.value)[i]))
  {
    var entries := Entries(c.properties.value);
    assert !LineThrowsIn(entries);
    var ls := PropertyLineSeq(entries);
    var req := RequiredPart(c);
    assert PropertiesPart(c) == PropertiesHeading + Lines(ls);
    var doc := Documentation(c).value;
    assert doc == Header(c) + PropertiesHeading + Lines(ls) + req;
    LinesListed(Header(c) + PropertiesHeading, ls, req);
    forall i | 0 <= i < |entries|
      ensures Contains(doc, PropertyLine(entries[i]))
    {
      assert ls[i] == PropertyLine(entries[i]);
    }
  }

  /** Every required name has a line in the rendered documentation. */
  lemma RequiredNamesListed(c: Component)
    requires Documentation(c).Some? && RequiredListed(c)
    ensures c.required.value.Arr? &&
      forall i :: 0 <= i < |c.required.value.elems| ==> Contains(Documentation(c).value, RequiredLine(c.required.value.elems[i]))
  {
    RequiredSectionLast(c);
    var xs := c.required.value.elems;
    var ls := RequiredLineSeq(xs);
    LinesListed(Header(c) + PropertiesPart(c) + RequiredHeading, ls, "");
    assert forall i :: 0 <= i < |xs| ==> ls[i] == RequiredLine(xs[i]);
  }

  /** With a listed `required`, the documentation ends with its section. */
  lemma RequiredSectionLast(c: Component)
    requires Documentation(c).Some? && RequiredListed(c)
    ensures c.required.value.Arr?
    ensures Documentation(c).value ==
      Header(c) + PropertiesPart(c) + RequiredHeading + Lines(RequiredLineSeq(c.required.value.elems)) + ""
  {
    assert RequiredPart(c) == RequiredHeading + Lines(RequiredLineSeq(c.required.value.elems));
  }

  /** The documentation exists unless rendering throws (a null property, a value whose
      conversion to text throws, a non-array `required`); it opens with the name and type,
      lists every property (name, type and description) and every required name. */
  lemma DocumentationMentions(c: Component)
    ensures Documentation(c).None? <==> DocumentationThrows(c)
    ensures Documentation(c).Some? ==> Header(c) <= Documentation(c).value
    ensures Documentation(c).Some? && Present(c.properties) ==>
      forall i :: 0 <= i < |Entries(c.properties.value)| ==>
        !PropertyLineThrows(Entries(c.properties.value)[i]) &&
        Contains(Documentation(c).value, PropertyLine(Entries(c.properties.value)[i]))
    ensures Documentation(c).Some? && RequiredListed(c) ==>
      c.required.value.Arr? &&
      forall x :: x in c.required.value.elems ==>
        !ShowThrows(x) && Contains(Documentation(c).value, RequiredLine(x))
  {
    if Documentation(c).Some? {
      if Present(c.properties) {
        PropertiesListed(c);
      }
      if RequiredListed(c) {
        RequiredNamesListed(c);
      }
    }
  }

  /** A property whose `type` is an object with its own `toString` member (a number, so not
      callable) cannot be written, nor can a required name that is such an object: `${x}`
      throws a TypeError and the whole documentation with it. */
  lemma OwnToStringThrows()
    ensures Documentation(Component("Pet", "schemas",
      Some(Obj([("id", Obj([("type", Obj([("toString", Num(1))]))]))])), None)).None?
    ensures Documentation(Component("Pet", "schemas",
      None, Some(Arr([Str("id"), Arr([Obj([("toString", Num(1))])])])))).None?
  {
    var bad := Obj([("toString", Num(1))]);
    var entry := ("id", Obj([("type", bad)]));
    assert Get(bad, "toString").Some?;
    assert Get(entry.1, "type") == Some(bad);
    assert PropertyLineThrows(entry);
    assert Entries(Obj([entry])) == [entry];
    var nested := Arr([bad]);
    assert JoinThrows(nested, 1);
    assert ShowThrows(nested);
    var names := [Str("id"), nested];
    assert RequiredLength(Arr(names)) > 0;
    assert ShowThrows(names[1]);
  }

  // ---------------------------------------------------------------------------
  // getHoverInfo and getComponentCompletions

  /** The index of the first component called `name` (`Array.prototype.find`). */
  function FirstNamed(cs: seq<Component>, name: string): (r: Option<nat>)
    ensures r.Some? ==> r.value < |cs| && cs[r.value].name == name &&
                        forall j :: 0 <= j < r.value ==> cs[j].name != name
    ensures r.None? <==> forall j :: 0 <= j < |cs| ==> cs[j].name != name
  {
    if cs == [] then None
    else if cs[0].name == name then Some(0)
    else
      match FirstNamed(cs[1..], name)
      case None => None
      case Some(i) => Some(i + 1)
  }

  /** The parse result both handlers start from holds a truthy document they can use. */
  predicate Usable(result: ParserResult) {
    result.isValid && result.document.Some? && Truthy(result.document.value)
  }

  /** What the hover handler answers; `None` stands for `null`, whether returned or
      produced by the catch. */
  function HoverText(text: string, dec: Decoders, offset: int): Option<string> {
    var result := ParseOutcome(text, dec);
    if !Usable(result) then None
    else
      match WordRange(text, offset)
      case None => None
      case Some((s, e)) =>
        var doc := result.document.value;
        if !ComponentsReadable(doc) then None
        else
          var cs := Components(doc);
          match FirstNamed(cs, text[s..e])
          case None => None
          case Some(i) => Documentation(cs[i])
  }

  /** getHoverInfo: parse the text, take the word under the cursor, and document the first
      component of that name. */
  method Hover(text: string, dec: Decoders, offset: int) returns (h: Option<string>)
    ensures h == HoverText(text, dec, offset)
  {
    var result := ParseOutcome(text, dec);
    if !result.isValid || result.document.None? || !Truthy(result.document.value) {
      return None;
    }
    var range := WordRangeAt(text, offset);
    if range.None? {
      return None;
    }
    var word := text[range.value.0..range.value.1];
    var doc := result.document.value;
    if !ComponentsReadable(doc) {
      return None;
    }
    var components := GetComponents(doc);
    var found := FirstNamed(components, word);
    if found.None? {
      return None;
    }
    h := RenderDocumentation(components[found.value]);
  }

  /** CompletionItemKind.Class */
  const ClassKind := 7

  datatype CompletionItem = CompletionItem(itemLabel: string, kind: int, detail: string, documentation: string)

  /** The item offered for one component. */
  function ItemOf(c: Component): CompletionItem
    requires !DocumentationThrows(c)
  {
    CompletionItem(c.name, ClassKind, c.category + " component", Documentation(c).value)
  }

  /** getComponentCompletions: one item per component, or none at all when the parse is
      not usable or anything throws (reading the components, or documenting any one). */
  function Completions(text: string, dec: Decoders): (items: seq<CompletionItem>)
    ensures !Usable(ParseOutcome(text, dec)) ==> items == []
    ensures forall i :: 0 <= i < |items| ==> items[i].kind == ClassKind
    ensures var result := ParseOutcome(text, dec);
      Usable(result) && !ComponentsReadable(result.document.value) ==> items == []
    ensures var result := ParseOutcome(text, dec);
      Usable(result) && ComponentsReadable(result.document.value) ==>
        var cs := Components(result.document.value);
        && ((exists c :: c in cs && DocumentationThrows(c)) ==> items == [])
        && ((forall c :: c in cs ==> !DocumentationThrows(c)) ==>
              && |items| == |cs|
              && forall i :: 0 <= i < |cs| ==>
                   && items[i].itemLabel == cs[i].name
                   && items[i].detail == cs[i].category + " component"
                   && Some(items[i].documentation) == Documentation(cs[i]))
  {
    var result := ParseOutcome(text, dec);
    if !Usable(result) || !ComponentsReadable(result.document.value) then []
    else
      var cs := Components(result.document.value);
      if exists c :: c in cs && DocumentationThrows(c) then []
      else seq(|cs|, i requires 0 <= i < |cs| => ItemOf(cs[i]))
  }

  /** Hover and completion agree: while completion offers items, hovering a word answers
      exactly when an item carries that label, with the documentation of the first one. */
  lemma HoverMatchesCompletion(text: string, dec: Decoders, offset: int)
    requires Completions(text, dec) != []
    requires WordRange(text, offset).Some?
    ensures var (s, e) := WordRange(text, offset).value;
      var items := Completions(text, dec);
      && (HoverText(text, dec, offset).Some? <==> exists i :: 0 <= i < |items| && items[i].itemLabel == text[s..e])
      && (HoverText(text, dec, offset).Some? ==>
            exists i :: 0 <= i < |items| && items[i].itemLabel == text[s..e]
                        && items[i].documentation == HoverText(text, dec, offset).value
                        && forall j :: 0 <= j < i ==> items[j].itemLabel != text[s..e])
  {
    var (s, e) := WordRange(text, offset).value;
    var word := text[s..e];
    var result := ParseOutcome(text, dec);
    var doc := result.document.value;
    assert Usable(result) && ComponentsReadable(doc);
    var cs := Components(doc);
    var items := Completions(text, dec);
    assert |items| == |cs| && forall i :: 0 <= i < |cs| ==> items[i] == ItemOf(cs[i]);
    assert HoverText(text, dec, offset) ==
      match FirstNamed(cs, word)
      case None => None
      case Some(i) => Documentation(cs[i]);
    match FirstNamed(cs, word)
    case None =>
      assert forall i :: 0 <= i < |items| ==> items[i].itemLabel != word by {
        forall i | 0 <= i < |items| ensures items[i].itemLabel != word {
          assert items[i].itemLabel == cs[i].name;
        }
      }
    case Some(i) =>
      assert items[i].itemLabel == word && items[i].documentation == Documentation(cs[i]).value;
      assert forall j :: 0 <= j < i ==> items[j].itemLabel != word by {
        forall j | 0 <= j < i ensures items[j].itemLabel != word {
          assert items[j].itemLabel == cs[j].name;
        }
      }
  }
}
