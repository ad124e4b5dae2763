/**
 * The decoded document as both parsers see it: the value that `JSON.parse` or the YAML
 * decoder returns, together with the few pieces of JavaScript semantics the parsers rely on
 * (truthiness, property reads, `Object.entries`, `Object.values`, string conversion).
 */
module JsonValue {
  import opened Wrappers

  /** A decoded value. Object members keep the order in which the decoder produced them;
      `undefined` never occurs inside a decoded value and is `None` where a read may yield it. */
  datatype Value =
    | Null
    | Bool(b: bool)
    | Num(n: int)
    | Str(s: string)
    | Arr(elems: seq<Value>)
    | Obj(members: seq<(string, Value)>)

  /** What a decoder returns: the value, or the message of the exception it throws. */
  datatype Decoded = Decoded(value: Value) | DecodeError(message: string)

  /** The two text decoders (`JSON.parse` and the YAML library's `parse`), which the model
      receives as parameters. */
  datatype TextDecoders = TextDecoders(json: string -> Decoded, yaml: string -> Decoded)

  /** JavaScript truthiness: `if (v)`, `!v`, `v || d`. */
  predicate Truthy(v: Value) {
    match v
    case Null => false
    case Bool(b) => b
    case Num(n) => n != 0
    case Str(s) => s != ""
    case Arr(_) => true
    case Obj(_) => true
  }

  /** Truthiness of a read that may give `undefined`. */
  predicate Present(o: Option<Value>) {
    o.Some? && Truthy(o.value)
  }

  /** `o || fallback` */
  function Or(o: Option<Value>, fallback: Value): Value {
    if Present(o) then o.value else fallback
  }

  /** `typeof v === 'object' && v !== null`: objects and arrays. */
  predicate IsObject(v: Value) {
    v.Obj? || v.Arr?
  }

  /** The value of the first member named `key`. */
  function Lookup(members: seq<(string, Value)>, key: string): (r: Option<Value>)
    ensures r.Some? <==> exists i :: 0 <= i < |members| && members[i].0 == key
    ensures r.Some? ==> exists i :: 0 <= i < |members| && members[i] == (key, r.value)
  {
    if members == [] then None
    else if members[0].0 == key then Some(members[0].1)
    else
      var r := Lookup(members[1..], key);
      assert r.Some? ==> exists i :: 0 <= i < |members| - 1 && members[1..][i] == (key, r.value);
      r
  }

  /** `v[key]` on a value that is not null: an object's own member, `undefined` otherwise. */
  function Get(v: Value, key: string): Option<Value> {
    match v
    case Obj(members) => Lookup(members, key)
    case _ => None
  }

  /** Optional chaining `o?.[key]`: `undefined` when `o` is `undefined` or `null`. */
  function Path(o: Option<Value>, key: string): Option<Value> {
    if o.Some? then Get(o.value, key) else None
  }

  /** The digits of a non-negative integer, as `String(n)` writes them. */
  function NatToString(n: nat): (r: string)
    ensures |r| >= 1
    ensures forall i :: 0 <= i < |r| ==> '0' <= r[i] <= '9'
    decreases n
  {
    if n < 10 then ["0123456789"[n]]
    else NatToString(n / 10) + ["0123456789"[n % 10]]
  }

  /** The number a string of decimal digits denotes. */
  function DigitsValue(s: string): nat
    requires forall i :: 0 <= i < |s| ==> '0' <= s[i] <= '9'
  {
    if s == [] then 0
    else DigitsValue(s[..|s| - 1]) * 10 + (s[|s| - 1] as int - '0' as int)
  }

  /** Reading back the digits gives the number, so distinct indices give distinct keys. */
  lemma {:induction false} NatToStringRoundTrip(n: nat)
    ensures DigitsValue(NatToString(n)) == n
    decreases n
  {
    if n >= 10 {
      NatToStringRoundTrip(n / 10);
      var s := NatToString(n);
      assert s[..|s| - 1] == NatToString(n / 10);
    }
  }

  /** The index keys `Object.entries` gives an array or a string are pairwise distinct. */
  lemma IndexKeysDistinct(v: Value, i: nat, j: nat)
    requires v.Arr? || v.Str?
    requires i < j < |Entries(v)|
    ensures Entries(v)[i].0 != Entries(v)[j].0
  {
    NatToStringRoundTrip(i);
    NatToStringRoundTrip(j);
  }

  /** `String(i)` for an integer number. */
  function IntToString(i: int): string {
    if i < 0 then "-" + NatToString(-i) else NatToString(i)
  }

  /** `Object.entries(v)` for every value but `null` (where JavaScript throws, and which
      callers exclude): an object's members, an array's or a string's elements under their
      index, nothing for a number or a boolean. */
  function Entries(v: Value): (r: seq<(string, Value)>)
    ensures v.Obj? ==> r == v.members
    ensures v.Arr? ==> |r| == |v.elems| && forall i :: 0 <= i < |r| ==> r[i] == (NatToString(i), v.elems[i])
    ensures v.Str? ==> |r| == |v.s| && forall i :: 0 <= i < |r| ==> r[i] == (NatToString(i), Str([v.s[i]]))
    ensures v.Null? || v.Bool? || v.Num? ==> r == []
  {
    match v
    case Obj(members) => members
    case Arr(elems) => seq(|elems|, i requires 0 <= i < |elems| => (NatToString(i), elems[i]))
    case Str(s) => seq(|s|, i requires 0 <= i < |s| => (NatToString(i), Str([s[i]])))
    case _ => []
  }

  /** How many values `Object.values(v)` yields for an object or an array. */
  function ChildCount(v: Value): nat {
    match v
    case Obj(members) => |members|
    case Arr(elems) => |elems|
    case _ => 0
  }

  /** The `i`-th of `Object.values(v)` for an object or an array. */
  function ChildAt(v: Value, i: nat): (c: Value)
    requires i < ChildCount(v)
    ensures c < v
  {
    match v
    case Obj(members) => assert members[i] in members; members[i].1
    case Arr(elems) => elems[i]
  }

  /** Converting `v` to text throws a TypeError: an object with its own `toString` member
      (a decoded value is never callable, so that member cannot convert it, and the inherited
      `valueOf` gives back the object itself), or an array one of whose elements throws
      (`join` converts each element that is not null). */
  predicate ShowThrows(v: Value)
    decreases v, 1
  {
    match v
    case Obj(_) => Get(v, "toString").Some?
    case Arr(elems) => JoinThrows(v, |elems|)
    case _ => false
  }

  /** Converting one of the first `i` elements of an array throws. */
  predicate JoinThrows(v: Value, i: nat)
    requires v.Arr? && i <= |v.elems|
    decreases v, 0, i
  {
    i > 0 && (JoinThrows(v, i - 1) || ShowThrows(v.elems[i - 1]))
  }

  /** An array's conversion throws iff one of its elements' does. */
  lemma {:induction false} JoinThrowsMembers(v: Value, i: nat)
    requires v.Arr? && i <= |v.elems|
    ensures JoinThrows(v, i) <==> exists k :: 0 <= k < i && ShowThrows(v.elems[k])
  {
    if i > 0 {
      JoinThrowsMembers(v, i - 1);
    }
  }

  /** `${x}` on a read that may give `undefined`, or `None` when the conversion throws. */
  function Stringify(o: Option<Value>): (r: Option<string>)
    ensures r.None? <==> o.Some? && ShowThrows(o.value)
    ensures r.Some? ==> r.value == Display(o)
  {
    if o.Some? && ShowThrows(o.value) then None else Some(Display(o))
  }

  /** `String(x)` and template-literal conversion `${x}`, when it does not throw. */
  function Display(o: Option<Value>): string {
    match o
    case None => "undefined"
    case Some(v) => Show(v)
  }

  function Show(v: Value): string
    decreases v, 1
  {
    match v
    case Null => "null"
    case Bool(b) => if b then "true" else "false"
    case Num(n) => IntToString(n)
    case Str(s) => s
    case Arr(elems) => Joined(v, |elems|)
    case Obj(_) => "[object Object]"
  }

  /** `elems.slice(0, i).join(",")`, where `null` elements print as nothing. */
  function Joined(v: Value, i: nat): string
    requires v.Arr? && i <= |v.elems|
    decreases v, 0, i
  {
    if i == 0 then ""
    else
      var e := v.elems[i - 1];
      var shown := if e.Null? then "" else Show(e);
      if i == 1 then shown else Joined(v, i - 1) + "," + shown
  }
}
