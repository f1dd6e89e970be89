/** The JSON schema validator: a recursive walk with a strict and a lenient mode. */
module SchemaWalk {
  import opened Wrappers

  // ---------------------------------------------------------------------
  // JSON
  // ---------------------------------------------------------------------

  /** Object members are in key order, as the JSON map iterates them. A number remembers whether it is
      an integer. */
  datatype Json =
    | Null
    | Bool(b: bool)
    | Num(value: real, integer: bool)
    | Str(s: string)
    | Arr(items: seq<Json>)
    | Obj(members: seq<Member>)

  datatype Member = Member(key: string, value: Json)

  function Size(j: Json): (n: nat)
    ensures n > 0
    decreases j
  {
    match j
    case Arr(items) => 1 + SizeAll(items)
    case Obj(members) => 1 + SizeMembers(members)
    case _ => 1
  }

  function SizeAll(items: seq<Json>): nat
    decreases items
  {
    if items == [] then 0 else Size(items[0]) + SizeAll(items[1..])
  }

  function SizeMember(m: Member): (n: nat)
    ensures n > 0
    decreases m
  {
    Size(m.value)
  }

  function SizeMembers(members: seq<Member>): nat
    decreases members
  {
    if members == [] then 0 else SizeMember(members[0]) + SizeMembers(members[1..])
  }

  lemma {:induction false} MemberSmaller(members: seq<Member>, i: nat)
    requires i < |members|
    ensures SizeMember(members[i]) <= SizeMembers(members)
    decreases i
  {
    if i > 0 {
      MemberSmaller(members[1..], i - 1);
    }
  }

  lemma {:induction false} BranchSmaller(branches: seq<Json>, i: nat)
    requires i < |branches|
    ensures Size(branches[i]) <= SizeAll(branches)
    decreases i
  {
    if i > 0 {
      BranchSmaller(branches[1..], i - 1);
    }
  }

  function Get(members: seq<Member>, key: string): (r: Option<Json>)
    ensures r.Some? ==> Size(r.value) <= SizeMembers(members)
    ensures r.Some? <==> exists i | 0 <= i < |members| :: members[i].key == key
  {
    if members == [] then None
    else if members[0].key == key then Some(members[0].value)
    else
      assert forall i | 0 < i < |members| :: members[i] == members[1..][i - 1];
      Get(members[1..], key)
  }

  function GetArr(members: seq<Member>, key: string): (r: Option<seq<Json>>)
    ensures r.Some? ==> SizeAll(r.value) < SizeMembers(members)
  {
    var j := Get(members, key);
    if j.Some? && j.value.Arr? then Some(j.value.items) else None
  }

  function GetObj(members: seq<Member>, key: string): (r: Option<seq<Member>>)
    ensures r.Some? ==> SizeMembers(r.value) < SizeMembers(members)
  {
    var j := Get(members, key);
    if j.Some? && j.value.Obj? then Some(j.value.members) else None
  }

  function GetStr(members: seq<Member>, key: string): Option<string> {
    var j := Get(members, key);
    if j.Some? && j.value.Str? then Some(j.value.s) else None
  }

  function GetNat(members: seq<Member>, key: string): Option<nat> {
    var j := Get(members, key);
    if j.Some? && j.value.Num? && j.value.integer then Natural(j.value.value) else None
  }

  function Natural(x: real): Option<nat> {
    if x >= 0.0 && x.Floor as real == x then Some(x.Floor) else None
  }

  function GetNum(members: seq<Member>, key: string): Option<real> {
    var j := Get(members, key);
    if j.Some? && j.value.Num? then Some(j.value.value) else None
  }

  // ---------------------------------------------------------------------
  // Issues
  // ---------------------------------------------------------------------

  datatype Issue = Issue(path: string, code: string)

  datatype Mode = Strict | Lenient

  /** The document `$ref` looks into, the loader of other documents, and the pattern matcher. */
  datatype Ctx = Ctx(root: Json, load: string -> Option<Json>, matches: (string, string) -> bool, mode: Mode)

  function Escape(segment: string): string {
    if segment == "" then ""
    else (if segment[0] == '~' then "~0" else if segment[0] == '/' then "~1" else [segment[0]]) + Escape(segment[1..])
  }

  function JoinPath(base: string, segment: string): string {
    base + "/" + Escape(segment)
  }

  function When(broken: bool, path: string, code: string): seq<Issue> {
    if broken then [Issue(path, code)] else []
  }

  // ---------------------------------------------------------------------
  // Checks that look at one value only
  // ---------------------------------------------------------------------

  predicate HasType(v: Json, ty: string) {
    match ty
    case "null" => v.Null?
    case "boolean" => v.Bool?
    case "string" => v.Str?
    case "array" => v.Arr?
    case "object" => v.Obj?
    case "number" => v.Num?
    case "integer" => v.Num? && (v.integer || v.value.Floor as real == v.value)
    case _ => true
  }

  /** The types a `type` keyword allows; none if it has another form. */
  function Allowed(ty: Json): Option<seq<string>> {
    match ty
    case Str(s) => Some([s])
    case Arr(items) => Some(Strings(items))
    case _ => None
  }

  function Strings(items: seq<Json>): seq<string> {
    if items == [] then [] else (if items[0].Str? then [items[0].s] else []) + Strings(items[1..])
  }

  predicate WrongType(schema: seq<Member>, v: Json) {
    var ty := Get(schema, "type");
    ty.Some? && Allowed(ty.value).Some? && forall t | t in Allowed(ty.value).value :: !HasType(v, t)
  }

  predicate OutOf(low: Option<nat>, n: nat) {
    low.Some? && n < low.value
  }

  predicate Over(high: Option<nat>, n: nat) {
    high.Some? && n > high.value
  }

  predicate HasDuplicates(items: seq<Json>) {
    exists i, j | 0 <= i < j < |items| :: items[i] == items[j]
  }

  /** Every keyword that neither recurses nor depends on the mode, in the order they are checked. */
  function Leaf(c: Ctx, schema: seq<Member>, v: Json, path: string): seq<Issue> {
    var expected, choices := Get(schema, "const"), GetArr(schema, "enum");
    When(WrongType(schema, v), path, "type_mismatch")
    + When(expected.Some? && expected.value != v, path, "const_mismatch")
    + When(choices.Some? && v !in choices.value, path, "enum_mismatch")
    + Numeric(schema, v, path) + Text(c, schema, v, path) + Elements(schema, v, path)
  }

  function Numeric(schema: seq<Member>, v: Json, path: string): seq<Issue> {
    if !v.Num? then []
    else
      var low, high := GetNum(schema, "minimum"), GetNum(schema, "maximum");
      When(low.Some? && v.value < low.value, path, "below_minimum")
      + When(high.Some? && v.value > high.value, path, "above_maximum")
  }

  function Text(c: Ctx, schema: seq<Member>, v: Json, path: string): seq<Issue> {
    if !v.Str? then []
    else
      var pattern := GetStr(schema, "pattern");
      When(OutOf(GetNat(schema, "minLength"), |v.s|), path, "below_min_length")
      + When(Over(GetNat(schema, "maxLength"), |v.s|), path, "above_max_length")
      + When(pattern.Some? && !c.matches(pattern.value, v.s), path, "pattern_mismatch")
  }

  function Elements(schema: seq<Member>, v: Json, path: string): seq<Issue> {
    if !v.Arr? then []
    else
      When(OutOf(GetNat(schema, "minItems"), |v.items|), path, "below_min_items")
      + When(Over(GetNat(schema, "maxItems"), |v.items|), path, "above_max_items")
      + When(Get(schema, "uniqueItems") == Some(Bool(true)) && HasDuplicates(v.items), path, "duplicate_items")
  }

  /** What only the strict mode reports about an object: missing and unexpected properties. */
  function Missing(required: seq<Json>, v: seq<Member>, path: string): seq<Issue> {
    if required == [] then [] else MissingOne(required[0], v, path) + Missing(required[1..], v, path)
  }

  function MissingOne(name: Json, v: seq<Member>, path: string): seq<Issue> {
    if name.Str? then When(Get(v, name.s).None?, JoinPath(path, name.s), "missing_required") else []
  }

  function Unexpected(known: seq<Member>, v: seq<Member>, path: string): seq<Issue> {
    if v == [] then []
    else
      When(Get(known, v[0].key).None?, JoinPath(path, v[0].key), "additional_property")
      + Unexpected(known, v[1..], path)
  }

  // ---------------------------------------------------------------------
  // The walk: none when the fuel for `$ref` runs out
  // ---------------------------------------------------------------------

  type Found = Option<seq<Issue>>

  function Then(a: Found, b: Found): (r: Found)
    ensures r.Some? <==> a.Some? && b.Some?
  {
    if a.Some? && b.Some? then Some(a.value + b.value) else None
  }

  predicate StartsWith(s: string, prefix: string): (r: bool)
    ensures r ==> |prefix| <= |s|
  {
    prefix == [] || (s != [] && s[0] == prefix[0] && StartsWith(s[1..], prefix[1..]))
  }

  /** The schema a reference names, and the document it belongs to. */
  function Resolve(c: Ctx, reference: string): Option<(Json, Json)> {
    if StartsWith(reference, "#/$defs/") then InRoot(c, "$defs", reference[8..])
    else if StartsWith(reference, "#/definitions/") then InRoot(c, "definitions", reference[14..])
    else if reference == "#" then Some((c.root, c.root))
    else if StartsWith(reference, "http://") || StartsWith(reference, "https://") then None
    else
      var loaded := c.load(reference);
      if loaded.Some? then Some((loaded.value, loaded.value)) else None
  }

  function InRoot(c: Ctx, section: string, name: string): Option<(Json, Json)> {
    if !c.root.Obj? then None
    else
      var defs := GetObj(c.root.members, section);
      if defs.None? || Get(defs.value, name).None? then None else Some((Get(defs.value, name).value, c.root))
  }

  function Node(c: Ctx, schema: Json, v: Json, path: string, fuel: nat): Found
    decreases fuel, Size(schema), 3
  {
    match schema
    case Bool(b) => Some(When(!b, path, "schema_false"))
    case Obj(members) =>
      var reference := GetStr(members, "$ref");
      if reference.None? then Keywords(c, members, v, path, fuel)
      else if fuel == 0 then None
      else
        var target := Resolve(c, reference.value);
        if target.None? then Some([Issue(path, "unresolved_ref")])
        else Node(c.(root := target.value.1), target.value.0, v, path, fuel - 1)
    case _ => Some([])
  }

  function Keywords(c: Ctx, members: seq<Member>, v: Json, path: string, fuel: nat): Found
    decreases fuel, 1 + SizeMembers(members), 2
  {
    var one, any := GetArr(members, "oneOf"), GetArr(members, "anyOf");
    Then(Then(Then(Then(
      Some(Leaf(c, members, v, path)),
      if v.Obj? then Object(c, members, v.members, path, fuel) else Some([])),
      if v.Arr? then Items(c, members, v.items, path, fuel) else Some([])),
      if one.Some? then Combinator(c, one.value, v, path, fuel) else Some([])),
      if any.Some? then Combinator(c, any.value, v, path, fuel) else Some([]))
  }

  function Object(c: Ctx, members: seq<Member>, v: seq<Member>, path: string, fuel: nat): Found
    decreases fuel, 1 + SizeMembers(members), 1
  {
    var props, extra := GetObj(members, "properties"), Get(members, "additionalProperties");
    var known := if props.Some? then props.value else [];
    Then(Then(
      Some(StrictOnly(c, members, known, v, path, false)),
      Properties(c, known, v, path, fuel)),
      if extra.Some? && !extra.value.Bool? then Additional(c, extra.value, known, v, path, fuel)
      else Some(StrictOnly(c, members, known, v, path, true)))
  }

  /** Before the properties, the missing ones; after them, the unexpected ones. */
  function StrictOnly(c: Ctx, members: seq<Member>, known: seq<Member>, v: seq<Member>, path: string, after: bool): seq<Issue> {
    if c.mode == Lenient then []
    else if after then
      (if Get(members, "additionalProperties") == Some(Bool(false)) then Unexpected(known, v, path) else [])
    else
      var required := GetArr(members, "required");
      if required.Some? then Missing(required.value, v, path) else []
  }

  function Properties(c: Ctx, props: seq<Member>, v: seq<Member>, path: string, fuel: nat): Found
    decreases fuel, SizeMembers(props), 5
  {
    if props == [] then Some([])
    else
      var value := Get(v, props[0].key);
      var rest := Properties(c, props[1..], v, path, fuel);
      if value.None? then rest
      else Then(Property(c, props[0], value.value, path, fuel), rest)
  }

  function Property(c: Ctx, prop: Member, value: Json, path: string, fuel: nat): Found
    decreases fuel, SizeMember(prop), 4
  {
    Node(c, prop.value, value, JoinPath(path, prop.key), fuel)
  }

  function Additional(c: Ctx, sub: Json, known: seq<Member>, v: seq<Member>, path: string, fuel: nat): Found
    decreases fuel, Size(sub), 4, |v|
  {
    if v == [] then Some([])
    else
      var rest := Additional(c, sub, known, v[1..], path, fuel);
      if Get(known, v[0].key).Some? then rest
      else Then(Node(c, sub, v[0].value, JoinPath(path, v[0].key), fuel), rest)
  }

  function Items(c: Ctx, members: seq<Member>, v: seq<Json>, path: string, fuel: nat): Found
    decreases fuel, 1 + SizeMembers(members), 1
  {
    var sub := Get(members, "items");
    if sub.None? then Some([]) else EachItem(c, sub.value, v, 0, path, fuel)
  }

  function EachItem(c: Ctx, sub: Json, v: seq<Json>, from: nat, path: string, fuel: nat): Found
    decreases fuel, Size(sub), 4, |v| - from
  {
    if from >= |v| then Some([])
    else Then(Node(c, sub, v[from], JoinPath(path, Decimal(from)), fuel), EachItem(c, sub, v, from + 1, path, fuel))
  }

  /** `oneOf` and `anyOf` alike: the first branch without issues settles it. */
  function Combinator(c: Ctx, branches: seq<Json>, v: Json, path: string, fuel: nat): Found
    decreases fuel, SizeAll(branches), 5
  {
    if branches == [] then Some([])
    else
      var passes := Passes(c, branches, v, path, fuel);
      if passes.None? then None else Some(When(!passes.value, path, "combinator_mismatch"))
  }

  /** Some branch has no issues; branches behind it are not looked at. */
  function Passes(c: Ctx, branches: seq<Json>, v: Json, path: string, fuel: nat): Option<bool>
    decreases fuel, SizeAll(branches), 4
  {
    if branches == [] then Some(false)
    else
      var first := Node(c, branches[0], v, path, fuel);
      if first.None? then None
      else if first.value == [] then Some(true)
      else Passes(c, branches[1..], v, path, fuel)
  }
}
