/** How the two modes of the schema validator relate, and what its combinators mean. */
module SchemaModes {
  import opened Wrappers
  import opened SchemaWalk

  // ---------------------------------------------------------------------
  // Subsequences
  // ---------------------------------------------------------------------

  /** `a` is `b` with some issues left out. */
  predicate Within(a: seq<Issue>, b: seq<Issue>) {
    if a == [] then true
    else b != [] && ((a[0] == b[0] && Within(a[1..], b[1..])) || Within(a, b[1..]))
  }

  lemma {:induction false} WithinSelf(a: seq<Issue>)
    ensures Within(a, a)
  {
    if a != [] {
      WithinSelf(a[1..]);
    }
  }

  lemma {:induction false} WithinJoin(a: seq<Issue>, b: seq<Issue>, x: seq<Issue>, y: seq<Issue>)
    requires Within(a, b) && Within(x, y)
    ensures Within(a + x, b + y)
    decreases |b|
  {
    if b == [] {
      assert a + x == x && b + y == y;
    } else {
      assert (b + y)[1..] == b[1..] + y;
      if a == [] {
        WithinJoin(a, b[1..], x, y);
      } else if Within(a, b[1..]) {
        WithinJoin(a, b[1..], x, y);
      } else {
        assert (a + x)[1..] == a[1..] + x;
        WithinJoin(a[1..], b[1..], x, y);
      }
    }
  }

  /** When the strict walk ends, so does the lenient one, and it reports no more. */
  ghost predicate Covers(strict: Found, lenient: Found) {
    strict.Some? ==> lenient.Some? && Within(lenient.value, strict.value)
  }

  lemma CoversThen(s: Found, l: Found, t: Found, m: Found)
    requires Covers(s, l) && Covers(t, m)
    ensures Covers(Then(s, t), Then(l, m))
  {
    if s.Some? && t.Some? {
      WithinJoin(l.value, s.value, m.value, t.value);
    }
  }

  lemma CoversSelf(f: Found)
    ensures Covers(f, f)
  {
    if f.Some? {
      WithinSelf(f.value);
    }
  }

  // ---------------------------------------------------------------------
  // The lenient walk inside the strict one
  // ---------------------------------------------------------------------

  function AsLenient(c: Ctx): Ctx {
    c.(mode := Lenient)
  }

  /** For every schema and every value, whatever the nesting of properties, items, references and
      combinators: the lenient issues are the strict issues with some left out. */
  lemma {:induction false} LenientWithinStrict(c: Ctx, schema: Json, v: Json, path: string, fuel: nat)
    requires c.mode == Strict
    ensures Covers(Node(c, schema, v, path, fuel), Node(AsLenient(c), schema, v, path, fuel))
    decreases fuel, Size(schema), 3
  {
    match schema
    case Obj(members) =>
      var reference := GetStr(members, "$ref");
      if reference.None? {
        KeywordsCovered(c, members, v, path, fuel);
      } else if fuel > 0 {
        var target := Resolve(c, reference.value);
        assert Resolve(AsLenient(c), reference.value) == target;
        if target.Some? {
          assert AsLenient(c).(root := target.value.1) == AsLenient(c.(root := target.value.1));
          LenientWithinStrict(c.(root := target.value.1), target.value.0, v, path, fuel - 1);
        } else {
          CoversSelf(Node(c, schema, v, path, fuel));
        }
      }
    case _ => CoversSelf(Node(c, schema, v, path, fuel));
  }

  lemma {:induction false} KeywordsCovered(c: Ctx, members: seq<Member>, v: Json, path: string, fuel: nat)
    requires c.mode == Strict
    ensures Covers(Keywords(c, members, v, path, fuel), Keywords(AsLenient(c), members, v, path, fuel))
    decreases fuel, 1 + SizeMembers(members), 2
  {
    var d := AsLenient(c);
    var one, any := GetArr(members, "oneOf"), GetArr(members, "anyOf");
    var leaf := Some(Leaf(c, members, v, path));
    assert Leaf(d, members, v, path) == Leaf(c, members, v, path);
    var none: Found := Some([]);
    CoversSelf(leaf);
    CoversSelf(none);
    if v.Obj? {
      ObjectCovered(c, members, v.members, path, fuel);
    }
    if v.Arr? {
      ItemsCovered(c, members, v.items, path, fuel);
    }
    if one.Some? {
      CombinatorCovered(c, one.value, v, path, fuel);
    }
    if any.Some? {
      CombinatorCovered(c, any.value, v, path, fuel);
    }
    var s1 := if v.Obj? then Object(c, members, v.members, path, fuel) else none;
    var l1 := if v.Obj? then Object(d, members, v.members, path, fuel) else none;
    var s2 := if v.Arr? then Items(c, members, v.items, path, fuel) else none;
    var l2 := if v.Arr? then Items(d, members, v.items, path, fuel) else none;
    var s3 := if one.Some? then Combinator(c, one.value, v, path, fuel) else none;
    var l3 := if one.Some? then Combinator(d, one.value, v, path, fuel) else none;
    var s4 := if any.Some? then Combinator(c, any.value, v, path, fuel) else none;
    var l4 := if any.Some? then Combinator(d, any.value, v, path, fuel) else none;
    CoversThen(leaf, leaf, s1, l1);
    CoversThen(Then(leaf, s1), Then(leaf, l1), s2, l2);
    CoversThen(Then(Then(leaf, s1), s2), Then(Then(leaf, l1), l2), s3, l3);
    CoversThen(Then(Then(Then(leaf, s1), s2), s3), Then(Then(Then(leaf, l1), l2), l3), s4, l4);
  }

  lemma {:induction false} ObjectCovered(c: Ctx, members: seq<Member>, v: seq<Member>, path: string, fuel: nat)
    requires c.mode == Strict
    ensures Covers(Object(c, members, v, path, fuel), Object(AsLenient(c), members, v, path, fuel))
    decreases fuel, 1 + SizeMembers(members), 1
  {
    var d := AsLenient(c);
    var props, extra := GetObj(members, "properties"), Get(members, "additionalProperties");
    var known := if props.Some? then props.value else [];
    var s0, l0: Found := Some(StrictOnly(c, members, known, v, path, false)), Some([]);
    var s1, l1 := Properties(c, known, v, path, fuel), Properties(d, known, v, path, fuel);
    PropertiesCovered(c, known, v, path, fuel);
    CoversThen(s0, l0, s1, l1);
    if extra.Some? && !extra.value.Bool? {
      AdditionalCovered(c, extra.value, known, v, path, fuel);
      CoversThen(Then(s0, s1), Then(l0, l1), Additional(c, extra.value, known, v, path, fuel),
                 Additional(d, extra.value, known, v, path, fuel));
    } else {
      CoversThen(Then(s0, s1), Then(l0, l1), Some(StrictOnly(c, members, known, v, path, true)), Some([]));
    }
  }

  lemma {:induction false} PropertiesCovered(c: Ctx, props: seq<Member>, v: seq<Member>, path: string, fuel: nat)
    requires c.mode == Strict
    ensures Covers(Properties(c, props, v, path, fuel), Properties(AsLenient(c), props, v, path, fuel))
    decreases fuel, SizeMembers(props), 5
  {
    if props != [] {
      var value := Get(v, props[0].key);
      PropertiesCovered(c, props[1..], v, path, fuel);
      if value.Some? {
        PropertyCovered(c, props[0], value.value, path, fuel);
        CoversThen(Property(c, props[0], value.value, path, fuel), Property(AsLenient(c), props[0], value.value, path, fuel),
                   Properties(c, props[1..], v, path, fuel), Properties(AsLenient(c), props[1..], v, path, fuel));
      }
    }
  }

  lemma {:induction false} PropertyCovered(c: Ctx, prop: Member, value: Json, path: string, fuel: nat)
    requires c.mode == Strict
    ensures Covers(Property(c, prop, value, path, fuel), Property(AsLenient(c), prop, value, path, fuel))
    decreases fuel, SizeMember(prop), 4
  {
    LenientWithinStrict(c, prop.value, value, JoinPath(path, prop.key), fuel);
  }

  lemma {:induction false} AdditionalCovered(c: Ctx, sub: Json, known: seq<Member>, v: seq<Member>, path: string, fuel: nat)
    requires c.mode == Strict
    ensures Covers(Additional(c, sub, known, v, path, fuel), Additional(AsLenient(c), sub, known, v, path, fuel))
    decreases fuel, Size(sub), 4, |v|
  {
    if v != [] {
      var at := JoinPath(path, v[0].key);
      AdditionalCovered(c, sub, known, v[1..], path, fuel);
      if Get(known, v[0].key).None? {
        LenientWithinStrict(c, sub, v[0].value, at, fuel);
        CoversThen(Node(c, sub, v[0].value, at, fuel), Node(AsLenient(c), sub, v[0].value, at, fuel),
                   Additional(c, sub, known, v[1..], path, fuel), Additional(AsLenient(c), sub, known, v[1..], path, fuel));
      }
    }
  }

  lemma {:induction false} ItemsCovered(c: Ctx, members: seq<Member>, v: seq<Json>, path: string, fuel: nat)
    requires c.mode == Strict
    ensures Covers(Items(c, members, v, path, fuel), Items(AsLenient(c), members, v, path, fuel))
    decreases fuel, 1 + SizeMembers(members), 1
  {
    var sub := Get(members, "items");
    if sub.Some? {
      EachItemCovered(c, sub.value, v, 0, path, fuel);
    }
  }

  lemma {:induction false} EachItemCovered(c: Ctx, sub: Json, v: seq<Json>, from: nat, path: string, fuel: nat)
    requires c.mode == Strict
    ensures Covers(EachItem(c, sub, v, from, path, fuel), EachItem(AsLenient(c), sub, v, from, path, fuel))
    decreases fuel, Size(sub), 4, |v| - from
  {
    if from < |v| {
      var at := JoinPath(path, Decimal(from));
      LenientWithinStrict(c, sub, v[from], at, fuel);
      EachItemCovered(c, sub, v, from + 1, path, fuel);
      CoversThen(Node(c, sub, v[from], at, fuel), Node(AsLenient(c), sub, v[from], at, fuel),
                 EachItem(c, sub, v, from + 1, path, fuel), EachItem(AsLenient(c), sub, v, from + 1, path, fuel));
    }
  }

  lemma {:induction false} CombinatorCovered(c: Ctx, branches: seq<Json>, v: Json, path: string, fuel: nat)
    requires c.mode == Strict
    ensures Covers(Combinator(c, branches, v, path, fuel), Combinator(AsLenient(c), branches, v, path, fuel))
    decreases fuel, SizeAll(branches), 5
  {
    PassesCovered(c, branches, v, path, fuel);
    CoversSelf(Combinator(AsLenient(c), branches, v, path, fuel));
  }

  /** A branch that passes strictly passes leniently, perhaps after an earlier one. */
  lemma {:induction false} PassesCovered(c: Ctx, branches: seq<Json>, v: Json, path: string, fuel: nat)
    requires c.mode == Strict
    ensures var (s, l) := (Passes(c, branches, v, path, fuel), Passes(AsLenient(c), branches, v, path, fuel));
            s.Some? ==> l.Some? && (s.value ==> l.value)
    decreases fuel, SizeAll(branches), 4
  {
    if branches != [] {
      LenientWithinStrict(c, branches[0], v, path, fuel);
      PassesCovered(c, branches[1..], v, path, fuel);
    }
  }

  /** A value without issues in strict mode has none in lenient mode. */
  lemma StrictImpliesLenient(c: Ctx, schema: Json, v: Json, path: string, fuel: nat)
    requires c.mode == Strict && Node(c, schema, v, path, fuel) == Some([])
    ensures Node(AsLenient(c), schema, v, path, fuel) == Some([])
  {
    LenientWithinStrict(c, schema, v, path, fuel);
  }

  /** A schema whose second branch refers to itself. */
  function SelfReferring(): Json {
    Retrying(With("required", [Str("x")]))
  }

  /** Either `first`, or the whole document again. */
  function Retrying(first: Json): Json {
    With("anyOf", [first, RootRef()])
  }

  function RootRef(): Json {
    Obj([Member("$ref", Str("#"))])
  }

  /** If the first branch always has issues, trying the document again goes round for ever. */
  lemma {:induction false} RetryingForever(c: Ctx, first: Json, v: Json, path: string, fuel: nat)
    requires c.root == Retrying(first)
    requires forall f :: Node(c, first, v, path, f).Some? && Node(c, first, v, path, f) != Some([])
    ensures Node(c, c.root, v, path, fuel) == None
    decreases fuel
  {
    if fuel > 0 {
      RetryingForever(c, first, v, path, fuel - 1);
    }
    RetryingStep(c, first, RootRef(), v, path, fuel);
  }

  lemma RetryingStep(c: Ctx, first: Json, again: Json, v: Json, path: string, fuel: nat)
    requires c.root == With("anyOf", [first, again]) && again == RootRef()
    requires Node(c, first, v, path, fuel).Some? && Node(c, first, v, path, fuel) != Some([])
    requires fuel > 0 ==> Node(c, c.root, v, path, fuel - 1) == None
    ensures Node(c, c.root, v, path, fuel) == None
  {
    FollowRoot(c, again, v, path, fuel);
    TwoBranches(c, first, again, v, path, fuel);
  }

  /** The converse fails even for ending: leniently the first branch accepts the empty object, strictly
      the walk goes round for ever. */
  lemma StrictMayNotEnd(c: Ctx, path: string, fuel: nat)
    requires c.root == SelfReferring()
    ensures c.mode == Lenient ==> Node(c, SelfReferring(), Obj([]), path, fuel) == Some([])
    ensures c.mode == Strict ==> Node(c, SelfReferring(), Obj([]), path, fuel) == None
  {
    var empty, first := Obj([]), With("required", [Str("x")]);
    forall f: nat ensures Node(c, first, empty, path, f).Some?
      ensures Node(c, first, empty, path, f) == Some([]) <==> c.mode == Lenient
    {
      OnlyRequired(c, path, f);
    }
    if c.mode == Strict {
      RetryingForever(c, first, empty, path, fuel);
    } else {
      TwoBranches(c, first, RootRef(), empty, path, fuel);
    }
  }

  lemma TwoBranches(c: Ctx, first: Json, second: Json, v: Json, path: string, fuel: nat)
    ensures var (a, b) := (Node(c, first, v, path, fuel), Node(c, second, v, path, fuel));
            var r := Node(c, With("anyOf", [first, second]), v, path, fuel);
            && (a == Some([]) ==> r == Some([]))
            && (a.Some? && a.value != [] && b.None? ==> r.None?)
  {
    OnlyCombinator(c, "anyOf", [first, second], v, path, fuel);
    FirstOrRest(c, [first, second], v, path, fuel);
    FirstOrRest(c, [second], v, path, fuel);
    assert [first, second][1..] == [second];
  }

  lemma FirstOrRest(c: Ctx, branches: seq<Json>, v: Json, path: string, fuel: nat)
    requires branches != []
    ensures var first := Node(c, branches[0], v, path, fuel);
            Passes(c, branches, v, path, fuel)
            == if first.None? then None
               else if first.value == [] then Some(true)
               else Passes(c, branches[1..], v, path, fuel)
  {
  }

  /** A reference to the document itself costs one unit of fuel. */
  lemma FollowRoot(c: Ctx, schema: Json, v: Json, path: string, fuel: nat)
    requires schema == Obj([Member("$ref", Str("#"))])
    ensures Node(c, schema, v, path, fuel) == if fuel == 0 then None else Node(c, c.root, v, path, fuel - 1)
  {
    assert GetStr(schema.members, "$ref") == Some("#");
    assert Resolve(c, "#") == Some((c.root, c.root));
    assert c.(root := c.root) == c;
  }

  lemma OnlyRequired(c: Ctx, path: string, fuel: nat)
    ensures var r := Node(c, With("required", [Str("x")]), Obj([]), path, fuel);
            r.Some? && (r.value == [] <==> c.mode == Lenient)
  {
    var members := [Member("required", Arr([Str("x")]))];
    LoneMember("required", [Str("x")]);
    LoneLeaf(c, "required", [Str("x")], Obj([]), path);
    OneMissing(c, path);
    ObjectOnly(c, members, [], path, fuel);
    RequiredOnly(c, members, [], path, fuel);
  }

  lemma ObjectOnly(c: Ctx, members: seq<Member>, v: seq<Member>, path: string, fuel: nat)
    requires Get(members, "$ref").None? && Get(members, "oneOf").None? && Get(members, "anyOf").None?
    requires Leaf(c, members, Obj(v), path) == []
    ensures Node(c, Obj(members), Obj(v), path, fuel) == Object(c, members, v, path, fuel)
  {
    ThenNothing(Object(c, members, v, path, fuel));
  }

  lemma RequiredOnly(c: Ctx, members: seq<Member>, v: seq<Member>, path: string, fuel: nat)
    requires Get(members, "properties").None? && Get(members, "additionalProperties").None?
    ensures Object(c, members, v, path, fuel) == Some(StrictOnly(c, members, [], v, path, false))
  {
    var strict: Found := Some(StrictOnly(c, members, [], v, path, false));
    ThenNothing(strict);
    assert Object(c, members, v, path, fuel) == Then(Then(strict, Some([])), Some([]));
  }

  lemma OneMissing(c: Ctx, path: string)
    ensures StrictOnly(c, [Member("required", Arr([Str("x")]))], [], [], path, false) == [] <==> c.mode == Lenient
  {
    LoneMember("required", [Str("x")]);
    assert [Str("x")][1..] == [];
    assert Missing([Str("x")], [], path) == [Issue(JoinPath(path, "x"), "missing_required")];
  }

  // ---------------------------------------------------------------------
  // Combinators
  // ---------------------------------------------------------------------

  /** The search through the branches succeeds exactly when some branch has no issues: `oneOf` does not
      ask that the others fail. */
  lemma {:induction false} PassesExactly(c: Ctx, branches: seq<Json>, v: Json, path: string, fuel: nat)
    requires forall b | b in branches :: Node(c, b, v, path, fuel).Some?
    ensures Passes(c, branches, v, path, fuel)
         == Some(exists b :: b in branches && Node(c, b, v, path, fuel) == Some([]))
    decreases |branches|
  {
    if branches != [] {
      assert branches[0] in branches;
      PassesExactly(c, branches[1..], v, path, fuel);
      assert forall b :: b in branches <==> b == branches[0] || b in branches[1..];
    }
  }

  function With(keyword: string, branches: seq<Json>): Json {
    Obj([Member(keyword, Arr(branches))])
  }

  /** A schema with only `oneOf` reports what the same schema with `anyOf` reports. */
  lemma OneOfIsAnyOf(c: Ctx, branches: seq<Json>, v: Json, path: string, fuel: nat)
    ensures Node(c, With("oneOf", branches), v, path, fuel) == Node(c, With("anyOf", branches), v, path, fuel)
         == Combinator(c, branches, v, path, fuel)
  {
    OnlyCombinator(c, "oneOf", branches, v, path, fuel);
    OnlyCombinator(c, "anyOf", branches, v, path, fuel);
  }

  lemma LoneMember(keyword: string, items: seq<Json>)
    ensures forall key :: Get([Member(keyword, Arr(items))], key) == if key == keyword then Some(Arr(items)) else None
  {
    assert [Member(keyword, Arr(items))][1..] == [];
  }

  lemma LoneLeaf(c: Ctx, keyword: string, items: seq<Json>, v: Json, path: string)
    requires keyword in {"oneOf", "anyOf", "required"}
    ensures Leaf(c, [Member(keyword, Arr(items))], v, path) == []
  {
    var m := [Member(keyword, Arr(items))];
    LoneMember(keyword, items);
    LoneSizes(c, keyword, items, v, path);
    assert !WrongType(m, v) && Get(m, "const").None? && GetArr(m, "enum").None?;
  }

  lemma LoneSizes(c: Ctx, keyword: string, items: seq<Json>, v: Json, path: string)
    requires keyword in {"oneOf", "anyOf", "required"}
    ensures var m := [Member(keyword, Arr(items))];
            Numeric(m, v, path) == [] && Text(c, m, v, path) == [] && Elements(m, v, path) == []
  {
    var m := [Member(keyword, Arr(items))];
    LoneMember(keyword, items);
    assert GetNum(m, "minimum").None? && GetNum(m, "maximum").None? && GetStr(m, "pattern").None?;
    assert GetNat(m, "minLength").None? && GetNat(m, "maxLength").None?;
    assert GetNat(m, "minItems").None? && GetNat(m, "maxItems").None? && Get(m, "uniqueItems").None?;
  }

  lemma OnlyCombinator(c: Ctx, keyword: string, branches: seq<Json>, v: Json, path: string, fuel: nat)
    requires keyword == "oneOf" || keyword == "anyOf"
    ensures Node(c, With(keyword, branches), v, path, fuel) == Combinator(c, branches, v, path, fuel)
  {
    var members := [Member(keyword, Arr(branches))];
    var none: Found := Some([]);
    LoneMember(keyword, branches);
    LoneLeaf(c, keyword, branches, v, path);
    LoneNesting(c, keyword, branches, v, path, fuel);
    assert GetStr(members, "$ref").None?;
    assert GetArr(members, "oneOf") == if keyword == "oneOf" then Some(branches) else None;
    assert GetArr(members, "anyOf") == if keyword == "anyOf" then Some(branches) else None;
    var found := Combinator(c, branches, v, path, fuel);
    OneOfFour(if keyword == "oneOf" then found else none, if keyword == "anyOf" then found else none);
    OnlyBranches(c, members, v, path, fuel, if keyword == "oneOf" then found else none,
                 if keyword == "anyOf" then found else none);
  }

  /** A schema in which only the combinators have anything to say. */
  lemma OnlyBranches(c: Ctx, members: seq<Member>, v: Json, path: string, fuel: nat, one: Found, any: Found)
    requires GetStr(members, "$ref").None? && Leaf(c, members, v, path) == []
    requires v.Obj? ==> Object(c, members, v.members, path, fuel) == Some([])
    requires v.Arr? ==> Items(c, members, v.items, path, fuel) == Some([])
    requires var b := GetArr(members, "oneOf"); one == if b.Some? then Combinator(c, b.value, v, path, fuel) else Some([])
    requires var b := GetArr(members, "anyOf"); any == if b.Some? then Combinator(c, b.value, v, path, fuel) else Some([])
    ensures var none: Found := Some([]);
            Node(c, Obj(members), v, path, fuel) == Then(Then(Then(Then(none, none), none), one), any)
  {
  }

  lemma OneOfFour(f: Found, g: Found)
    requires f == Some([]) || g == Some([])
    ensures var none: Found := Some([]);
            Then(Then(Then(Then(none, none), none), f), g) == if f == none then g else f
  {
    var none: Found := Some([]);
    ThenNothing(none);
    ThenNothing(f);
    ThenNothing(g);
  }

  lemma LoneNesting(c: Ctx, keyword: string, branches: seq<Json>, v: Json, path: string, fuel: nat)
    requires keyword in {"oneOf", "anyOf"}
    ensures var members := [Member(keyword, Arr(branches))];
            && (v.Obj? ==> Object(c, members, v.members, path, fuel) == Some([]))
            && (v.Arr? ==> Items(c, members, v.items, path, fuel) == Some([]))
  {
    var members := [Member(keyword, Arr(branches))];
    LoneMember(keyword, branches);
    assert Get(members, "additionalProperties").None? && GetObj(members, "properties").None?;
    assert Get(members, "items").None?;
    var none: Found := Some([]);
    ThenNothing(none);
    if v.Obj? {
      assert Object(c, members, v.members, path, fuel) == Then(Then(none, none), none);
    }
  }

  lemma ThenNothing(f: Found)
    ensures Then(Some([]), f) == f && Then(f, Some([])) == f
  {
    if f.Some? {
      assert [] + f.value == f.value && f.value + [] == f.value;
    }
  }

  // ---------------------------------------------------------------------
  // Fuel
  // ---------------------------------------------------------------------

  ghost predicate Extends(small: Found, large: Found) {
    small.Some? ==> large == small
  }

  /** Fuel only decides whether the walk ends, never what it reports. */
  lemma {:induction false} FuelIrrelevant(c: Ctx, schema: Json, v: Json, path: string, fuel: nat, more: nat)
    requires fuel <= more
    ensures Extends(Node(c, schema, v, path, fuel), Node(c, schema, v, path, more))
    decreases fuel, Size(schema), 3
  {
    match schema
    case Obj(members) =>
      var reference := GetStr(members, "$ref");
      if reference.None? {
        KeywordsExtend(c, members, v, path, fuel, more);
      } else if fuel > 0 {
        var target := Resolve(c, reference.value);
        if target.Some? {
          FuelIrrelevant(c.(root := target.value.1), target.value.0, v, path, fuel - 1, more - 1);
        }
      }
    case _ =>
  }

  lemma {:induction false} KeywordsExtend(c: Ctx, members: seq<Member>, v: Json, path: string, fuel: nat, more: nat)
    requires fuel <= more
    ensures Extends(Keywords(c, members, v, path, fuel), Keywords(c, members, v, path, more))
    decreases fuel, 1 + SizeMembers(members), 2
  {
    var one, any := GetArr(members, "oneOf"), GetArr(members, "anyOf");
    if v.Obj? {
      ObjectExtends(c, members, v.members, path, fuel, more);
    }
    if v.Arr? {
      ItemsExtend(c, members, v.items, path, fuel, more);
    }
    if one.Some? {
      CombinatorExtends(c, one.value, v, path, fuel, more);
    }
    if any.Some? {
      CombinatorExtends(c, any.value, v, path, fuel, more);
    }
  }

  lemma {:induction false} ObjectExtends(c: Ctx, members: seq<Member>, v: seq<Member>, path: string, fuel: nat, more: nat)
    requires fuel <= more
    ensures Extends(Object(c, members, v, path, fuel), Object(c, members, v, path, more))
    decreases fuel, 1 + SizeMembers(members), 1
  {
    var props, extra := GetObj(members, "properties"), Get(members, "additionalProperties");
    var known := if props.Some? then props.value else [];
    PropertiesExtend(c, known, v, path, fuel, more);
    if extra.Some? && !extra.value.Bool? {
      AdditionalExtends(c, extra.value, known, v, path, fuel, more);
    }
  }

  lemma {:induction false} PropertiesExtend(c: Ctx, props: seq<Member>, v: seq<Member>, path: string, fuel: nat, more: nat)
    requires fuel <= more
    ensures Extends(Properties(c, props, v, path, fuel), Properties(c, props, v, path, more))
    decreases fuel, SizeMembers(props), 5
  {
    if props != [] {
      var value := Get(v, props[0].key);
      PropertiesExtend(c, props[1..], v, path, fuel, more);
      if value.Some? {
        PropertyExtends(c, props[0], value.value, path, fuel, more);
      }
    }
  }

  lemma {:induction false} PropertyExtends(c: Ctx, prop: Member, value: Json, path: string, fuel: nat, more: nat)
    requires fuel <= more
    ensures Extends(Property(c, prop, value, path, fuel), Property(c, prop, value, path, more))
    decreases fuel, SizeMember(prop), 4
  {
    FuelIrrelevant(c, prop.value, value, JoinPath(path, prop.key), fuel, more);
  }

  lemma {:induction false} AdditionalExtends(c: Ctx, sub: Json, known: seq<Member>, v: seq<Member>, path: string, fuel: nat, more: nat)
    requires fuel <= more
    ensures Extends(Additional(c, sub, known, v, path, fuel), Additional(c, sub, known, v, path, more))
    decreases fuel, Size(sub), 4, |v|
  {
    if v != [] {
      AdditionalExtends(c, sub, known, v[1..], path, fuel, more);
      FuelIrrelevant(c, sub, v[0].value, JoinPath(path, v[0].key), fuel, more);
    }
  }

  lemma {:induction false} ItemsExtend(c: Ctx, members: seq<Member>, v: seq<Json>, path: string, fuel: nat, more: nat)
    requires fuel <= more
    ensures Extends(Items(c, members, v, path, fuel), Items(c, members, v, path, more))
    decreases fuel, 1 + SizeMembers(members), 1
  {
    var sub := Get(members, "items");
    if sub.Some? {
      EachItemExtends(c, sub.value, v, 0, path, fuel, more);
    }
  }

  lemma {:induction false} EachItemExtends(c: Ctx, sub: Json, v: seq<Json>, from: nat, path: string, fuel: nat, more: nat)
    requires fuel <= more
    ensures Extends(EachItem(c, sub, v, from, path, fuel), EachItem(c, sub, v, from, path, more))
    decreases fuel, Size(sub), 4, |v| - from
  {
    if from < |v| {
      FuelIrrelevant(c, sub, v[from], JoinPath(path, Decimal(from)), fuel, more);
      EachItemExtends(c, sub, v, from + 1, path, fuel, more);
    }
  }

  lemma {:induction false} CombinatorExtends(c: Ctx, branches: seq<Json>, v: Json, path: string, fuel: nat, more: nat)
    requires fuel <= more
    ensures Extends(Combinator(c, branches, v, path, fuel), Combinator(c, branches, v, path, more))
    decreases fuel, SizeAll(branches), 5
  {
    PassesExtend(c, branches, v, path, fuel, more);
  }

  lemma {:induction false} PassesExtend(c: Ctx, branches: seq<Json>, v: Json, path: string, fuel: nat, more: nat)
    requires fuel <= more
    ensures Passes(c, branches, v, path, fuel).Some? ==>
              Passes(c, branches, v, path, more) == Passes(c, branches, v, path, fuel)
    decreases fuel, SizeAll(branches), 4
  {
    if branches != [] {
      FuelIrrelevant(c, branches[0], v, path, fuel, more);
      PassesExtend(c, branches[1..], v, path, fuel, more);
    }
  }
}
