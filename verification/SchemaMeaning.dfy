/** What it means for a value to satisfy a schema, stated keyword by keyword without the walk, and the
    proof that the walk decides it. */
module SchemaMeaning {
  import opened Wrappers
  import opened SchemaWalk

  // ---------------------------------------------------------------------
  // Validity
  // ---------------------------------------------------------------------

  ghost predicate HasKey(members: seq<Member>, key: string) {
    exists i | 0 <= i < |members| :: members[i].key == key
  }

  /** An integer as a number. */
  function Real(k: int): real {
    k as real
  }

  ghost predicate IsWhole(x: real) {
    exists k :: Real(k) == x
  }

  /** The bound a keyword sets, if its value is a natural number. */
  ghost predicate AtLeast(members: seq<Member>, keyword: string, n: nat) {
    forall low: nat | Get(members, keyword) == Some(Num(Real(low), true)) :: low <= n
  }

  ghost predicate AtMost(members: seq<Member>, keyword: string, n: nat) {
    forall high: nat | Get(members, keyword) == Some(Num(Real(high), true)) :: n <= high
  }

  /** What a type name means; unknown names admit every value. */
  ghost predicate Means(name: string, v: Json) {
    && (name == "null" ==> v == Null)
    && (name == "boolean" ==> v == Bool(true) || v == Bool(false))
    && (name == "string" ==> exists s :: v == Str(s))
    && (name == "array" ==> exists items :: v == Arr(items))
    && (name == "object" ==> exists members :: v == Obj(members))
    && (name == "number" ==> exists x, integral :: v == Num(x, integral))
    && (name == "integer" ==> exists x, integral :: v == Num(x, integral) && (integral || IsWhole(x)))
  }

  /** The value has the type named, or one of those listed; a keyword of another form asks nothing. */
  ghost predicate TypeOk(members: seq<Member>, v: Json) {
    && (forall name | Get(members, "type") == Some(Str(name)) :: Means(name, v))
    && (forall names | Get(members, "type") == Some(Arr(names)) :: exists name :: Str(name) in names && Means(name, v))
  }

  ghost predicate NumberOk(members: seq<Member>, x: real) {
    && (forall low, integral | Get(members, "minimum") == Some(Num(low, integral)) :: low <= x)
    && (forall high, integral | Get(members, "maximum") == Some(Num(high, integral)) :: x <= high)
  }

  ghost predicate StringOk(c: Ctx, members: seq<Member>, s: string) {
    && AtLeast(members, "minLength", |s|) && AtMost(members, "maxLength", |s|)
    && (forall p | Get(members, "pattern") == Some(Str(p)) :: c.matches(p, s))
  }

  ghost predicate ArrayOk(members: seq<Member>, items: seq<Json>) {
    && AtLeast(members, "minItems", |items|) && AtMost(members, "maxItems", |items|)
    && (Get(members, "uniqueItems") == Some(Bool(true)) ==> forall i, j | 0 <= i < j < |items| :: items[i] != items[j])
  }

  /** The keywords that look at one value only. */
  ghost predicate LeafOk(c: Ctx, members: seq<Member>, v: Json) {
    && TypeOk(members, v)
    && (forall x | Get(members, "const") == Some(x) :: v == x)
    && (forall xs | Get(members, "enum") == Some(Arr(xs)) :: v in xs)
    && (v.Num? ==> NumberOk(members, v.value))
    && (v.Str? ==> StringOk(c, members, v.s))
    && (v.Arr? ==> ArrayOk(members, v.items))
  }

  /** What only strict mode demands: required keys are there, and closed objects have no others. */
  ghost predicate KeysOk(c: Ctx, members: seq<Member>, known: seq<Member>, v: seq<Member>) {
    c.mode == Strict ==>
      && (forall names, name | Get(members, "required") == Some(Arr(names)) && Str(name) in names :: HasKey(v, name))
      && (Get(members, "additionalProperties") == Some(Bool(false)) ==> forall i | 0 <= i < |v| :: HasKey(known, v[i].key))
  }

  function Known(members: seq<Member>): (r: seq<Member>)
    ensures SizeMembers(r) <= SizeMembers(members)
  {
    var props := GetObj(members, "properties");
    if props.Some? then props.value else []
  }

  /** The member of that name in a section of the current document. */
  ghost predicate Defines(root: Json, section: string, name: string, target: Json) {
    root.Obj? && exists defs :: Get(root.members, section) == Some(Obj(defs)) && Get(defs, name) == Some(target)
  }

  /** A reference names a definition of the current document, the document itself, or a document that
      can be loaded; a web address names nothing. */
  ghost predicate Refers(c: Ctx, reference: string, target: Json, root: Json) {
    if exists name :: reference == "#/$defs/" + name then
      root == c.root && exists name :: reference == "#/$defs/" + name && Defines(c.root, "$defs", name, target)
    else if exists name :: reference == "#/definitions/" + name then
      root == c.root && exists name :: reference == "#/definitions/" + name && Defines(c.root, "definitions", name, target)
    else if reference == "#" then target == root == c.root
    else
      && (forall rest :: reference != "http://" + rest && reference != "https://" + rest)
      && c.load(reference) == Some(target) && root == target
  }

  ghost predicate Valid(c: Ctx, schema: Json, v: Json, fuel: nat)
    decreases fuel, Size(schema), 1
  {
    match schema
    case Bool(b) => b
    case Obj(members) =>
      var reference := GetStr(members, "$ref");
      if reference.None? then
        && LeafOk(c, members, v)
        && (v.Obj? ==> ObjectValid(c, members, v.members, fuel))
        && (v.Arr? ==> ItemsValid(c, members, v.items, fuel))
        && OneValid(c, members, "oneOf", v, fuel)
        && OneValid(c, members, "anyOf", v, fuel)
      else
        fuel > 0 && exists target, root ::
          Refers(c, reference.value, target, root) && Valid(c.(root := root), target, v, fuel - 1)
    case _ => true
  }

  ghost predicate ObjectValid(c: Ctx, members: seq<Member>, v: seq<Member>, fuel: nat)
    decreases fuel, 1 + SizeMembers(members), 0
  {
    var known, extra := Known(members), Get(members, "additionalProperties");
    && KeysOk(c, members, known, v)
    && (forall i | 0 <= i < |known| && Get(v, known[i].key).Some? ::
          (MemberSmaller(known, i); Valid(c, known[i].value, Get(v, known[i].key).value, fuel)))
    && (extra.Some? && !extra.value.Bool? ==>
          forall i | 0 <= i < |v| && !HasKey(known, v[i].key) :: Valid(c, extra.value, v[i].value, fuel))
  }

  ghost predicate ItemsValid(c: Ctx, members: seq<Member>, v: seq<Json>, fuel: nat)
    decreases fuel, 1 + SizeMembers(members), 0
  {
    var sub := Get(members, "items");
    sub.Some? ==> forall i | 0 <= i < |v| :: Valid(c, sub.value, v[i], fuel)
  }

  /** At least one branch of a nonempty combinator is satisfied. */
  ghost predicate OneValid(c: Ctx, members: seq<Member>, keyword: string, v: Json, fuel: nat)
    decreases fuel, 1 + SizeMembers(members), 0
  {
    var branches := GetArr(members, keyword);
    branches.Some? && branches.value != [] ==>
      exists i | 0 <= i < |branches.value| ::
        (BranchSmaller(branches.value, i); Valid(c, branches.value[i], v, fuel))
  }

  // ---------------------------------------------------------------------
  // The walk decides validity
  // ---------------------------------------------------------------------

  lemma {:induction false} StartsWithMeans(s: string, prefix: string)
    ensures StartsWith(s, prefix) <==> |prefix| <= |s| && s == prefix + s[|prefix|..]
    ensures StartsWith(s, prefix) <==> exists rest :: s == prefix + rest
    decreases |prefix|
  {
    if prefix == "" {
      assert s == prefix + s[0..];
    } else if s != "" && s[0] == prefix[0] {
      StartsWithMeans(s[1..], prefix[1..]);
      var n := |prefix|;
      if StartsWith(s, prefix) {
        assert s == [s[0]] + s[1..] && s[n..] == s[1..][n - 1..];
      }
      if rest :| s == prefix + rest {
        assert s[1..] == prefix[1..] + rest;
        assert rest == s[n..];
      }
    } else {
      forall rest ensures s != prefix + rest {
        assert (prefix + rest)[0] == prefix[0];
      }
    }
  }

  lemma InRootMeans(c: Ctx, section: string, prefix: string, reference: string, target: Json, root: Json)
    requires StartsWith(reference, prefix)
    ensures InRoot(c, section, reference[|prefix|..]) == Some((target, root))
       <==> root == c.root && exists name :: reference == prefix + name && Defines(c.root, section, name, target)
  {
    StartsWithMeans(reference, prefix);
    var name := reference[|prefix|..];
    assert forall other | reference == prefix + other :: other == name;
  }

  /** A reference resolves to what it refers to, and to nothing else. */
  lemma ResolveExactly(c: Ctx, reference: string, target: Json, root: Json)
    ensures Resolve(c, reference) == Some((target, root)) <==> Refers(c, reference, target, root)
  {
    StartsWithMeans(reference, "#/$defs/");
    StartsWithMeans(reference, "#/definitions/");
    StartsWithMeans(reference, "http://");
    StartsWithMeans(reference, "https://");
    if StartsWith(reference, "#/$defs/") {
      InRootMeans(c, "$defs", "#/$defs/", reference, target, root);
    } else if StartsWith(reference, "#/definitions/") {
      InRootMeans(c, "definitions", "#/definitions/", reference, target, root);
    }
  }

  /** If the walk ends, it reports nothing exactly when the statement holds. */
  ghost predicate Decides(found: Found, holds: bool) {
    found.Some? ==> (found.value == [] <==> holds)
  }

  lemma WholeMeans(x: real)
    ensures IsWhole(x) <==> x.Floor as real == x
  {
    assert Real(x.Floor) == x.Floor as real;
  }

  /** A lookup finds the value at the first place of its key. */
  lemma {:induction false} GetIsFirst(members: seq<Member>, key: string, v: Json)
    ensures Get(members, key) == Some(v)
       <==> exists i :: 0 <= i < |members| && members[i] == Member(key, v) && !HasKey(members[..i], key)
    decreases |members|
  {
    if members != [] {
      GetIsFirst(members[1..], key, v);
      if members[0].key == key {
        assert members[..0] == [];
        forall i | 0 < i < |members| ensures HasKey(members[..i], key) {
          assert members[..i][0].key == key;
        }
      } else {
        forall i | 0 < i < |members| ensures HasKey(members[..i], key) <==> HasKey(members[1..][..i - 1], key) {
          assert members[..i][1..] == members[1..][..i - 1];
          LaterKey(members[..i], key);
        }
        if i :| 0 <= i < |members| && members[i] == Member(key, v) && !HasKey(members[..i], key) {
          assert members[1..][i - 1] == Member(key, v);
        }
        if i :| 0 <= i < |members[1..]| && members[1..][i] == Member(key, v) && !HasKey(members[1..][..i], key) {
          assert members[i + 1] == Member(key, v) && !HasKey(members[..i + 1], key);
        }
      }
    }
  }

  lemma LaterKey(members: seq<Member>, key: string)
    requires members != [] && members[0].key != key
    ensures HasKey(members, key) <==> HasKey(members[1..], key)
  {
    if HasKey(members, key) {
      var i :| 0 <= i < |members| && members[i].key == key;
      assert members[1..][i - 1].key == key;
    }
  }

  lemma NaturalMeans(members: seq<Member>, keyword: string, n: nat)
    ensures GetNat(members, keyword) == Some(n) <==> Get(members, keyword) == Some(Num(Real(n), true))
  {
  }

  lemma BoundsMean(members: seq<Member>, low: string, high: string, n: nat)
    ensures AtLeast(members, low, n) <==> !OutOf(GetNat(members, low), n)
    ensures AtMost(members, high, n) <==> !Over(GetNat(members, high), n)
  {
    forall k: nat ensures GetNat(members, low) == Some(k) <==> Get(members, low) == Some(Num(Real(k), true)) {
      NaturalMeans(members, low, k);
    }
    forall k: nat ensures GetNat(members, high) == Some(k) <==> Get(members, high) == Some(Num(Real(k), true)) {
      NaturalMeans(members, high, k);
    }
  }

  lemma TypeMeans(name: string, v: Json)
    ensures HasType(v, name) <==> Means(name, v)
  {
    if v.Num? {
      WholeMeans(v.value);
    }
  }

  lemma {:induction false} StringsAre(items: seq<Json>, name: string)
    ensures name in Strings(items) <==> Str(name) in items
    decreases |items|
  {
    if items != [] {
      StringsAre(items[1..], name);
    }
  }

  lemma TypeDecided(members: seq<Member>, v: Json)
    ensures TypeOk(members, v) <==> !WrongType(members, v)
  {
    var ty := Get(members, "type");
    if ty.Some? {
      forall name ensures HasType(v, name) <==> Means(name, v) {
        TypeMeans(name, v);
      }
      if ty.value.Arr? {
        forall name ensures name in Strings(ty.value.items) <==> Str(name) in ty.value.items {
          StringsAre(ty.value.items, name);
        }
      }
    }
  }

  const BASIC: set<string> := {"null", "boolean", "string", "array", "object", "number"}

  /** Every value has exactly one basic type; integers are some of the numbers. */
  lemma OneBasicType(v: Json)
    ensures exists name :: name in BASIC && Means(name, v) && forall other | other in BASIC && Means(other, v) :: other == name
    ensures Means("integer", v) ==> Means("number", v)
    ensures Means("number", Num(1.5, false)) && !Means("integer", Num(1.5, false))
  {
    var name := match v
      case Null => "null"
      case Bool(_) => "boolean"
      case Str(_) => "string"
      case Arr(_) => "array"
      case Obj(_) => "object"
      case Num(_, _) => "number";
    assert name in BASIC && Means(name, v);
    forall other | other in BASIC && Means(other, v) ensures other == name {
    }
    WholeMeans(1.5);
    assert Num(1.5, false).value == 1.5;
  }

  lemma LeafDecided(c: Ctx, members: seq<Member>, v: Json, path: string)
    ensures Leaf(c, members, v, path) == [] <==> LeafOk(c, members, v)
  {
    TypeDecided(members, v);
    NumericDecided(members, v, path);
    TextDecided(c, members, v, path);
    ElementsDecided(members, v, path);
  }

  lemma NumericDecided(members: seq<Member>, v: Json, path: string)
    ensures Numeric(members, v, path) == [] <==> (v.Num? ==> NumberOk(members, v.value))
  {
  }

  lemma TextDecided(c: Ctx, members: seq<Member>, v: Json, path: string)
    ensures Text(c, members, v, path) == [] <==> (v.Str? ==> StringOk(c, members, v.s))
  {
    if v.Str? {
      BoundsMean(members, "minLength", "maxLength", |v.s|);
    }
  }

  lemma ElementsDecided(members: seq<Member>, v: Json, path: string)
    ensures Elements(members, v, path) == [] <==> (v.Arr? ==> ArrayOk(members, v.items))
  {
    if v.Arr? {
      BoundsMean(members, "minItems", "maxItems", |v.items|);
    }
  }

  lemma {:induction false} MissingDecided(required: seq<Json>, v: seq<Member>, path: string)
    ensures Missing(required, v, path) == [] <==> forall name | Str(name) in required :: HasKey(v, name)
    decreases |required|
  {
    if required != [] {
      MissingDecided(required[1..], v, path);
      assert forall x :: x in required <==> x == required[0] || x in required[1..];
    }
  }

  lemma {:induction false} UnexpectedDecided(known: seq<Member>, v: seq<Member>, path: string)
    ensures Unexpected(known, v, path) == [] <==> forall i | 0 <= i < |v| :: HasKey(known, v[i].key)
    decreases |v|
  {
    if v != [] {
      UnexpectedDecided(known, v[1..], path);
      assert forall i | 0 < i < |v| :: v[i] == v[1..][i - 1];
    }
  }

  lemma KeysDecided(c: Ctx, members: seq<Member>, known: seq<Member>, v: seq<Member>, path: string)
    ensures StrictOnly(c, members, known, v, path, false) == [] && StrictOnly(c, members, known, v, path, true) == []
       <==> KeysOk(c, members, known, v)
  {
    var required := GetArr(members, "required");
    if required.Some? {
      MissingDecided(required.value, v, path);
    }
    UnexpectedDecided(known, v, path);
  }

  /** The walk of the validator decides validity: in either mode, for every schema and value, if it ends
      then it reports no issue exactly when the value satisfies the schema. */
  lemma {:induction false} WalkDecides(c: Ctx, schema: Json, v: Json, path: string, fuel: nat)
    ensures Decides(Node(c, schema, v, path, fuel), Valid(c, schema, v, fuel))
    decreases fuel, Size(schema), 3
  {
    match schema
    case Obj(members) =>
      var reference := GetStr(members, "$ref");
      if reference.None? {
        KeywordsDecide(c, schema, v, path, fuel);
      } else if fuel > 0 {
        var target := Resolve(c, reference.value);
        forall t, root ensures target == Some((t, root)) <==> Refers(c, reference.value, t, root) {
          ResolveExactly(c, reference.value, t, root);
        }
        if target.Some? {
          WalkDecides(c.(root := target.value.1), target.value.0, v, path, fuel - 1);
        }
      }
    case _ =>
  }

  lemma {:induction false} KeywordsDecide(c: Ctx, schema: Json, v: Json, path: string, fuel: nat)
    requires schema.Obj? && GetStr(schema.members, "$ref").None?
    ensures Decides(Keywords(c, schema.members, v, path, fuel), Valid(c, schema, v, fuel))
    decreases fuel, Size(schema), 2
  {
    var members := schema.members;
    LeafDecided(c, members, v, path);
    if v.Obj? {
      ObjectDecides(c, members, v.members, path, fuel);
    }
    if v.Arr? {
      ItemsDecide(c, members, v.items, path, fuel);
    }
    OneDecides(c, members, "oneOf", v, path, fuel);
    OneDecides(c, members, "anyOf", v, path, fuel);
  }

  lemma {:induction false} ObjectDecides(c: Ctx, members: seq<Member>, v: seq<Member>, path: string, fuel: nat)
    ensures Decides(Object(c, members, v, path, fuel), ObjectValid(c, members, v, fuel))
    decreases fuel, 1 + SizeMembers(members), 1
  {
    var known, extra := Known(members), Get(members, "additionalProperties");
    KeysDecided(c, members, known, v, path);
    PropertiesDecide(c, known, v, path, fuel);
    if extra.Some? && !extra.value.Bool? {
      AdditionalDecides(c, extra.value, known, v, path, fuel);
    }
  }

  ghost predicate PropertiesValid(c: Ctx, props: seq<Member>, v: seq<Member>, fuel: nat) {
    forall i | 0 <= i < |props| && Get(v, props[i].key).Some? :: Valid(c, props[i].value, Get(v, props[i].key).value, fuel)
  }

  lemma {:induction false} PropertiesDecide(c: Ctx, props: seq<Member>, v: seq<Member>, path: string, fuel: nat)
    ensures Decides(Properties(c, props, v, path, fuel), PropertiesValid(c, props, v, fuel))
    decreases fuel, SizeMembers(props), 5
  {
    if props != [] {
      var value := Get(v, props[0].key);
      PropertiesDecide(c, props[1..], v, path, fuel);
      assert forall i | 0 < i < |props| :: props[i] == props[1..][i - 1];
      if value.Some? {
        PropertyDecides(c, props[0], value.value, path, fuel);
      }
    }
  }

  lemma {:induction false} PropertyDecides(c: Ctx, prop: Member, value: Json, path: string, fuel: nat)
    ensures Decides(Property(c, prop, value, path, fuel), Valid(c, prop.value, value, fuel))
    decreases fuel, SizeMember(prop), 4
  {
    WalkDecides(c, prop.value, value, JoinPath(path, prop.key), fuel);
  }

  lemma {:induction false} AdditionalDecides(c: Ctx, sub: Json, known: seq<Member>, v: seq<Member>, path: string, fuel: nat)
    ensures Decides(Additional(c, sub, known, v, path, fuel),
                    forall i | 0 <= i < |v| && !HasKey(known, v[i].key) :: Valid(c, sub, v[i].value, fuel))
    decreases fuel, Size(sub), 4, |v|
  {
    if v != [] {
      AdditionalDecides(c, sub, known, v[1..], path, fuel);
      assert forall i | 0 < i < |v| :: v[i] == v[1..][i - 1];
      WalkDecides(c, sub, v[0].value, JoinPath(path, v[0].key), fuel);
    }
  }

  lemma {:induction false} ItemsDecide(c: Ctx, members: seq<Member>, v: seq<Json>, path: string, fuel: nat)
    ensures Decides(Items(c, members, v, path, fuel), ItemsValid(c, members, v, fuel))
    decreases fuel, 1 + SizeMembers(members), 1
  {
    var sub := Get(members, "items");
    if sub.Some? {
      EachItemDecides(c, sub.value, v, 0, path, fuel);
    }
  }

  ghost predicate AllValid(c: Ctx, sub: Json, v: seq<Json>, from: nat, fuel: nat) {
    forall i | from <= i < |v| :: Valid(c, sub, v[i], fuel)
  }

  lemma BothDecide(f: Found, g: Found, a: bool, b: bool)
    requires Decides(f, a) && Decides(g, b)
    ensures Decides(Then(f, g), a && b)
  {
  }

  lemma AllValidStep(c: Ctx, sub: Json, v: seq<Json>, from: nat, fuel: nat)
    requires from < |v|
    ensures AllValid(c, sub, v, from, fuel) <==> Valid(c, sub, v[from], fuel) && AllValid(c, sub, v, from + 1, fuel)
  {
  }

  lemma {:induction false} EachItemDecides(c: Ctx, sub: Json, v: seq<Json>, from: nat, path: string, fuel: nat)
    ensures Decides(EachItem(c, sub, v, from, path, fuel), AllValid(c, sub, v, from, fuel))
    decreases fuel, Size(sub), 4, |v| - from
  {
    if from < |v| {
      var at := JoinPath(path, Decimal(from));
      WalkDecides(c, sub, v[from], at, fuel);
      EachItemDecides(c, sub, v, from + 1, path, fuel);
      AllValidStep(c, sub, v, from, fuel);
      BothDecide(Node(c, sub, v[from], at, fuel), EachItem(c, sub, v, from + 1, path, fuel),
                 Valid(c, sub, v[from], fuel), AllValid(c, sub, v, from + 1, fuel));
    }
  }

  lemma {:induction false} OneDecides(c: Ctx, members: seq<Member>, keyword: string, v: Json, path: string, fuel: nat)
    ensures var branches := GetArr(members, keyword);
            branches.Some? ==> Decides(Combinator(c, branches.value, v, path, fuel), OneValid(c, members, keyword, v, fuel))
    decreases fuel, 1 + SizeMembers(members), 1
  {
    var branches := GetArr(members, keyword);
    if branches.Some? {
      PassesDecide(c, branches.value, v, path, fuel);
    }
  }

  ghost predicate SomeValid(c: Ctx, branches: seq<Json>, v: Json, fuel: nat) {
    exists i | 0 <= i < |branches| :: Valid(c, branches[i], v, fuel)
  }

  lemma {:induction false} PassesDecide(c: Ctx, branches: seq<Json>, v: Json, path: string, fuel: nat)
    ensures Passes(c, branches, v, path, fuel).Some? ==>
              (Passes(c, branches, v, path, fuel).value <==> SomeValid(c, branches, v, fuel))
    decreases fuel, SizeAll(branches), 4
  {
    if branches != [] {
      WalkDecides(c, branches[0], v, path, fuel);
      PassesDecide(c, branches[1..], v, path, fuel);
      assert forall i | 0 < i < |branches| :: branches[i] == branches[1..][i - 1];
    }
  }
}
