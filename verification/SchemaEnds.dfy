/** When the validator's walk ends. References below `properties`, `items` and `additionalProperties` are
    followed on a smaller value; only those followed on the same value can go round for ever. */
module SchemaEnds {
  import opened Wrappers
  import opened SchemaWalk
  import opened SchemaMeaning
  import opened SchemaModes

  // ---------------------------------------------------------------------
  // The references of a schema
  // ---------------------------------------------------------------------

  /** References the walk may follow on the value it was given. */
  function SameRefs(schema: Json): set<string>
    decreases Size(schema), 1
  {
    if !schema.Obj? then {}
    else
      var reference := GetStr(schema.members, "$ref");
      if reference.Some? then {reference.value}
      else KeywordRefs(schema.members, "oneOf") + KeywordRefs(schema.members, "anyOf")
  }

  function KeywordRefs(members: seq<Member>, keyword: string): set<string>
    decreases 1 + SizeMembers(members), 0
  {
    var branches := GetArr(members, keyword);
    if branches.Some? then BranchRefs(branches.value) else {}
  }

  function BranchRefs(branches: seq<Json>): set<string>
    decreases SizeAll(branches), 2
  {
    if branches == [] then {} else SameRefs(branches[0]) + BranchRefs(branches[1..])
  }

  /** All references the walk may follow, on this value or on parts of it. */
  function AllRefs(schema: Json): set<string>
    decreases Size(schema), 1
  {
    if !schema.Obj? then {}
    else
      var members := schema.members;
      var reference := GetStr(members, "$ref");
      if reference.Some? then {reference.value}
      else
        AllBranches(members, "oneOf") + AllBranches(members, "anyOf")
        + PropertyRefs(Known(members)) + PartRefs(members, "items") + PartRefs(members, "additionalProperties")
  }

  function AllBranches(members: seq<Member>, keyword: string): set<string>
    decreases 1 + SizeMembers(members), 0
  {
    var branches := GetArr(members, keyword);
    if branches.Some? then ListRefs(branches.value) else {}
  }

  function ListRefs(branches: seq<Json>): set<string>
    decreases SizeAll(branches), 2
  {
    if branches == [] then {} else AllRefs(branches[0]) + ListRefs(branches[1..])
  }

  function PropertyRefs(props: seq<Member>): set<string>
    decreases SizeMembers(props), 2
  {
    if props == [] then {}
    else
      MemberSmaller(props, 0);
      AllRefs(props[0].value) + PropertyRefs(props[1..])
  }

  function PartRefs(members: seq<Member>, keyword: string): set<string>
    decreases 1 + SizeMembers(members), 0
  {
    var part := Get(members, keyword);
    if part.Some? then AllRefs(part.value) else {}
  }

  // ---------------------------------------------------------------------
  // Ranked references
  // ---------------------------------------------------------------------

  /** References, each with the document it is resolved in. */
  type Refs = iset<(Json, string)>

  /** Following a reference in `live` stays in `live`, and on the same value lowers the rank. */
  ghost predicate Ranked(c: Ctx, live: Refs, rank: (Json, string) -> nat) {
    forall root, reference {:trigger Descends(c, live, rank, root, reference)} | (root, reference) in live ::
      Descends(c, live, rank, root, reference)
  }

  ghost predicate Descends(c: Ctx, live: Refs, rank: (Json, string) -> nat, root: Json, reference: string) {
    var found := Resolve(c.(root := root), reference);
    found.Some? ==>
      && Covered(live, found.value.1, AllRefs(found.value.0))
      && Below(found.value.1, SameRefs(found.value.0), rank, rank(root, reference))
  }

  ghost predicate Covered(live: Refs, root: Json, refs: set<string>) {
    forall r | r in refs :: (root, r) in live
  }

  ghost predicate Below(root: Json, refs: set<string>, rank: (Json, string) -> nat, bound: nat) {
    forall r | r in refs :: rank(root, r) < bound
  }

  lemma BoundExists(root: Json, refs: set<string>, rank: (Json, string) -> nat) returns (bound: nat)
    ensures Below(root, refs, rank, bound)
    decreases refs
  {
    if refs == {} {
      return 0;
    }
    var r :| r in refs;
    var rest := BoundExists(root, refs - {r}, rank);
    bound := if rest > rank(root, r) then rest else rank(root, r) + 1;
  }

  function Max(a: nat, b: nat): nat {
    if a < b then b else a
  }

  // ---------------------------------------------------------------------
  // Ranked references end
  // ---------------------------------------------------------------------

  /** If references on the same value lower a rank, the walk of every value ends. */
  lemma {:induction false} NodeEnds(c: Ctx, live: Refs, rank: (Json, string) -> nat, schema: Json, v: Json, path: string, bound: nat)
    returns (fuel: nat)
    requires Ranked(c, live, rank) && Covered(live, c.root, AllRefs(schema)) && Below(c.root, SameRefs(schema), rank, bound)
    ensures Node(c, schema, v, path, fuel).Some?
    decreases Size(v), bound, Size(schema), 3
  {
    if !schema.Obj? {
      return 0;
    }
    var reference := GetStr(schema.members, "$ref");
    if reference.None? {
      fuel := KeywordsEnd(c, live, rank, schema, v, path, bound);
      return;
    }
    var found := Resolve(c, reference.value);
    if found.None? {
      return 1;
    }
    fuel := ReferenceEnds(c, live, rank, schema, reference.value, found.value.0, found.value.1, v, path, bound);
  }

  lemma {:induction false} ReferenceEnds(c: Ctx, live: Refs, rank: (Json, string) -> nat, schema: Json, reference: string,
                                         target: Json, root: Json, v: Json, path: string, bound: nat)
    returns (fuel: nat)
    requires schema.Obj? && GetStr(schema.members, "$ref") == Some(reference) && Resolve(c, reference) == Some((target, root))
    requires Ranked(c, live, rank) && (c.root, reference) in live && rank(c.root, reference) < bound
    ensures Node(c, schema, v, path, fuel).Some?
    decreases Size(v), bound, 0, 0
  {
    var next := c.(root := root);
    RankedStep(c, live, rank, reference, target, root);
    fuel := FollowEnds(next, live, rank, target, v, path, rank(c.root, reference));
    NodeFollows(c, schema, reference, target, next, v, path, fuel);
  }

  lemma {:induction false} FollowEnds(c: Ctx, live: Refs, rank: (Json, string) -> nat, target: Json, v: Json, path: string, bound: nat)
    returns (fuel: nat)
    requires Ranked(c, live, rank) && Covered(live, c.root, AllRefs(target)) && Below(c.root, SameRefs(target), rank, bound)
    ensures fuel > 0 && Node(c, target, v, path, fuel - 1).Some?
    decreases Size(v), bound, Size(target), 4
  {
    var rest := NodeEnds(c, live, rank, target, v, path, bound);
    fuel := rest + 1;
  }

  /** What is known where a reference leads. */
  lemma RankedStep(c: Ctx, live: Refs, rank: (Json, string) -> nat, reference: string, target: Json, root: Json)
    requires Ranked(c, live, rank) && (c.root, reference) in live && Resolve(c, reference) == Some((target, root))
    ensures Ranked(c.(root := root), live, rank)
    ensures Covered(live, root, AllRefs(target)) && Below(root, SameRefs(target), rank, rank(c.root, reference))
  {
    var next := c.(root := root);
    assert c.(root := c.root) == c;
    assert Descends(c, live, rank, c.root, reference);
    forall root, ref | (root, ref) in live ensures Descends(next, live, rank, root, ref) {
      assert Descends(c, live, rank, root, ref);
      assert next.(root := root) == c.(root := root);
    }
  }

  lemma {:induction false} KeywordsEnd(c: Ctx, live: Refs, rank: (Json, string) -> nat, schema: Json, v: Json, path: string, bound: nat)
    returns (fuel: nat)
    requires schema.Obj? && GetStr(schema.members, "$ref").None?
    requires Ranked(c, live, rank) && Covered(live, c.root, AllRefs(schema)) && Below(c.root, SameRefs(schema), rank, bound)
    ensures Keywords(c, schema.members, v, path, fuel).Some?
    decreases Size(v), bound, Size(schema), 2
  {
    var members := schema.members;
    var f1, f2 := 0, 0;
    if v.Obj? {
      f1 := ObjectEnds(c, live, rank, members, v.members, path);
    }
    if v.Arr? {
      f2 := ItemsEnd(c, live, rank, members, v.items, path);
    }
    var f3 := OneEnds(c, live, rank, members, "oneOf", v, path, bound);
    var f4 := OneEnds(c, live, rank, members, "anyOf", v, path, bound);
    fuel := Max(Max(f1, f2), Max(f3, f4));
    KeywordsJoin(c, members, v, path, f1, f2, f3, f4, fuel);
  }

  lemma KeywordsJoin(c: Ctx, members: seq<Member>, v: Json, path: string, f1: nat, f2: nat, f3: nat, f4: nat, fuel: nat)
    requires f1 <= fuel && f2 <= fuel && f3 <= fuel && f4 <= fuel
    requires v.Obj? ==> Object(c, members, v.members, path, f1).Some?
    requires v.Arr? ==> Items(c, members, v.items, path, f2).Some?
    requires OneEnded(c, members, "oneOf", v, path, f3) && OneEnded(c, members, "anyOf", v, path, f4)
    ensures Keywords(c, members, v, path, fuel).Some?
  {
    if v.Obj? {
      ObjectExtends(c, members, v.members, path, f1, fuel);
    }
    if v.Arr? {
      ItemsExtend(c, members, v.items, path, f2, fuel);
    }
    OneExtends(c, members, "oneOf", v, path, f3, fuel);
    OneExtends(c, members, "anyOf", v, path, f4, fuel);
    KeywordsSplit(c, members, v, path, fuel);
  }

  lemma KeywordsSplit(c: Ctx, members: seq<Member>, v: Json, path: string, fuel: nat)
    ensures Keywords(c, members, v, path, fuel).Some? <==>
            && (v.Obj? ==> Object(c, members, v.members, path, fuel).Some?)
            && (v.Arr? ==> Items(c, members, v.items, path, fuel).Some?)
            && OneEnded(c, members, "oneOf", v, path, fuel) && OneEnded(c, members, "anyOf", v, path, fuel)
  {
  }

  ghost predicate OneEnded(c: Ctx, members: seq<Member>, keyword: string, v: Json, path: string, fuel: nat) {
    var branches := GetArr(members, keyword);
    branches.Some? ==> Combinator(c, branches.value, v, path, fuel).Some?
  }

  lemma OneExtends(c: Ctx, members: seq<Member>, keyword: string, v: Json, path: string, fuel: nat, more: nat)
    requires fuel <= more && OneEnded(c, members, keyword, v, path, fuel)
    ensures OneEnded(c, members, keyword, v, path, more)
  {
    var branches := GetArr(members, keyword);
    if branches.Some? {
      CombinatorExtends(c, branches.value, v, path, fuel, more);
    }
  }

  lemma {:induction false} OneEnds(c: Ctx, live: Refs, rank: (Json, string) -> nat, members: seq<Member>, keyword: string, v: Json,
                                   path: string, bound: nat)
    returns (fuel: nat)
    requires Ranked(c, live, rank) && Covered(live, c.root, AllBranches(members, keyword))
    requires Below(c.root, KeywordRefs(members, keyword), rank, bound)
    ensures OneEnded(c, members, keyword, v, path, fuel)
    decreases Size(v), bound, 1 + SizeMembers(members), 1
  {
    fuel := 0;
    var branches := GetArr(members, keyword);
    if branches.Some? {
      fuel := PassesEnd(c, live, rank, branches.value, v, path, bound);
    }
  }

  lemma {:induction false} PassesEnd(c: Ctx, live: Refs, rank: (Json, string) -> nat, branches: seq<Json>, v: Json, path: string, bound: nat)
    returns (fuel: nat)
    requires Ranked(c, live, rank) && Covered(live, c.root, ListRefs(branches)) && Below(c.root, BranchRefs(branches), rank, bound)
    ensures Passes(c, branches, v, path, fuel).Some?
    decreases Size(v), bound, SizeAll(branches), 4
  {
    if branches == [] {
      return 0;
    }
    var first := NodeEnds(c, live, rank, branches[0], v, path, bound);
    var rest := PassesEnd(c, live, rank, branches[1..], v, path, bound);
    fuel := Max(first, rest);
    FuelIrrelevant(c, branches[0], v, path, first, fuel);
    PassesExtend(c, branches[1..], v, path, rest, fuel);
  }

  lemma {:induction false} ObjectEnds(c: Ctx, live: Refs, rank: (Json, string) -> nat, members: seq<Member>, v: seq<Member>, path: string)
    returns (fuel: nat)
    requires Ranked(c, live, rank) && Covered(live, c.root, PropertyRefs(Known(members)))
    requires Covered(live, c.root, PartRefs(members, "additionalProperties"))
    ensures Object(c, members, v, path, fuel).Some?
    decreases 1 + SizeMembers(v), 0, 1 + SizeMembers(members), 1
  {
    var known, extra := Known(members), Get(members, "additionalProperties");
    var first := PropertiesEnd(c, live, rank, known, v, path);
    var rest := 0;
    if extra.Some? && !extra.value.Bool? {
      rest := AdditionalEnds(c, live, rank, extra.value, known, v, path);
      AdditionalExtends(c, extra.value, known, v, path, rest, Max(first, rest));
    }
    fuel := Max(first, rest);
    PropertiesExtend(c, known, v, path, first, fuel);
  }

  /** A part of the value is smaller, so its references may have any rank. */
  lemma {:induction false} PartEnds(c: Ctx, live: Refs, rank: (Json, string) -> nat, schema: Json, part: Json, path: string)
    returns (fuel: nat)
    requires Ranked(c, live, rank) && Covered(live, c.root, AllRefs(schema))
    ensures Node(c, schema, part, path, fuel).Some?
    decreases 1 + Size(part), 0, 0, 0
  {
    var bound := BoundExists(c.root, SameRefs(schema), rank);
    fuel := NodeEnds(c, live, rank, schema, part, path, bound);
  }

  lemma {:induction false} PropertiesEnd(c: Ctx, live: Refs, rank: (Json, string) -> nat, props: seq<Member>, v: seq<Member>, path: string)
    returns (fuel: nat)
    requires Ranked(c, live, rank) && Covered(live, c.root, PropertyRefs(props))
    ensures Properties(c, props, v, path, fuel).Some?
    decreases 1 + SizeMembers(v), 0, SizeMembers(props), 5
  {
    if props == [] {
      return 0;
    }
    var value := Get(v, props[0].key);
    var rest := PropertiesEnd(c, live, rank, props[1..], v, path);
    fuel := rest;
    if value.Some? {
      var at := JoinPath(path, props[0].key);
      var first := PartEnds(c, live, rank, props[0].value, value.value, at);
      fuel := Max(first, rest);
      FuelIrrelevant(c, props[0].value, value.value, at, first, fuel);
      PropertiesExtend(c, props[1..], v, path, rest, fuel);
    }
  }

  lemma {:induction false} AdditionalEnds(c: Ctx, live: Refs, rank: (Json, string) -> nat, sub: Json, known: seq<Member>,
                                          v: seq<Member>, path: string)
    returns (fuel: nat)
    requires Ranked(c, live, rank) && Covered(live, c.root, AllRefs(sub))
    ensures Additional(c, sub, known, v, path, fuel).Some?
    decreases 1 + SizeMembers(v), 0, Size(sub), 4
  {
    if v == [] {
      return 0;
    }
    var at := JoinPath(path, v[0].key);
    var rest := AdditionalEnds(c, live, rank, sub, known, v[1..], path);
    MemberSmaller(v, 0);
    var first := PartEnds(c, live, rank, sub, v[0].value, at);
    fuel := Max(first, rest);
    FuelIrrelevant(c, sub, v[0].value, at, first, fuel);
    AdditionalExtends(c, sub, known, v[1..], path, rest, fuel);
  }

  lemma {:induction false} ItemsEnd(c: Ctx, live: Refs, rank: (Json, string) -> nat, members: seq<Member>, v: seq<Json>, path: string)
    returns (fuel: nat)
    requires Ranked(c, live, rank) && Covered(live, c.root, PartRefs(members, "items"))
    ensures Items(c, members, v, path, fuel).Some?
    decreases 1 + SizeAll(v), 0, 1 + SizeMembers(members), 1
  {
    fuel := 0;
    var sub := Get(members, "items");
    if sub.Some? {
      fuel := EachItemEnds(c, live, rank, sub.value, v, 0, path);
    }
  }

  lemma {:induction false} EachItemEnds(c: Ctx, live: Refs, rank: (Json, string) -> nat, sub: Json, v: seq<Json>, from: nat, path: string)
    returns (fuel: nat)
    requires Ranked(c, live, rank) && Covered(live, c.root, AllRefs(sub))
    ensures EachItem(c, sub, v, from, path, fuel).Some?
    decreases 1 + SizeAll(v), 0, Size(sub), |v| - from
  {
    if from >= |v| {
      return 0;
    }
    var at := JoinPath(path, Decimal(from));
    BranchSmaller(v, from);
    var first := PartEnds(c, live, rank, sub, v[from], at);
    var rest := EachItemEnds(c, live, rank, sub, v, from + 1, path);
    fuel := Max(first, rest);
    FuelIrrelevant(c, sub, v[from], at, first, fuel);
    EachItemExtends(c, sub, v, from + 1, path, rest, fuel);
  }

  /** Under ranked references the validator is a decision procedure: its walk ends, and reports nothing
      exactly when the value satisfies the schema. */
  lemma WalkEndsAndDecides(c: Ctx, live: Refs, rank: (Json, string) -> nat, schema: Json, v: Json, path: string)
    returns (fuel: nat)
    requires Ranked(c, live, rank) && Covered(live, c.root, AllRefs(schema))
    ensures Node(c, schema, v, path, fuel).Some?
    ensures Node(c, schema, v, path, fuel) == Some([]) <==> Valid(c, schema, v, fuel)
  {
    fuel := PartEnds(c, live, rank, schema, v, path);
    WalkDecides(c, schema, v, path, fuel);
  }

  /** A schema without references always ends. */
  lemma NoReferencesEnd(c: Ctx, schema: Json, v: Json, path: string) returns (fuel: nat)
    requires AllRefs(schema) == {}
    ensures Node(c, schema, v, path, fuel).Some?
  {
    fuel := PartEnds(c, iset{}, (_, _) => 0, schema, v, path);
  }

  /** A schema of trees refers to itself, but only for a child: it ends on every value. */
  function TreeSchema(): Json {
    Obj([Member("properties", Obj([Member("child", RootRef())]))])
  }

  lemma TreeRefs()
    ensures AllRefs(TreeSchema()) == {"#"} && SameRefs(TreeSchema()) == {}
  {
    var child := Member("child", RootRef());
    assert GetStr(RootRef().members, "$ref") == Some("#");
    assert [child][1..] == [];
    assert PropertyRefs([child]) == AllRefs(RootRef()) + PropertyRefs([]);
    assert Known(TreeSchema().members) == [child];
    assert TreeSchema().members[1..] == [];
  }

  lemma TreeSchemaEnds(c: Ctx, v: Json, path: string) returns (fuel: nat)
    requires c.root == TreeSchema()
    ensures Node(c, TreeSchema(), v, path, fuel).Some?
  {
    var live: Refs := iset{(TreeSchema(), "#")};
    var rank: (Json, string) -> nat := (_, _) => 0;
    TreeRefs();
    assert Resolve(c, "#") == Some((c.root, c.root)) && c.(root := c.root) == c;
    forall root, reference | (root, reference) in live ensures Descends(c, live, rank, root, reference) {
    }
    fuel := PartEnds(c, live, rank, TreeSchema(), v, path);
  }

  // ---------------------------------------------------------------------
  // Loops on the same value
  // ---------------------------------------------------------------------

  /** References the walk must follow on the value it was given: those of first branches. */
  function MustRefs(schema: Json): set<string>
    decreases Size(schema), 1
  {
    if !schema.Obj? then {}
    else
      var reference := GetStr(schema.members, "$ref");
      if reference.Some? then {reference.value}
      else FirstRefs(schema.members, "oneOf") + FirstRefs(schema.members, "anyOf")
  }

  function FirstRefs(members: seq<Member>, keyword: string): set<string>
    decreases 1 + SizeMembers(members), 0
  {
    var branches := GetArr(members, keyword);
    if branches.Some? && branches.value != [] then MustRefs(branches.value[0]) else {}
  }

  /** Every reference in `loop` leads to one that must be followed and is in `loop` again. */
  ghost predicate Trapped(c: Ctx, loop: Refs) {
    forall root, reference {:trigger Returns(c, loop, root, reference)} | (root, reference) in loop ::
      Returns(c, loop, root, reference)
  }

  ghost predicate Returns(c: Ctx, loop: Refs, root: Json, reference: string) {
    var found := Resolve(c.(root := root), reference);
    found.Some? && Enters(found.value.1, found.value.0, loop)
  }

  ghost predicate Enters(root: Json, schema: Json, loop: Refs) {
    exists r | r in MustRefs(schema) :: (root, r) in loop
  }

  /** A loop of references that must be followed never ends, in either mode and for every value. */
  lemma {:induction false} LoopNeverEnds(c: Ctx, loop: Refs, schema: Json, v: Json, path: string, fuel: nat)
    requires Trapped(c, loop) && Enters(c.root, schema, loop)
    ensures Node(c, schema, v, path, fuel) == None
    decreases fuel, Size(schema), 1
  {
    var reference := GetStr(schema.members, "$ref");
    if reference.None? {
      KeywordsLoop(c, loop, schema, v, path, fuel);
    } else {
      ReferenceLoops(c, loop, schema, reference.value, v, path, fuel);
    }
  }

  lemma {:induction false} ReferenceLoops(c: Ctx, loop: Refs, schema: Json, reference: string, v: Json, path: string, fuel: nat)
    requires schema.Obj? && GetStr(schema.members, "$ref") == Some(reference)
    requires Trapped(c, loop) && (c.root, reference) in loop
    ensures Node(c, schema, v, path, fuel) == None
    decreases fuel, Size(schema), 0
  {
    var target, root := TrappedStep(c, loop, reference);
    var next := c.(root := root);
    NodeFollows(c, schema, reference, target, next, v, path, fuel);
    if fuel > 0 {
      LoopNeverEnds(next, loop, target, v, path, fuel - 1);
    }
  }

  lemma NodeFollows(c: Ctx, schema: Json, reference: string, target: Json, next: Ctx, v: Json, path: string, fuel: nat)
    requires schema.Obj? && GetStr(schema.members, "$ref") == Some(reference)
    requires Resolve(c, reference) == Some((target, next.root)) && next == c.(root := next.root)
    ensures Node(c, schema, v, path, fuel) == if fuel == 0 then None else Node(next, target, v, path, fuel - 1)
  {
  }

  lemma {:induction false} KeywordsLoop(c: Ctx, loop: Refs, schema: Json, v: Json, path: string, fuel: nat)
    requires schema.Obj? && GetStr(schema.members, "$ref").None?
    requires Trapped(c, loop) && Enters(c.root, schema, loop)
    ensures Keywords(c, schema.members, v, path, fuel) == None
    decreases fuel, Size(schema), 0
  {
    var r :| r in MustRefs(schema) && (c.root, r) in loop;
    KeywordsSplit(c, schema.members, v, path, fuel);
    if r in FirstRefs(schema.members, "oneOf") {
      FirstBranchLoops(c, loop, schema.members, "oneOf", v, path, fuel);
    } else {
      FirstBranchLoops(c, loop, schema.members, "anyOf", v, path, fuel);
    }
  }

  lemma TrappedStep(c: Ctx, loop: Refs, reference: string) returns (target: Json, root: Json)
    requires Trapped(c, loop) && (c.root, reference) in loop
    ensures Resolve(c, reference) == Some((target, root))
    ensures Trapped(c.(root := root), loop) && Enters(root, target, loop)
  {
    assert c.(root := c.root) == c;
    assert Returns(c, loop, c.root, reference);
    target, root := Resolve(c, reference).value.0, Resolve(c, reference).value.1;
    var next := c.(root := root);
    forall root, ref | (root, ref) in loop ensures Returns(next, loop, root, ref) {
      assert Returns(c, loop, root, ref);
      assert next.(root := root) == c.(root := root);
    }
  }

  lemma {:induction false} FirstBranchLoops(c: Ctx, loop: Refs, members: seq<Member>, keyword: string, v: Json, path: string, fuel: nat)
    requires Trapped(c, loop) && exists r | r in FirstRefs(members, keyword) :: (c.root, r) in loop
    ensures !OneEnded(c, members, keyword, v, path, fuel)
    decreases fuel, SizeMembers(members), 2
  {
    var branches := GetArr(members, keyword).value;
    LoopNeverEnds(c, loop, branches[0], v, path, fuel);
    FirstOrRest(c, branches, v, path, fuel);
  }
}
