/** The validator as it runs: methods that append issues to a list, each proved to append exactly what
    the walk reports. */
module SchemaValidator {
  import opened Wrappers
  import opened SchemaWalk

  /** The walk ended and its issues were appended; or it ran out of fuel. */
  ghost predicate Reported(before: seq<Issue>, found: Found, ok: bool, after: seq<Issue>) {
    ok == found.Some? && (ok ==> after == before + found.value)
  }

  lemma ReportedThen(a: seq<Issue>, f: Found, b: seq<Issue>, g: Found, ok: bool, d: seq<Issue>)
    requires Reported(a, f, true, b) && Reported(b, g, ok, d)
    ensures Reported(a, Then(f, g), ok, d)
  {
    if ok {
      assert a + f.value + g.value == a + (f.value + g.value);
    }
  }

  method Push(errors: seq<Issue>, broken: bool, path: string, code: string) returns (out: seq<Issue>)
    ensures out == errors + When(broken, path, code)
  {
    out := if broken then errors + [Issue(path, code)] else errors;
  }

  method ValidateNode(c: Ctx, schema: Json, v: Json, path: string, fuel: nat, errors: seq<Issue>)
    returns (ok: bool, out: seq<Issue>)
    ensures Reported(errors, Node(c, schema, v, path, fuel), ok, out)
    decreases fuel, Size(schema), 3
  {
    if schema.Bool? {
      out := Push(errors, !schema.b, path, "schema_false");
      return true, out;
    }
    if !schema.Obj? {
      return true, errors;
    }
    var reference := GetStr(schema.members, "$ref");
    if reference.None? {
      ok, out := CheckKeywords(c, schema.members, v, path, fuel, errors);
      return;
    }
    if fuel == 0 {
      return false, errors;
    }
    var target := Resolve(c, reference.value);
    if target.None? {
      return true, errors + [Issue(path, "unresolved_ref")];
    }
    ok, out := ValidateNode(c.(root := target.value.1), target.value.0, v, path, fuel - 1, errors);
  }

  method CheckKeywords(c: Ctx, members: seq<Member>, v: Json, path: string, fuel: nat, errors: seq<Issue>)
    returns (ok: bool, out: seq<Issue>)
    ensures Reported(errors, Keywords(c, members, v, path, fuel), ok, out)
    decreases fuel, 1 + SizeMembers(members), 2
  {
    var one, any := GetArr(members, "oneOf"), GetArr(members, "anyOf");
    ghost var f0: Found := Some(Leaf(c, members, v, path));
    ghost var f1: Found := if v.Obj? then Object(c, members, v.members, path, fuel) else Some([]);
    ghost var f2: Found := if v.Arr? then Items(c, members, v.items, path, fuel) else Some([]);
    ghost var f3: Found := if one.Some? then Combinator(c, one.value, v, path, fuel) else Some([]);
    ghost var f4: Found := if any.Some? then Combinator(c, any.value, v, path, fuel) else Some([]);
    ok, out := true, errors + Leaf(c, members, v, path);
    ghost var o0 := out;
    if v.Obj? {
      ok, out := CheckObject(c, members, v.members, path, fuel, out);
    }
    ReportedThen(errors, f0, o0, f1, ok, out);
    if !ok {
      return;
    }
    ghost var o1 := out;
    if v.Arr? {
      ok, out := CheckItems(c, members, v.items, path, fuel, out);
    }
    ReportedThen(errors, Then(f0, f1), o1, f2, ok, out);
    if !ok {
      return;
    }
    ghost var o2 := out;
    if one.Some? {
      ok, out := CheckCombinator(c, one.value, v, path, fuel, out);
    }
    ReportedThen(errors, Then(Then(f0, f1), f2), o2, f3, ok, out);
    if !ok {
      return;
    }
    ghost var o3 := out;
    if any.Some? {
      ok, out := CheckCombinator(c, any.value, v, path, fuel, out);
    }
    ReportedThen(errors, Then(Then(Then(f0, f1), f2), f3), o3, f4, ok, out);
  }

  method CheckObject(c: Ctx, members: seq<Member>, v: seq<Member>, path: string, fuel: nat, errors: seq<Issue>)
    returns (ok: bool, out: seq<Issue>)
    ensures Reported(errors, Object(c, members, v, path, fuel), ok, out)
    decreases fuel, 1 + SizeMembers(members), 1
  {
    var props, extra := GetObj(members, "properties"), Get(members, "additionalProperties");
    var known := if props.Some? then props.value else [];
    out := errors;
    ghost var f0: Found := Some(StrictOnly(c, members, known, v, path, false));
    if c.mode == Strict {
      var required := GetArr(members, "required");
      if required.Some? {
        out := CheckRequired(required.value, v, path, out);
      }
    }
    ghost var o0 := out;
    ok, out := CheckProperties(c, known, v, path, fuel, out);
    ghost var f1 := Properties(c, known, v, path, fuel);
    ReportedThen(errors, f0, o0, f1, ok, out);
    if !ok {
      return;
    }
    ghost var o1 := out;
    if extra.Some? && !extra.value.Bool? {
      ok, out := CheckAdditional(c, extra.value, known, v, path, fuel, out);
      ReportedThen(errors, Then(f0, f1), o1, Additional(c, extra.value, known, v, path, fuel), ok, out);
    } else {
      if extra == Some(Bool(false)) && c.mode == Strict {
        out := CheckUnexpected(known, v, path, out);
      }
      ReportedThen(errors, Then(f0, f1), o1, Some(StrictOnly(c, members, known, v, path, true)), true, out);
    }
  }

  method CheckRequired(required: seq<Json>, v: seq<Member>, path: string, errors: seq<Issue>) returns (out: seq<Issue>)
    ensures out == errors + Missing(required, v, path)
  {
    out := errors;
    for i := 0 to |required|
      invariant out + Missing(required[i..], v, path) == errors + Missing(required, v, path)
    {
      MissingStep(required, i, v, path);
      ghost var before := out;
      if required[i].Str? {
        out := Push(out, Get(v, required[i].s).None?, JoinPath(path, required[i].s), "missing_required");
      }
      Associative(before, MissingOne(required[i], v, path), Missing(required[i + 1..], v, path));
    }
  }

  lemma MissingStep(required: seq<Json>, i: nat, v: seq<Member>, path: string)
    requires i < |required|
    ensures Missing(required[i..], v, path) == MissingOne(required[i], v, path) + Missing(required[i + 1..], v, path)
  {
    assert required[i..][1..] == required[i + 1..];
  }

  method CheckUnexpected(known: seq<Member>, v: seq<Member>, path: string, errors: seq<Issue>) returns (out: seq<Issue>)
    ensures out == errors + Unexpected(known, v, path)
  {
    out := errors;
    for i := 0 to |v|
      invariant out + Unexpected(known, v[i..], path) == errors + Unexpected(known, v, path)
    {
      assert v[i..][1..] == v[i + 1..];
      out := Push(out, Get(known, v[i].key).None?, JoinPath(path, v[i].key), "additional_property");
    }
  }

  /** What was appended so far, followed by what is left, is the whole. */
  ghost predicate Partial(before: seq<Issue>, out: seq<Issue>, rest: Found, whole: Found) {
    exists done :: out == before + done && whole == Then(Some(done), rest)
  }

  lemma PartialStart(before: seq<Issue>, whole: Found)
    ensures Partial(before, before, whole, whole)
  {
    assert before == before + [];
    if whole.Some? {
      assert [] + whole.value == whole.value;
    }
    assert whole == Then(Some([]), whole);
  }

  lemma PartialStep(before: seq<Issue>, mid: seq<Issue>, f: Found, rest: Found, whole: Found, ok: bool, out: seq<Issue>)
    requires Partial(before, mid, Then(f, rest), whole) && Reported(mid, f, ok, out)
    ensures ok ==> Partial(before, out, rest, whole)
    ensures !ok ==> whole.None?
  {
    var done :| mid == before + done && whole == Then(Some(done), Then(f, rest));
    if ok {
      assert before + done + f.value == before + (done + f.value);
      if rest.Some? {
        assert done + (f.value + rest.value) == done + f.value + rest.value;
      }
      assert whole == Then(Some(done + f.value), rest);
    }
  }

  lemma PartialEnd(before: seq<Issue>, out: seq<Issue>, whole: Found)
    requires Partial(before, out, Some([]), whole)
    ensures Reported(before, whole, true, out)
  {
    var done: seq<Issue> :| out == before + done && whole == Then(Some(done), Some([]));
    assert done + [] == done;
  }

  method CheckProperties(c: Ctx, props: seq<Member>, v: seq<Member>, path: string, fuel: nat, errors: seq<Issue>)
    returns (ok: bool, out: seq<Issue>)
    ensures Reported(errors, Properties(c, props, v, path, fuel), ok, out)
    decreases fuel, SizeMembers(props), 5
  {
    ghost var whole := Properties(c, props, v, path, fuel);
    out := errors;
    PartialStart(errors, whole);
    assert props[0..] == props;
    for i := 0 to |props|
      invariant Partial(errors, out, Properties(c, props[i..], v, path, fuel), whole)
    {
      assert props[i..][1..] == props[i + 1..];
      var value := Get(v, props[i].key);
      if value.Some? {
        ghost var mid := out;
        MemberSmaller(props, i);
        ok, out := CheckProperty(c, props[i], value.value, path, fuel, out);
        PartialStep(errors, mid, Property(c, props[i], value.value, path, fuel),
                    Properties(c, props[i + 1..], v, path, fuel), whole, ok, out);
        if !ok {
          return;
        }
      }
    }
    PartialEnd(errors, out, whole);
    ok := true;
  }

  method CheckProperty(c: Ctx, prop: Member, value: Json, path: string, fuel: nat, errors: seq<Issue>)
    returns (ok: bool, out: seq<Issue>)
    ensures Reported(errors, Property(c, prop, value, path, fuel), ok, out)
    decreases fuel, SizeMember(prop), 4
  {
    ok, out := ValidateNode(c, prop.value, value, JoinPath(path, prop.key), fuel, errors);
  }

  method CheckAdditional(c: Ctx, sub: Json, known: seq<Member>, v: seq<Member>, path: string, fuel: nat, errors: seq<Issue>)
    returns (ok: bool, out: seq<Issue>)
    ensures Reported(errors, Additional(c, sub, known, v, path, fuel), ok, out)
    decreases fuel, Size(sub), 4
  {
    ghost var whole := Additional(c, sub, known, v, path, fuel);
    out := errors;
    PartialStart(errors, whole);
    assert v[0..] == v;
    for i := 0 to |v|
      invariant Partial(errors, out, Additional(c, sub, known, v[i..], path, fuel), whole)
    {
      assert v[i..][1..] == v[i + 1..];
      if Get(known, v[i].key).None? {
        ghost var mid := out;
        ok, out := ValidateNode(c, sub, v[i].value, JoinPath(path, v[i].key), fuel, out);
        PartialStep(errors, mid, Node(c, sub, v[i].value, JoinPath(path, v[i].key), fuel),
                    Additional(c, sub, known, v[i + 1..], path, fuel), whole, ok, out);
        if !ok {
          return;
        }
      }
    }
    PartialEnd(errors, out, whole);
    ok := true;
  }

  method CheckItems(c: Ctx, members: seq<Member>, v: seq<Json>, path: string, fuel: nat, errors: seq<Issue>)
    returns (ok: bool, out: seq<Issue>)
    ensures Reported(errors, Items(c, members, v, path, fuel), ok, out)
    decreases fuel, 1 + SizeMembers(members), 1
  {
    var sub := Get(members, "items");
    if sub.None? {
      return true, errors;
    }
    ghost var whole := EachItem(c, sub.value, v, 0, path, fuel);
    out := errors;
    PartialStart(errors, whole);
    for i := 0 to |v|
      invariant Partial(errors, out, EachItem(c, sub.value, v, i, path, fuel), whole)
    {
      ghost var mid := out;
      ok, out := ValidateNode(c, sub.value, v[i], JoinPath(path, Decimal(i)), fuel, out);
      PartialStep(errors, mid, Node(c, sub.value, v[i], JoinPath(path, Decimal(i)), fuel),
                  EachItem(c, sub.value, v, i + 1, path, fuel), whole, ok, out);
      if !ok {
        return;
      }
    }
    PartialEnd(errors, out, whole);
    ok := true;
  }

  /** Each branch is tried on a list of its own, thrown away. */
  method CheckCombinator(c: Ctx, branches: seq<Json>, v: Json, path: string, fuel: nat, errors: seq<Issue>)
    returns (ok: bool, out: seq<Issue>)
    ensures Reported(errors, Combinator(c, branches, v, path, fuel), ok, out)
    decreases fuel, SizeAll(branches), 5
  {
    if branches == [] {
      return true, errors;
    }
    assert branches[0..] == branches;
    for i := 0 to |branches|
      invariant Passes(c, branches, v, path, fuel) == Passes(c, branches[i..], v, path, fuel)
    {
      assert branches[i..][1..] == branches[i + 1..];
      BranchSmaller(branches, i);
      var branchErrors: seq<Issue>;
      ok, branchErrors := ValidateNode(c, branches[i], v, path, fuel, []);
      if !ok {
        return false, errors;
      }
      if branchErrors == [] {
        return true, errors;
      }
    }
    return true, errors + [Issue(path, "combinator_mismatch")];
  }
}
