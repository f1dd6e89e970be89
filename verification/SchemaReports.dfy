/** What the validator reports: which code stands for which broken keyword, and where in the value each
    reported path, read as a JSON pointer (RFC 6901), leads. */
module SchemaReports {
  import opened Wrappers
  import opened Splitting
  import opened SchemaWalk
  import opened SchemaMeaning

  // ---------------------------------------------------------------------
  // Codes
  // ---------------------------------------------------------------------

  /** The keyword that asks this of any value is broken. */
  ghost predicate ValueBroken(members: seq<Member>, v: Json, code: string) {
    || (code == "type_mismatch" && !TypeOk(members, v))
    || (code == "const_mismatch" && exists x :: Get(members, "const") == Some(x) && v != x)
    || (code == "enum_mismatch" && exists xs :: Get(members, "enum") == Some(Arr(xs)) && v !in xs)
  }

  ghost predicate NumberBroken(members: seq<Member>, v: Json, code: string) {
    v.Num? && (
      || (code == "below_minimum" && exists x, integral :: Get(members, "minimum") == Some(Num(x, integral)) && v.value < x)
      || (code == "above_maximum" && exists x, integral :: Get(members, "maximum") == Some(Num(x, integral)) && v.value > x))
  }

  ghost predicate TextBroken(c: Ctx, members: seq<Member>, v: Json, code: string) {
    v.Str? && (
      || (code == "below_min_length" && !AtLeast(members, "minLength", |v.s|))
      || (code == "above_max_length" && !AtMost(members, "maxLength", |v.s|))
      || (code == "pattern_mismatch" && exists p :: Get(members, "pattern") == Some(Str(p)) && !c.matches(p, v.s)))
  }

  ghost predicate ElementsBroken(members: seq<Member>, v: Json, code: string) {
    v.Arr? && (
      || (code == "below_min_items" && !AtLeast(members, "minItems", |v.items|))
      || (code == "above_max_items" && !AtMost(members, "maxItems", |v.items|))
      || (code == "duplicate_items" && Get(members, "uniqueItems") == Some(Bool(true))
          && exists i, j :: 0 <= i < j < |v.items| && v.items[i] == v.items[j]))
  }

  /** The keyword a code stands for is broken by the value. */
  ghost predicate Broken(c: Ctx, members: seq<Member>, v: Json, code: string) {
    ValueBroken(members, v, code) || NumberBroken(members, v, code) || TextBroken(c, members, v, code)
    || ElementsBroken(members, v, code)
  }

  function ValueIssues(members: seq<Member>, v: Json, path: string): seq<Issue> {
    var expected, choices := Get(members, "const"), GetArr(members, "enum");
    When(WrongType(members, v), path, "type_mismatch")
    + When(expected.Some? && expected.value != v, path, "const_mismatch")
    + When(choices.Some? && v !in choices.value, path, "enum_mismatch")
  }

  lemma ValueReports(members: seq<Member>, v: Json, path: string, issue: Issue)
    ensures issue in ValueIssues(members, v, path) <==> issue.path == path && ValueBroken(members, v, issue.code)
  {
    TypeDecided(members, v);
  }

  lemma NumberReports(members: seq<Member>, v: Json, path: string, issue: Issue)
    ensures issue in Numeric(members, v, path) <==> issue.path == path && NumberBroken(members, v, issue.code)
  {
  }

  lemma TextReports(c: Ctx, members: seq<Member>, v: Json, path: string, issue: Issue)
    ensures issue in Text(c, members, v, path) <==> issue.path == path && TextBroken(c, members, v, issue.code)
  {
    if v.Str? {
      BoundsMean(members, "minLength", "maxLength", |v.s|);
    }
  }

  lemma ElementsReport(members: seq<Member>, v: Json, path: string, issue: Issue)
    ensures issue in Elements(members, v, path) <==> issue.path == path && ElementsBroken(members, v, issue.code)
  {
    if v.Arr? {
      BoundsMean(members, "minItems", "maxItems", |v.items|);
    }
  }

  lemma LeafParts(c: Ctx, members: seq<Member>, v: Json, path: string)
    ensures Leaf(c, members, v, path)
         == ValueIssues(members, v, path) + Numeric(members, v, path) + Text(c, members, v, path) + Elements(members, v, path)
  {
  }

  /** The checks of one value report exactly the codes of the keywords it breaks, at its own path. */
  lemma LeafReports(c: Ctx, members: seq<Member>, v: Json, path: string, issue: Issue)
    ensures issue in Leaf(c, members, v, path) <==> issue.path == path && Broken(c, members, v, issue.code)
  {
    LeafParts(c, members, v, path);
    ValueReports(members, v, path, issue);
    NumberReports(members, v, path, issue);
    TextReports(c, members, v, path, issue);
    ElementsReport(members, v, path, issue);
  }

  /** Missing keys are reported one by one, under the name that is missing. */
  lemma {:induction false} MissingReports(required: seq<Json>, v: seq<Member>, path: string, issue: Issue)
    ensures issue in Missing(required, v, path)
       <==> exists name :: Str(name) in required && !HasKey(v, name) && issue == Issue(JoinPath(path, name), "missing_required")
    decreases |required|
  {
    if required != [] {
      MissingReports(required[1..], v, path, issue);
      assert forall x :: x in required <==> x == required[0] || x in required[1..];
    }
  }

  /** So are keys a closed object does not know. */
  lemma {:induction false} UnexpectedReports(known: seq<Member>, v: seq<Member>, path: string, issue: Issue)
    ensures issue in Unexpected(known, v, path)
       <==> exists i :: 0 <= i < |v| && !HasKey(known, v[i].key) && issue == Issue(JoinPath(path, v[i].key), "additional_property")
    decreases |v|
  {
    if v != [] {
      UnexpectedReports(known, v[1..], path, issue);
      assert forall i | 0 < i < |v| :: v[i] == v[1..][i - 1];
    }
  }

  // ---------------------------------------------------------------------
  // Pointers
  // ---------------------------------------------------------------------

  predicate IsSlash(c: char) {
    c == '/'
  }

  /** `~1` stands for a slash, `~0` for a tilde. */
  function Unescape(s: string): string {
    if s == "" then ""
    else if |s| > 1 && s[0] == '~' && s[1] == '1' then "/" + Unescape(s[2..])
    else if |s| > 1 && s[0] == '~' && s[1] == '0' then "~" + Unescape(s[2..])
    else [s[0]] + Unescape(s[1..])
  }

  function UnescapeAll(pieces: seq<string>): seq<string> {
    if pieces == [] then [] else [Unescape(pieces[0])] + UnescapeAll(pieces[1..])
  }

  /** The reference tokens of a pointer. */
  function ReadPointer(pointer: string): seq<string> {
    UnescapeAll(Split(pointer, IsSlash)[1..])
  }

  /** The value of an array index as written. */
  function ReadIndex(s: string): Option<nat> {
    if s == "" then None else AddDigit(|s| == 1, ReadIndex(s[..|s| - 1]), s[|s| - 1])
  }

  function AddDigit(first: bool, before: Option<nat>, digit: char): Option<nat> {
    if !('0' <= digit <= '9') then None
    else if first then Some(digit as nat - '0' as nat)
    else if before.None? then None
    else Some(10 * before.value + (digit as nat - '0' as nat))
  }

  lemma {:induction false} EscapeReadsBack(s: string)
    ensures Unescape(Escape(s)) == s
    ensures forall i | 0 <= i < |Escape(s)| :: Escape(s)[i] != '/'
    decreases |s|
  {
    if s != "" {
      EscapeReadsBack(s[1..]);
      var rest := Escape(s[1..]);
      if s[0] == '~' {
        assert Escape(s) == "~0" + rest && Escape(s)[2..] == rest;
      } else if s[0] == '/' {
        assert Escape(s) == "~1" + rest && Escape(s)[2..] == rest;
      } else {
        assert Escape(s) == [s[0]] + rest && Escape(s)[1..] == rest;
      }
      assert s == [s[0]] + s[1..];
    }
  }

  lemma {:induction false} UnescapeSnoc(pieces: seq<string>, x: string)
    ensures UnescapeAll(pieces + [x]) == UnescapeAll(pieces) + [Unescape(x)]
    decreases |pieces|
  {
    if pieces == [] {
      assert [x][1..] == [] && [] + [x] == [x];
    } else {
      assert (pieces + [x])[1..] == pieces[1..] + [x];
      UnescapeSnoc(pieces[1..], x);
    }
  }

  /** Joining a segment to a pointer adds one reference token, whatever it contains. */
  lemma JoinReadsBack(base: string, segment: string)
    ensures ReadPointer(JoinPath(base, segment)) == ReadPointer(base) + [segment]
  {
    var x := Escape(segment);
    EscapeReadsBack(segment);
    SplitAt(base, '/', x, IsSlash);
    SplitText(x, IsSlash);
    assert JoinPath(base, segment) == base + ['/'] + x;
    var pieces := Split(base, IsSlash);
    assert (pieces + [x])[1..] == pieces[1..] + [x];
    UnescapeSnoc(pieces[1..], x);
  }

  lemma DigitRead(init: string, digit: char, s: string)
    requires s == init + [digit]
    ensures ReadIndex(s) == AddDigit(init == "", ReadIndex(init), digit)
  {
    assert s[..|s| - 1] == init;
  }

  lemma IndexStep(n: nat, init: string, digit: char, s: string)
    requires s == init + [digit] && '0' <= digit <= '9' && digit as nat - '0' as nat == n % 10
    requires if n < 10 then init == "" else init != "" && ReadIndex(init) == Some(n / 10)
    ensures ReadIndex(s) == Some(n)
  {
    DigitRead(init, digit, s);
  }

  lemma DecimalSplit(n: nat) returns (init: string, digit: char)
    ensures Decimal(n) == init + [digit] && '0' <= digit <= '9' && digit as nat - '0' as nat == n % 10
    ensures if n < 10 then init == "" else init == Decimal(n / 10)
  {
    init, digit := if n < 10 then "" else Decimal(n / 10), "0123456789"[n % 10];
  }

  lemma DecimalNotEmpty(n: nat)
    ensures Decimal(n) != ""
  {
  }

  lemma {:induction false} IndexReadsBack(n: nat)
    ensures ReadIndex(Decimal(n)) == Some(n)
  {
    var init, digit := DecimalSplit(n);
    if n >= 10 {
      IndexReadsBack(n / 10);
      DecimalNotEmpty(n / 10);
    }
    IndexStep(n, init, digit, Decimal(n));
  }

  // ---------------------------------------------------------------------
  // Locations
  // ---------------------------------------------------------------------

  /** `part` is found in `v` under this reference token. */
  ghost predicate Holds(v: Json, token: string, part: Json) {
    match v
    case Obj(members) => Member(token, part) in members
    case Arr(items) => exists i: nat :: i < |items| && ReadIndex(token) == Some(i) && items[i] == part
    case _ => false
  }

  /** Following the reference tokens from `v` leads to `part`. */
  ghost predicate Leads(v: Json, tokens: seq<string>, part: Json) {
    if tokens == [] then part == v
    else exists next :: Holds(v, tokens[0], next) && Leads(next, tokens[1..], part)
  }

  /** Where an issue may be: at a part of the value, or at a key its object lacks. */
  ghost predicate At(v: Json, tokens: seq<string>, code: string) {
    if code == "missing_required" then
      tokens != [] && exists members ::
        Leads(v, tokens[..|tokens| - 1], Obj(members)) && !HasKey(members, tokens[|tokens| - 1])
    else exists part :: Leads(v, tokens, part)
  }

  /** The issue lies in `v`, which itself lies at `path`. */
  ghost predicate Within(path: string, v: Json, issue: Issue) {
    exists tokens :: ReadPointer(issue.path) == ReadPointer(path) + tokens && At(v, tokens, issue.code)
  }

  ghost predicate AllWithin(path: string, v: Json, issues: seq<Issue>) {
    forall issue | issue in issues :: Within(path, v, issue)
  }

  ghost predicate Placed(path: string, v: Json, found: Found) {
    found.Some? ==> AllWithin(path, v, found.value)
  }

  lemma AtHere(path: string, v: Json, code: string)
    requires code != "missing_required"
    ensures Within(path, v, Issue(path, code))
  {
    assert Leads(v, [], v) && At(v, [], code);
    assert ReadPointer(path) == ReadPointer(path) + [];
  }

  lemma AtPart(path: string, v: Json, token: string, part: Json, code: string)
    requires Holds(v, token, part) && code != "missing_required"
    ensures Within(path, v, Issue(JoinPath(path, token), code))
  {
    JoinReadsBack(path, token);
    assert [token][1..] == [] && Leads(part, [], part);
    assert Leads(v, [token], part) && At(v, [token], code);
  }

  lemma AtMissing(path: string, members: seq<Member>, name: string)
    requires !HasKey(members, name)
    ensures Within(path, Obj(members), Issue(JoinPath(path, name), "missing_required"))
  {
    JoinReadsBack(path, name);
    assert [name][..0] == [] && Leads(Obj(members), [], Obj(members));
    assert At(Obj(members), [name], "missing_required");
  }

  lemma AtDeeper(v: Json, token: string, part: Json, tokens: seq<string>, code: string)
    requires Holds(v, token, part) && At(part, tokens, code)
    ensures At(v, [token] + tokens, code)
  {
    var all := [token] + tokens;
    assert all[1..] == tokens;
    if code == "missing_required" {
      var members :| Leads(part, tokens[..|tokens| - 1], Obj(members)) && !HasKey(members, tokens[|tokens| - 1]);
      var init := all[..|all| - 1];
      assert init[0] == token && init[1..] == tokens[..|tokens| - 1];
      assert Leads(v, init, Obj(members));
    } else {
      var x :| Leads(part, tokens, x);
      assert Leads(v, all, x);
    }
  }

  lemma WithinDeeper(path: string, v: Json, token: string, part: Json, issue: Issue)
    requires Holds(v, token, part) && Within(JoinPath(path, token), part, issue)
    ensures Within(path, v, issue)
  {
    var tokens :| ReadPointer(issue.path) == ReadPointer(JoinPath(path, token)) + tokens && At(part, tokens, issue.code);
    JoinReadsBack(path, token);
    AtDeeper(v, token, part, tokens, issue.code);
    Associative(ReadPointer(path), [token], tokens);
  }

  lemma PlacedDeeper(path: string, v: Json, token: string, part: Json, found: Found)
    requires Holds(v, token, part) && Placed(JoinPath(path, token), part, found)
    ensures Placed(path, v, found)
  {
    if found.Some? {
      forall issue | issue in found.value ensures Within(path, v, issue) {
        WithinDeeper(path, v, token, part, issue);
      }
    }
  }

  lemma PlacedThen(path: string, v: Json, a: Found, b: Found)
    requires Placed(path, v, a) && Placed(path, v, b)
    ensures Placed(path, v, Then(a, b))
  {
  }

  // ---------------------------------------------------------------------
  // Every issue is placed
  // ---------------------------------------------------------------------

  lemma LeafCode(c: Ctx, members: seq<Member>, v: Json, path: string, issue: Issue)
    requires issue in Leaf(c, members, v, path)
    ensures issue.path == path && issue.code != "missing_required"
  {
    LeafReports(c, members, v, path, issue);
  }

  lemma LeafPlaced(c: Ctx, members: seq<Member>, v: Json, path: string, leaf: seq<Issue>)
    requires leaf == Leaf(c, members, v, path)
    ensures AllWithin(path, v, leaf)
  {
    forall issue | issue in leaf ensures Within(path, v, issue) {
      LeafCode(c, members, v, path, issue);
      AtHere(path, v, issue.code);
    }
  }

  lemma CombinatorPlaced(c: Ctx, members: seq<Member>, keyword: string, v: Json, path: string, fuel: nat)
    ensures var branches := GetArr(members, keyword);
            Placed(path, v, if branches.Some? then Combinator(c, branches.value, v, path, fuel) else Some([]))
  {
    AtHere(path, v, "combinator_mismatch");
  }

  lemma StrictPlaced(c: Ctx, members: seq<Member>, known: seq<Member>, v: seq<Member>, path: string, after: bool)
    ensures AllWithin(path, Obj(v), StrictOnly(c, members, known, v, path, after))
  {
    var issues, required := StrictOnly(c, members, known, v, path, after), GetArr(members, "required");
    forall issue | issue in issues ensures Within(path, Obj(v), issue) {
      if after {
        UnexpectedReports(known, v, path, issue);
        var i :| 0 <= i < |v| && issue == Issue(JoinPath(path, v[i].key), "additional_property");
        assert v[i] == Member(v[i].key, v[i].value);
        AtPart(path, Obj(v), v[i].key, v[i].value, issue.code);
      } else {
        MissingReports(required.value, v, path, issue);
        var name :| !HasKey(v, name) && issue == Issue(JoinPath(path, name), "missing_required");
        AtMissing(path, v, name);
      }
    }
  }

  /** Every issue the walk reports lies in the value: its path, read as a pointer, leads to a part of it,
      or to a key that an object of it lacks. */
  lemma {:induction false} NodePlaced(c: Ctx, schema: Json, v: Json, path: string, fuel: nat)
    ensures Placed(path, v, Node(c, schema, v, path, fuel))
    decreases fuel, Size(schema), 3
  {
    match schema
    case Bool(_) => AtHere(path, v, "schema_false");
    case Obj(members) =>
      var reference := GetStr(members, "$ref");
      if reference.None? {
        KeywordsPlaced(c, members, v, path, fuel);
      } else if fuel > 0 {
        var target := Resolve(c, reference.value);
        if target.Some? {
          NodePlaced(c.(root := target.value.1), target.value.0, v, path, fuel - 1);
        } else {
          AtHere(path, v, "unresolved_ref");
        }
      }
    case _ =>
  }

  lemma {:induction false} KeywordsPlaced(c: Ctx, members: seq<Member>, v: Json, path: string, fuel: nat)
    ensures Placed(path, v, Keywords(c, members, v, path, fuel))
    decreases fuel, 1 + SizeMembers(members), 2
  {
    if v.Obj? {
      ObjectPlaced(c, members, v, path, fuel);
    }
    if v.Arr? {
      ItemsPlaced(c, members, v, path, fuel);
    }
    CombinatorPlaced(c, members, "oneOf", v, path, fuel);
    CombinatorPlaced(c, members, "anyOf", v, path, fuel);
    LeafPlaced(c, members, v, path, Leaf(c, members, v, path));
    KeywordsJoin(c, members, v, path, fuel);
  }

  lemma KeywordsJoin(c: Ctx, members: seq<Member>, v: Json, path: string, fuel: nat)
    requires Placed(path, v, Some(Leaf(c, members, v, path)))
    requires Placed(path, v, if v.Obj? then Object(c, members, v.members, path, fuel) else Some([]))
    requires Placed(path, v, if v.Arr? then Items(c, members, v.items, path, fuel) else Some([]))
    requires forall keyword | keyword in {"oneOf", "anyOf"} ::
               var branches := GetArr(members, keyword);
               Placed(path, v, if branches.Some? then Combinator(c, branches.value, v, path, fuel) else Some([]))
    ensures Placed(path, v, Keywords(c, members, v, path, fuel))
  {
    var one, any := GetArr(members, "oneOf"), GetArr(members, "anyOf");
    var leaf: Found := Some(Leaf(c, members, v, path));
    var fields: Found := if v.Obj? then Object(c, members, v.members, path, fuel) else Some([]);
    var items: Found := if v.Arr? then Items(c, members, v.items, path, fuel) else Some([]);
    var ones: Found := if one.Some? then Combinator(c, one.value, v, path, fuel) else Some([]);
    var anys: Found := if any.Some? then Combinator(c, any.value, v, path, fuel) else Some([]);
    assert Keywords(c, members, v, path, fuel) == Then(Then(Then(Then(leaf, fields), items), ones), anys);
    FivePlaced(path, v, leaf, fields, items, ones, anys);
  }

  lemma FivePlaced(path: string, v: Json, a: Found, b: Found, d: Found, e: Found, f: Found)
    requires Placed(path, v, a) && Placed(path, v, b) && Placed(path, v, d) && Placed(path, v, e) && Placed(path, v, f)
    ensures Placed(path, v, Then(Then(Then(Then(a, b), d), e), f))
  {
    PlacedThen(path, v, a, b);
    PlacedThen(path, v, Then(a, b), d);
    PlacedThen(path, v, Then(Then(a, b), d), e);
  }

  lemma {:induction false} ObjectPlaced(c: Ctx, members: seq<Member>, v: Json, path: string, fuel: nat)
    requires v.Obj?
    ensures Placed(path, v, Object(c, members, v.members, path, fuel))
    decreases fuel, 1 + SizeMembers(members), 1
  {
    var known, extra := Known(members), Get(members, "additionalProperties");
    StrictPlaced(c, members, known, v.members, path, false);
    StrictPlaced(c, members, known, v.members, path, true);
    PropertiesPlaced(c, known, v, path, fuel);
    if extra.Some? && !extra.value.Bool? {
      AdditionalPlaced(c, extra.value, known, v, v.members, path, fuel);
    }
  }

  lemma {:induction false} PropertiesPlaced(c: Ctx, props: seq<Member>, v: Json, path: string, fuel: nat)
    requires v.Obj?
    ensures Placed(path, v, Properties(c, props, v.members, path, fuel))
    decreases fuel, SizeMembers(props), 5
  {
    if props != [] {
      var value := Get(v.members, props[0].key);
      PropertiesPlaced(c, props[1..], v, path, fuel);
      if value.Some? {
        GetIsFirst(v.members, props[0].key, value.value);
        PropertyPlaced(c, props[0], value.value, path, fuel);
        PlacedDeeper(path, v, props[0].key, value.value, Property(c, props[0], value.value, path, fuel));
      }
    }
  }

  lemma {:induction false} PropertyPlaced(c: Ctx, prop: Member, value: Json, path: string, fuel: nat)
    ensures Placed(JoinPath(path, prop.key), value, Property(c, prop, value, path, fuel))
    decreases fuel, SizeMember(prop), 4
  {
    NodePlaced(c, prop.value, value, JoinPath(path, prop.key), fuel);
  }

  lemma {:induction false} AdditionalPlaced(c: Ctx, sub: Json, known: seq<Member>, v: Json, rest: seq<Member>, path: string, fuel: nat)
    requires v.Obj? && forall m | m in rest :: m in v.members
    ensures Placed(path, v, Additional(c, sub, known, rest, path, fuel))
    decreases fuel, Size(sub), 4, |rest|
  {
    if rest != [] {
      AdditionalPlaced(c, sub, known, v, rest[1..], path, fuel);
      var at := JoinPath(path, rest[0].key);
      NodePlaced(c, sub, rest[0].value, at, fuel);
      assert rest[0] in rest && rest[0] == Member(rest[0].key, rest[0].value);
      PlacedDeeper(path, v, rest[0].key, rest[0].value, Node(c, sub, rest[0].value, at, fuel));
    }
  }

  lemma {:induction false} ItemsPlaced(c: Ctx, members: seq<Member>, v: Json, path: string, fuel: nat)
    requires v.Arr?
    ensures Placed(path, v, Items(c, members, v.items, path, fuel))
    decreases fuel, 1 + SizeMembers(members), 1
  {
    var sub := Get(members, "items");
    if sub.Some? {
      EachItemPlaced(c, sub.value, v, 0, path, fuel);
    }
  }

  lemma {:induction false} EachItemPlaced(c: Ctx, sub: Json, v: Json, from: nat, path: string, fuel: nat)
    requires v.Arr?
    ensures Placed(path, v, EachItem(c, sub, v.items, from, path, fuel))
    decreases fuel, Size(sub), 4, |v.items| - from
  {
    if from < |v.items| {
      EachItemPlaced(c, sub, v, from + 1, path, fuel);
      var at := JoinPath(path, Decimal(from));
      NodePlaced(c, sub, v.items[from], at, fuel);
      IndexReadsBack(from);
      PlacedDeeper(path, v, Decimal(from), v.items[from], Node(c, sub, v.items[from], at, fuel));
    }
  }

  /** A validation of a whole document reports only pointers into it. */
  lemma ReportsPointInto(c: Ctx, schema: Json, v: Json, fuel: nat, issue: Issue)
    requires Node(c, schema, v, "", fuel).Some? && issue in Node(c, schema, v, "", fuel).value
    ensures At(v, ReadPointer(issue.path), issue.code)
  {
    NodePlaced(c, schema, v, "", fuel);
    assert Split("", IsSlash)[1..] == [];
    var tokens :| ReadPointer(issue.path) == ReadPointer("") + tokens && At(v, tokens, issue.code);
    assert ReadPointer("") + tokens == tokens;
  }
}
