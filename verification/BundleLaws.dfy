/** What every successful bundle guarantees: it reads back, it does not depend on the order of the
    artefacts, and its checksum notices a changed byte. */
module BundleLaws {
  import opened Wrappers
  import opened Order
  import opened Octal
  import opened Ustar
  import opened Fnv
  import opened Bundler

  // ---------------------------------------------------------------------
  // Round trip
  // ---------------------------------------------------------------------

  lemma ManifestValid()
    ensures ValidDest(MANIFEST)
  {
    forall i: nat ensures !ClimbsAt(MANIFEST, i) {
      assert i + 1 < |MANIFEST| && MANIFEST[i] == '.' ==> i == 8;
      assert MANIFEST[9] == 't';
    }
  }

  lemma PlannedValid(input: Input, n: Name)
    requires AllAcceptable(input.artefacts) && n in PlanOf(input)
    ensures ValidDest(n)
  {
    PlanKeys(input, n);
    if n == MANIFEST {
      ManifestValid();
    } else {
      var j :| 0 <= j < |input.artefacts| && input.artefacts[j].dest == n;
      assert Acceptable(input.artefacts, j);
    }
  }

  lemma EntriesFit(input: Input, files: Files, names: seq<string>)
    requires AllAcceptable(input.artefacts) && AllLoadable(PlanOf(input), files) && Lists(PlanOf(input), names)
    ensures forall i | 0 <= i < |names| :: Fits(Entries(PlanOf(input), files, names)[i])
  {
    forall i | 0 <= i < |names| ensures Fits(EntryFor(PlanOf(input), files, names[i])) {
      assert names[i] in names;
      PlanNames(input);
      PlannedValid(input, names[i]);
      assert Loadable(files, PlanOf(input)[names[i]]);
    }
  }

  predicate NulFreeNames(plan: Plan) {
    forall n | n in plan && IsName(n) :: NulFree(NameBytes(n))
  }

  /** A ustar reader gets back every payload, in order of destination; and it gets back every name
      exactly when no destination holds a NUL. */
  lemma BundleReadsBack(input: Input, files: Files, bytes: Bytes, report: Report) returns (names: seq<string>)
    requires Answers(input, Tar, files, Ok((bytes, report)))
    ensures Lists(PlanOf(input), names)
    ensures Read(bytes) == Some(AsRead(Entries(PlanOf(input), files, names)))
    ensures Read(bytes) == Some(Entries(PlanOf(input), files, names)) <==> NulFreeNames(PlanOf(input))
    ensures |bytes| % BLOCK == 0 && report.bundleBytes == |bytes| && report.entries == |names| == |PlanOf(input)|
    ensures report.checksum == Fnv1a(bytes)
  {
    var plan := PlanOf(input);
    names :| Lists(plan, names) && Written(plan, files, names, bytes, report);
    var entries := Entries(plan, files, names);
    EntriesFit(input, files, names);
    ArchiveReadsBack(entries);
    RoundTrip(entries);
    Aligned(entries);
    CountListed(plan.Keys, names);
    EntryNamesNulFree(input, files, names);
  }

  lemma EntryNamesNulFree(input: Input, files: Files, names: seq<string>)
    requires Lists(PlanOf(input), names)
    ensures (forall i | 0 <= i < |names| :: NulFree(Entries(PlanOf(input), files, names)[i].name))
       <==> NulFreeNames(PlanOf(input))
  {
    var plan, entries := PlanOf(input), Entries(PlanOf(input), files, names);
    PlanNames(input);
    forall i | 0 <= i < |names| ensures names[i] in plan && entries[i].name == NameBytes(names[i]) {
      assert names[i] in names;
    }
    if forall i | 0 <= i < |names| :: NulFree(entries[i].name) {
      forall n | n in plan && IsName(n) ensures NulFree(NameBytes(n)) {
        assert n in names;
        var i :| 0 <= i < |names| && names[i] == n;
        assert NulFree(entries[i].name);
      }
    }
  }

  lemma {:induction false} CountListed(s: set<string>, names: seq<string>)
    requires Sorted(names) && forall n :: n in names <==> n in s
    ensures |names| == |s|
    decreases |names|
  {
    if names == [] {
      assert s == {};
    } else {
      var last := |names| - 1;
      forall n ensures n in names[..last] <==> n in s - {names[last]} {
        Irreflexive(names[last]);
        assert names == names[..last] + [names[last]];
      }
      CountListed(s - {names[last]}, names[..last]);
      assert names[last] in names;
    }
  }

  // ---------------------------------------------------------------------
  // Nothing is lost
  // ---------------------------------------------------------------------

  /** An accepted input is planned as it says: every artefact under its destination, the manifest under
      its own name, and nothing else. */
  lemma {:induction false} PlanMeans(input: Input, n: Name, source: string)
    requires AllAcceptable(input.artefacts)
    ensures n in PlanOf(input) && PlanOf(input)[n] == source <==> AsksFor(input, n, source)
    decreases |input.artefacts|
  {
    var arts := input.artefacts;
    if arts != [] {
      var last := |arts| - 1;
      var before := Input(input.manifest, arts[..last]);
      forall j | 0 <= j < last ensures Acceptable(arts[..last], j) {
        assert Acceptable(arts, j) && arts[..last][..j] == arts[..j];
      }
      PlanMeans(before, n, source);
      assert Acceptable(arts, last);
      PlanKeys(before, n);
      assert forall a :: a in arts <==> a in arts[..last] || a == arts[last];
    }
  }

  /** The archive holds this file under this name, as far as a reader can tell. */
  ghost predicate Holds(entries: seq<Entry>, dest: Name, contents: Bytes) {
    Entry(UpToNul(NameBytes(dest)), contents) in entries
  }

  /** The input asks for this source under this destination. */
  ghost predicate AsksFor(input: Input, n: Name, source: string) {
    (n == "manifest.toml" && source == input.manifest) || exists a :: a in input.artefacts && a.dest == n && a.source == source
  }

  /** A bundle read back holds the manifest and every artefact, each with the contents of its source. */
  lemma BundleHoldsEverything(input: Input, files: Files, bytes: Bytes, report: Report, n: Name, source: string)
    requires Answers(input, Tar, files, Ok((bytes, report))) && AsksFor(input, n, source)
    ensures Readable(files, source) && Read(bytes).Some? && Holds(Read(bytes).value, n, files[source].value)
  {
    var names := BundleReadsBack(input, files, bytes, report);
    AnsweredOk(input, files, bytes, report);
    HeldFrom(input, files, names, n, source);
  }

  lemma AnsweredOk(input: Input, files: Files, bytes: Bytes, report: Report)
    requires Answers(input, Tar, files, Ok((bytes, report)))
    ensures AllAcceptable(input.artefacts) && AllLoadable(PlanOf(input), files)
  {
  }

  lemma HeldFrom(input: Input, files: Files, names: seq<string>, n: Name, source: string)
    requires AllAcceptable(input.artefacts) && AllLoadable(PlanOf(input), files) && Lists(PlanOf(input), names)
    requires AsksFor(input, n, source)
    ensures Readable(files, source) && Holds(AsRead(Entries(PlanOf(input), files, names)), n, files[source].value)
  {
    PlanMeans(input, n, source);
    EntryHeld(input, files, names, n);
  }

  lemma EntryHeld(input: Input, files: Files, names: seq<string>, n: Name)
    requires Lists(PlanOf(input), names) && AllLoadable(PlanOf(input), files) && n in PlanOf(input)
    ensures Readable(files, PlanOf(input)[n])
    ensures Holds(AsRead(Entries(PlanOf(input), files, names)), n, files[PlanOf(input)[n]].value)
  {
    var entries := Entries(PlanOf(input), files, names);
    assert n in names && Loadable(files, PlanOf(input)[n]);
    var i :| 0 <= i < |names| && names[i] == n;
    assert entries[i] == Entry(NameBytes(n), files[PlanOf(input)[n]].value);
    assert AsRead(entries)[i] == Entry(UpToNul(NameBytes(n)), files[PlanOf(input)[n]].value);
  }

  function Lengths(entries: seq<Entry>): nat {
    if entries == [] then 0 else |entries[0].payload| + Lengths(entries[1..])
  }

  lemma {:induction false} LengthsSnoc(entries: seq<Entry>)
    requires entries != []
    ensures Lengths(entries) == Lengths(entries[..|entries| - 1]) + |entries[|entries| - 1].payload|
    decreases |entries|
  {
    if |entries| > 1 {
      LengthsSnoc(entries[1..]);
      assert entries[1..][..|entries| - 2] == entries[..|entries| - 1][1..];
    } else {
      assert entries[..0] == [] && entries[1..] == [];
    }
  }

  /** The size reported is the sum of the payloads, as far as 64 bits reach. */
  lemma {:induction false} TotalIsSum(entries: seq<Entry>)
    ensures TotalSize(entries) == if Lengths(entries) <= U64_MAX then Lengths(entries) else U64_MAX
    decreases |entries|
  {
    if entries != [] {
      TotalIsSum(entries[..|entries| - 1]);
      LengthsSnoc(entries);
    }
  }

  // ---------------------------------------------------------------------
  // Determinism
  // ---------------------------------------------------------------------

  ghost predicate Permutes(p: Input, q: Input) {
    p.manifest == q.manifest && multiset(p.artefacts) == multiset(q.artefacts)
  }

  lemma SameMembers(p: seq<Artefact>, q: seq<Artefact>, a: Artefact)
    requires multiset(p) == multiset(q)
    ensures a in p <==> a in q
  {
    assert a in p <==> a in multiset(p);
    assert a in q <==> a in multiset(q);
  }

  /** A value counted twice occurs in two places. */
  lemma TwoPlaces(p: seq<Artefact>, a: Artefact) returns (i: nat, j: nat)
    requires multiset(p)[a] >= 2
    ensures i < j < |p| && p[i] == a && p[j] == a
  {
    assert a in p;
    i := FirstPlace(p, a);
    var rest := p[i + 1..];
    assert p == p[..i] + [a] + rest;
    assert a !in p[..i] && a in rest;
    var k := FirstPlace(rest, a);
    j := i + 1 + k;
  }

  lemma FirstPlace(p: seq<Artefact>, a: Artefact) returns (i: nat)
    requires a in p
    ensures i < |p| && p[i] == a && forall k | 0 <= k < i :: p[k] != a
  {
    i := 0;
    while p[i] != a
      invariant i < |p| && forall k | 0 <= k < i :: p[k] != a
      decreases |p| - i
    {
      i := i + 1;
    }
  }

  lemma AcceptableDistinct(arts: seq<Artefact>, i: nat, j: nat)
    requires AllAcceptable(arts) && i < j < |arts|
    ensures arts[i].dest != arts[j].dest && arts[j].dest != MANIFEST
  {
    assert Acceptable(arts, j);
    assert arts[..j][i] == arts[i];
  }

  lemma AcceptablePermutes(p: seq<Artefact>, q: seq<Artefact>)
    requires multiset(p) == multiset(q) && AllAcceptable(p)
    ensures AllAcceptable(q)
  {
    forall k | 0 <= k < |q| ensures Acceptable(q, k) {
      SameMembers(p, q, q[k]);
      var i :| 0 <= i < |p| && p[i] == q[k];
      assert Acceptable(p, i);
      if Taken(q[..k], q[k].dest) {
        var j :| 0 <= j < k && q[j].dest == q[k].dest;
        ClashPersists(p, q, j, k);
      }
    }
  }

  lemma ClashPersists(p: seq<Artefact>, q: seq<Artefact>, j: nat, k: nat)
    requires multiset(p) == multiset(q) && j < k < |q| && q[j].dest == q[k].dest
    ensures !AllAcceptable(p)
  {
    var x, y: nat;
    if q[j] == q[k] {
      assert q == q[..k] + [q[k]] + q[k + 1..];
      assert q[j] in q[..k];
      x, y := TwoPlaces(p, q[j]);
    } else {
      SameMembers(p, q, q[j]);
      SameMembers(p, q, q[k]);
      x :| 0 <= x < |p| && p[x] == q[j];
      y :| 0 <= y < |p| && p[y] == q[k];
    }
    if AllAcceptable(p) {
      if x < y {
        AcceptableDistinct(p, x, y);
      } else {
        AcceptableDistinct(p, y, x);
      }
    }
  }

  lemma {:induction false} PlanValue(input: Input, i: nat)
    requires AllAcceptable(input.artefacts) && i < |input.artefacts|
    ensures var a := input.artefacts[i]; a.dest in PlanOf(input) && PlanOf(input)[a.dest] == a.source
    ensures MANIFEST in PlanOf(input) && PlanOf(input)[MANIFEST] == input.manifest
    decreases |input.artefacts|
  {
    var arts, last := input.artefacts, |input.artefacts| - 1;
    forall k | 0 <= k < last ensures Acceptable(arts[..last], k) {
      assert Acceptable(arts, k);
      assert arts[..last][..k] == arts[..k];
    }
    assert Acceptable(arts, last);
    if i < last {
      AcceptableDistinct(arts, i, last);
      PlanValue(Input(input.manifest, arts[..last]), i);
    } else if last > 0 {
      PlanValue(Input(input.manifest, arts[..last]), 0);
    }
  }

  lemma PlanPermutes(p: Input, q: Input)
    requires Permutes(p, q) && AllAcceptable(p.artefacts) && AllAcceptable(q.artefacts)
    ensures PlanOf(p) == PlanOf(q)
  {
    PlanIncluded(p, q);
    PlanIncluded(q, p);
  }

  lemma PlanIncluded(p: Input, q: Input)
    requires Permutes(p, q) && AllAcceptable(p.artefacts) && AllAcceptable(q.artefacts)
    ensures forall n | n in PlanOf(p) :: n in PlanOf(q) && PlanOf(p)[n] == PlanOf(q)[n]
  {
    PlanNames(p);
    forall n | n in PlanOf(p) ensures n in PlanOf(q) && PlanOf(p)[n] == PlanOf(q)[n] {
      SamePlanned(p, q, n);
    }
  }

  lemma SamePlanned(p: Input, q: Input, n: Name)
    requires Permutes(p, q) && AllAcceptable(p.artefacts) && AllAcceptable(q.artefacts) && n in PlanOf(p)
    ensures n in PlanOf(q) && PlanOf(p)[n] == PlanOf(q)[n]
  {
    PlanKeys(p, n);
    PlanKeys(q, n);
    if n == MANIFEST {
      ManifestPlanned(p);
      ManifestPlanned(q);
    } else {
      var i :| 0 <= i < |p.artefacts| && p.artefacts[i].dest == n;
      SameMembers(p.artefacts, q.artefacts, p.artefacts[i]);
      var j :| 0 <= j < |q.artefacts| && q.artefacts[j] == p.artefacts[i];
      PlanValue(p, i);
      PlanValue(q, j);
    }
  }

  lemma ManifestPlanned(p: Input)
    requires AllAcceptable(p.artefacts)
    ensures MANIFEST in PlanOf(p) && PlanOf(p)[MANIFEST] == p.manifest
  {
    PlanKeys(p, MANIFEST);
    if p.artefacts != [] {
      PlanValue(p, 0);
    }
  }

  lemma ListsUnique(plan: Plan, a: seq<string>, b: seq<string>)
    requires Lists(plan, a) && Lists(plan, b)
    ensures a == b
  {
    SortedUnique(a, b);
  }

  /** Permuting the artefacts changes neither whether bundling succeeds nor one byte of the result. */
  lemma OrderIndependent(p: Input, q: Input, format: Format, files: Files, r: Outcome, t: Outcome)
    requires Permutes(p, q) && Answers(p, format, files, r) && Answers(q, format, files, t)
    ensures r.Ok? <==> t.Ok?
    ensures r.Ok? ==> r == t
  {
    if AllAcceptable(p.artefacts) {
      AcceptablePermutes(p.artefacts, q.artefacts);
    }
    if AllAcceptable(q.artefacts) {
      AcceptablePermutes(q.artefacts, p.artefacts);
    }
    if AllAcceptable(p.artefacts) {
      PlanPermutes(p, q);
      if r.Ok? {
        SameWritten(PlanOf(p), files, r, t);
      }
    }
  }

  ghost predicate WrittenFor(plan: Plan, files: Files, r: Outcome) {
    r.Ok? && exists names :: Lists(plan, names) && Written(plan, files, names, r.value.0, r.value.1)
  }

  lemma SameWritten(plan: Plan, files: Files, r: Outcome, t: Outcome)
    requires WrittenFor(plan, files, r) && WrittenFor(plan, files, t)
    ensures r == t
  {
    var a :| Lists(plan, a) && Written(plan, files, a, r.value.0, r.value.1);
    var b :| Lists(plan, b) && Written(plan, files, b, t.value.0, t.value.1);
    ListsUnique(plan, a, b);
  }

  // ---------------------------------------------------------------------
  // The bundle checksum
  // ---------------------------------------------------------------------

  lemma {:induction false} BodyAppend(a: seq<Entry>, b: seq<Entry>)
    ensures Body(a + b) == Body(a) + Body(b)
    decreases |a|
  {
    if a == [] {
      assert a + b == b && [] + Body(b) == Body(b);
    } else {
      assert (a + b)[1..] == a[1..] + b;
      BodyAppend(a[1..], b);
      Associative(EntryBytes(a[0].name, a[0].payload), Body(a[1..]), Body(b));
    }
  }

  /** An archive around one of its payloads. */
  lemma ArchiveAround(a: seq<Entry>, e: Entry, b: seq<Entry>)
    ensures Archive(a + [e] + b)
         == Body(a) + Header(e.name, |e.payload|) + e.payload + (Repeat(0, PaddingFor(|e.payload|)) + Archive(b))
  {
    var h, pad := Header(e.name, |e.payload|), Repeat(0, PaddingFor(|e.payload|));
    assert a + [e] + b == a + ([e] + b);
    BodyAppend(a, [e] + b);
    assert ([e] + b)[1..] == b;
    Regroup(Body(a), h, e.payload, pad, Body(b), Repeat(0, 2 * BLOCK));
  }

  lemma Regroup(a: Bytes, h: Bytes, p: Bytes, pad: Bytes, b: Bytes, z: Bytes)
    ensures a + (h + (p + pad) + b) + z == a + h + p + (pad + (b + z))
  {
  }

  /** Changing one byte of one payload changes the archive's hash. */
  lemma PayloadByteDetected(a: seq<Entry>, e: Entry, b: seq<Entry>, i: nat, x: Byte)
    requires i < |e.payload| && x != e.payload[i]
    ensures Fnv1a(Archive(a + [e] + b)) != Fnv1a(Archive(a + [Entry(e.name, e.payload[i := x])] + b))
  {
    var changed := Entry(e.name, e.payload[i := x]);
    ArchiveAround(a, e, b);
    ArchiveAround(a, changed, b);
    var front, back := Body(a) + Header(e.name, |e.payload|), Repeat(0, PaddingFor(|e.payload|)) + Archive(b);
    MiddleByte(front, e.payload, back, i, x);
  }

  lemma MiddleByte(front: Bytes, p: Bytes, back: Bytes, i: nat, x: Byte)
    requires i < |p| && x != p[i]
    ensures Fnv1a(front + p + back) != Fnv1a(front + p[i := x] + back)
  {
    assert front + p + back == (front + p[..i]) + [p[i]] + (p[i + 1..] + back);
    assert front + p[i := x] + back == (front + p[..i]) + [x] + (p[i + 1..] + back);
    OneByteChanges(front + p[..i], p[i], x, p[i + 1..] + back);
  }

  /** Two bundles of the same plan whose files differ in one byte of one entry report different
      checksums. */
  lemma ChecksumDetects(input: Input, f: Files, g: Files, r: Outcome, t: Outcome, n: Name, i: nat, x: Byte)
    requires Answers(input, Tar, f, r) && Answers(input, Tar, g, t) && r.Ok? && t.Ok?
    requires n in PlanOf(input)
    requires forall m | m in PlanOf(input) && m != n :: Contents(f, PlanOf(input)[m]) == Contents(g, PlanOf(input)[m])
    requires var was := Contents(f, PlanOf(input)[n]);
             i < |was| && x != was[i] && Contents(g, PlanOf(input)[n]) == was[i := x]
    ensures r.value.1.checksum != t.value.1.checksum
  {
    var plan := PlanOf(input);
    var a :| Lists(plan, a) && Written(plan, f, a, r.value.0, r.value.1);
    var b :| Lists(plan, b) && Written(plan, g, b, t.value.0, t.value.1);
    ListsUnique(plan, a, b);
    assert n in a;
    var k :| 0 <= k < |a| && a[k] == n;
    OthersUnchanged(plan, f, g, a, k);
    PlanNames(input);
    EntriesAround(plan, f, a, k);
    EntriesAround(plan, g, a, k);
    PayloadByteDetected(Entries(plan, f, a[..k]), EntryFor(plan, f, n), Entries(plan, f, a[k + 1..]), i, x);
  }

  lemma EntriesAround(plan: Plan, files: Files, names: seq<string>, k: nat)
    requires k < |names|
    ensures Entries(plan, files, names)
         == Entries(plan, files, names[..k]) + [EntryFor(plan, files, names[k])] + Entries(plan, files, names[k + 1..])
  {
  }

  lemma OthersUnchanged(plan: Plan, f: Files, g: Files, names: seq<string>, k: nat)
    requires Lists(plan, names) && k < |names|
    requires forall m | m in plan && m != names[k] :: Contents(f, plan[m]) == Contents(g, plan[m])
    ensures Entries(plan, f, names[..k]) == Entries(plan, g, names[..k])
    ensures Entries(plan, f, names[k + 1..]) == Entries(plan, g, names[k + 1..])
  {
    forall j | 0 <= j < |names| && j != k ensures EntryFor(plan, f, names[j]) == EntryFor(plan, g, names[j]) {
      assert names[j] in names;
      Irreflexive(names[k]);
    }
  }

  // ---------------------------------------------------------------------
  // Where the format's promises stop
  // ---------------------------------------------------------------------

  /** A destination may hold a NUL, and then a reader sees a shorter name: two different destinations
      can read back as one. */
  lemma NulNamesCollide()
    ensures ValidDest("a\0b") && ValidDest("a\0c")
    ensures UpToNul(NameBytes("a\0b")) == UpToNul(NameBytes("a\0c")) == [97]
  {
    var p, q := NameBytes("a\0b"), NameBytes("a\0c");
    assert p[1..][0] == NUL && q[1..][0] == NUL;
    assert UpToNul(p[1..]) == [] && UpToNul(q[1..]) == [];
  }

  /** The manifest is not always the first entry: destinations that sort before it come first. */
  lemma ManifestFirstExactlyWhenLeast(input: Input, names: seq<string>)
    requires AllAcceptable(input.artefacts) && Lists(PlanOf(input), names)
    ensures names != []
    ensures names[0] == MANIFEST <==> forall j | 0 <= j < |input.artefacts| :: Less(MANIFEST, input.artefacts[j].dest)
  {
    var arts := input.artefacts;
    PlanKeys(input, MANIFEST);
    assert MANIFEST in names;
    var k :| 0 <= k < |names| && names[k] == MANIFEST;
    if names[0] == MANIFEST {
      forall j | 0 <= j < |arts| ensures Less(MANIFEST, arts[j].dest) {
        assert Acceptable(arts, j);
        PlanKeys(input, arts[j].dest);
        assert arts[j].dest in names;
        var i :| 0 <= i < |names| && names[i] == arts[j].dest;
      }
    } else {
      PlanNames(input);
      assert names[0] in names;
      PlanKeys(input, names[0]);
      var j :| 0 <= j < |arts| && arts[j].dest == names[0];
      Asymmetric(names[0], MANIFEST);
    }
  }
}
