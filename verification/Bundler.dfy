/** The deterministic bundler: which inputs it accepts, and the one archive it writes for them. */
module Bundler {
  import opened Wrappers
  import opened Order
  import opened Splitting
  import opened Octal
  import opened Ustar
  import opened Fnv

  /** A path or name, one character per UTF-8 byte. */
  type Name = s: string | forall i | 0 <= i < |s| :: s[i] as int < 256

  function NameBytes(name: Name): (r: Bytes)
    ensures |r| == |name| && forall i | 0 <= i < |r| :: r[i] == name[i] as int
  {
    seq(|name|, i requires 0 <= i < |name| => name[i] as int)
  }

  datatype Format = Tar | Zip

  datatype Artefact = Artefact(source: string, dest: Name)

  datatype Input = Input(manifest: string, artefacts: seq<Artefact>)

  /** The file system: a path that exists may still be unreadable. */
  type Files = map<string, Option<Bytes>>

  datatype BundleError =
    | UnsupportedFormat
    | ManifestMissing(source: string)
    | PathTraversal(dest: Name)
    | DuplicateEntry(dest: Name)
    | EntryTooLarge(dest: Name, size: nat)
    | Io(dest: Name)

  datatype Report = Report(entries: nat, uncompressed: nat, bundleBytes: nat, checksum: Word)

  type Outcome = Result<(Bytes, Report), BundleError>

  const MANIFEST: Name := "manifest.toml"
  const MAX_ENTRY: nat := 0x1_0000_0000

  // ---------------------------------------------------------------------
  // Destination names
  // ---------------------------------------------------------------------

  predicate IsSlash(c: char) {
    c == '/' || c == '\\'
  }

  predicate IsLetter(c: char) {
    'a' <= c <= 'z' || 'A' <= c <= 'Z'
  }

  /** A `..` between separators or the ends of the name. */
  ghost predicate ClimbsAt(dest: Name, i: nat) {
    && i + 2 <= |dest| && dest[i] == '.' && dest[i + 1] == '.'
    && (i == 0 || IsSlash(dest[i - 1]))
    && (i + 2 == |dest| || IsSlash(dest[i + 2]))
  }

  ghost predicate ValidDest(dest: Name) {
    && 0 < |dest| < NAME_MAX
    && !IsSlash(dest[0])
    && !(|dest| >= 2 && dest[1] == ':' && IsLetter(dest[0]))
    && forall i: nat :: !ClimbsAt(dest, i)
  }

  lemma DotDotClimbs(dest: Name)
    ensures ".." in Split(dest, IsSlash) <==> exists i: nat :: ClimbsAt(dest, i)
  {
    SegmentsArePieces(dest, IsSlash, "..");
    if PieceFrom(dest, IsSlash, "..", 0) {
      var i: nat, j: nat :| IsPiece(dest, IsSlash, i, j) && dest[i..j] == "..";
      assert dest[i..j][0] == '.' && dest[i..j][1] == '.';
      assert ClimbsAt(dest, i);
    }
    if i: nat :| ClimbsAt(dest, i) {
      assert dest[i..i + 2] == "..";
      assert IsPiece(dest, IsSlash, i, i + 2);
    }
  }

  method ValidateDest(dest: Name) returns (ok: bool)
    ensures ok <==> ValidDest(dest)
  {
    DotDotClimbs(dest);
    if dest == "" {
      return false;
    }
    if dest[0] == '/' || dest[0] == '\\' {
      return false;
    }
    if |dest| >= 2 {
      if dest[1] == ':' && IsLetter(dest[0]) {
        return false;
      }
    }
    var segments := Split(dest, IsSlash);
    for k := 0 to |segments|
      invariant ".." !in segments[..k]
    {
      if segments[k] == ".." {
        return false;
      }
    }
    return |dest| < NAME_MAX;
  }

  // ---------------------------------------------------------------------
  // What the bundler accepts and writes
  // ---------------------------------------------------------------------

  predicate Taken(arts: seq<Artefact>, dest: Name) {
    dest == MANIFEST || exists j | 0 <= j < |arts| :: arts[j].dest == dest
  }

  ghost predicate Acceptable(arts: seq<Artefact>, k: nat)
    requires k < |arts|
  {
    ValidDest(arts[k].dest) && !Taken(arts[..k], arts[k].dest)
  }

  ghost predicate AllAcceptable(arts: seq<Artefact>) {
    forall k | 0 <= k < |arts| :: Acceptable(arts, k)
  }

  /** Destination to source, the manifest included. */
  type Plan = map<string, string>

  function PlanOf(input: Input): Plan
    decreases |input.artefacts|
  {
    if input.artefacts == [] then map[MANIFEST := input.manifest]
    else
      var last := |input.artefacts| - 1;
      PlanOf(Input(input.manifest, input.artefacts[..last]))[input.artefacts[last].dest := input.artefacts[last].source]
  }

  predicate Readable(files: Files, source: string) {
    source in files && files[source].Some?
  }

  predicate Loadable(files: Files, source: string) {
    Readable(files, source) && |files[source].value| <= MAX_ENTRY
  }

  function Contents(files: Files, source: string): Bytes {
    if Readable(files, source) then files[source].value else []
  }

  predicate Names(names: seq<string>) {
    forall n | n in names :: IsName(n)
  }

  predicate IsName(n: string) {
    forall i | 0 <= i < |n| :: n[i] as int < 256
  }

  function EntryFor(plan: Plan, files: Files, n: string): Entry {
    if n in plan && IsName(n) then Entry(NameBytes(n), Contents(files, plan[n])) else Entry([], [])
  }

  function Entries(plan: Plan, files: Files, names: seq<string>): (r: seq<Entry>)
    ensures |r| == |names| && forall i | 0 <= i < |r| :: r[i] == EntryFor(plan, files, names[i])
  {
    seq(|names|, i requires 0 <= i < |names| => EntryFor(plan, files, names[i]))
  }

  /** The plan's destinations in order. */
  ghost predicate Lists(plan: Plan, names: seq<string>) {
    Sorted(names) && forall n :: n in names <==> n in plan
  }

  function TotalSize(entries: seq<Entry>): nat {
    if entries == [] then 0
    else
      var last := |entries| - 1;
      SatAdd(TotalSize(entries[..last]), |entries[last].payload|)
  }

  function SatAdd(a: nat, b: nat): (r: nat)
    ensures r == if a + b <= U64_MAX then a + b else U64_MAX
  {
    if a + b <= U64_MAX then a + b else U64_MAX
  }

  ghost predicate Written(plan: Plan, files: Files, names: seq<string>, bytes: Bytes, report: Report) {
    var entries := Entries(plan, files, names);
    && bytes == Archive(entries)
    && report == Report(|names|, TotalSize(entries), |bytes|, Fnv1a(bytes))
  }

  /** The first artefact that cannot be accepted, and why. */
  ghost predicate Rejects(arts: seq<Artefact>, err: BundleError) {
    exists k | 0 <= k < |arts| ::
      && (forall j | 0 <= j < k :: Acceptable(arts, j))
      && !Acceptable(arts, k)
      && err == (if !ValidDest(arts[k].dest) then PathTraversal(arts[k].dest) else DuplicateEntry(arts[k].dest))
  }

  /** The first destination, in order, that cannot be loaded, and why. */
  ghost predicate Unloadable(plan: Plan, files: Files, err: BundleError) {
    exists n: Name | n in plan && !Loadable(files, plan[n]) ::
      && (forall m | m in plan && Less(m, n) :: Loadable(files, plan[m]))
      && err == LoadError(plan, files, n)
  }

  ghost predicate AllLoadable(plan: Plan, files: Files) {
    forall n | n in plan :: Loadable(files, plan[n])
  }

  /** The full meaning of a run. */
  ghost predicate Answers(input: Input, format: Format, files: Files, r: Outcome) {
    if format != Tar then r == Err(UnsupportedFormat)
    else if input.manifest !in files then r == Err(ManifestMissing(input.manifest))
    else if !AllAcceptable(input.artefacts) then r.Err? && Rejects(input.artefacts, r.error)
    else if !AllLoadable(PlanOf(input), files) then r.Err? && Unloadable(PlanOf(input), files, r.error)
    else r.Ok? && exists names :: Lists(PlanOf(input), names) && Written(PlanOf(input), files, names, r.value.0, r.value.1)
  }

  // ---------------------------------------------------------------------
  // The bundler
  // ---------------------------------------------------------------------

  lemma {:induction false} PlanKeys(input: Input, dest: Name)
    ensures dest in PlanOf(input) <==> Taken(input.artefacts, dest)
    decreases |input.artefacts|
  {
    if input.artefacts != [] {
      var last := |input.artefacts| - 1;
      PlanKeys(Input(input.manifest, input.artefacts[..last]), dest);
      assert input.artefacts == input.artefacts[..last] + [input.artefacts[last]];
    }
  }

  lemma {:induction false} PlanNames(input: Input)
    ensures forall n | n in PlanOf(input) :: IsName(n)
    decreases |input.artefacts|
  {
    if input.artefacts != [] {
      PlanNames(Input(input.manifest, input.artefacts[..|input.artefacts| - 1]));
    }
  }

  method Collect(input: Input) returns (r: Result<Plan, BundleError>)
    ensures r.Ok? <==> AllAcceptable(input.artefacts)
    ensures r.Ok? ==> r.value == PlanOf(input)
    ensures r.Err? ==> Rejects(input.artefacts, r.error)
  {
    var plan: Plan := map[MANIFEST := input.manifest];
    var arts := input.artefacts;
    for k := 0 to |arts|
      invariant plan == PlanOf(Input(input.manifest, arts[..k]))
      invariant forall j | 0 <= j < k :: Acceptable(arts, j)
    {
      var ok := ValidateDest(arts[k].dest);
      if !ok {
        assert !Acceptable(arts, k);
        return Err(PathTraversal(arts[k].dest));
      }
      PlanKeys(Input(input.manifest, arts[..k]), arts[k].dest);
      if arts[k].dest in plan {
        assert !Acceptable(arts, k);
        return Err(DuplicateEntry(arts[k].dest));
      }
      plan := plan[arts[k].dest := arts[k].source];
      assert arts[..k + 1][..k] == arts[..k];
    }
    assert arts[..|arts|] == arts;
    return Ok(plan);
  }

  /** Read every planned file, in order of destination. */
  method Load(plan: Plan, files: Files, names: seq<string>) returns (r: Result<(seq<Entry>, nat), BundleError>)
    requires Lists(plan, names) && Names(names)
    ensures r.Ok? <==> AllLoadable(plan, files)
    ensures r.Ok? ==> r.value.0 == Entries(plan, files, names) && r.value.1 == TotalSize(r.value.0)
    ensures r.Err? ==> Unloadable(plan, files, r.error)
  {
    var payloads: seq<Entry>, total := [], 0;
    for k := 0 to |names|
      invariant payloads == Entries(plan, files, names[..k]) && total == TotalSize(payloads)
      invariant LoadedUpTo(plan, files, names, k)
    {
      assert names[k] in names;
      var one := LoadOne(plan, files, names[k]);
      if one.Err? {
        FirstFailure(plan, files, names, k, one.error);
        return Err(one.error);
      }
      EntriesSnoc(plan, files, names, k);
      payloads := payloads + [one.value];
      total := SatAdd(total, |one.value.payload|);
    }
    assert names[..|names|] == names;
    EverythingLoaded(plan, files, names);
    return Ok((payloads, total));
  }

  ghost predicate LoadedUpTo(plan: Plan, files: Files, names: seq<string>, k: nat) {
    forall j | 0 <= j < k && j < |names| :: names[j] in plan && Loadable(files, plan[names[j]])
  }

  /** Why a planned file cannot be loaded. */
  function LoadError(plan: Plan, files: Files, n: Name): BundleError
    requires n in plan
  {
    if Readable(files, plan[n]) then EntryTooLarge(n, |files[plan[n]].value|) else Io(n)
  }

  method LoadOne(plan: Plan, files: Files, n: Name) returns (r: Result<Entry, BundleError>)
    requires n in plan
    ensures r.Ok? <==> Loadable(files, plan[n])
    ensures r.Ok? ==> r.value == EntryFor(plan, files, n)
    ensures r.Err? ==> r.error == LoadError(plan, files, n)
  {
    if !Readable(files, plan[n]) {
      return Err(Io(n));
    }
    var contents := files[plan[n]].value;
    if |contents| > MAX_ENTRY {
      return Err(EntryTooLarge(n, |contents|));
    }
    return Ok(Entry(NameBytes(n), contents));
  }

  lemma EverythingLoaded(plan: Plan, files: Files, names: seq<string>)
    requires Lists(plan, names) && LoadedUpTo(plan, files, names, |names|)
    ensures AllLoadable(plan, files)
  {
    forall n | n in plan ensures Loadable(files, plan[n]) {
      assert n in names;
      var j :| 0 <= j < |names| && names[j] == n;
    }
  }

  lemma EntriesSnoc(plan: Plan, files: Files, names: seq<string>, k: nat)
    requires k < |names|
    ensures var (before, e) := (Entries(plan, files, names[..k]), EntryFor(plan, files, names[k]));
            && Entries(plan, files, names[..k + 1]) == before + [e]
            && TotalSize(before + [e]) == SatAdd(TotalSize(before), |e.payload|)
  {
    var before := Entries(plan, files, names[..k]);
    assert (before + [EntryFor(plan, files, names[k])])[..k] == before;
  }

  lemma FirstFailure(plan: Plan, files: Files, names: seq<string>, k: nat, err: BundleError)
    requires Lists(plan, names) && k < |names| && LoadedUpTo(plan, files, names, k)
    requires names[k] in plan && IsName(names[k])
    requires !Loadable(files, plan[names[k]]) && err == LoadError(plan, files, names[k])
    ensures Unloadable(plan, files, err) && !AllLoadable(plan, files)
  {
    var n: Name := names[k];
    forall m | m in plan && Less(m, n) ensures Loadable(files, plan[m]) {
      assert m in names;
      var j :| 0 <= j < |names| && names[j] == m;
      if j > k {
        Asymmetric(n, m);
      }
      Irreflexive(m);
    }
  }

  method Bundle(input: Input, format: Format, files: Files) returns (r: Outcome)
    ensures Answers(input, format, files, r)
  {
    if format != Tar {
      return Err(UnsupportedFormat);
    }
    if input.manifest !in files {
      return Err(ManifestMissing(input.manifest));
    }
    var collected := Collect(input);
    if collected.Err? {
      return Err(collected.error);
    }
    var plan := collected.value;
    var names := SortedElements(plan.Keys);
    PlanNames(input);
    var loaded := Load(plan, files, names);
    if loaded.Err? {
      return Err(loaded.error);
    }
    var (payloads, total) := loaded.value;
    SizesFit(plan, files, names);
    var buffer := WriteArchive(payloads);
    var checksum := Compute(buffer);
    var report := Report(|payloads|, total, |buffer|, checksum);
    assert Written(plan, files, names, buffer, report);
    return Ok((buffer, report));
  }

  lemma SizesFit(plan: Plan, files: Files, names: seq<string>)
    requires AllLoadable(plan, files)
    ensures forall e | e in Entries(plan, files, names) :: |e.payload| <= U64_MAX
  {
    forall e | e in Entries(plan, files, names) ensures |e.payload| <= U64_MAX {
      var i :| 0 <= i < |names| && Entries(plan, files, names)[i] == e;
      assert e == EntryFor(plan, files, names[i]);
    }
  }
}
