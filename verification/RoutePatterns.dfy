/** Path patterns of the request dispatcher: parsing, conflict shapes and matching. */
module RoutePatterns {
  import opened Wrappers
  import opened Splitting

  datatype Segment = Literal(text: string) | Param(name: string)

  datatype Pattern = Pattern(segments: seq<Segment>, trailingSlash: bool)

  predicate IsSep(c: char) {
    c == '/'
  }

  function NonEmpty(pieces: seq<string>): seq<string> {
    if pieces == [] then []
    else (if pieces[0] == "" then [] else [pieces[0]]) + NonEmpty(pieces[1..])
  }

  /** The nonempty pieces of a path. */
  function Pieces(path: string): seq<string> {
    NonEmpty(Split(path, IsSep))
  }

  predicate Trailing(path: string) {
    |path| > 1 && path[|path| - 1] == '/'
  }

  function SegmentOf(piece: string): Segment {
    if piece != "" && piece[0] == ':' then Param(piece[1..]) else Literal(piece)
  }

  function Segments(pieces: seq<string>): (r: seq<Segment>)
    ensures |r| == |pieces| && forall i | 0 <= i < |r| :: r[i] == SegmentOf(pieces[i])
  {
    seq(|pieces|, i requires 0 <= i < |pieces| => SegmentOf(pieces[i]))
  }

  function Parse(raw: string): Pattern {
    Pattern(Segments(Pieces(raw)), Trailing(raw))
  }

  lemma {:induction false} NonEmptyAppend(p: seq<string>, q: seq<string>)
    ensures NonEmpty(p + q) == NonEmpty(p) + NonEmpty(q)
    decreases |p|
  {
    if p == [] {
      assert p + q == q;
    } else {
      assert (p + q)[1..] == p[1..] + q;
      NonEmptyAppend(p[1..], q);
    }
  }

  lemma NonEmptySnoc(pieces: seq<string>, k: nat)
    requires k < |pieces|
    ensures NonEmpty(pieces[..k + 1]) == NonEmpty(pieces[..k]) + if pieces[k] == "" then [] else [pieces[k]]
  {
    assert pieces[..k + 1] == pieces[..k] + [pieces[k]];
    NonEmptyAppend(pieces[..k], [pieces[k]]);
    assert [pieces[k]][1..] == [];
  }

  method ParsePattern(raw: string) returns (p: Pattern)
    ensures p == Parse(raw)
  {
    var trailing := |raw| > 1 && raw[|raw| - 1] == '/';
    var segments: seq<Segment> := [];
    var pieces := Split(raw, IsSep);
    for k := 0 to |pieces|
      invariant segments == Segments(NonEmpty(pieces[..k]))
    {
      NonEmptySnoc(pieces, k);
      var piece := pieces[k];
      if piece == "" {
        continue;
      }
      if piece[0] == ':' {
        segments := segments + [Param(piece[1..])];
      } else {
        segments := segments + [Literal(piece)];
      }
    }
    assert pieces[..|pieces|] == pieces;
    p := Pattern(segments, trailing);
  }

  // ---------------------------------------------------------------------
  // What pieces and segments can be
  // ---------------------------------------------------------------------

  predicate IsPieceText(x: string) {
    x != "" && forall i | 0 <= i < |x| :: x[i] != '/'
  }

  predicate PieceTexts(pieces: seq<string>) {
    forall i | 0 <= i < |pieces| :: IsPieceText(pieces[i])
  }

  lemma {:induction false} NonEmptyTexts(pieces: seq<string>)
    requires forall x | x in pieces :: forall i | 0 <= i < |x| :: x[i] != '/'
    ensures PieceTexts(NonEmpty(pieces))
    decreases |pieces|
  {
    if pieces != [] {
      assert pieces[0] in pieces;
      NonEmptyTexts(pieces[1..]);
    }
  }

  lemma PiecesAreTexts(path: string)
    ensures PieceTexts(Pieces(path))
  {
    forall x | x in Split(path, IsSep) ensures forall i | 0 <= i < |x| :: x[i] != '/' {
      SegmentsArePieces(path, IsSep, x);
      var i: nat, j: nat :| IsPiece(path, IsSep, i, j) && path[i..j] == x;
      forall k | 0 <= k < |x| ensures x[k] != '/' {
        assert !IsSep(path[i + k]);
      }
    }
    NonEmptyTexts(Split(path, IsSep));
  }

  /** Literals are nonempty, hold no slash and never start with a colon. */
  predicate WellFormed(p: Pattern) {
    forall i | 0 <= i < |p.segments| :: SegmentOk(p.segments[i])
  }

  predicate SegmentOk(s: Segment) {
    s.Literal? ==> IsPieceText(s.text) && s.text[0] != ':'
  }

  lemma ParsedWellFormed(raw: string)
    ensures WellFormed(Parse(raw))
  {
    PiecesAreTexts(raw);
    forall i | 0 <= i < |Parse(raw).segments| ensures SegmentOk(Parse(raw).segments[i]) {
      assert IsPieceText(Pieces(raw)[i]);
    }
  }

  // ---------------------------------------------------------------------
  // Matching
  // ---------------------------------------------------------------------

  predicate SegmentFits(s: Segment, got: string) {
    s.Param? || s.text == got
  }

  predicate Fits(p: Pattern, got: seq<string>) {
    |got| == |p.segments| && forall i | 0 <= i < |got| :: SegmentFits(p.segments[i], got[i])
  }

  predicate Matches(p: Pattern, path: string) {
    Trailing(path) == p.trailingSlash && Fits(p, Pieces(path))
  }

  /** `params` binds exactly the first `n` parameters, a repeated name to its last occurrence. */
  ghost predicate Binds(p: Pattern, got: seq<string>, n: nat, params: map<string, string>)
    requires n <= |got| == |p.segments|
  {
    && (forall i | 0 <= i < n && p.segments[i].Param? :: p.segments[i].name in params)
    && (forall name | name in params :: exists i | 0 <= i < n ::
          && p.segments[i] == Param(name) && params[name] == got[i]
          && forall j | i < j < n :: p.segments[j] != Param(name))
  }

  /** `match_path`. */
  method MatchPath(p: Pattern, path: string) returns (r: Option<map<string, string>>)
    ensures r.Some? <==> Matches(p, path)
    ensures r.Some? ==> Binds(p, Pieces(path), |p.segments|, r.value)
  {
    if (|path| > 1 && path[|path| - 1] == '/') != p.trailingSlash {
      return None;
    }
    var got := Pieces(path);
    if |got| != |p.segments| {
      return None;
    }
    var params: map<string, string> := map[];
    for i := 0 to |got|
      invariant forall j | 0 <= j < i :: SegmentFits(p.segments[j], got[j])
      invariant Binds(p, got, i, params)
    {
      match p.segments[i] {
        case Literal(text) =>
          if text != got[i] {
            return None;
          }
          SkipLiteral(p, got, i, params);
        case Param(name) =>
          BindParam(p, got, i, params);
          params := params[name := got[i]];
      }
    }
    return Some(params);
  }

  lemma SkipLiteral(p: Pattern, got: seq<string>, n: nat, params: map<string, string>)
    requires n < |got| == |p.segments| && Binds(p, got, n, params) && p.segments[n].Literal?
    ensures Binds(p, got, n + 1, params)
  {
    forall name | name in params
      ensures exists i | 0 <= i < n + 1 ::
                && p.segments[i] == Param(name) && params[name] == got[i]
                && forall j | i < j < n + 1 :: p.segments[j] != Param(name)
    {
      var i :| 0 <= i < n && p.segments[i] == Param(name) && params[name] == got[i]
               && forall j | i < j < n :: p.segments[j] != Param(name);
      assert forall j | i < j < n + 1 :: p.segments[j] != Param(name);
    }
  }

  lemma BindParam(p: Pattern, got: seq<string>, n: nat, params: map<string, string>)
    requires n < |got| == |p.segments| && Binds(p, got, n, params) && p.segments[n].Param?
    ensures Binds(p, got, n + 1, params[p.segments[n].name := got[n]])
  {
    var next := params[p.segments[n].name := got[n]];
    forall name | name in next
      ensures exists i | 0 <= i < n + 1 ::
                && p.segments[i] == Param(name) && next[name] == got[i]
                && forall j | i < j < n + 1 :: p.segments[j] != Param(name)
    {
      if name == p.segments[n].name {
        assert p.segments[n] == Param(name) && next[name] == got[n];
      } else {
        var i :| 0 <= i < n && p.segments[i] == Param(name) && params[name] == got[i]
                 && forall j | i < j < n :: p.segments[j] != Param(name);
        assert forall j | i < j < n + 1 :: p.segments[j] != Param(name);
      }
    }
  }

  // ---------------------------------------------------------------------
  // Writing patterns and paths
  // ---------------------------------------------------------------------

  function WritePath(pieces: seq<string>, trailing: bool): string {
    if pieces == [] then (if trailing then "/" else "")
    else WritePath(pieces[..|pieces| - 1], false) + "/" + pieces[|pieces| - 1] + if trailing then "/" else ""
  }

  lemma PiecesSlash(a: string)
    ensures Pieces(a + "/") == Pieces(a)
  {
    SplitAt(a, '/', "", IsSep);
    assert a + "/" == a + ['/'] + "";
    NonEmptyAppend(Split(a, IsSep), [""]);
    assert [""][1..] == [];
  }

  /** A path is its pieces and its trailing slash. */
  lemma {:induction false} PathUndoesWrite(pieces: seq<string>, trailing: bool)
    requires PieceTexts(pieces) && (pieces == [] ==> !trailing)
    ensures Pieces(WritePath(pieces, trailing)) == pieces && Trailing(WritePath(pieces, trailing)) == trailing
    decreases |pieces|
  {
    if pieces == [] {
      NoPieces();
    } else {
      var n := |pieces| - 1;
      PathUndoesWrite(pieces[..n], false);
      assert IsPieceText(pieces[n]);
      OneMorePiece(WritePath(pieces[..n], false), pieces[n], trailing);
    }
  }

  lemma OneMorePiece(before: string, piece: string, trailing: bool)
    requires IsPieceText(piece)
    ensures var path := before + "/" + piece + if trailing then "/" else "";
            Pieces(path) == Pieces(before) + [piece] && Trailing(path) == trailing
  {
    var path := before + "/" + piece;
    PiecesSnoc(before, piece);
    PiecesSlash(path);
    assert path[|path| - 1] == piece[|piece| - 1] && path + "" == path;
  }

  /** A segment as it is written: a parameter behind a colon. */
  function WriteSegment(s: Segment): string {
    match s
    case Literal(text) => text
    case Param(name) => ":" + name
  }

  function WriteSegments(segments: seq<Segment>): (r: seq<string>)
    ensures |r| == |segments| && forall i | 0 <= i < |r| :: r[i] == WriteSegment(segments[i])
  {
    seq(|segments|, i requires 0 <= i < |segments| => WriteSegment(segments[i]))
  }

  predicate Writable(s: Segment) {
    match s
    case Literal(text) => IsPieceText(text) && text[0] != ':'
    case Param(name) => forall i | 0 <= i < |name| :: name[i] != '/'
  }

  /** Parsing a written pattern gives its segments back: a piece behind a colon is a parameter, any
      other a literal. */
  lemma ParseUndoesWrite(segments: seq<Segment>, trailing: bool)
    requires (forall i | 0 <= i < |segments| :: Writable(segments[i])) && (segments == [] ==> !trailing)
    ensures Parse(WritePath(WriteSegments(segments), trailing)) == Pattern(segments, trailing)
  {
    var pieces := WriteSegments(segments);
    forall i | 0 <= i < |pieces| ensures IsPieceText(pieces[i]) && SegmentOf(pieces[i]) == segments[i] {
      assert Writable(segments[i]);
    }
    PathUndoesWrite(pieces, trailing);
    assert Segments(pieces) == segments;
  }

  // ---------------------------------------------------------------------
  // Specificity
  // ---------------------------------------------------------------------

  function ParamCount(segments: seq<Segment>): nat {
    if segments == [] then 0
    else ParamCount(segments[1..]) + if segments[0].Param? then 1 else 0
  }

  /** Every stored path matches itself. */
  lemma MatchesItself(path: string)
    ensures Matches(Parse(path), path)
  {
    PiecesAreTexts(path);
    forall i | 0 <= i < |Pieces(path)| ensures SegmentFits(SegmentOf(Pieces(path)[i]), Pieces(path)[i]) {
      assert IsPieceText(Pieces(path)[i]);
    }
  }

  lemma {:induction false} FewerParams(got: seq<string>, own: seq<Segment>, other: seq<Segment>)
    requires |got| == |own| == |other|
    requires forall i | 0 <= i < |got| :: own[i] == SegmentOf(got[i])
    requires forall i | 0 <= i < |got| :: SegmentOk(other[i]) && SegmentFits(other[i], got[i])
    ensures ParamCount(own) <= ParamCount(other)
    decreases |got|
  {
    if got != [] {
      assert own[0].Param? ==> other[0].Param?;
      FewerParams(got[1..], own[1..], other[1..]);
    }
  }

  /** Among all patterns that match a path, the path read as a pattern has the fewest parameters. */
  lemma OwnPatternIsLeast(path: string, raw: string)
    requires Matches(Parse(raw), path)
    ensures ParamCount(Parse(path).segments) <= ParamCount(Parse(raw).segments)
  {
    ParsedWellFormed(raw);
    forall i | 0 <= i < |Pieces(path)|
      ensures SegmentOk(Parse(raw).segments[i]) && SegmentFits(Parse(raw).segments[i], Pieces(path)[i])
    {
    }
    FewerParams(Pieces(path), Parse(path).segments, Parse(raw).segments);
  }

  // ---------------------------------------------------------------------
  // Conflict shapes
  // ---------------------------------------------------------------------

  function Mark(s: Segment): string {
    if s.Param? then ":" else s.text
  }

  function ShapeOf(segments: seq<Segment>): string {
    if segments == [] then "" else ShapeOf(segments[..|segments| - 1]) + "/" + Mark(segments[|segments| - 1])
  }

  /** `shape`: a path that forgets parameter names and the trailing slash. */
  function Shape(p: Pattern): string {
    var s := ShapeOf(p.segments);
    if s == "" then "/" else s
  }

  method ComputeShape(p: Pattern) returns (out: string)
    ensures out == Shape(p)
  {
    out := "";
    for i := 0 to |p.segments|
      invariant out == ShapeOf(p.segments[..i])
    {
      assert p.segments[..i + 1][..i] == p.segments[..i];
      out := out + "/";
      match p.segments[i]
      case Literal(text) => out := out + text;
      case Param(_) => out := out + ":";
    }
    assert p.segments[..|p.segments|] == p.segments;
    if out == "" {
      out := out + "/";
    }
  }

  function Marks(segments: seq<Segment>): (r: seq<string>)
    ensures |r| == |segments| && forall i | 0 <= i < |r| :: r[i] == Mark(segments[i])
  {
    seq(|segments|, i requires 0 <= i < |segments| => Mark(segments[i]))
  }

  lemma PiecesSnoc(a: string, x: string)
    requires IsPieceText(x)
    ensures Pieces(a + "/" + x) == Pieces(a) + [x]
  {
    SplitAt(a, '/', x, IsSep);
    SplitText(x, IsSep);
    NonEmptyAppend(Split(a, IsSep), [x]);
    assert [x][1..] == [];
  }

  /** Splitting a shape gives back the segments' marks. */
  lemma {:induction false} ShapePieces(segments: seq<Segment>)
    requires WellFormed(Pattern(segments, false))
    ensures Pieces(ShapeOf(segments)) == Marks(segments)
    decreases |segments|
  {
    if segments != [] {
      var n := |segments| - 1;
      assert WellFormed(Pattern(segments[..n], false));
      assert SegmentOk(segments[n]);
      ShapePieces(segments[..n]);
      PiecesSnoc(ShapeOf(segments[..n]), Mark(segments[n]));
      MarksSnoc(segments);
    } else {
      NoPieces();
    }
  }

  lemma NoPieces()
    ensures Pieces("") == []
  {
    assert Split("", IsSep) == [""];
    assert [""][1..] == [];
  }

  lemma MarksSnoc(segments: seq<Segment>)
    requires segments != []
    ensures Marks(segments) == Marks(segments[..|segments| - 1]) + [Mark(segments[|segments| - 1])]
  {
  }

  /** Equal shapes are equal segments up to parameter names. */
  lemma ShapesEqual(p: Pattern, q: Pattern)
    requires WellFormed(p) && WellFormed(q)
    ensures Shape(p) == Shape(q) <==> Marks(p.segments) == Marks(q.segments)
  {
    ShapePieces(p.segments);
    ShapePieces(q.segments);
    if Marks(p.segments) == Marks(q.segments) {
      ShapeFromMarks(p.segments, q.segments);
    } else if Shape(p) == Shape(q) {
      RootShape(p.segments);
      RootShape(q.segments);
    }
  }

  /** Only the empty pattern has the shape `/`. */
  lemma RootShape(segments: seq<Segment>)
    requires WellFormed(Pattern(segments, false))
    ensures ShapeOf(segments) != "/" && (ShapeOf(segments) == "" <==> segments == [])
  {
    if segments != [] {
      assert SegmentOk(segments[|segments| - 1]);
      assert |ShapeOf(segments)| >= 2;
    }
  }

  lemma {:induction false} ShapeFromMarks(s: seq<Segment>, t: seq<Segment>)
    requires Marks(s) == Marks(t)
    ensures ShapeOf(s) == ShapeOf(t)
    decreases |s|
  {
    assert |s| == |Marks(s)| == |Marks(t)| == |t|;
    if s != [] {
      var n := |s| - 1;
      assert Mark(s[n]) == Marks(s)[n] == Marks(t)[n] == Mark(t[n]);
      assert Marks(s[..n]) == Marks(s)[..n];
      assert Marks(t[..n]) == Marks(t)[..n];
      ShapeFromMarks(s[..n], t[..n]);
    }
  }

  /** A request made of a pattern's own marks; a literal never matches the mark of a parameter. */
  lemma MarksSeparate(p: Pattern, q: Pattern)
    requires WellFormed(p) && WellFormed(q)
    requires Fits(p, Marks(q.segments)) && Fits(q, Marks(p.segments))
    ensures Marks(p.segments) == Marks(q.segments)
  {
    forall i | 0 <= i < |p.segments| ensures Mark(p.segments[i]) == Mark(q.segments[i]) {
      assert SegmentFits(p.segments[i], Mark(q.segments[i])) && SegmentFits(q.segments[i], Mark(p.segments[i]));
      assert SegmentOk(p.segments[i]) && SegmentOk(q.segments[i]);
    }
  }

  ghost predicate SameRequests(p: Pattern, q: Pattern) {
    forall got: seq<string> | PieceTexts(got) :: Fits(p, got) <==> Fits(q, got)
  }

  /** The conflict test is exact: two patterns have one shape exactly when, trailing slash aside, they
      match the same requests. */
  lemma ShapeDecidesConflict(p: Pattern, q: Pattern)
    requires WellFormed(p) && WellFormed(q)
    ensures Shape(p) == Shape(q) <==> SameRequests(p, q)
  {
    ShapesEqual(p, q);
    if Shape(p) == Shape(q) {
      forall got: seq<string> | PieceTexts(got) ensures Fits(p, got) <==> Fits(q, got) {
        FitsByMarks(p, q, got);
        FitsByMarks(q, p, got);
      }
    } else if SameRequests(p, q) {
      OwnMarks(p);
      OwnMarks(q);
      MarksSeparate(p, q);
    }
  }

  lemma OwnMarks(p: Pattern)
    requires WellFormed(p)
    ensures PieceTexts(Marks(p.segments)) && Fits(p, Marks(p.segments))
  {
    forall i | 0 <= i < |p.segments| ensures IsPieceText(Marks(p.segments)[i]) {
      assert SegmentOk(p.segments[i]);
    }
  }

  lemma FitsByMarks(p: Pattern, q: Pattern, got: seq<string>)
    requires WellFormed(p) && WellFormed(q) && Marks(p.segments) == Marks(q.segments)
    ensures Fits(p, got) ==> Fits(q, got)
  {
    if !Fits(p, got) {
      return;
    }
    assert |q.segments| == |Marks(q.segments)| == |Marks(p.segments)| == |got|;
    forall i | 0 <= i < |got| ensures SegmentFits(q.segments[i], got[i]) {
      assert Mark(p.segments[i]) == Marks(p.segments)[i] == Marks(q.segments)[i] == Mark(q.segments[i]);
      assert SegmentFits(p.segments[i], got[i]) && SegmentOk(p.segments[i]) && SegmentOk(q.segments[i]);
    }
  }

  /** Two paths that match each other have one shape. */
  lemma MutualMatch(p: string, q: string)
    requires Fits(Parse(p), Pieces(q)) && Fits(Parse(q), Pieces(p))
    ensures Shape(Parse(p)) == Shape(Parse(q))
  {
    var x, y := Parse(p), Parse(q);
    ParsedWellFormed(p);
    ParsedWellFormed(q);
    forall i | 0 <= i < |x.segments| ensures Mark(x.segments[i]) == Mark(y.segments[i]) {
      assert SegmentFits(x.segments[i], Pieces(q)[i]) && SegmentFits(y.segments[i], Pieces(p)[i]);
      assert SegmentOk(x.segments[i]) && SegmentOk(y.segments[i]);
    }
    ShapesEqual(x, y);
  }

  lemma ShapeFits(p: string, q: string, path: string)
    requires Shape(Parse(p)) == Shape(Parse(q))
    ensures Fits(Parse(p), Pieces(path)) <==> Fits(Parse(q), Pieces(path))
  {
    ParsedWellFormed(p);
    ParsedWellFormed(q);
    ShapesEqual(Parse(p), Parse(q));
    FitsByMarks(Parse(p), Parse(q), Pieces(path));
    FitsByMarks(Parse(q), Parse(p), Pieces(path));
  }

  /** When two stored paths match exactly the same request paths. */
  lemma SameMatchesExactly(p: string, q: string)
    ensures (forall path :: Matches(Parse(p), path) <==> Matches(Parse(q), path))
            <==> Shape(Parse(p)) == Shape(Parse(q)) && Trailing(p) == Trailing(q)
  {
    MatchesItself(p);
    MatchesItself(q);
    if Shape(Parse(p)) == Shape(Parse(q)) {
      forall path ensures Fits(Parse(p), Pieces(path)) <==> Fits(Parse(q), Pieces(path)) {
        ShapeFits(p, q, path);
      }
    } else if Matches(Parse(q), p) && Matches(Parse(p), q) {
      MutualMatch(p, q);
    }
  }

  /** A refused pair is really ambiguous exactly when both paths, or neither, end in a slash: then every
      request that one matches the other matches too, and otherwise no request matches both. */
  lemma ConflictIsAmbiguityExactly(p: string, q: string)
    requires Shape(Parse(p)) == Shape(Parse(q))
    ensures (exists path :: Matches(Parse(p), path) && Matches(Parse(q), path)) <==> Trailing(p) == Trailing(q)
    ensures (forall path :: Matches(Parse(p), path) <==> Matches(Parse(q), path)) <==> Trailing(p) == Trailing(q)
  {
    SameMatchesExactly(p, q);
    MatchesItself(p);
  }

  /** So `/users` and `/users/` conflict, although no request matches both. */
  lemma TrailingSlashStillConflicts(path: string)
    ensures Shape(Parse("/users")) == Shape(Parse("/users/"))
    ensures !(Matches(Parse("/users"), path) && Matches(Parse("/users/"), path))
  {
    PiecesSnoc("", "users");
    assert "" + "/" + "users" == "/users";
    SplitAt("/users", '/', "", IsSep);
    assert "/users" + "/" + "" == "/users/";
    NonEmptyAppend(Split("/users", IsSep), [""]);
    assert [""][1..] == [];
    ConflictIsAmbiguityExactly("/users", "/users/");
  }
}
