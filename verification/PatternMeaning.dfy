/** What the characters of a pattern stand for: which bytes each escape and each class member consumes,
    and which bars separate alternatives. */
module PatternMeaning {
  import opened Wrappers
  import opened MiniRegex
  import opened PatternSyntax

  predicate Between(b: Byte, low: char, high: char)
    requires low as int < 128 && high as int < 128
  {
    low as int <= b <= high as int
  }

  predicate IsWord(b: Byte) {
    Between(b, 'a', 'z') || Between(b, 'A', 'Z') || Between(b, '0', '9') || b == Ascii('_')
  }

  // ---------------------------------------------------------------------
  // Atoms
  // ---------------------------------------------------------------------

  lemma OneRange(low: Byte, high: Byte, b: Byte)
    ensures InSomeRange([(low, high)], b) <==> low <= b <= high
  {
    if low <= b <= high {
      assert (low, high) in [(low, high)];
    }
  }

  lemma {:induction false} RangesJoined(r: seq<(Byte, Byte)>, s: seq<(Byte, Byte)>, b: Byte)
    ensures InSomeRange(r + s, b) <==> InSomeRange(r, b) || InSomeRange(s, b)
  {
    if InSomeRange(r, b) {
      var x :| x in r && x.0 <= b <= x.1;
      assert x in r + s;
    }
    if InSomeRange(s, b) {
      var x :| x in s && x.0 <= b <= x.1;
      assert x in r + s;
    }
  }

  lemma WordRanges(b: Byte)
    ensures InSomeRange(WORD_RANGES, b) <==> IsWord(b)
  {
    var r := WORD_RANGES;
    if IsWord(b) {
      assert (r[0].0 <= b <= r[0].1) || (r[1].0 <= b <= r[1].1) || (r[2].0 <= b <= r[2].1) || (r[3].0 <= b <= r[3].1);
      assert r[0] in r && r[1] in r && r[2] in r && r[3] in r;
    }
  }

  /** What an escape outside a class consumes, if it is supported. */
  ghost predicate EscapeMatches(escaped: Byte, b: Byte) {
    if escaped == Ascii('d') then Between(b, '0', '9')
    else if escaped == Ascii('w') then IsWord(b)
    else if escaped == Ascii('s') then b == 32 || b == 9
    else b == escaped
  }

  lemma EscapesMean(escaped: Byte, b: Byte)
    ensures BackslashAtom(escaped).Some? <==> escaped in [Ascii('d'), Ascii('w'), Ascii('s'), 46, 94, 36, 92, 47, 45]
    ensures BackslashAtom(escaped).Some? ==> (Consumes(BackslashAtom(escaped).value, b) <==> EscapeMatches(escaped, b))
  {
    WordRanges(b);
    OneRange(Ascii('0'), Ascii('9'), b);
    OneRange(32, 32, b);
    OneRange(9, 9, b);
    RangesJoined([(32, 32)], [(9, 9)], b);
    assert [(32, 32)] + [(9, 9)] == [(Ascii(' '), Ascii(' ')), (Ascii('\t'), Ascii('\t'))];
  }

  /** A byte that is no class, no escape and not unsupported stands for itself. */
  lemma PlainBytesMean(p: Bytes, b: Byte)
    requires p != [] && p[0] != Ascii('[') && p[0] != Ascii('\\')
    ensures ParseAtom(p).None? <==> p[0] in [46, 40, 41, 124, 63, 42, 94, 36]
    ensures ParseAtom(p).Some? ==> ParseAtom(p).value.1 == 1 && (Consumes(ParseAtom(p).value.0, b) <==> b == p[0])
  {
  }

  // ---------------------------------------------------------------------
  // Class members
  // ---------------------------------------------------------------------

  /** The first member of a class body: how long it is, and what it consumes. */
  function MemberLength(body: Bytes): nat
    requires body != []
  {
    if body[0] == Ascii('\\') && |body| > 1 then 2 else if |body| > 2 && body[1] == Ascii('-') then 3 else 1
  }

  ghost predicate MemberMatches(body: Bytes, b: Byte)
    requires body != []
  {
    match MemberLength(body)
    case 2 => if body[1] == Ascii('d') then Between(b, '0', '9') else if body[1] == Ascii('w') then IsWord(b) else b == body[1]
    case 3 => body[0] <= b <= body[2]
    case _ => b == body[0]
  }

  /** A class consumes what one of its members does. */
  ghost predicate ClassMatches(body: Bytes, b: Byte)
    decreases |body|
  {
    body != [] && (MemberMatches(body, b) || (MemberLength(body) <= |body| && ClassMatches(body[MemberLength(body)..], b)))
  }

  lemma ClassEscapeMeans(esc: Byte, b: Byte)
    ensures ClassEscape(esc).Some? <==> esc in [Ascii('d'), Ascii('w'), Ascii('-'), Ascii('\\')]
    ensures ClassEscape(esc).Some? ==>
              (InSomeRange(ClassEscape(esc).value, b)
               <==> if esc == Ascii('d') then Between(b, '0', '9') else if esc == Ascii('w') then IsWord(b) else b == esc)
  {
    WordRanges(b);
    OneRange(Ascii('0'), Ascii('9'), b);
    OneRange(esc, esc, b);
  }

  /** The ranges of a class body admit exactly the bytes its members do. */
  lemma {:induction false} ClassesMean(body: Bytes, b: Byte)
    requires ClassRanges(body).Some?
    ensures InSomeRange(ClassRanges(body).value, b) <==> ClassMatches(body, b)
    decreases |body|
  {
    if body != [] {
      var n := MemberLength(body);
      if n == 2 {
        ClassEscapeMeans(body[1], b);
        RangesJoined(ClassEscape(body[1]).value, ClassRanges(body[2..]).value, b);
      } else if n == 3 {
        OneRange(body[0], body[2], b);
        RangesJoined([(body[0], body[2])], ClassRanges(body[3..]).value, b);
      } else {
        OneRange(body[0], body[0], b);
        RangesJoined([(body[0], body[0])], ClassRanges(body[1..]).value, b);
      }
      ClassesMean(body[n..], b);
    }
  }

  // ---------------------------------------------------------------------
  // Alternatives
  // ---------------------------------------------------------------------

  /** A backslash that is not escaped itself escapes the next byte. */
  predicate Escaped(p: Bytes, i: nat)
    requires i <= |p|
  {
    i > 0 && p[i - 1] == Ascii('\\') && !Escaped(p, i - 1)
  }

  /** Brackets and parentheses open before `i`, the escaped ones not counted. */
  function DepthAt(p: Bytes, i: nat): int
    requires i <= |p|
  {
    if i == 0 then 0
    else
      var b := p[i - 1];
      DepthAt(p, i - 1)
      + if Escaped(p, i - 1) then 0
        else if b == 91 || b == 40 then 1
        else if b == 93 || b == 41 then -1
        else 0
  }

  /** The bars that separate alternatives. */
  predicate IsBar(p: Bytes, i: nat) {
    i < |p| && p[i] == 124 && !Escaped(p, i) && DepthAt(p, i) == 0
  }

  ghost predicate Cuts(p: Bytes, from: nat, cuts: seq<nat>) {
    && (forall i, j | 0 <= i < j < |cuts| :: cuts[i] < cuts[j])
    && forall i: nat :: i in cuts <==> from <= i && IsBar(p, i)
  }

  function StartOf(from: nat, cuts: seq<nat>, k: nat): nat
    requires k <= |cuts|
  {
    if k == 0 then from else cuts[k - 1] + 1
  }

  function EndOf(p: Bytes, cuts: seq<nat>, k: nat): nat
    requires k <= |cuts|
  {
    if k == |cuts| then |p| else cuts[k]
  }

  /** The pieces of `p` from `from` on between the cuts. */
  ghost predicate PiecesBetween(p: Bytes, from: nat, cuts: seq<nat>, pieces: seq<Bytes>) {
    |pieces| == |cuts| + 1 && forall k | 0 <= k < |pieces| :: PieceAt(p, from, cuts, k, pieces[k])
  }

  ghost predicate PieceAt(p: Bytes, from: nat, cuts: seq<nat>, k: nat, piece: Bytes)
    requires k <= |cuts|
  {
    StartOf(from, cuts, k) <= EndOf(p, cuts, k) <= |p| && piece == p[StartOf(from, cuts, k)..EndOf(p, cuts, k)]
  }

  lemma GluedPieces(p: Bytes, from: nat, mid: nat, cuts: seq<nat>, pieces: seq<Bytes>)
    requires from <= mid <= |p| && PiecesBetween(p, mid, cuts, pieces)
    ensures PiecesBetween(p, from, cuts, Glue(p[from..mid], pieces))
  {
    assert PieceAt(p, mid, cuts, 0, pieces[0]);
    var end := EndOf(p, cuts, 0);
    assert p[from..mid] + p[mid..end] == p[from..end];
    forall k | 0 < k < |pieces| ensures PieceAt(p, from, cuts, k, pieces[k]) {
      assert PieceAt(p, mid, cuts, k, pieces[k]);
    }
  }

  lemma CutMore(p: Bytes, i: nat, cuts: seq<nat>)
    requires IsBar(p, i) && Cuts(p, i + 1, cuts)
    ensures Cuts(p, i, [i] + cuts)
  {
    forall k | 0 <= k < |cuts| ensures cuts[k] > i {
      assert cuts[k] in cuts;
    }
  }

  lemma PieceLater(p: Bytes, i: nat, cuts: seq<nat>, k: nat, piece: Bytes)
    requires k <= |cuts| && PieceAt(p, i + 1, cuts, k, piece)
    ensures PieceAt(p, i, [i] + cuts, k + 1, piece)
  {
  }

  lemma CutHere(p: Bytes, i: nat, cuts: seq<nat>, pieces: seq<Bytes>)
    requires IsBar(p, i) && Cuts(p, i + 1, cuts) && PiecesBetween(p, i + 1, cuts, pieces)
    ensures Cuts(p, i, [i] + cuts) && PiecesBetween(p, i, [i] + cuts, [[]] + pieces)
  {
    CutMore(p, i, cuts);
    assert p[i..i] == [];
    forall k | 0 <= k <= |pieces| ensures PieceAt(p, i, [i] + cuts, k, ([[]] + pieces)[k]) {
      if k > 0 {
        PieceLater(p, i, cuts, k - 1, pieces[k - 1]);
      }
    }
  }

  lemma NoBars(p: Bytes, from: nat, mid: nat, cuts: seq<nat>)
    requires from <= mid && Cuts(p, mid, cuts) && forall i: nat | from <= i < mid :: !IsBar(p, i)
    ensures Cuts(p, from, cuts)
  {
  }

  lemma NoMore(p: Bytes, i: nat)
    requires i <= |p| && forall j: nat | i <= j :: !IsBar(p, j)
    ensures Cuts(p, i, []) && PiecesBetween(p, i, [], [p[i..]])
  {
    assert p[i..|p|] == p[i..];
    assert PieceAt(p, i, [], 0, p[i..]);
  }

  // The three ways the split moves on, and its end.

  lemma AfterEscape(p: Bytes, i: nat)
    requires i + 1 < |p| && p[i] == Ascii('\\') && !Escaped(p, i)
    ensures !Escaped(p, i + 2) && DepthAt(p, i + 2) == DepthAt(p, i) && !IsBar(p, i) && !IsBar(p, i + 1)
    ensures forall d :: Alternatives(p[i..], d) == Glue(p[i..i + 2], Alternatives(p[i + 2..], d))
  {
    var rest := p[i..];
    assert Escaped(p, i + 1) && DepthAt(p, i + 1) == DepthAt(p, i);
    assert rest[2..] == p[i + 2..] && rest[..2] == p[i..i + 2];
  }

  lemma AfterByte(p: Bytes, i: nat)
    requires i < |p| && p[i] != Ascii('\\') && !Escaped(p, i)
    ensures !Escaped(p, i + 1) && DepthAt(p, i + 1) == DepthAt(p, i) + Nesting(p[i])
    ensures var d := DepthAt(p, i);
            Alternatives(p[i..], d)
            == if IsBar(p, i) then [[]] + Alternatives(p[i + 1..], d)
               else Glue(p[i..i + 1], Alternatives(p[i + 1..], d + Nesting(p[i])))
  {
    var rest := p[i..];
    assert rest[1..] == p[i + 1..] && rest[..1] == p[i..i + 1];
  }

  lemma AtTheEnd(p: Bytes, i: nat)
    requires i <= |p| && !Escaped(p, i) && (i == |p| || (i + 1 == |p| && p[i] == Ascii('\\')))
    ensures forall d :: Alternatives(p[i..], d) == [p[i..]]
    ensures forall j: nat | i <= j :: !IsBar(p, j)
  {
  }

  /** These cuts are the bars from `from` on, and these pieces lie between them. */
  ghost predicate CutInto(p: Bytes, from: nat, cuts: seq<nat>, pieces: seq<Bytes>) {
    Cuts(p, from, cuts) && PiecesBetween(p, from, cuts, pieces)
  }

  lemma LongerFirst(p: Bytes, from: nat, mid: nat, cuts: seq<nat>, pieces: seq<Bytes>)
    requires from <= mid <= |p| && CutInto(p, mid, cuts, pieces) && forall i: nat | from <= i < mid :: !IsBar(p, i)
    ensures CutInto(p, from, cuts, Glue(p[from..mid], pieces))
  {
    GluedPieces(p, from, mid, cuts, pieces);
    NoBars(p, from, mid, cuts);
  }

  lemma ByteCut(p: Bytes, i: nat, cuts: seq<nat>) returns (all: seq<nat>)
    requires i < |p| && p[i] != Ascii('\\') && !Escaped(p, i)
    requires CutInto(p, i + 1, cuts, Alternatives(p[i + 1..], DepthAt(p, i + 1)))
    ensures CutInto(p, i, all, Alternatives(p[i..], DepthAt(p, i)))
  {
    var later := Alternatives(p[i + 1..], DepthAt(p, i + 1));
    AfterByte(p, i);
    if IsBar(p, i) {
      CutHere(p, i, cuts, later);
      all := [i] + cuts;
    } else {
      LongerFirst(p, i, i + 1, cuts, later);
      all := cuts;
    }
  }

  lemma {:induction false} AlternativesFrom(p: Bytes, i: nat) returns (cuts: seq<nat>)
    requires i <= |p| && !Escaped(p, i)
    ensures CutInto(p, i, cuts, Alternatives(p[i..], DepthAt(p, i)))
    decreases |p| - i
  {
    if i == |p| || (i + 1 == |p| && p[i] == Ascii('\\')) {
      AtTheEnd(p, i);
      NoMore(p, i);
      cuts := [];
    } else if p[i] == Ascii('\\') {
      AfterEscape(p, i);
      cuts := AlternativesFrom(p, i + 2);
      LongerFirst(p, i, i + 2, cuts, Alternatives(p[i + 2..], DepthAt(p, i + 2)));
    } else {
      AfterByte(p, i);
      cuts := AlternativesFrom(p, i + 1);
      cuts := ByteCut(p, i, cuts);
    }
  }

  /** The alternatives are exactly the pieces between the bars that are neither escaped nor inside
      brackets or parentheses. */
  lemma AlternativesAreBetweenBars(p: Bytes) returns (cuts: seq<nat>)
    ensures CutInto(p, 0, cuts, Alternatives(p, 0))
  {
    cuts := AlternativesFrom(p, 0);
    assert p[0..] == p;
  }
}
