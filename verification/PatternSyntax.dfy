/** The written form of the mini-regex: compiling a pattern to tokens, splitting alternatives,
    and the anchored match built on the matcher. */
module PatternSyntax {
  import opened Wrappers
  import opened MiniRegex

  function Ascii(c: char): Byte
    requires c as int < 128
  {
    c as int
  }

  function Pre<T>(head: seq<T>, tail: Option<seq<T>>): Option<seq<T>> {
    if tail.None? then None else Some(head + tail.value)
  }

  lemma PreNothing<T>(tail: Option<seq<T>>)
    ensures Pre([], tail) == tail
  {
    if tail.Some? {
      assert [] + tail.value == tail.value;
    }
  }

  lemma PreAssoc<T>(a: seq<T>, b: seq<T>, tail: Option<seq<T>>)
    ensures Pre(a, Pre(b, tail)) == Pre(a + b, tail)
  {
    if tail.Some? {
      assert a + (b + tail.value) == (a + b) + tail.value;
    }
  }

  // ---------------------------------------------------------------------
  // Character classes
  // ---------------------------------------------------------------------

  const WORD_RANGES: seq<(Byte, Byte)> :=
    [(Ascii('a'), Ascii('z')), (Ascii('A'), Ascii('Z')), (Ascii('0'), Ascii('9')), (Ascii('_'), Ascii('_'))]

  function ClassEscape(esc: Byte): Option<seq<(Byte, Byte)>> {
    if esc == Ascii('d') then Some([(Ascii('0'), Ascii('9'))])
    else if esc == Ascii('w') then Some(WORD_RANGES)
    else if esc == Ascii('-') || esc == Ascii('\\') then Some([(esc, esc)])
    else None
  }

  function ClassRanges(body: Bytes): Option<seq<(Byte, Byte)>> {
    if body == [] then Some([])
    else if body[0] == Ascii('\\') && |body| > 1 then
      match ClassEscape(body[1])
      case None => None
      case Some(ranges) => Pre(ranges, ClassRanges(body[2..]))
    else if |body| > 2 && body[1] == Ascii('-') then
      Pre([(body[0], body[2])], ClassRanges(body[3..]))
    else
      Pre([(body[0], body[0])], ClassRanges(body[1..]))
  }

  method ParseClass(body: Bytes) returns (r: Option<seq<(Byte, Byte)>>)
    ensures r == ClassRanges(body)
  {
    var ranges: seq<(Byte, Byte)> := [];
    var i := 0;
    assert body[0..] == body;
    PreNothing(ClassRanges(body));
    while i < |body|
      invariant 0 <= i <= |body|
      invariant ClassRanges(body) == Pre(ranges, ClassRanges(body[i..]))
    {
      ghost var rest := body[i..];
      var lo := body[i];
      if lo == Ascii('\\') && i + 1 < |body| {
        var pair := ClassEscape(body[i + 1]);
        if pair.None? {
          return None;
        }
        assert rest[2..] == body[i + 2..];
        PreAssoc(ranges, pair.value, ClassRanges(body[i + 2..]));
        ranges := ranges + pair.value;
        i := i + 2;
      } else if i + 2 < |body| && body[i + 1] == Ascii('-') {
        assert rest[3..] == body[i + 3..];
        PreAssoc(ranges, [(lo, body[i + 2])], ClassRanges(body[i + 3..]));
        ranges := ranges + [(lo, body[i + 2])];
        i := i + 3;
      } else {
        assert rest[1..] == body[i + 1..];
        PreAssoc(ranges, [(lo, lo)], ClassRanges(body[i + 1..]));
        ranges := ranges + [(lo, lo)];
        i := i + 1;
      }
    }
    assert body[i..] == [] && ranges + [] == ranges;
    return Some(ranges);
  }

  // ---------------------------------------------------------------------
  // Repetition counts
  // ---------------------------------------------------------------------

  predicate IsDigit(b: Byte) {
    Ascii('0') <= b <= Ascii('9')
  }

  predicate AllDigits(s: Bytes) {
    s == [] || (IsDigit(s[|s| - 1]) && AllDigits(s[..|s| - 1]))
  }

  function DecimalValue(digits: Bytes): nat
    requires AllDigits(digits)
  {
    if digits == [] then 0
    else 10 * DecimalValue(digits[..|digits| - 1]) + (digits[|digits| - 1] - Ascii('0'))
  }

  /** Reading a `usize`: an optional `+`, then one or more digits, within 64 bits. */
  function ParseCount(body: Bytes): Option<nat> {
    var digits := if body != [] && body[0] == Ascii('+') then body[1..] else body;
    if digits == [] || !AllDigits(digits) then None
    else if DecimalValue(digits) > U64_MAX then None
    else Some(DecimalValue(digits))
  }

  function IndexOf(s: Bytes, b: Byte): (r: Option<nat>)
    ensures r.Some? ==> r.value < |s|
  {
    if s == [] then None
    else if s[0] == b then Some(0)
    else match IndexOf(s[1..], b)
      case None => None
      case Some(k) => Some(k + 1)
  }

  /** The index found is that of the first occurrence. */
  lemma {:induction false} IndexIsFirst(s: Bytes, b: Byte)
    ensures IndexOf(s, b).None? ==> b !in s
    ensures IndexOf(s, b).Some? ==> var k := IndexOf(s, b).value; s[k] == b && b !in s[..k]
    decreases |s|
  {
    if s != [] && s[0] != b {
      IndexIsFirst(s[1..], b);
      if IndexOf(s[1..], b).Some? {
        var k := IndexOf(s[1..], b).value;
        assert s[..k + 1] == [s[0]] + s[1..][..k];
      }
    }
  }

  // ---------------------------------------------------------------------
  // Token lists
  // ---------------------------------------------------------------------

  function BackslashAtom(next: Byte): Option<Token> {
    if next == Ascii('d') then Some(Class([(Ascii('0'), Ascii('9'))], false))
    else if next == Ascii('w') then Some(Class(WORD_RANGES, false))
    else if next == Ascii('s') then Some(Class([(Ascii(' '), Ascii(' ')), (Ascii('\t'), Ascii('\t'))], false))
    else if next in [Ascii('.'), Ascii('^'), Ascii('$'), Ascii('\\'), Ascii('/'), Ascii('-')] then Some(Char(next))
    else None
  }

  const UNSUPPORTED: Bytes :=
    [Ascii('.'), Ascii('('), Ascii(')'), Ascii('|'), Ascii('?'), Ascii('*'), Ascii('^'), Ascii('$')]

  /** The first atom of `p`, and how many bytes it takes. */
  function ParseAtom(p: Bytes): (r: Option<(Token, nat)>)
    requires p != []
    ensures r.Some? ==> 0 < r.value.1 <= |p|
  {
    if p[0] == Ascii('[') then
      var negate := |p| > 1 && p[1] == Ascii('^');
      ClassAtom(p[if negate then 2 else 1..], negate)
    else if p[0] == Ascii('\\') then
      if |p| == 1 then None
      else match BackslashAtom(p[1])
        case None => None
        case Some(atom) => Some((atom, 2))
    else if p[0] in UNSUPPORTED then None
    else Some((Char(p[0]), 1))
  }

  /** A class, its opening already read from the pattern. */
  function ClassAtom(rest: Bytes, negate: bool): (r: Option<(Token, nat)>)
    ensures r.Some? ==> 0 < r.value.1 <= |rest| + if negate then 2 else 1
  {
    match IndexOf(rest, Ascii(']'))
    case None => None
    case Some(k) =>
      match ClassRanges(rest[..k])
      case None => None
      case Some(ranges) => Some((Class(ranges, negate), k + if negate then 3 else 2))
  }

  /** The quantifier, if any, at the front of `p`, applied to `atom`. */
  function ParseQuantifier(atom: Token, p: Bytes): (r: Option<(Token, nat)>)
    ensures r.Some? ==> r.value.1 <= |p|
  {
    if p != [] && p[0] == Ascii('+') then Some((Plus(atom), 1))
    else if p != [] && p[0] == Ascii('{') then
      match IndexOf(p[1..], Ascii('}'))
      case None => None
      case Some(k) =>
        match ParseCount(p[1..k + 1])
        case None => None
        case Some(n) => Some((Repeat(atom, n), k + 2))
    else Some((atom, 0))
  }

  /** The token list a pattern stands for; None when it uses unsupported syntax. */
  function Tokens(p: Bytes): Option<seq<Token>>
    decreases |p|
  {
    if p == [] then Some([])
    else match NextToken(p)
      case None => None
      case Some((token, used)) => Pre([token], Tokens(p[used..]))
  }

  /** The first atom with its quantifier, and how many bytes they take. */
  function NextToken(p: Bytes): (r: Option<(Token, nat)>)
    requires p != []
    ensures r.Some? ==> 0 < r.value.1 <= |p|
  {
    match ParseAtom(p)
    case None => None
    case Some((atom, used)) =>
      match ParseQuantifier(atom, p[used..])
      case None => None
      case Some((token, more)) => Some((token, used + more))
  }

  method FindByte(s: Bytes, from: nat, b: Byte) returns (end: nat)
    requires from <= |s|
    ensures from <= end <= |s|
    ensures IndexOf(s[from..], b) == if end < |s| then Some(end - from) else None
  {
    end := from;
    while end < |s| && s[end] != b
      invariant from <= end <= |s| && b !in s[from..end]
    {
      end := end + 1;
    }
    if end < |s| {
      FirstIndex(s[from..], b, end - from);
      assert s[from..][..end - from] == s[from..end];
    } else {
      assert s[from..] == s[from..end];
      IndexIsFirst(s[from..], b);
    }
  }

  lemma FirstIndex(s: Bytes, b: Byte, k: nat)
    requires k < |s| && s[k] == b && b !in s[..k]
    ensures IndexOf(s, b) == Some(k)
  {
    if k > 0 {
      assert s[0] in s[..k];
      assert s[1..][..k - 1] == s[..k][1..];
      FirstIndex(s[1..], b, k - 1);
    }
  }

  /** The class whose ranges start at `start`, and the cursor after its bracket. */
  method ReadClass(p: Bytes, start: nat, negate: bool) returns (atom: Option<Token>, next: nat)
    requires start <= |p|
    ensures atom.None? ==> ClassAtom(p[start..], negate).None?
    ensures atom.Some? ==> start < next <= |p|
    ensures atom.Some? ==> ClassAtom(p[start..], negate) == Some((atom.value, next - start + if negate then 2 else 1))
  {
    var end := FindByte(p, start, Ascii(']'));
    if end >= |p| {
      return None, start;
    }
    var ranges := ParseClass(p[start..end]);
    SliceOfSuffix(p, start, start, end);
    if ranges.None? {
      return None, start;
    }
    return Some(Class(ranges.value, negate)), end + 1;
  }

  /** The atom at `i`, and the cursor after it. */
  method ReadAtom(p: Bytes, i: nat) returns (atom: Option<Token>, next: nat)
    requires i < |p|
    ensures atom.None? ==> ParseAtom(p[i..]).None?
    ensures atom.Some? ==> i < next <= |p| && ParseAtom(p[i..]) == Some((atom.value, next - i))
  {
    if p[i] == Ascii('[') {
      var start := i + 1;
      var negate := false;
      if start < |p| && p[start] == Ascii('^') {
        negate := true;
        start := start + 1;
      }
      SuffixOfSuffix(p, i, start);
      atom, next := ReadClass(p, start, negate);
      return;
    } else if p[i] == Ascii('\\') {
      if i + 1 >= |p| {
        return None, i;
      }
      return BackslashAtom(p[i + 1]), i + 2;
    } else if p[i] in UNSUPPORTED {
      return None, i;
    } else {
      return Some(Char(p[i])), i + 1;
    }
  }

  /** The quantifier at `i` applied to `atom`, and the cursor after it. */
  method ReadQuantifier(p: Bytes, atom: Token, i: nat) returns (token: Option<Token>, next: nat)
    requires i <= |p|
    ensures token.None? ==> ParseQuantifier(atom, p[i..]).None?
    ensures token.Some? ==> i <= next <= |p| && ParseQuantifier(atom, p[i..]) == Some((token.value, next - i))
  {
    ghost var rest := p[i..];
    if i < |p| && p[i] == Ascii('+') {
      return Some(Plus(atom)), i + 1;
    } else if i < |p| && p[i] == Ascii('{') {
      var close := FindByte(p, i + 1, Ascii('}'));
      assert rest[1..] == p[i + 1..];
      if close >= |p| {
        return None, i;
      }
      assert rest[1..close - i] == p[i + 1..close];
      var n := ParseCount(p[i + 1..close]);
      if n.None? {
        return None, i;
      }
      return Some(Repeat(atom, n.value)), close + 1;
    }
    return Some(atom), i;
  }

  lemma SliceOfSuffix(p: Bytes, i: nat, a: nat, b: nat)
    requires i <= a <= b <= |p|
    ensures p[i..][a - i..b - i] == p[a..b]
  {
  }

  lemma SuffixOfSuffix(p: Bytes, i: nat, j: nat)
    requires i <= j <= |p|
    ensures p[i..][j - i..] == p[j..]
  {
  }

  lemma TokensStep(p: Bytes, i: nat, token: Token, next: nat)
    requires i < next <= |p| && NextToken(p[i..]) == Some((token, next - i))
    ensures Tokens(p[i..]) == Pre([token], Tokens(p[next..]))
  {
    SuffixOfSuffix(p, i, next);
    TokensHead(p[i..], token, next - i, p[next..]);
  }

  lemma TokensHead(q: Bytes, token: Token, used: nat, tail: Bytes)
    requires q != [] && NextToken(q) == Some((token, used)) && tail == q[used..]
    ensures Tokens(q) == Pre([token], Tokens(tail))
  {
  }

  /** One turn of the scan: the quantified atom at `i`. */
  method ReadToken(p: Bytes, i: nat) returns (token: Option<Token>, next: nat)
    requires i < |p|
    ensures token.None? ==> NextToken(p[i..]).None?
    ensures token.Some? ==> i < next <= |p| && NextToken(p[i..]) == Some((token.value, next - i))
  {
    var atom, mid := ReadAtom(p, i);
    if atom.None? {
      return None, i;
    }
    SuffixOfSuffix(p, i, mid);
    AtomThenQuantifier(p[i..], atom.value, mid - i);
    token, next := ReadQuantifier(p, atom.value, mid);
  }

  lemma AtomThenQuantifier(p: Bytes, atom: Token, used: nat)
    requires p != [] && used <= |p| && ParseAtom(p) == Some((atom, used))
    ensures var q := ParseQuantifier(atom, p[used..]);
            NextToken(p) == if q.None? then None else Some((q.value.0, used + q.value.1))
  {
  }

  /** `compile_tokens`, a scan with one cursor. */
  method CompileTokens(p: Bytes) returns (r: Option<seq<Token>>)
    ensures r == Tokens(p)
  {
    var tokens: seq<Token> := [];
    var i: nat := 0;
    assert p[0..] == p;
    PreNothing(Tokens(p));
    while i < |p|
      invariant i <= |p|
      invariant Tokens(p) == Pre(tokens, Tokens(p[i..]))
    {
      var token, next := ReadToken(p, i);
      if token.None? {
        return None;
      }
      TokensStep(p, i, token.value, next);
      PreAssoc(tokens, [token.value], Tokens(p[next..]));
      tokens, i := tokens + [token.value], next;
    }
    assert p[i..] == [] && tokens + [] == tokens;
    return Some(tokens);
  }

  // ---------------------------------------------------------------------
  // Anchored patterns
  // ---------------------------------------------------------------------

  function StripDollar(p: Bytes): Bytes {
    if p != [] && p[|p| - 1] == Ascii('$') then p[..|p| - 1] else p
  }

  /** What one alternative promises: unanchored or unsupported patterns accept everything, an
      anchored one accepts exactly its language. */
  ghost predicate AlternativeAccepts(p: Bytes, text: Bytes) {
    p == [] || p[0] != Ascii('^')
    || var tokens := Tokens(StripDollar(p[1..]));
       tokens.None? || InLanguage(tokens.value, text)
  }

  method MatchAnchored(p: Bytes, text: Bytes) returns (ok: bool)
    ensures ok <==> AlternativeAccepts(p, text)
  {
    if p == [] || p[0] != Ascii('^') {
      return true;
    }
    var tokens := CompileTokens(StripDollar(p[1..]));
    if tokens.None? {
      return true;
    }
    var end := MatchTokens(tokens.value, text, 0);
    assert text[0..|text|] == text;
    assert Reaches(tokens.value, text, 0, |text|) <==> InLanguage(tokens.value, text);
    return end == Some(|text|);
  }

  /** The alternatives of `p`, cut at every `|` outside brackets, parentheses and escapes. */
  function Alternatives(p: Bytes, depth: int): (r: seq<Bytes>)
    ensures r != []
  {
    if p == [] then [[]]
    else if p[0] == Ascii('\\') then
      if |p| == 1 then [p] else Glue(p[..2], Alternatives(p[2..], depth))
    else if p[0] == Ascii('|') && depth == 0 then [[]] + Alternatives(p[1..], depth)
    else Glue(p[..1], Alternatives(p[1..], depth + Nesting(p[0])))
  }

  function Nesting(b: Byte): int {
    if b == Ascii('[') || b == Ascii('(') then 1
    else if b == Ascii(']') || b == Ascii(')') then -1
    else 0
  }

  function Glue(head: Bytes, pieces: seq<Bytes>): (r: seq<Bytes>)
    requires pieces != []
    ensures r != []
  {
    [head + pieces[0]] + pieces[1..]
  }

  function JoinBars(pieces: seq<Bytes>): Bytes
    requires pieces != []
  {
    if |pieces| == 1 then pieces[0] else pieces[0] + [Ascii('|')] + JoinBars(pieces[1..])
  }

  /** Splitting loses nothing: putting the bars back gives the pattern. */
  lemma {:induction false} AlternativesJoin(p: Bytes, depth: int)
    ensures JoinBars(Alternatives(p, depth)) == p
    decreases |p|
  {
    if p == [] {
    } else if p[0] == Ascii('\\') {
      if |p| > 1 {
        AlternativesJoin(p[2..], depth);
        GlueJoin(p[..2], Alternatives(p[2..], depth));
      }
    } else if p[0] == Ascii('|') && depth == 0 {
      AlternativesJoin(p[1..], depth);
      assert ([[]] + Alternatives(p[1..], depth))[1..] == Alternatives(p[1..], depth);
    } else {
      AlternativesJoin(p[1..], depth + Nesting(p[0]));
      GlueJoin(p[..1], Alternatives(p[1..], depth + Nesting(p[0])));
    }
  }

  lemma GlueJoin(head: Bytes, pieces: seq<Bytes>)
    requires pieces != []
    ensures JoinBars(Glue(head, pieces)) == head + JoinBars(pieces)
  {
    assert Glue(head, pieces)[1..] == pieces[1..];
    if |pieces| > 1 {
      assert (head + pieces[0]) + [Ascii('|')] + JoinBars(pieces[1..])
          == head + (pieces[0] + [Ascii('|')] + JoinBars(pieces[1..]));
    }
  }

  /** The scan's state: the pieces finished, where the current one starts, and the cursor. */
  datatype Scan = Scan(out: seq<Bytes>, start: nat, i: nat, depth: int)

  /** What the scan will have found in the end. */
  ghost predicate Scanning(p: Bytes, s: Scan, pieces: seq<Bytes>) {
    s.start <= s.i <= |p| && pieces == s.out + Glue(p[s.start..s.i], Alternatives(p[s.i..], s.depth))
  }

  method SplitTopLevel(p: Bytes) returns (out: seq<Bytes>)
    ensures out == Alternatives(p, 0)
  {
    var s := Scan([], 0, 0, 0);
    ScanStart(p);
    while s.i < |p|
      invariant Scanning(p, s, Alternatives(p, 0))
      decreases |p| - s.i
    {
      var b := p[s.i];
      if b == Ascii('\\') {
        if s.i + 1 >= |p| {
          break;
        }
        EscapedPair(p, s, Alternatives(p, 0));
        s := s.(i := s.i + 2);
      } else if b == Ascii('|') && s.depth == 0 {
        TopLevelBar(p, s, Alternatives(p, 0));
        s := Scan(s.out + [p[s.start..s.i]], s.i + 1, s.i + 1, 0);
      } else {
        OrdinaryByte(p, s, Alternatives(p, 0));
        s := s.(i := s.i + 1, depth := s.depth + Nesting(b));
      }
    }
    ScanEnd(p, s, Alternatives(p, 0));
    out := s.out + [p[s.start..]];
  }

  lemma ScanStart(p: Bytes)
    ensures Scanning(p, Scan([], 0, 0, 0), Alternatives(p, 0))
  {
    assert p[0..] == p && p[0..0] == [];
    assert [] + Alternatives(p, 0)[0] == Alternatives(p, 0)[0];
  }

  /** Nothing is left, or only an unpaired backslash. */
  lemma ScanEnd(p: Bytes, s: Scan, pieces: seq<Bytes>)
    requires Scanning(p, s, pieces) && (s.i < |p| ==> s.i + 1 == |p| && p[s.i] == Ascii('\\'))
    ensures pieces == s.out + [p[s.start..]]
  {
    assert p[s.start..] == p[s.start..s.i] + p[s.i..];
    assert Alternatives(p[s.i..], s.depth) == [p[s.i..]];
  }

  /** The three ways the scan moves on. */
  lemma EscapedPair(p: Bytes, s: Scan, pieces: seq<Bytes>)
    requires Scanning(p, s, pieces) && s.i + 1 < |p| && p[s.i] == Ascii('\\')
    ensures Scanning(p, s.(i := s.i + 2), pieces)
  {
    var head, rest := p[s.start..s.i], p[s.i..];
    assert rest[2..] == p[s.i + 2..];
    assert head + rest[..2] == p[s.start..s.i + 2];
    GlueGlue(head, rest[..2], Alternatives(p[s.i + 2..], s.depth));
  }

  lemma TopLevelBar(p: Bytes, s: Scan, pieces: seq<Bytes>)
    requires Scanning(p, s, pieces) && s.i < |p| && p[s.i] == Ascii('|') && s.depth == 0
    ensures Scanning(p, Scan(s.out + [p[s.start..s.i]], s.i + 1, s.i + 1, 0), pieces)
  {
    var head, later := p[s.start..s.i], Alternatives(p[s.i + 1..], 0);
    assert p[s.i..][1..] == p[s.i + 1..];
    GlueBar(head, later);
    assert p[s.i + 1..s.i + 1] == [];
    Associative(s.out, [head], Glue([], later));
  }

  lemma OrdinaryByte(p: Bytes, s: Scan, pieces: seq<Bytes>)
    requires Scanning(p, s, pieces) && s.i < |p|
    requires p[s.i] != Ascii('\\') && !(p[s.i] == Ascii('|') && s.depth == 0)
    ensures Scanning(p, s.(i := s.i + 1, depth := s.depth + Nesting(p[s.i])), pieces)
  {
    var head, rest := p[s.start..s.i], p[s.i..];
    assert rest[1..] == p[s.i + 1..];
    assert head + rest[..1] == p[s.start..s.i + 1];
    GlueGlue(head, rest[..1], Alternatives(p[s.i + 1..], s.depth + Nesting(p[s.i])));
  }

  lemma GlueBar(head: Bytes, later: seq<Bytes>)
    requires later != []
    ensures Glue(head, [[]] + later) == [head] + Glue([], later)
  {
    assert head + [] == head && [] + later[0] == later[0];
    assert ([[]] + later)[1..] == later;
  }

  lemma GlueGlue(a: Bytes, b: Bytes, pieces: seq<Bytes>)
    requires pieces != []
    ensures Glue(a, Glue(b, pieces)) == Glue(a + b, pieces)
  {
    assert a + (b + pieces[0]) == (a + b) + pieces[0];
  }

  /** `pattern_matches`: some alternative accepts the whole text. */
  method PatternMatches(p: Bytes, text: Bytes) returns (ok: bool)
    ensures ok <==> exists alt | alt in Alternatives(p, 0) :: AlternativeAccepts(alt, text)
  {
    var alts := SplitTopLevel(p);
    for k := 0 to |alts|
      invariant forall j | 0 <= j < k :: !AlternativeAccepts(alts[j], text)
    {
      var hit := MatchAnchored(alts[k], text);
      if hit {
        return true;
      }
    }
    return false;
  }
}
