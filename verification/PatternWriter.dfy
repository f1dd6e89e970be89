/** A writer for token lists, and the proof that compiling undoes it: exactly the token lists that some
    pattern compiles to can be written, and they are read back unchanged. */
module PatternWriter {
  import opened Wrappers
  import opened MiniRegex
  import opened PatternSyntax

  const ESCAPED: Bytes := [Ascii('.'), Ascii('^'), Ascii('$'), Ascii('\\'), Ascii('/'), Ascii('-')]

  predicate WritableAtom(t: Token) {
    match t
    case Char(c) => c in ESCAPED || (c !in UNSUPPORTED && c != Ascii('['))
    case Class(ranges, negate) => WritableRanges(ranges) && (negate || ranges == [] || ranges[0].0 != Ascii('^'))
    case _ => false
  }

  predicate WritableRanges(ranges: seq<(Byte, Byte)>) {
    ranges == [] || (WritableRange(ranges[0]) && WritableRanges(ranges[1..]))
  }

  predicate WritableRange(r: (Byte, Byte)) {
    r == (Ascii('\\'), Ascii('\\')) || (r.0 != Ascii('\\') && r.0 != Ascii(']') && r.1 != Ascii(']'))
  }

  predicate Writable(t: Token) {
    match t
    case Plus(inner) => WritableAtom(inner)
    case Repeat(inner, n) => WritableAtom(inner) && n <= U64_MAX
    case _ => WritableAtom(t)
  }

  predicate Quantified(t: Token) {
    t.Plus? || t.Repeat?
  }

  function AtomOf(t: Token): Token {
    match t
    case Plus(inner) => inner
    case Repeat(inner, _) => inner
    case _ => t
  }

  /** Begins with a byte that would be taken for a quantifier of the token before it. */
  predicate Opens(t: Token) {
    AtomOf(t) == Char(Ascii('+')) || AtomOf(t) == Char(Ascii('{'))
  }

  /** The token lists that patterns stand for. */
  predicate Expressible(ts: seq<Token>) {
    ts == [] || (
      && Writable(ts[0]) && Expressible(ts[1..])
      && (|ts| > 1 && Opens(ts[1]) ==> Quantified(ts[0]))
    )
  }

  function WriteRanges(ranges: seq<(Byte, Byte)>): Bytes {
    if ranges == [] then [] else WriteRange(ranges[0]) + WriteRanges(ranges[1..])
  }

  function WriteRange(r: (Byte, Byte)): Bytes {
    if r == (Ascii('\\'), Ascii('\\')) then [Ascii('\\'), Ascii('\\')] else [r.0, Ascii('-'), r.1]
  }

  function WriteCount(n: nat): (r: Bytes)
    ensures r != [] && AllDigits(r)
  {
    var last: Byte := Ascii('0') + n % 10;
    if n < 10 then [last]
    else
      var r := WriteCount(n / 10) + [last];
      assert r[..|r| - 1] == WriteCount(n / 10);
      r
  }

  function WriteAtom(t: Token): Bytes
    requires WritableAtom(t)
  {
    match t
    case Char(c) => if c in ESCAPED then [Ascii('\\'), c] else [c]
    case Class(ranges, negate) =>
      Opening(negate) + WriteRanges(ranges) + [Ascii(']')]
  }

  function WriteToken(t: Token): Bytes
    requires Writable(t)
  {
    match t
    case Plus(inner) => WriteAtom(inner) + [Ascii('+')]
    case Repeat(inner, n) => WriteAtom(inner) + ([Ascii('{')] + WriteCount(n) + [Ascii('}')])
    case _ => WriteAtom(t)
  }

  function Write(ts: seq<Token>): Bytes
    requires Expressible(ts)
  {
    if ts == [] then [] else WriteToken(ts[0]) + Write(ts[1..])
  }

  lemma {:induction false} RangesBack(ranges: seq<(Byte, Byte)>)
    requires WritableRanges(ranges)
    ensures ClassRanges(WriteRanges(ranges)) == Some(ranges)
    ensures Ascii(']') !in WriteRanges(ranges)
  {
    if ranges != [] {
      RangesBack(ranges[1..]);
      RangeBack(ranges[0], WriteRanges(ranges[1..]), ranges[1..]);
      assert [ranges[0]] + ranges[1..] == ranges;
    }
  }

  lemma RangeBack(r: (Byte, Byte), rest: Bytes, ranges: seq<(Byte, Byte)>)
    requires WritableRange(r) && ClassRanges(rest) == Some(ranges)
    ensures ClassRanges(WriteRange(r) + rest) == Some([r] + ranges)
  {
    var body := WriteRange(r) + rest;
    assert body[|WriteRange(r)|..] == rest;
  }

  lemma {:induction false} CountBack(n: nat)
    ensures DecimalValue(WriteCount(n)) == n
  {
    var w := WriteCount(n);
    if n >= 10 {
      CountBack(n / 10);
      assert w[..|w| - 1] == WriteCount(n / 10);
    } else {
      assert w[..0] == [];
    }
  }

  lemma AtomBack(t: Token, rest: Bytes)
    requires WritableAtom(t)
    ensures WriteAtom(t) != []
    ensures ParseAtom(WriteAtom(t) + rest) == Some((t, |WriteAtom(t)|))
  {
    match t
    case Char(c) =>
    case Class(ranges, negate) =>
      WholeClassBack(Opening(negate), WriteRanges(ranges), ranges, negate, rest);
  }

  lemma WholeClassBack(open: Bytes, body: Bytes, ranges: seq<(Byte, Byte)>, negate: bool, rest: Bytes)
    requires WritableAtom(Class(ranges, negate)) && open == Opening(negate) && body == WriteRanges(ranges)
    ensures ParseAtom(open + body + [Ascii(']')] + rest) == Some((Class(ranges, negate), |open| + |body| + 1))
  {
    var after := body + [Ascii(']')] + rest;
    ClassBack(ranges, negate, rest);
    BodyStart(ranges, negate);
    Opened(open, body, rest);
    OpenedAt(open + after, after, negate);
  }

  function Opening(negate: bool): Bytes {
    if negate then [Ascii('['), Ascii('^')] else [Ascii('[')]
  }

  lemma Opened(open: Bytes, body: Bytes, rest: Bytes)
    ensures open + body + [Ascii(']')] + rest == open + (body + [Ascii(']')] + rest)
    ensures (open + (body + [Ascii(']')] + rest))[|open|..] == body + [Ascii(']')] + rest
  {
  }

  lemma ClassBack(ranges: seq<(Byte, Byte)>, negate: bool, rest: Bytes)
    requires WritableAtom(Class(ranges, negate))
    ensures ClassAtom(WriteRanges(ranges) + [Ascii(']')] + rest, negate)
         == Some((Class(ranges, negate), |WriteRanges(ranges)| + if negate then 3 else 2))
  {
    var body := WriteRanges(ranges);
    RangesBack(ranges);
    ClosingBracket(body, rest);
    assert (body + [Ascii(']')] + rest)[..|body|] == body;
  }

  /** A class that is not negated does not open with a caret. */
  lemma BodyStart(ranges: seq<(Byte, Byte)>, negate: bool)
    requires WritableAtom(Class(ranges, negate))
    ensures !negate ==> WriteRanges(ranges) == [] || WriteRanges(ranges)[0] != Ascii('^')
  {
  }

  lemma OpenedAt(p: Bytes, after: Bytes, negate: bool)
    requires p == Opening(negate) + after && after != [] && (!negate ==> after[0] != Ascii('^'))
    ensures ParseAtom(p) == ClassAtom(after, negate)
  {
    assert p[|Opening(negate)|..] == after;
  }

  lemma ClosingBracket(body: Bytes, rest: Bytes)
    requires Ascii(']') !in body
    ensures IndexOf(body + [Ascii(']')] + rest, Ascii(']')) == Some(|body|)
  {
    var p := body + [Ascii(']')] + rest;
    assert p[..|body|] == body;
    FirstIndex(p, Ascii(']'), |body|);
  }

  lemma RepeatBack(inner: Token, n: nat, rest: Bytes)
    requires n <= U64_MAX
    ensures var suffix := [Ascii('{')] + WriteCount(n) + [Ascii('}')];
            ParseQuantifier(inner, suffix + rest) == Some((Repeat(inner, n), |suffix|))
  {
    var w := WriteCount(n);
    var p := [Ascii('{')] + w + [Ascii('}')] + rest;
    assert p[1..] == w + [Ascii('}')] + rest;
    assert p[1..][..|w|] == w;
    DigitsOnly(w, Ascii('}'));
    FirstIndex(p[1..], Ascii('}'), |w|);
    assert p[1..|w| + 1] == w;
    CountParses(n);
  }

  lemma {:induction false} DigitsOnly(s: Bytes, b: Byte)
    requires AllDigits(s) && !IsDigit(b)
    ensures b !in s
    decreases |s|
  {
    if s != [] {
      DigitsOnly(s[..|s| - 1], b);
    }
  }

  lemma CountParses(n: nat)
    requires n <= U64_MAX
    ensures ParseCount(WriteCount(n)) == Some(n)
  {
    CountBack(n);
    FirstDigit(WriteCount(n));
  }

  lemma {:induction false} FirstDigit(s: Bytes)
    requires s != [] && AllDigits(s)
    ensures IsDigit(s[0])
    decreases |s|
  {
    if |s| > 1 {
      FirstDigit(s[..|s| - 1]);
    }
  }

  lemma AtomStart(t: Token)
    requires WritableAtom(t)
    ensures WriteAtom(t) != []
    ensures WriteAtom(t)[0] in [Ascii('+'), Ascii('{')] ==> Opens(t)
  {
  }

  lemma WrittenStart(ts: seq<Token>)
    requires Expressible(ts) && Write(ts) != []
    ensures Write(ts)[0] in [Ascii('+'), Ascii('{')] ==> Opens(ts[0])
  {
    AtomStart(AtomOf(ts[0]));
  }

  lemma QuantifiedBack(atom: Token, suffix: Bytes, t: Token, rest: Bytes)
    requires WritableAtom(atom)
    requires ParseQuantifier(atom, suffix + rest) == Some((t, |suffix|))
    ensures WriteAtom(atom) != []
    ensures NextToken(WriteAtom(atom) + suffix + rest) == Some((t, |WriteAtom(atom) + suffix|))
  {
    var w := WriteAtom(atom);
    AtomBack(atom, suffix + rest);
    AppendDrop(w, suffix + rest);
    Associative(w, suffix, rest);
    AtomThenQuantifier(w + (suffix + rest), atom, |w|);
  }

  lemma AppendDrop(a: Bytes, b: Bytes)
    ensures (a + b)[|a|..] == b
  {
  }

  lemma TokenBack(t: Token, rest: Bytes)
    requires Writable(t)
    requires Quantified(t) || rest == [] || rest[0] !in [Ascii('+'), Ascii('{')]
    ensures WriteToken(t) != [] && NextToken(WriteToken(t) + rest) == Some((t, |WriteToken(t)|))
  {
    match t
    case Plus(inner) =>
      QuantifiedBack(inner, [Ascii('+')], t, rest);
    case Repeat(inner, n) =>
      RepeatBack(inner, n, rest);
      QuantifiedBack(inner, [Ascii('{')] + WriteCount(n) + [Ascii('}')], t, rest);
    case _ =>
      assert [] + rest == rest && WriteAtom(t) + [] == WriteAtom(t);
      QuantifiedBack(t, [], t, rest);
  }

  /** Compiling a written token list gives the list back. */
  lemma {:induction false} CompileUndoesWrite(ts: seq<Token>)
    requires Expressible(ts)
    ensures Tokens(Write(ts)) == Some(ts)
    decreases |ts|
  {
    if ts != [] {
      CompileUndoesWrite(ts[1..]);
      HeadBack(ts);
      OneMore(WriteToken(ts[0]), ts[0], Write(ts[1..]), ts[1..]);
      assert [ts[0]] + ts[1..] == ts;
    }
  }

  lemma HeadBack(ts: seq<Token>)
    requires ts != [] && Expressible(ts)
    ensures WriteToken(ts[0]) != [] && NextToken(WriteToken(ts[0]) + Write(ts[1..])) == Some((ts[0], |WriteToken(ts[0])|))
  {
    if Write(ts[1..]) != [] {
      WrittenStart(ts[1..]);
    }
    TokenBack(ts[0], Write(ts[1..]));
  }

  lemma OneMore(w: Bytes, t: Token, rest: Bytes, ts: seq<Token>)
    requires w != [] && NextToken(w + rest) == Some((t, |w|)) && Tokens(rest) == Some(ts)
    ensures Tokens(w + rest) == Some([t] + ts)
  {
    AppendDrop(w, rest);
  }

  // ---------------------------------------------------------------------
  // Everything compiled can be written
  // ---------------------------------------------------------------------

  lemma {:induction false} ScannedRanges(body: Bytes)
    requires ClassRanges(body).Some? && Ascii(']') !in body
    ensures var ranges := ClassRanges(body).value;
            && WritableRanges(ranges) && (ranges == [] <==> body == [])
            && (body != [] && body[0] != Ascii('^') ==> ranges[0].0 != Ascii('^'))
    decreases |body|
  {
    if body != [] {
      if body[0] == Ascii('\\') && |body| > 1 {
        ScannedRanges(body[2..]);
        RangesJoin(ClassEscape(body[1]).value, ClassRanges(body[2..]).value);
      } else if |body| > 2 && body[1] == Ascii('-') {
        assert body[0] in body && body[2] in body;
        ScannedRanges(body[3..]);
        RangesJoin([(body[0], body[2])], ClassRanges(body[3..]).value);
      } else {
        assert body[0] in body;
        ScannedRanges(body[1..]);
        RangesJoin([(body[0], body[0])], ClassRanges(body[1..]).value);
      }
    }
  }

  lemma {:induction false} RangesJoin(a: seq<(Byte, Byte)>, b: seq<(Byte, Byte)>)
    requires (forall i | 0 <= i < |a| :: WritableRange(a[i])) && WritableRanges(b)
    ensures WritableRanges(a + b)
    decreases |a|
  {
    if a == [] {
      assert a + b == b;
    } else {
      assert (a + b)[1..] == a[1..] + b;
      RangesJoin(a[1..], b);
    }
  }

  lemma ScannedClass(rest: Bytes, negate: bool)
    requires ClassAtom(rest, negate).Some? && (negate || rest == [] || rest[0] != Ascii('^'))
    ensures WritableAtom(ClassAtom(rest, negate).value.0)
  {
    var k := IndexOf(rest, Ascii(']')).value;
    IndexIsFirst(rest, Ascii(']'));
    ScannedRanges(rest[..k]);
  }

  /** An atom read from a pattern is writable, and opens like a quantifier only if its byte does. */
  lemma ScannedAtom(p: Bytes)
    requires p != [] && ParseAtom(p).Some?
    ensures var atom := ParseAtom(p).value.0;
            WritableAtom(atom) && (Opens(atom) ==> p[0] in [Ascii('+'), Ascii('{')])
  {
    if p[0] == Ascii('[') {
      var negate := |p| > 1 && p[1] == Ascii('^');
      ScannedClass(p[if negate then 2 else 1..], negate);
    }
  }

  /** Whatever a pattern compiles to is expressible. */
  lemma {:induction false} CompiledIsExpressible(p: Bytes)
    requires Tokens(p).Some?
    ensures var ts := Tokens(p).value;
            Expressible(ts) && (ts != [] && Opens(ts[0]) ==> p != [] && p[0] in [Ascii('+'), Ascii('{')])
    decreases |p|
  {
    if p != [] {
      ScannedNext(p);
      var (token, used) := NextToken(p).value;
      CompiledIsExpressible(p[used..]);
      assert ([token] + Tokens(p[used..]).value)[1..] == Tokens(p[used..]).value;
    }
  }

  lemma ScannedNext(p: Bytes)
    requires p != [] && NextToken(p).Some?
    ensures var (token, used) := NextToken(p).value;
            && Writable(token) && (Opens(token) ==> p[0] in [Ascii('+'), Ascii('{')])
            && (!Quantified(token) ==> p[used..] == [] || p[used] !in [Ascii('+'), Ascii('{')])
  {
    ScannedAtom(p);
    var (atom, used) := ParseAtom(p).value;
    var (token, more) := ParseQuantifier(atom, p[used..]).value;
    ScannedToken(atom, p[used..], token, more);
  }

  lemma ScannedToken(atom: Token, p: Bytes, token: Token, more: nat)
    requires WritableAtom(atom) && ParseQuantifier(atom, p) == Some((token, more))
    ensures Writable(token) && AtomOf(token) == atom
    ensures !Quantified(token) ==> more == 0 && (p == [] || p[0] !in [Ascii('+'), Ascii('{')])
  {
  }

  /** A token list is what some pattern compiles to if and only if it is expressible. */
  lemma ExpressibleExactly(ts: seq<Token>)
    ensures (exists p :: Tokens(p) == Some(ts)) <==> Expressible(ts)
  {
    if Expressible(ts) {
      CompileUndoesWrite(ts);
    } else if p :| Tokens(p) == Some(ts) {
      CompiledIsExpressible(p);
    }
  }
}
