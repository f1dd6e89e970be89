/** The schema validator's regular-expression subset: the greedy backtracking matcher,
    and the declarative language it has to decide. */
module MiniRegex {
  import opened Wrappers

  datatype Token =
    | Char(c: Byte)
    | Class(ranges: seq<(Byte, Byte)>, negate: bool)
    | Plus(inner: Token)
    | Repeat(inner: Token, count: nat)

  predicate InSomeRange(ranges: seq<(Byte, Byte)>, b: Byte) {
    exists r | r in ranges :: r.0 <= b <= r.1
  }

  predicate Consumes(token: Token, b: Byte) {
    match token
    case Char(c) => c == b
    case Class(ranges, negate) => InSomeRange(ranges, b) != negate
    case Plus(_) => false
    case Repeat(_, _) => false
  }

  /** `text[lo..hi]` lies in bounds and every byte of it is consumed by `token`. */
  ghost predicate Run(token: Token, text: Bytes, lo: nat, hi: nat) {
    lo <= hi <= |text| && forall i | lo <= i < hi :: Consumes(token, text[i])
  }

  // ---------------------------------------------------------------------
  // The language of a token list
  // ---------------------------------------------------------------------

  /** The words one token stands for. */
  ghost predicate Accepts(token: Token, word: Bytes) {
    match token
    case Char(_) => |word| == 1 && Consumes(token, word[0])
    case Class(_, _) => |word| == 1 && Consumes(token, word[0])
    case Plus(inner) => |word| >= 1 && forall b | b in word :: Consumes(inner, b)
    case Repeat(inner, n) => |word| == n && forall b | b in word :: Consumes(inner, b)
  }

  /** A word belongs to a token list when it can be cut into one accepted piece per token. */
  ghost predicate InLanguage(tokens: seq<Token>, word: Bytes) {
    if tokens == [] then word == []
    else exists k | 0 <= k <= |word| ::
      Accepts(tokens[0], word[..k]) && InLanguage(tokens[1..], word[k..])
  }

  /** `tokens` can match from `pos` and stop at `end`. */
  ghost predicate Reaches(tokens: seq<Token>, text: Bytes, pos: nat, end: nat) {
    pos <= end <= |text| && InLanguage(tokens, text[pos..end])
  }

  /** What a maximal match is: the greatest end any way of matching can reach. */
  ghost predicate IsGreatestEnd(tokens: seq<Token>, text: Bytes, pos: nat, r: Option<nat>) {
    match r
    case None => forall e: nat :: !Reaches(tokens, text, pos, e)
    case Some(end) => Reaches(tokens, text, pos, end)
                      && forall e: nat :: Reaches(tokens, text, pos, e) ==> e <= end
  }

  // ---------------------------------------------------------------------
  // Reaches, one token at a time
  // ---------------------------------------------------------------------

  /** `token` can take the matcher from `pos` to `mid`. */
  ghost predicate Hop(token: Token, text: Bytes, pos: nat, mid: nat) {
    match token
    case Char(_) => mid == pos + 1 && Run(token, text, pos, mid)
    case Class(_, _) => mid == pos + 1 && Run(token, text, pos, mid)
    case Plus(inner) => mid > pos && Run(inner, text, pos, mid)
    case Repeat(inner, n) => mid == pos + n && Run(inner, text, pos, mid)
  }

  lemma HopIsAccepts(token: Token, text: Bytes, pos: nat, mid: nat)
    requires pos <= mid <= |text|
    ensures Hop(token, text, pos, mid) <==> Accepts(token, text[pos..mid])
  {
    var word := text[pos..mid];
    assert forall i | pos <= i < mid :: text[i] == word[i - pos];
  }

  lemma ReachesSplit(tokens: seq<Token>, text: Bytes, pos: nat, end: nat) returns (mid: nat)
    requires tokens != [] && Reaches(tokens, text, pos, end)
    ensures Hop(tokens[0], text, pos, mid) && Reaches(tokens[1..], text, mid, end)
  {
    var word := text[pos..end];
    var k :| 0 <= k <= |word| && Accepts(tokens[0], word[..k]) && InLanguage(tokens[1..], word[k..]);
    mid := pos + k;
    assert word[..k] == text[pos..mid] && word[k..] == text[mid..end];
    HopIsAccepts(tokens[0], text, pos, mid);
  }

  lemma ReachesJoin(tokens: seq<Token>, text: Bytes, pos: nat, mid: nat, end: nat)
    requires tokens != [] && Hop(tokens[0], text, pos, mid) && Reaches(tokens[1..], text, mid, end)
    ensures Reaches(tokens, text, pos, end)
  {
    var word := text[pos..end];
    assert word[..mid - pos] == text[pos..mid] && word[mid - pos..] == text[mid..end];
    HopIsAccepts(tokens[0], text, pos, mid);
  }

  /** The exchange argument. Two match paths of one token list that cross (the earlier start ends
      no earlier) cross inside a `Plus`; there the later start can switch to the other path. */
  lemma {:induction false} Exchange(tokens: seq<Token>, text: Bytes, p: nat, e: nat, q: nat, f: nat)
    requires Reaches(tokens, text, p, e) && Reaches(tokens, text, q, f)
    requires p <= q && f <= e
    ensures Reaches(tokens, text, q, e)
    decreases |tokens|
  {
    if tokens != [] {
      var p' := ReachesSplit(tokens, text, p, e);
      var q' := ReachesSplit(tokens, text, q, f);
      if p' <= q' {
        Exchange(tokens[1..], text, p', e, q', f);
        ReachesJoin(tokens, text, q, q', e);
      } else {
        ReachesJoin(tokens, text, q, p', e);
      }
    }
  }

  /** Why greed is complete at a `Plus`: when the rest matches from a later break `k`, the greatest
      end reachable from `k` is the greatest over every earlier break as well. */
  lemma LaterBreakDominates(rest: seq<Token>, text: Bytes, k: nat, end: nat)
    requires Reaches(rest, text, k, end)
    requires forall e: nat :: Reaches(rest, text, k, e) ==> e <= end
    ensures forall j: nat, e: nat :: j <= k && Reaches(rest, text, j, e) ==> e <= end
  {
    forall j: nat, e: nat | j <= k && Reaches(rest, text, j, e)
      ensures e <= end
    {
      if e > end {
        Exchange(rest, text, j, e, k, end);
      }
    }
  }

  // ---------------------------------------------------------------------
  // The matcher
  // ---------------------------------------------------------------------

  /** A forced hop: a token that can only go to `mid` leaves the answer to the rest of the list. */
  lemma ForcedHop(tokens: seq<Token>, text: Bytes, pos: nat, mid: nat, r: Option<nat>)
    requires tokens != [] && Hop(tokens[0], text, pos, mid) && !tokens[0].Plus?
    requires IsGreatestEnd(tokens[1..], text, mid, r)
    ensures IsGreatestEnd(tokens, text, pos, r)
  {
    forall e: nat | Reaches(tokens, text, pos, e)
      ensures Reaches(tokens[1..], text, mid, e)
    {
      var m := ReachesSplit(tokens, text, pos, e);
    }
    if r.Some? {
      ReachesJoin(tokens, text, pos, mid, r.value);
    }
  }

  lemma NoHopNoEnd(tokens: seq<Token>, text: Bytes, pos: nat)
    requires tokens != [] && forall mid: nat :: !Hop(tokens[0], text, pos, mid)
    ensures IsGreatestEnd(tokens, text, pos, None)
  {
    forall e: nat ensures !Reaches(tokens, text, pos, e) {
      if Reaches(tokens, text, pos, e) {
        var m := ReachesSplit(tokens, text, pos, e);
      }
    }
  }

  /** `match_tokens`: greedy with backtracking, yet exact. */
  method MatchTokens(tokens: seq<Token>, text: Bytes, start: nat) returns (r: Option<nat>)
    requires start <= |text|
    ensures IsGreatestEnd(tokens, text, start, r)
    decreases |tokens|, 0
  {
    var idx: nat, pos: nat := 0, start;
    while idx < |tokens|
      invariant 0 <= idx <= |tokens| && pos <= |text|
      invariant forall answer :: IsGreatestEnd(tokens[idx..], text, pos, answer)
                  ==> IsGreatestEnd(tokens, text, start, answer)
    {
      ghost var todo := tokens[idx..];
      assert todo[1..] == tokens[idx + 1..];
      match tokens[idx] {
        case Plus(inner) =>
          if pos >= |text| || !Consumes(inner, text[pos]) {
            NoHopNoEnd(todo, text, pos);
            return None;
          }
          var rest := tokens[idx + 1..];
          var max: nat := pos;
          while max < |text| && Consumes(inner, text[max])
            invariant pos <= max <= |text| && Run(inner, text, pos, max)
          {
            max := max + 1;
          }
          r := BackOff(todo, inner, rest, text, pos, max);
          return;
        case Repeat(inner, n) =>
          var from: nat := pos;
          for i := 0 to n
            invariant pos == from + i <= |text| && Run(inner, text, from, pos)
          {
            if pos >= |text| || !Consumes(inner, text[pos]) {
              NoHopNoEnd(todo, text, from);
              return None;
            }
            pos := pos + 1;
          }
          forall answer | IsGreatestEnd(tokens[idx + 1..], text, pos, answer)
            ensures IsGreatestEnd(todo, text, from, answer)
          {
            ForcedHop(todo, text, from, pos, answer);
          }
          idx := idx + 1;
        case _ =>
          if pos >= |text| {
            NoHopNoEnd(todo, text, pos);
            return None;
          }
          if !Consumes(tokens[idx], text[pos]) {
            NoHopNoEnd(todo, text, pos);
            return None;
          }
          forall answer | IsGreatestEnd(tokens[idx + 1..], text, pos + 1, answer)
            ensures IsGreatestEnd(todo, text, pos, answer)
          {
            ForcedHop(todo, text, pos, pos + 1, answer);
          }
          pos := pos + 1;
          idx := idx + 1;
      }
    }
    assert tokens[idx..] == [] && text[pos..pos] == [];
    assert IsGreatestEnd([], text, pos, Some(pos));
    return Some(pos);
  }

  /** The back-off loop at a `Plus`: breaks are tried from the longest run down to one byte. */
  method BackOff(ghost todo: seq<Token>, inner: Token, rest: seq<Token>, text: Bytes, pos: nat, max: nat)
    returns (r: Option<nat>)
    requires todo == [Plus(inner)] + rest
    requires pos < max <= |text| && Run(inner, text, pos, max)
    requires max == |text| || !Consumes(inner, text[max])
    ensures IsGreatestEnd(todo, text, pos, r)
    decreases |rest|, 1
  {
    assert todo[1..] == rest;
    var tryPos: nat := max;
    while true
      invariant pos < tryPos <= max
      invariant forall k: nat, e: nat :: tryPos < k <= max ==> !Reaches(rest, text, k, e)
      decreases tryPos
    {
      r := MatchTokens(rest, text, tryPos);
      if r.Some? {
        LaterBreakDominates(rest, text, tryPos, r.value);
        ReachesJoin(todo, text, pos, tryPos, r.value);
        forall e: nat | Reaches(todo, text, pos, e) ensures e <= r.value {
          var k := ReachesSplit(todo, text, pos, e);
        }
        return;
      }
      if tryPos <= pos + 1 {
        forall e: nat ensures !Reaches(todo, text, pos, e) {
          if Reaches(todo, text, pos, e) {
            var k := ReachesSplit(todo, text, pos, e);
          }
        }
        return None;
      }
      tryPos := tryPos - 1;
    }
  }
}
