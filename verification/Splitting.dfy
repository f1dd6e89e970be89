/** Splitting a string at separator characters. */
module Splitting {
  function Split(s: string, sep: char -> bool): (r: seq<string>)
    ensures r != []
  {
    if s == [] then [""] else Prepend(s[0], sep(s[0]), Split(s[1..], sep))
  }

  /** One more character before segments already split. */
  function Prepend(c: char, cut: bool, rest: seq<string>): (r: seq<string>)
    requires rest != []
    ensures r != []
  {
    if cut then [""] + rest else [[c] + rest[0]] + rest[1..]
  }

  lemma PrependAppend(c: char, cut: bool, p: seq<string>, q: seq<string>)
    requires p != []
    ensures Prepend(c, cut, p + q) == Prepend(c, cut, p) + q
  {
    assert cut ==> Prepend(c, cut, p + q) == [""] + (p + q);
    assert !cut ==> (p + q)[0] == p[0] && (p + q)[1..] == p[1..] + q;
  }

  lemma {:induction false} SplitAt(a: string, c: char, x: string, sep: char -> bool)
    requires sep(c)
    ensures Split(a + [c] + x, sep) == Split(a, sep) + Split(x, sep)
    decreases |a|
  {
    var s := a + [c] + x;
    if a == "" {
      assert s[1..] == x;
    } else {
      assert s[1..] == a[1..] + [c] + x;
      SplitAt(a[1..], c, x, sep);
      PrependAppend(a[0], sep(a[0]), Split(a[1..], sep), Split(x, sep));
    }
  }

  /** A string without separators is its own only piece. */
  lemma {:induction false} SplitText(x: string, sep: char -> bool)
    requires forall i | 0 <= i < |x| :: !sep(x[i])
    ensures Split(x, sep) == [x]
    decreases |x|
  {
    if x != "" {
      SplitText(x[1..], sep);
      assert [x[0]] + x[1..] == x;
    }
  }

  /** `s[i..j]` is a maximal run without separators. */
  predicate IsPiece(s: string, sep: char -> bool, i: nat, j: nat) {
    && i <= j <= |s|
    && (i == 0 || sep(s[i - 1]))
    && (j == |s| || sep(s[j]))
    && forall k | i <= k < j :: !sep(s[k])
  }

  ghost predicate PieceFrom(s: string, sep: char -> bool, x: string, low: nat) {
    exists i: nat, j: nat | low <= i :: IsPiece(s, sep, i, j) && s[i..j] == x
  }

  lemma PieceShift(s: string, sep: char -> bool, x: string, low: nat)
    requires s != [] && (low > 0 || sep(s[0]))
    ensures PieceFrom(s[1..], sep, x, low) <==> PieceFrom(s, sep, x, low + 1)
  {
    forall i: nat, j: nat | i >= low && i <= j < |s|
      ensures IsPiece(s[1..], sep, i, j) <==> IsPiece(s, sep, i + 1, j + 1)
      ensures s[1..][i..j] == s[i + 1..j + 1]
    {
      if IsPiece(s, sep, i + 1, j + 1) {
        forall k | i <= k < j ensures !sep(s[1..][k]) {
          assert !sep(s[k + 1]);
        }
      }
    }
    if PieceFrom(s, sep, x, low + 1) {
      var i: nat, j: nat :| low + 1 <= i && IsPiece(s, sep, i, j) && s[i..j] == x;
      assert IsPiece(s[1..], sep, i - 1, j - 1) && s[1..][i - 1..j - 1] == x;
    }
    if PieceFrom(s[1..], sep, x, low) {
      var i: nat, j: nat :| low <= i && IsPiece(s[1..], sep, i, j) && s[1..][i..j] == x;
      assert IsPiece(s, sep, i + 1, j + 1) && s[i + 1..j + 1] == x;
    }
  }

  /** The pieces after the first are those that start behind a separator, and the first runs up to it. */
  lemma {:induction false} SplitPieces(s: string, sep: char -> bool, x: string)
    ensures x in Split(s, sep)[1..] <==> PieceFrom(s, sep, x, 1)
    ensures IsPiece(s, sep, 0, |Split(s, sep)[0]|) && s[..|Split(s, sep)[0]|] == Split(s, sep)[0]
    decreases |s|
  {
    if s != [] {
      var rest := Split(s[1..], sep);
      SplitPieces(s[1..], sep, x);
      var n := |rest[0]|;
      if sep(s[0]) {
        PieceShift(s, sep, x, 0);
        assert rest == [rest[0]] + rest[1..];
        assert PieceFrom(s[1..], sep, x, 0) <==> x == rest[0] || PieceFrom(s[1..], sep, x, 1) by {
          FirstPiece(s[1..], sep, x, n);
        }
      } else {
        PieceShift(s, sep, x, 1);
        assert s[..n + 1] == [s[0]] + s[1..][..n];
        assert IsPiece(s, sep, 0, n + 1) by {
          forall k | 0 <= k < n + 1 ensures !sep(s[k]) {
            assert k > 0 ==> s[k] == s[1..][k - 1];
          }
        }
      }
    }
  }

  lemma FirstPiece(s: string, sep: char -> bool, x: string, n: nat)
    requires IsPiece(s, sep, 0, n)
    ensures PieceFrom(s, sep, x, 0) <==> x == s[..n] || PieceFrom(s, sep, x, 1)
  {
    assert s[0..n] == s[..n];
    if PieceFrom(s, sep, x, 0) && !PieceFrom(s, sep, x, 1) {
      var i: nat, j: nat :| IsPiece(s, sep, i, j) && s[i..j] == x;
      assert i == 0;
      assert j >= n && n >= j;
    }
  }

  /** A string is among the split segments exactly when it is a maximal separator-free run. */
  lemma SegmentsArePieces(s: string, sep: char -> bool, x: string)
    ensures x in Split(s, sep) <==> PieceFrom(s, sep, x, 0)
  {
    var r := Split(s, sep);
    SplitPieces(s, sep, x);
    FirstPiece(s, sep, x, |r[0]|);
    assert r == [r[0]] + r[1..];
  }
}
