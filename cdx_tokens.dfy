/** Space positions of a line, cutting a line at chosen spaces, and the plain
    split-on-every-space that serves as the reference for the record layout. */
module CdxTokens {
  import opened CdxFields

  predicate Increasing(d: seq<int>)
  {
    forall a, b :: 0 <= a < b < |d| ==> d[a] < d[b]
  }

  /** `d` lists, in increasing order, positions of space bytes of `s`. */
  predicate Cuts(s: seq<byte>, d: seq<int>)
  {
    Increasing(d) && forall k :: 0 <= k < |d| ==> 0 <= d[k] < |s| && s[d[k]] == SPACE
  }

  /** The positions of all spaces of `s`, left to right. */
  function Spaces(s: seq<byte>): (sp: seq<int>)
    ensures forall k :: 0 <= k < |sp| ==> 0 <= sp[k] < |s|
    decreases |s|
  {
    if s == [] then []
    else Spaces(s[..|s| - 1]) + (if s[|s| - 1] == SPACE then [|s| - 1] else [])
  }

  /** `Spaces` lists space positions only, in increasing order. */
  lemma {:induction false} SpacesCuts(s: seq<byte>)
    ensures Cuts(s, Spaces(s))
    decreases |s|
  {
    if s != [] {
      var p := s[..|s| - 1];
      var sp := Spaces(p);
      SpacesCuts(p);
      forall k | 0 <= k < |sp|
        ensures s[sp[k]] == SPACE
      {
        assert s[sp[k]] == p[sp[k]];
      }
    }
  }

  /** One more byte scanned: the space list grows by that byte's position exactly when it is a space. */
  lemma {:induction false} SpacesStep(l: seq<byte>, i: int)
    requires 0 <= i < |l|
    ensures Spaces(l[..i + 1]) == Spaces(l[..i]) + (if l[i] == SPACE then [i] else [])
  {
    assert l[..i + 1][..i] == l[..i];
  }

  /** `Spaces` misses no space: every space byte of the line is listed. */
  lemma {:induction false} SpacesComplete(s: seq<byte>, i: int)
    requires 0 <= i < |s| && s[i] == SPACE
    ensures i in Spaces(s)
    decreases |s|
  {
    if i < |s| - 1 {
      SpacesComplete(s[..|s| - 1], i);
    }
  }

  /** Where piece `k` starts when `s` is cut at the positions `d`: just after the previous cut. */
  function PieceStart(d: seq<int>, k: int): int
    requires 0 <= k <= |d|
  {
    if k == 0 then 0 else d[k - 1] + 1
  }

  /** Where piece `k` ends (exclusive) when a line of length `n` is cut at `d`. */
  function PieceEnd(d: seq<int>, k: int, n: int): int
    requires 0 <= k <= |d|
  {
    if k == |d| then n else d[k]
  }

  /** The |d| + 1 pieces of `s` between the cuts `d`; the cut bytes themselves belong to no piece. */
  function Pieces(s: seq<byte>, d: seq<int>): (ps: seq<seq<byte>>)
    requires Cuts(s, d)
    ensures |ps| == |d| + 1
  {
    seq(|d| + 1, k requires 0 <= k <= |d| => s[PieceStart(d, k)..PieceEnd(d, k, |s|)])
  }

  /** Splitting on every space, keeping empty tokens: "a  b" has the three tokens "a", "", "b". */
  function Split(s: seq<byte>): (ts: seq<seq<byte>>)
    ensures |ts| >= 1
    decreases |s|
  {
    if s == [] then [[]]
    else
      var init := Split(s[..|s| - 1]);
      var c := s[|s| - 1];
      if c == SPACE then init + [[]]
      else init[..|init| - 1] + [init[|init| - 1] + [c]]
  }

  /** Tokens glued back together with one space between neighbours. */
  function Join(ts: seq<seq<byte>>): seq<byte>
    decreases |ts|
  {
    if ts == [] then []
    else if |ts| == 1 then ts[0]
    else Join(ts[..|ts| - 1]) + [SPACE] + ts[|ts| - 1]
  }

  /** Appending a space to a line adds one empty piece after the old ones. */
  lemma {:induction false} PiecesAppendSpace(p: seq<byte>, d: seq<int>)
    requires Cuts(p, d)
    ensures Cuts(p + [SPACE], d + [|p|])
    ensures Pieces(p + [SPACE], d + [|p|]) == Pieces(p, d) + [[]]
  {
    var s, e := p + [SPACE], d + [|p|];
    assert Cuts(s, e);
    var ps, qs := Pieces(s, e), Pieces(p, d);
    forall k | 0 <= k <= |d|
      ensures ps[k] == qs[k]
    {
      assert PieceStart(e, k) == PieceStart(d, k);
      assert PieceEnd(e, k, |s|) == PieceEnd(d, k, |p|);
      assert s[PieceStart(d, k)..PieceEnd(d, k, |p|)] == p[PieceStart(d, k)..PieceEnd(d, k, |p|)];
    }
    assert ps[|d| + 1] == [];
  }

  /** Appending any other byte to a line extends its last piece by that byte. */
  lemma {:induction false} PiecesAppendOther(p: seq<byte>, d: seq<int>, c: byte)
    requires Cuts(p, d)
    ensures Cuts(p + [c], d)
    ensures Pieces(p + [c], d) == Pieces(p, d)[..|d|] + [Pieces(p, d)[|d|] + [c]]
  {
    var s := p + [c];
    assert Cuts(s, d);
    var ps, qs := Pieces(s, d), Pieces(p, d);
    forall k | 0 <= k < |d|
      ensures ps[k] == qs[k]
    {
      assert s[PieceStart(d, k)..PieceEnd(d, k, |s|)] == p[PieceStart(d, k)..PieceEnd(d, k, |p|)];
    }
    var a := PieceStart(d, |d|);
    assert ps[|d|] == s[a..|s|] == p[a..|p|] + [c];
  }

  /** The reference split is the line cut at all of its spaces. */
  lemma {:induction false} SplitIsPieces(s: seq<byte>)
    ensures Cuts(s, Spaces(s))
    ensures |Split(s)| == |Spaces(s)| + 1
    ensures Split(s) == Pieces(s, Spaces(s))
    decreases |s|
  {
    SpacesCuts(s);
    if s != [] {
      var p, c := s[..|s| - 1], s[|s| - 1];
      assert s == p + [c];
      SplitIsPieces(p);
      if c == SPACE {
        assert Spaces(s) == Spaces(p) + [|p|];
        PiecesAppendSpace(p, Spaces(p));
      } else {
        assert Spaces(s) == Spaces(p);
        PiecesAppendOther(p, Spaces(p), c);
      }
    }
  }

  /** A stretch of a line is the part before position c, the byte at c, and the part after. */
  lemma {:induction false} SliceAround(s: seq<byte>, lo: int, c: int, hi: int)
    requires 0 <= lo <= c < hi <= |s|
    ensures s[lo..hi] == s[lo..c] + [s[c]] + s[c + 1..hi]
  {
  }

  /** Tokens a..b-1 of `ts` glued together with single spaces, built up from the last token. */
  function Glued(ts: seq<seq<byte>>, a: int, b: int): seq<byte>
    requires 0 <= a < b <= |ts|
    decreases b - a
  {
    if b - a == 1 then ts[a] else Glued(ts, a, b - 1) + [SPACE] + ts[b - 1]
  }

  /** Gluing depends only on the tokens glued: two lists that agree on a stretch, up to an
      offset, glue it to the same bytes. */
  lemma {:induction false} GluedShift(xs: seq<seq<byte>>, ys: seq<seq<byte>>, o: int, a: int, b: int)
    requires 0 <= a < b <= |xs| && 0 <= a + o && b + o <= |ys|
    requires forall i :: a <= i < b ==> xs[i] == ys[i + o]
    ensures Glued(xs, a, b) == Glued(ys, a + o, b + o)
    decreases b - a
  {
    if b - a > 1 {
      GluedShift(xs, ys, o, a, b - 1);
    }
  }

  /** `Join` glues a non-empty list of tokens. */
  lemma {:induction false} JoinIsGluedAll(xs: seq<seq<byte>>)
    requires |xs| >= 1
    ensures Join(xs) == Glued(xs, 0, |xs|)
    decreases |xs|
  {
    if |xs| > 1 {
      var init := xs[..|xs| - 1];
      JoinIsGluedAll(init);
      GluedShift(init, xs, 0, 0, |init|);
    }
  }

  /** `Join` of a stretch of tokens is that stretch glued together. */
  lemma {:induction false} JoinIsGlued(ts: seq<seq<byte>>, a: int, b: int)
    requires 0 <= a < b <= |ts|
    ensures Join(ts[a..b]) == Glued(ts, a, b)
  {
    JoinIsGluedAll(ts[a..b]);
    GluedShift(ts[a..b], ts, a, 0, b - a);
  }

  /** Gluing pieces a..b-1 back together with spaces gives the stretch of the line they span. */
  lemma {:induction false} JoinPieces(s: seq<byte>, d: seq<int>, a: int, b: int)
    requires Cuts(s, d)
    requires 0 <= a < b <= |d| + 1
    ensures Join(Pieces(s, d)[a..b]) == s[PieceStart(d, a)..PieceEnd(d, b - 1, |s|)]
  {
    var ps := Pieces(s, d);
    forall k | 0 <= k <= |d|
      ensures ps[k] == s[PieceStart(d, k)..PieceEnd(d, k, |s|)]
    {
      PieceBounds(s, d, k);
    }
    JoinIsGlued(ps, a, b);
    GluedPieces(ps, s, d, a, b);
  }

  /** The same for any list of tokens that agrees with the pieces of `s` cut at `d`. */
  lemma {:induction false} GluedPieces(ts: seq<seq<byte>>, s: seq<byte>, d: seq<int>, a: int, b: int)
    requires Cuts(s, d) && |ts| == |d| + 1
    requires forall k :: 0 <= k <= |d| ==> ts[k] == s[PieceStart(d, k)..PieceEnd(d, k, |s|)]
    requires 0 <= a < b <= |d| + 1
    ensures Glued(ts, a, b) == s[PieceStart(d, a)..PieceEnd(d, b - 1, |s|)]
    decreases b - a
  {
    if b - a > 1 {
      GluedPieces(ts, s, d, a, b - 1);
      CutInside(s, d, a, b);
      SliceAround(s, PieceStart(d, a), d[b - 2], PieceEnd(d, b - 1, |s|));
    }
  }

  /** The cut before piece b-1 lies inside the stretch from piece a to piece b-1. */
  lemma {:induction false} CutInside(s: seq<byte>, d: seq<int>, a: int, b: int)
    requires Cuts(s, d)
    requires 0 <= a && a + 1 < b <= |d| + 1
    ensures 0 <= PieceStart(d, a) <= d[b - 2] < PieceEnd(d, b - 1, |s|) <= |s|
    ensures s[d[b - 2]] == SPACE && PieceEnd(d, b - 2, |s|) == d[b - 2]
    ensures PieceStart(d, b - 1) == d[b - 2] + 1
  {
    StartBeforeCut(s, d, a, b - 2);
    if b - 1 < |d| {
      assert d[b - 2] < d[b - 1];
    }
  }

  /** Piece `a` starts at or before any later cut. */
  lemma {:induction false} StartBeforeCut(s: seq<byte>, d: seq<int>, a: int, k: int)
    requires Cuts(s, d) && 0 <= a <= k < |d|
    ensures PieceStart(d, a) <= d[k]
  {
    if 0 < a {
      assert d[a - 1] < d[k];
    }
  }

  /** Gluing all pieces back together with spaces restores the line. */
  lemma {:induction false} JoinAllPieces(s: seq<byte>, d: seq<int>)
    requires Cuts(s, d)
    ensures Join(Pieces(s, d)) == s
  {
    var ps := Pieces(s, d);
    JoinPieces(s, d, 0, |d| + 1);
    assert ps[0..|d| + 1] == ps;
    assert s[0..|s|] == s;
  }

  /** Round trip: gluing the tokens of a line back together with single spaces restores the line. */
  lemma {:induction false} JoinSplit(s: seq<byte>)
    ensures Join(Split(s)) == s
  {
    SplitIsPieces(s);
    JoinAllPieces(s, Spaces(s));
  }

  /** Every piece is a well-formed range of the line. */
  lemma {:induction false} PieceBounds(s: seq<byte>, d: seq<int>, k: int)
    requires Cuts(s, d) && 0 <= k <= |d|
    ensures 0 <= PieceStart(d, k) <= PieceEnd(d, k, |s|) <= |s|
    ensures Pieces(s, d)[k] == s[PieceStart(d, k)..PieceEnd(d, k, |s|)]
  {
  }

  /** No piece between two consecutive spaces of the line contains a space. */
  lemma {:induction false} NoSpaceInPiece(s: seq<byte>, k: int, i: int)
    requires 0 <= k <= |Spaces(s)|
    requires PieceStart(Spaces(s), k) <= i < PieceEnd(Spaces(s), k, |s|)
    ensures s[i] != SPACE
  {
    var sp := Spaces(s);
    SpacesCuts(s);
    if s[i] == SPACE {
      SpacesComplete(s, i);
    }
    forall m | 0 <= m < |sp|
      ensures sp[m] != i
    {
      if m < k {
        assert sp[m] <= sp[k - 1];
      } else {
        assert sp[k] <= sp[m];
      }
    }
  }

  /** Tokens never contain the delimiter. */
  lemma {:induction false} SplitTokensHaveNoSpace(s: seq<byte>)
    ensures forall k, i :: 0 <= k < |Split(s)| && 0 <= i < |Split(s)[k]| ==> Split(s)[k][i] != SPACE
  {
    SplitIsPieces(s);
    var sp := Spaces(s);
    forall k, i | 0 <= k < |Split(s)| && 0 <= i < |Split(s)[k]|
      ensures Split(s)[k][i] != SPACE
    {
      PieceBounds(s, sp, k);
      NoSpaceInPiece(s, k, PieceStart(sp, k) + i);
    }
  }
}
