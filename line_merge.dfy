/**
 * The meaning of one move on one line of the 2048 board.
 *
 * A line is read from the near edge (the edge the tiles slide toward)
 * outward; 0 stands for an empty cell. Sliding a line keeps its tiles in
 * order, drops the gaps, and merges equal neighbours pairwise starting at
 * the near edge, a tile produced by a merge never merging again.
 */
module LineMerge {

  /** The tiles of a line in their original order, empty cells left out. */
  function NonZero(s: seq<int>): (t: seq<int>)
    ensures |t| <= |s|
    ensures forall k :: 0 <= k < |t| ==> t[k] != 0
    ensures forall x :: x in t <==> x in s && x != 0
  {
    if s == [] then []
    else if s[0] != 0 then [s[0]] + NonZero(s[1..])
    else NonZero(s[1..])
  }

  /** n empty cells. */
  function Zeros(n: nat): (z: seq<int>)
    ensures |z| == n
    ensures forall k :: 0 <= k < n ==> z[k] == 0
  {
    seq(n, _ => 0)
  }

  /** Pairwise merge of a run of tiles, from the near edge outward. */
  function Merge(t: seq<int>): (m: seq<int>)
    ensures |m| <= |t|
    ensures |t| > 0 ==> |m| > 0
  {
    if |t| >= 2 && t[0] == t[1] then [2 * t[0]] + Merge(t[2..])
    else if t == [] then []
    else [t[0]] + Merge(t[1..])
  }

  /** Points gained by Merge: the sum of the doubled tiles it produces. */
  function MergeScore(t: seq<int>): (score: int)
  {
    if |t| >= 2 && t[0] == t[1] then 2 * t[0] + MergeScore(t[2..])
    else if t == [] then 0
    else MergeScore(t[1..])
  }

  /** How many merges Merge performs. */
  function Merges(t: seq<int>): (n: nat)
  {
    if |t| >= 2 && t[0] == t[1] then 1 + Merges(t[2..])
    else if t == [] then 0
    else Merges(t[1..])
  }

  /**
   * Whether the last tile of Merge(t) came from t unmerged, so that a
   * following equal tile may still merge into it.
   */
  function Open(t: seq<int>): (o: bool)
    ensures o ==> |t| > 0
  {
    if |t| >= 2 && t[0] == t[1] then Open(t[2..])
    else if t == [] then false
    else if |t| == 1 then true
    else Open(t[1..])
  }

  function Last(m: seq<int>): (x: int)
    requires |m| > 0
  {
    m[|m| - 1]
  }

  /** Whether a tile x that follows t merges into the last tile of Merge(t). */
  predicate MergesWithLast(t: seq<int>, x: int)
  {
    Open(t) && Last(Merge(t)) == x
  }

  /** The line after the move: merged tiles at the near edge, then empty cells. */
  function Slide(s: seq<int>): (r: seq<int>)
    ensures |r| == |s|
  {
    var m := Merge(NonZero(s));
    m + Zeros(|s| - |m|)
  }

  /** The points one line contributes to the score of a move. */
  function SlideScore(s: seq<int>): (score: int)
  {
    MergeScore(NonZero(s))
  }

  function Sum(s: seq<int>): (total: int)
  {
    if s == [] then 0 else s[0] + Sum(s[1..])
  }

  /** The number of tiles (non-empty cells) in a line. */
  function CountTiles(s: seq<int>): (n: nat)
  {
    |NonZero(s)|
  }

  /** All tiles sit at the near edge: no tile follows an empty cell. */
  predicate IsCompacted(s: seq<int>)
  {
    forall a, b :: 0 <= a < b < |s| && s[a] == 0 ==> s[b] == 0
  }

  /** No tile has an equal tile right behind it. */
  predicate NoEqualNeighbours(s: seq<int>)
  {
    forall k :: 0 <= k < |s| - 1 && s[k] != 0 ==> s[k] != s[k + 1]
  }

  /** 2, 4, 8, ... */
  predicate IsPow2(x: int)
    decreases x
  {
    x == 2 || (x > 2 && x % 2 == 0 && IsPow2(x / 2))
  }

  /** A cell value of a legal board: empty or a power of two at least 2. */
  predicate IsCell(x: int)
  {
    x == 0 || IsPow2(x)
  }

  predicate AllCells(s: seq<int>)
  {
    forall k :: 0 <= k < |s| ==> IsCell(s[k])
  }

  predicate AllPow2(t: seq<int>)
  {
    forall k :: 0 <= k < |t| ==> IsPow2(t[k])
  }

  // ---------------------------------------------------------------------
  // Building the slide one cell at a time, as the move loop does
  // ---------------------------------------------------------------------

  lemma {:induction false} NonZeroAppend(a: seq<int>, b: seq<int>)
    ensures NonZero(a + b) == NonZero(a) + NonZero(b)
  {
    if a == [] {
      assert a + b == b;
    } else {
      assert (a + b)[1..] == a[1..] + b;
      NonZeroAppend(a[1..], b);
    }
  }

  /** Extending the scanned prefix by one cell: only a tile adds to NonZero. */
  lemma NonZeroSnoc(s: seq<int>, x: int)
    ensures NonZero(s + [x]) == if x != 0 then NonZero(s) + [x] else NonZero(s)
  {
    NonZeroAppend(s, [x]);
    assert [x][1..] == [];
  }

  /**
   * The merged tiles m after one more tile x arrives: x doubles the last
   * tile when it merges into it, and is put after it otherwise.
   */
  function MergeStep(m: seq<int>, merges: bool, x: int): (m': seq<int>)
    requires merges ==> |m| > 0
    ensures |m'| == if merges then |m| else |m| + 1
  {
    if merges then m[..|m| - 1] + [2 * x] else m + [x]
  }

  lemma MergeStepPrefix(head: seq<int>, m: seq<int>, merges: bool, x: int)
    requires merges ==> |m| > 0
    ensures MergeStep(head + m, merges, x) == head + MergeStep(m, merges, x)
  {
    if merges {
      assert (head + m)[..|head + m| - 1] == head + m[..|m| - 1];
    }
  }

  /**
   * The merge of t followed by one more tile x: either x merges into the
   * last tile of Merge(t) (doubling it, scoring 2x, and closing it), or x is
   * placed after it and stays open. This is the step the move loop takes.
   */
  lemma {:induction false} MergeSnoc(t: seq<int>, x: int)
    ensures Merge(t + [x]) == MergeStep(Merge(t), MergesWithLast(t, x), x)
    ensures MergeScore(t + [x]) == MergeScore(t) + if MergesWithLast(t, x) then 2 * x else 0
    ensures Open(t + [x]) == !MergesWithLast(t, x)
  {
    var u := t + [x];
    if t == [] {
      assert u == [x];
      assert u[1..] == [];
    } else if |t| == 1 {
      assert u == [t[0], x];
      assert u[2..] == [] && u[1..] == [x] && [x][1..] == [];
      assert Merge(t) == [t[0]] by { assert t[1..] == []; }
    } else if t[0] == t[1] {
      MergeSnoc(t[2..], x);
      MergeUnfoldPair(t, x);
      MergeStepPrefix([2 * t[0]], Merge(t[2..]), MergesWithLast(t, x), x);
    } else {
      MergeSnoc(t[1..], x);
      MergeUnfoldSingle(t, x);
      MergeStepPrefix([t[0]], Merge(t[1..]), MergesWithLast(t, x), x);
    }
  }

  lemma SnocDrop(t: seq<int>, x: int, d: nat)
    requires 2 <= |t| && d <= |t|
    ensures (t + [x])[0] == t[0] && (t + [x])[1] == t[1]
    ensures (t + [x])[d..] == t[d..] + [x]
  {
  }

  /** How Merge, MergeScore, Open and MergesWithLast of t and of t + [x] unfold past a leading equal pair. */
  lemma MergeUnfoldPair(t: seq<int>, x: int)
    requires |t| >= 2 && t[0] == t[1]
    ensures Merge(t) == [2 * t[0]] + Merge(t[2..]) && Merge(t + [x]) == [2 * t[0]] + Merge(t[2..] + [x])
    ensures MergeScore(t) == 2 * t[0] + MergeScore(t[2..])
    ensures MergeScore(t + [x]) == 2 * t[0] + MergeScore(t[2..] + [x])
    ensures Open(t) == Open(t[2..]) && Open(t + [x]) == Open(t[2..] + [x])
    ensures MergesWithLast(t, x) == MergesWithLast(t[2..], x)
  {
    SnocDrop(t, x, 2);
    if Open(t) {
      assert Last([2 * t[0]] + Merge(t[2..])) == Last(Merge(t[2..]));
    }
  }

  /** How Merge, MergeScore, Open and MergesWithLast of t and of t + [x] unfold past a leading tile that does not merge. */
  lemma MergeUnfoldSingle(t: seq<int>, x: int)
    requires |t| >= 2 && t[0] != t[1]
    ensures Merge(t) == [t[0]] + Merge(t[1..]) && Merge(t + [x]) == [t[0]] + Merge(t[1..] + [x])
    ensures MergeScore(t) == MergeScore(t[1..]) && MergeScore(t + [x]) == MergeScore(t[1..] + [x])
    ensures Open(t) == Open(t[1..]) && Open(t + [x]) == Open(t[1..] + [x])
    ensures MergesWithLast(t, x) == MergesWithLast(t[1..], x)
  {
    SnocDrop(t, x, 1);
    if Open(t) {
      assert Last([t[0]] + Merge(t[1..])) == Last(Merge(t[1..]));
    }
  }

  // ---------------------------------------------------------------------
  // Compaction
  // ---------------------------------------------------------------------

  lemma {:induction false} MergeNonZero(t: seq<int>)
    requires forall k :: 0 <= k < |t| ==> t[k] != 0
    ensures forall k :: 0 <= k < |Merge(t)| ==> Merge(t)[k] != 0
  {
    if |t| >= 2 && t[0] == t[1] {
      MergeNonZero(t[2..]);
    } else if t != [] {
      MergeNonZero(t[1..]);
    }
  }

  /** After a slide the tiles are contiguous at the near edge. */
  lemma SlideCompacted(s: seq<int>)
    ensures IsCompacted(Slide(s))
    ensures forall k :: 0 <= k < |s| ==> (Slide(s)[k] != 0 <==> k < |Merge(NonZero(s))|)
  {
    MergeNonZero(NonZero(s));
  }

  // ---------------------------------------------------------------------
  // Conservation of value and the count of tiles
  // ---------------------------------------------------------------------

  lemma {:induction false} SumAppend(a: seq<int>, b: seq<int>)
    ensures Sum(a + b) == Sum(a) + Sum(b)
  {
    if a == [] {
      assert a + b == b;
    } else {
      assert (a + b)[1..] == a[1..] + b;
      SumAppend(a[1..], b);
    }
  }

  lemma {:induction false} SumZeros(n: nat)
    ensures Sum(Zeros(n)) == 0
  {
    if n > 0 {
      assert Zeros(n)[1..] == Zeros(n - 1);
      SumZeros(n - 1);
    }
  }

  lemma {:induction false} SumNonZero(s: seq<int>)
    ensures Sum(NonZero(s)) == Sum(s)
  {
    if s != [] {
      SumNonZero(s[1..]);
      if s[0] != 0 {
        SumAppend([s[0]], NonZero(s[1..]));
      }
    }
  }

  lemma {:induction false} SumMerge(t: seq<int>)
    ensures Sum(Merge(t)) == Sum(t)
  {
    if |t| >= 2 && t[0] == t[1] {
      SumMerge(t[2..]);
      assert t == [t[0], t[1]] + t[2..];
      SumAppend([t[0], t[1]], t[2..]);
      SumAppend([2 * t[0]], Merge(t[2..]));
    } else if t != [] {
      SumMerge(t[1..]);
      SumAppend([t[0]], Merge(t[1..]));
    }
  }

  /** A slide neither creates nor destroys value: the line's sum is unchanged. */
  lemma SlideConservesSum(s: seq<int>)
    ensures Sum(Slide(s)) == Sum(s)
  {
    var m := Merge(NonZero(s));
    SumAppend(m, Zeros(|s| - |m|));
    SumZeros(|s| - |m|);
    SumMerge(NonZero(s));
    SumNonZero(s);
  }

  lemma {:induction false} MergeLength(t: seq<int>)
    ensures |Merge(t)| + Merges(t) == |t|
  {
    if |t| >= 2 && t[0] == t[1] {
      MergeLength(t[2..]);
    } else if t != [] {
      MergeLength(t[1..]);
    }
  }

  lemma {:induction false} NonZeroOfNonZero(t: seq<int>)
    requires forall k :: 0 <= k < |t| ==> t[k] != 0
    ensures NonZero(t) == t
  {
    if t != [] {
      NonZeroOfNonZero(t[1..]);
    }
  }

  lemma {:induction false} NonZeroZeros(n: nat)
    ensures NonZero(Zeros(n)) == []
  {
    if n > 0 {
      assert Zeros(n)[1..] == Zeros(n - 1);
      NonZeroZeros(n - 1);
    }
  }

  /** The tiles of a slid line are exactly the merged tiles. */
  lemma NonZeroSlide(s: seq<int>)
    ensures NonZero(Slide(s)) == Merge(NonZero(s))
  {
    var m := Merge(NonZero(s));
    MergeNonZero(NonZero(s));
    NonZeroAppend(m, Zeros(|s| - |m|));
    NonZeroOfNonZero(m);
    NonZeroZeros(|s| - |m|);
  }

  /** Every merge removes exactly one tile from the line. */
  lemma SlideCountsMerges(s: seq<int>)
    ensures CountTiles(Slide(s)) == CountTiles(s) - Merges(NonZero(s))
  {
    NonZeroSlide(s);
    MergeLength(NonZero(s));
  }

  // ---------------------------------------------------------------------
  // Merge rule: worked examples
  // ---------------------------------------------------------------------

  /** A merged tile never merges again: four equal tiles give two merged ones. */
  lemma SlideFourEqual()
    ensures Slide([2, 2, 2, 2]) == [4, 4, 0, 0] && SlideScore([2, 2, 2, 2]) == 8
  {
    assert NonZero([2, 2, 2, 2]) == [2, 2, 2, 2];
    assert Merge([2, 2, 2, 2]) == [4, 4];
  }

  /** The pair nearest the edge merges first; the trailing tile stays single. */
  lemma SlideGapThenPair()
    ensures Slide([2, 0, 2, 2]) == [4, 2, 0, 0] && SlideScore([2, 0, 2, 2]) == 4
  {
    assert NonZero([2, 0, 2, 2]) == [2, 2, 2];
    assert Merge([2, 2, 2]) == [4, 2];
  }

  /** Two pairs merge independently and both score. */
  lemma SlideTwoPairs()
    ensures Slide([2, 2, 4, 4]) == [4, 8, 0, 0] && SlideScore([2, 2, 4, 4]) == 12
  {
    assert NonZero([2, 2, 4, 4]) == [2, 2, 4, 4];
    assert Merge([2, 2, 4, 4]) == [4, 8];
  }

  /** Tiles separated by gaps still meet and merge. */
  lemma SlideSpacedPair()
    ensures Slide([2, 0, 2, 0]) == [4, 0, 0, 0] && SlideScore([2, 0, 2, 0]) == 4
  {
    assert NonZero([2, 0, 2, 0]) == [2, 2];
    assert Merge([2, 2]) == [4];
  }

  // ---------------------------------------------------------------------
  // Score
  // ---------------------------------------------------------------------

  /**
   * On legal tiles every merge scores at least 4, and a slide scores nothing
   * exactly when nothing merges; in particular the score never decreases.
   */
  lemma {:induction false} MergeScoreBounds(t: seq<int>)
    requires AllPow2(t)
    ensures MergeScore(t) >= 4 * Merges(t)
    ensures MergeScore(t) == 0 <==> Merges(t) == 0
  {
    if |t| >= 2 && t[0] == t[1] {
      assert IsPow2(t[0]);
      MergeScoreBounds(t[2..]);
    } else if t != [] {
      MergeScoreBounds(t[1..]);
    }
  }

  lemma NonZeroCells(s: seq<int>)
    requires AllCells(s)
    ensures AllPow2(NonZero(s))
  {
    var t := NonZero(s);
    forall k | 0 <= k < |t| ensures IsPow2(t[k]) {
      assert t[k] in t;
    }
  }

  lemma SlideScoreBounds(s: seq<int>)
    requires AllCells(s)
    ensures SlideScore(s) >= 0
    ensures SlideScore(s) == 0 <==> Merges(NonZero(s)) == 0
  {
    NonZeroCells(s);
    MergeScoreBounds(NonZero(s));
  }

  // ---------------------------------------------------------------------
  // Powers of two
  // ---------------------------------------------------------------------

  lemma {:induction false} MergePow2(t: seq<int>)
    requires AllPow2(t)
    ensures AllPow2(Merge(t))
  {
    if |t| >= 2 && t[0] == t[1] {
      assert IsPow2(2 * t[0]) by { assert IsPow2(t[0]); assert (2 * t[0]) / 2 == t[0]; }
      MergePow2(t[2..]);
    } else if t != [] {
      MergePow2(t[1..]);
    }
  }

  /** A slide keeps every cell empty or a power of two at least 2. */
  lemma SlideCells(s: seq<int>)
    requires AllCells(s)
    ensures AllCells(Slide(s))
  {
    NonZeroCells(s);
    MergePow2(NonZero(s));
  }

  // ---------------------------------------------------------------------
  // No-op moves
  // ---------------------------------------------------------------------

  lemma {:induction false} MergeNoPairs(t: seq<int>)
    requires forall k :: 0 <= k < |t| - 1 ==> t[k] != t[k + 1]
    ensures Merge(t) == t && MergeScore(t) == 0 && Merges(t) == 0
  {
    if t != [] {
      MergeNoPairs(t[1..]);
    }
  }

  lemma {:induction false} MergePairShortens(t: seq<int>, k: nat)
    requires k < |t| - 1 && t[k] == t[k + 1]
    ensures |Merge(t)| < |t|
  {
    if t[0] != t[1] {
      MergePairShortens(t[1..], k - 1);
    } else {
      MergeLength(t);
    }
  }

  lemma {:induction false} AllZero(s: seq<int>)
    requires forall k :: 0 <= k < |s| ==> s[k] == 0
    ensures NonZero(s) == [] && s == Zeros(|s|)
  {
    if s != [] {
      AllZero(s[1..]);
    }
  }

  /** A compacted line is its tiles followed by empty cells. */
  lemma {:induction false} CompactedSplit(s: seq<int>)
    requires IsCompacted(s)
    ensures s == NonZero(s) + Zeros(|s| - |NonZero(s)|)
  {
    if s == [] {
    } else if s[0] == 0 {
      AllZero(s);
    } else {
      assert IsCompacted(s[1..]) by {
        forall a, b | 0 <= a < b < |s[1..]| && s[1..][a] == 0 ensures s[1..][b] == 0 {
          assert s[a + 1] == 0;
        }
      }
      CompactedSplit(s[1..]);
    }
  }

  /**
   * A line is left unchanged by a slide exactly when it is already compacted
   * and no tile has an equal neighbour; such a line scores nothing.
   */
  lemma SlideFixpoint(s: seq<int>)
    ensures Slide(s) == s <==> IsCompacted(s) && NoEqualNeighbours(s)
    ensures IsCompacted(s) && NoEqualNeighbours(s) ==> SlideScore(s) == 0
  {
    var t := NonZero(s);
    if IsCompacted(s) {
      CompactedSplit(s);
      var z := Zeros(|s| - |t|);
      assert s == t + z;
      if NoEqualNeighbours(s) {
        forall k | 0 <= k < |t| - 1 ensures t[k] != t[k + 1] {
          assert s[k] == t[k] && s[k + 1] == t[k + 1];
        }
        MergeNoPairs(t);
      }
      if Slide(s) == s && !NoEqualNeighbours(s) {
        var k :| 0 <= k < |s| - 1 && s[k] != 0 && s[k] == s[k + 1];
        assert k + 1 < |t|;
        assert t[k] == t[k + 1];
        MergePairShortens(t, k);
        SlideCountsMerges(s);
        MergeLength(t);
        assert false;
      }
    } else {
      SlideCompacted(s);
    }
  }

  /** Sliding an already slid line changes it only if equal neighbours remain. */
  lemma SlideTwice(s: seq<int>)
    ensures Slide(Slide(s)) == Slide(s) <==> NoEqualNeighbours(Slide(s))
  {
    SlideCompacted(s);
    SlideFixpoint(Slide(s));
  }
}
