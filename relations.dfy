/**
 * The relation pass of a picture: for every pair of shapes i < j in
 * insertion order, an inside entry, or a north entry and possibly an east
 * entry.  Entries are pairs of indices into the picture's shape list, in
 * the order the nested loops of populate emit them.
 */
module Relations {
  import opened Shapes

  type Pair = (nat, nat)

  datatype Kind = InsideKind | EastKind | NorthKind

  datatype Relations = Relations(inside: seq<Pair>, east: seq<Pair>, north: seq<Pair>)
  {
    function Get(k: Kind): seq<Pair>
    {
      match k
      case InsideKind => inside
      case EastKind => east
      case NorthKind => north
    }

    function Then(other: Relations): Relations
    {
      Relations(inside + other.inside, east + other.east, north + other.north)
    }
  }

  const Empty := Relations([], [], [])

  /** An entry of a concatenation is an entry of one of its parts. */
  lemma InThen(a: Relations, b: Relations, k: Kind, p: Pair)
    ensures p in a.Then(b).Get(k) <==> p in a.Get(k) || p in b.Get(k)
  {
    match k
    case InsideKind =>
    case EastKind =>
    case NorthKind =>
  }

  lemma ThenAssociative(a: Relations, b: Relations, c: Relations)
    ensures a.Then(b).Then(c) == a.Then(b.Then(c))
  {
    assert (a.inside + b.inside) + c.inside == a.inside + (b.inside + c.inside);
    assert (a.east + b.east) + c.east == a.east + (b.east + c.east);
    assert (a.north + b.north) + c.north == a.north + (b.north + c.north);
  }

  /**
   * What one pair i < j contributes.  An inside entry is (enclosed, encloser).
   * Without containment, east records whichever shape is east of the other,
   * if either is, and north records (i, j) when i is north of j and (j, i)
   * otherwise, with no "neither" case.
   */
  function PairRelations(s: seq<Shape>, i: nat, j: nat): Relations
    requires i < j < |s|
  {
    if s[i].IsInside(s[j]) then Relations([(i, j)], [], [])
    else if s[j].IsInside(s[i]) then Relations([(j, i)], [], [])
    else
      Relations([],
                if s[i].IsEastOf(s[j]) then [(i, j)] else if s[j].IsEastOf(s[i]) then [(j, i)] else [],
                if s[i].IsNorthOf(s[j]) then [(i, j)] else [(j, i)])
  }

  /** The contributions of a picture's pairs by their indices; a pair outside i < j < |s| contributes nothing. */
  function PairsOf(s: seq<Shape>): (nat, nat) -> Relations
  {
    (i: nat, j: nat) => if i < j < |s| then PairRelations(s, i, j) else Empty
  }

  /**
   * The contributions of the pairs (i, i + 1), ..., (i, j - 1) in that
   * order: the inner loop after it has reached j.
   */
  function Row(f: (nat, nat) -> Relations, i: nat, j: nat): Relations
    requires i < j
    decreases j
  {
    if j == i + 1 then Empty else Row(f, i, j - 1).Then(f(i, j - 1))
  }

  /** The rows of the first indices below i, for n shapes: the outer loop after it has reached i. */
  function Rows(f: (nat, nat) -> Relations, n: nat, i: nat): Relations
    requires i <= n
  {
    if i == 0 then Empty else Rows(f, n, i - 1).Then(Row(f, i - 1, n))
  }

  /** The relations of a whole picture. */
  function Populated(s: seq<Shape>): Relations
  {
    Rows(PairsOf(s), |s|, |s|)
  }

  function Lo(p: Pair): nat { if p.0 < p.1 then p.0 else p.1 }
  function Hi(p: Pair): nat { if p.0 < p.1 then p.1 else p.0 }

  /** Per pair: one inside entry, or one north entry and at most one east entry. */
  lemma PairCounts(s: seq<Shape>, i: nat, j: nat)
    requires i < j < |s|
    ensures |PairRelations(s, i, j).inside| + |PairRelations(s, i, j).north| == 1
    ensures |PairRelations(s, i, j).east| <= |PairRelations(s, i, j).north|
  {
  }

  /** Every pair below n contributes one inside or north entry, and no more east than north entries. */
  ghost predicate CountsPerPair(f: (nat, nat) -> Relations, n: nat)
  {
    forall a: nat, b: nat :: a < b < n ==>
      |f(a, b).inside| + |f(a, b).north| == 1 && |f(a, b).east| <= |f(a, b).north|
  }

  lemma PairsOfCounts(s: seq<Shape>)
    ensures CountsPerPair(PairsOf(s), |s|)
  {
    forall a: nat, b: nat | a < b < |s|
      ensures |PairsOf(s)(a, b).inside| + |PairsOf(s)(a, b).north| == 1
      ensures |PairsOf(s)(a, b).east| <= |PairsOf(s)(a, b).north|
    {
      PairCounts(s, a, b);
    }
  }

  lemma {:induction false} RowCounts(f: (nat, nat) -> Relations, n: nat, i: nat, j: nat)
    requires CountsPerPair(f, n) && i < j <= n
    ensures |Row(f, i, j).inside| + |Row(f, i, j).north| == j - i - 1
    ensures |Row(f, i, j).east| <= |Row(f, i, j).north|
    decreases j
  {
    if j > i + 1 {
      RowCounts(f, n, i, j - 1);
    }
  }

  /** i rows of n shapes hold (n - 1) + (n - 2) + ... + (n - i) pairs. */
  lemma TriangularStep(n: int, i: int)
    ensures i * (2 * n - i - 1) == (i - 1) * (2 * n - (i - 1) - 1) + 2 * (n - i)
  {
  }

  lemma {:induction false} RowsCounts(f: (nat, nat) -> Relations, n: nat, i: nat)
    requires CountsPerPair(f, n) && i <= n
    ensures 2 * (|Rows(f, n, i).inside| + |Rows(f, n, i).north|) == i * (2 * n - i - 1)
    ensures |Rows(f, n, i).east| <= |Rows(f, n, i).north|
  {
    if i > 0 {
      RowsCounts(f, n, i - 1);
      RowCounts(f, n, i - 1, n);
      TriangularStep(n, i);
    }
  }

  /**
   * populate's counting identity: inside and north together hold one entry
   * per unordered pair, n(n-1)/2 in all, and east never outnumbers north.
   */
  lemma PopulatedCounts(s: seq<Shape>)
    ensures |Populated(s).inside| + |Populated(s).north| == |s| * (|s| - 1) / 2
    ensures |Populated(s).east| <= |Populated(s).north|
  {
    PairsOfCounts(s);
    RowsCounts(PairsOf(s), |s|, |s|);
  }

  /** Every entry of a pair's contribution is that pair, in one order or the other. */
  lemma PairEntriesArePair(s: seq<Shape>, i: nat, j: nat, k: Kind, p: Pair)
    requires i < j < |s|
    requires p in PairRelations(s, i, j).Get(k)
    ensures p == (i, j) || p == (j, i)
  {
  }

  /** Pair (a, b) contributes only entries naming a and b. */
  ghost predicate PairOnly(f: (nat, nat) -> Relations, a: nat, b: nat)
  {
    forall k: Kind, p: Pair :: p in f(a, b).Get(k) ==> p == (a, b) || p == (b, a)
  }

  /** Every pair below n contributes only entries naming that pair. */
  ghost predicate WellPaired(f: (nat, nat) -> Relations, n: nat)
  {
    forall a: nat, b: nat :: a < b < n ==> PairOnly(f, a, b)
  }

  lemma PairsOfWellPaired(s: seq<Shape>)
    ensures WellPaired(PairsOf(s), |s|)
  {
    forall a: nat, b: nat | a < b < |s| ensures PairOnly(PairsOf(s), a, b) {
      forall k: Kind, p: Pair | p in PairsOf(s)(a, b).Get(k) ensures p == (a, b) || p == (b, a) {
        PairEntriesArePair(s, a, b, k, p);
      }
    }
  }

  /** p is an entry that the pair of its two indices, both below n, contributes to list k. */
  ghost predicate Contributes(f: (nat, nat) -> Relations, n: nat, k: Kind, p: Pair)
  {
    p.0 != p.1 && p.0 < n && p.1 < n && p in f(Lo(p), Hi(p)).Get(k)
  }

  /** The entries of one pair's contribution are exactly the contributed entries with that pair of indices. */
  lemma PairContributes(f: (nat, nat) -> Relations, n: nat, i: nat, j: nat, k: Kind, p: Pair)
    requires PairOnly(f, i, j) && i < j < n
    ensures p in f(i, j).Get(k) <==> Contributes(f, n, k, p) && Lo(p) == i && Hi(p) == j
  {
  }

  /** One step of the inner loop adds the contribution of pair (i, j - 1). */
  lemma RowStepIn(f: (nat, nat) -> Relations, i: nat, j: nat, k: Kind, p: Pair)
    requires i + 1 < j
    ensures p in Row(f, i, j).Get(k) <==> p in Row(f, i, j - 1).Get(k) || p in f(i, j - 1).Get(k)
  {
    InThen(Row(f, i, j - 1), f(i, j - 1), k, p);
  }

  /** One step of the outer loop adds row i - 1. */
  lemma RowsStepIn(f: (nat, nat) -> Relations, n: nat, i: nat, k: Kind, p: Pair)
    requires 0 < i <= n
    ensures p in Rows(f, n, i).Get(k) <==> p in Rows(f, n, i - 1).Get(k) || p in Row(f, i - 1, n).Get(k)
  {
    InThen(Rows(f, n, i - 1), Row(f, i - 1, n), k, p);
  }

  /** Every entry of row i up to j is contributed by a pair (i, h) with h < j. */
  lemma {:induction false} RowEntriesContributed(f: (nat, nat) -> Relations, n: nat, i: nat, j: nat, k: Kind, p: Pair)
    requires WellPaired(f, n) && i < j <= n
    requires p in Row(f, i, j).Get(k)
    ensures Contributes(f, n, k, p) && Lo(p) == i && Hi(p) < j
    decreases j
  {
    if j > i + 1 {
      RowStepIn(f, i, j, k, p);
      if p in Row(f, i, j - 1).Get(k) {
        RowEntriesContributed(f, n, i, j - 1, k, p);
      } else {
        PairContributes(f, n, i, j - 1, k, p);
      }
    }
  }

  /** Every entry contributed by a pair (i, h) with h < j is in row i up to j. */
  lemma {:induction false} RowHoldsContributed(f: (nat, nat) -> Relations, n: nat, i: nat, j: nat, k: Kind, p: Pair)
    requires i < j <= n
    requires Contributes(f, n, k, p) && Lo(p) == i && Hi(p) < j
    ensures p in Row(f, i, j).Get(k)
    decreases j
  {
    RowStepIn(f, i, j, k, p);
    if Hi(p) + 1 < j {
      RowHoldsContributed(f, n, i, j - 1, k, p);
    }
  }

  /** Every entry of the rows below i is contributed by a pair whose lower index is below i. */
  lemma {:induction false} RowsEntriesContributed(f: (nat, nat) -> Relations, n: nat, i: nat, k: Kind, p: Pair)
    requires WellPaired(f, n) && i <= n
    requires p in Rows(f, n, i).Get(k)
    ensures Contributes(f, n, k, p) && Lo(p) < i
  {
    if i > 0 {
      RowsStepIn(f, n, i, k, p);
      assert p in Rows(f, n, i - 1).Get(k) || p in Row(f, i - 1, n).Get(k);
      if p in Rows(f, n, i - 1).Get(k) {
        RowsEntriesContributed(f, n, i - 1, k, p);
      } else {
        RowEntriesContributed(f, n, i - 1, n, k, p);
      }
    }
  }

  /** Every entry contributed by a pair whose lower index is below i is in the rows below i. */
  lemma {:induction false} RowsHoldContributed(f: (nat, nat) -> Relations, n: nat, i: nat, k: Kind, p: Pair)
    requires i <= n
    requires Contributes(f, n, k, p) && Lo(p) < i
    ensures p in Rows(f, n, i).Get(k)
  {
    RowsStepIn(f, n, i, k, p);
    if Lo(p) + 1 < i {
      RowsHoldContributed(f, n, i - 1, k, p);
    } else {
      RowHoldsContributed(f, n, i - 1, n, k, p);
    }
  }

  /** An entry of the whole picture is one exactly when its pair contributes it. */
  lemma PopulatedMembers(s: seq<Shape>, k: Kind, p: Pair)
    ensures p in Populated(s).Get(k) <==>
      p.0 != p.1 && p.0 < |s| && p.1 < |s| && p in PairRelations(s, Lo(p), Hi(p)).Get(k)
  {
    PairsOfWellPaired(s);
    if p in Populated(s).Get(k) {
      RowsEntriesContributed(PairsOf(s), |s|, |s|, k, p);
    }
    if p.0 != p.1 && p.0 < |s| && p.1 < |s| && p in PairRelations(s, Lo(p), Hi(p)).Get(k) {
      RowsHoldContributed(PairsOf(s), |s|, |s|, k, p);
    }
  }

  /**
   * The entries recorded for a pair i < j, in each list and in each order:
   * containment pre-empts the directional relations, north is recorded in
   * exactly one order, east in at most one.
   */
  lemma PairEntries(s: seq<Shape>, i: nat, j: nat)
    requires i < j < |s|
    ensures (i, j) in Populated(s).inside <==> s[i].IsInside(s[j])
    ensures (j, i) in Populated(s).inside <==> !s[i].IsInside(s[j]) && s[j].IsInside(s[i])
    ensures (i, j) in Populated(s).east <==>
      !s[i].IsInside(s[j]) && !s[j].IsInside(s[i]) && s[i].IsEastOf(s[j])
    ensures (j, i) in Populated(s).east <==>
      !s[i].IsInside(s[j]) && !s[j].IsInside(s[i]) && !s[i].IsEastOf(s[j]) && s[j].IsEastOf(s[i])
    ensures (i, j) in Populated(s).north <==>
      !s[i].IsInside(s[j]) && !s[j].IsInside(s[i]) && s[i].IsNorthOf(s[j])
    ensures (j, i) in Populated(s).north <==>
      !s[i].IsInside(s[j]) && !s[j].IsInside(s[i]) && !s[i].IsNorthOf(s[j])
  {
    PopulatedMembers(s, InsideKind, (i, j));
    PopulatedMembers(s, InsideKind, (j, i));
    PopulatedMembers(s, EastKind, (i, j));
    PopulatedMembers(s, EastKind, (j, i));
    PopulatedMembers(s, NorthKind, (i, j));
    PopulatedMembers(s, NorthKind, (j, i));
  }

  /** Every entry names two distinct shapes of the picture. */
  lemma EntriesInRange(s: seq<Shape>, k: Kind, p: Pair)
    requires p in Populated(s).Get(k)
    ensures p.0 != p.1 && p.0 < |s| && p.1 < |s|
  {
    PopulatedMembers(s, k, p);
  }

  /** A pair in inside appears in neither order in east or north. */
  lemma InsideExcludesDirections(s: seq<Shape>, i: nat, j: nat)
    requires (i, j) in Populated(s).inside
    ensures (i, j) !in Populated(s).east && (j, i) !in Populated(s).east
    ensures (i, j) !in Populated(s).north && (j, i) !in Populated(s).north
  {
    EntriesInRange(s, InsideKind, (i, j));
    if i < j { PairEntries(s, i, j); } else { PairEntries(s, j, i); }
  }

  /** For a pair without containment, north holds it in exactly one order. */
  lemma NorthExactlyOnce(s: seq<Shape>, i: nat, j: nat)
    requires i < j < |s|
    requires !s[i].IsInside(s[j]) && !s[j].IsInside(s[i])
    ensures ((i, j) in Populated(s).north) != ((j, i) in Populated(s).north)
  {
    PairEntries(s, i, j);
  }

  /** No pair is recorded in both orders, in any of the three lists. */
  lemma NeverBothOrders(s: seq<Shape>, k: Kind, i: nat, j: nat)
    requires (i, j) in Populated(s).Get(k)
    ensures (j, i) !in Populated(s).Get(k)
  {
    EntriesInRange(s, k, (i, j));
    DirectionsExclusiveShape(s[i], s[j]);
    ContainmentAsymmetric(s[i], s[j]);
    if i < j { PairEntries(s, i, j); } else { PairEntries(s, j, i); }
  }

  /** An east entry's first shape is east of its second, and likewise for north when the pair is (i, j) with i < j. */
  lemma EntriesMeanWhatTheySay(s: seq<Shape>, i: nat, j: nat)
    ensures (i, j) in Populated(s).inside ==> i < |s| && j < |s| && s[i].IsInside(s[j])
    ensures (i, j) in Populated(s).east ==> i < |s| && j < |s| && s[i].IsEastOf(s[j])
    ensures (i, j) in Populated(s).north ==> i < |s| && j < |s| && !s[j].IsNorthOf(s[i])
  {
    if i < j < |s| {
      PairEntries(s, i, j);
      DirectionsExclusiveShape(s[i], s[j]);
    } else if j < i < |s| {
      PairEntries(s, j, i);
    } else {
      if (i, j) in Populated(s).inside { EntriesInRange(s, InsideKind, (i, j)); }
      if (i, j) in Populated(s).east { EntriesInRange(s, EastKind, (i, j)); }
      if (i, j) in Populated(s).north { EntriesInRange(s, NorthKind, (i, j)); }
    }
  }
}
