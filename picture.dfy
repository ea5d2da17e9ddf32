/**
 * The picture builder: rejection sampling of shapes one slot at a time,
 * each slot with a budget of MAX_TRY failed candidates, followed by the
 * relation pass and the inside-count test, and the id assignment that
 * the generator performs on accepted pictures.
 */
module PictureBuilder {
  import opened Geometry
  import opened Shapes
  import opened Random
  import opened Relations

  /** Failed candidates a single slot may see before the whole picture is abandoned. */
  const MAX_TRY: nat := 100000000

  /** The id every element and picture carries until ids are assigned: -1 as a 64-bit unsigned id. */
  const UNSET_ID: nat := 0xFFFF_FFFF_FFFF_FFFF

  /** The comparison inside_.size() >= min_insides_ converts the int to a 64-bit size_t. */
  function AsSizeT(v: int): nat
  {
    v % 0x1_0000_0000_0000_0000
  }

  datatype Element = Element(shape: Shape, id: nat)

  function ShapesOf(es: seq<Element>): (s: seq<Shape>)
    ensures |s| == |es| && forall i :: 0 <= i < |es| ==> s[i] == es[i].shape
  {
    seq(|es|, i requires 0 <= i < |es| => es[i].shape)
  }

  /** isValid: the candidate stays inside the canvas and no existing shape reports a conflict with it. */
  predicate Admissible(s: seq<Shape>, c: Shape)
  {
    !c.Overflow() && forall i :: 0 <= i < |s| ==> !s[i].Conflict(c)
  }

  /** Every shape passed isValid against all the shapes placed before it. */
  ghost predicate Placed(s: seq<Shape>)
  {
    forall k :: 0 <= k < |s| ==> Admissible(s[..k], s[k])
  }

  /** What createPicture's placement loops end with: success, the shapes, and the next unused candidate. */
  datatype Placement = Placement(ok: bool, shapes: seq<Shape>, next: nat)

  /**
   * The placement loops of createPicture as a function of the candidate
   * stream: from shapes, with `trials` failures already seen in the current
   * slot, draw candidate `next`.  An admissible candidate fills the slot;
   * an inadmissible one counts a failure, and the failure that takes the
   * count past MAX_TRY ends the picture unsuccessfully.
   */
  function Place(draw: nat -> Candidate, shapes: seq<Shape>, size: nat, next: nat, trials: nat): Placement
    requires FiguresInRange(draw)
    requires trials <= MAX_TRY
    decreases size - |shapes|, MAX_TRY - trials
  {
    if |shapes| >= size then Placement(true, shapes, next)
    else
      var c := Build(draw(next));
      if Admissible(shapes, c) then Place(draw, shapes + [c], size, next + 1, 0)
      else if trials + 1 > MAX_TRY then Placement(false, shapes, next + 1)
      else Place(draw, shapes, size, next + 1, trials + 1)
  }

  function Max(a: int, b: int): int { if a < b then b else a }

  /**
   * Shapes are only ever appended, each one admissible against those before
   * it; success means the target size was reached, failure that it was not.
   */
  lemma {:induction false} PlaceGrows(draw: nat -> Candidate, shapes: seq<Shape>, size: nat, next: nat, trials: nat)
    requires FiguresInRange(draw)
    requires trials <= MAX_TRY
    ensures var p := Place(draw, shapes, size, next, trials);
      && shapes <= p.shapes
      && (p.ok ==> |p.shapes| == Max(|shapes|, size))
      && (!p.ok ==> |p.shapes| < size)
      && next + |p.shapes| - |shapes| <= p.next
      && (forall k :: |shapes| <= k < |p.shapes| ==> Admissible(p.shapes[..k], p.shapes[k]))
    decreases size - |shapes|, MAX_TRY - trials
  {
    if |shapes| < size {
      var c := Build(draw(next));
      if Admissible(shapes, c) {
        PlaceGrows(draw, shapes + [c], size, next + 1, 0);
        var p := Place(draw, shapes + [c], size, next + 1, 0);
        assert p.shapes[..|shapes|] == shapes;
        assert p.shapes[|shapes|] == c;
      } else if trials + 1 <= MAX_TRY {
        PlaceGrows(draw, shapes, size, next + 1, trials + 1);
      }
    }
  }

  /**
   * A placement fails only after MAX_TRY + 1 consecutive candidates, the last
   * ones drawn, were all inadmissible against the shapes placed so far.
   */
  lemma {:induction false} PlaceFailsOnlyWhenExhausted(draw: nat -> Candidate, shapes: seq<Shape>, size: nat, next: nat, trials: nat)
    requires FiguresInRange(draw)
    requires trials <= MAX_TRY && trials <= next
    requires forall k :: next - trials <= k < next ==> !Admissible(shapes, Build(draw(k)))
    ensures var p := Place(draw, shapes, size, next, trials);
      !p.ok ==>
        && MAX_TRY + 1 <= p.next
        && forall k :: p.next - (MAX_TRY + 1) <= k < p.next ==> !Admissible(p.shapes, Build(draw(k)))
    decreases size - |shapes|, MAX_TRY - trials
  {
    if |shapes| < size {
      var c := Build(draw(next));
      if Admissible(shapes, c) {
        PlaceFailsOnlyWhenExhausted(draw, shapes + [c], size, next + 1, 0);
      } else if trials + 1 <= MAX_TRY {
        PlaceFailsOnlyWhenExhausted(draw, shapes, size, next + 1, trials + 1);
      }
    }
  }

  /** Started from a placed list, the placement ends with a placed list. */
  lemma PlaceKeepsPlaced(draw: nat -> Candidate, shapes: seq<Shape>, size: nat, next: nat, trials: nat)
    requires FiguresInRange(draw)
    requires trials <= MAX_TRY
    requires Placed(shapes)
    ensures Placed(Place(draw, shapes, size, next, trials).shapes)
  {
    PlaceGrows(draw, shapes, size, next, trials);
    var p := Place(draw, shapes, size, next, trials);
    forall k | 0 <= k < |p.shapes| ensures Admissible(p.shapes[..k], p.shapes[k]) {
      if k < |shapes| {
        assert p.shapes[..k] == shapes[..k];
        assert p.shapes[k] == shapes[k];
      }
    }
  }

  /** The shape's position lies in [lo, hi] on both axes and its size in [minSize, maxSize]. */
  predicate DrawnWithin(s: Shape, lo: int, hi: int, minSize: int, maxSize: int)
  {
    lo <= s.x <= hi && lo <= s.y <= hi && minSize <= s.Size() <= maxSize
  }

  /** When every candidate has its position and size in the drawn ranges, so does every shape the placement adds. */
  lemma {:induction false} PlaceDrawsInRange(draw: nat -> Candidate, shapes: seq<Shape>, size: nat, next: nat, trials: nat,
                                             lo: int, hi: int, minSize: int, maxSize: int)
    requires FiguresInRange(draw)
    requires trials <= MAX_TRY
    requires forall k :: lo <= draw(k).x <= hi && lo <= draw(k).y <= hi && minSize <= draw(k).size <= maxSize
    ensures forall k :: |shapes| <= k < |Place(draw, shapes, size, next, trials).shapes| ==>
      DrawnWithin(Place(draw, shapes, size, next, trials).shapes[k], lo, hi, minSize, maxSize)
    decreases size - |shapes|, MAX_TRY - trials
  {
    if |shapes| < size {
      var c := Build(draw(next));
      if Admissible(shapes, c) {
        PlaceDrawsInRange(draw, shapes + [c], size, next + 1, 0, lo, hi, minSize, maxSize);
        PlaceGrows(draw, shapes + [c], size, next + 1, 0);
        var p := Place(draw, shapes + [c], size, next + 1, 0);
        assert p.shapes[|shapes|] == c;
      } else if trials + 1 <= MAX_TRY {
        PlaceDrawsInRange(draw, shapes, size, next + 1, trials + 1, lo, hi, minSize, maxSize);
      }
    }
  }

  /** No placed shape overflows the canvas: its outer right-top corner is below BOUND on both axes. */
  lemma PlacedWithinCanvas(s: seq<Shape>, i: nat)
    requires Placed(s) && i < |s|
    ensures s[i].Outer().rightTop.x < BOUND && s[i].Outer().rightTop.y < BOUND
  {
  }

  /**
   * Because isValid asks only whether the existing shape is inside the
   * candidate, a shape placed later never lies inside an earlier one: the
   * enclosed shape of every containment is the earlier of the two.
   */
  lemma PlacedNeverEnclosedLater(s: seq<Shape>, i: nat, j: nat)
    requires Placed(s) && i < j < |s|
    ensures !s[j].IsInside(s[i])
  {
    assert Admissible(s[..j], s[j]);
    assert s[..j][i] == s[i];
    if s[j].IsInside(s[i]) {
      ReverseContainmentConflicts(s[i], s[j]);
    }
  }

  /** In a placed picture the inside entries are exactly the pairs (i, j), i < j, with shape i inside shape j. */
  lemma PlacedInsideEntries(s: seq<Shape>, i: nat, j: nat)
    requires Placed(s)
    ensures (i, j) in Populated(s).inside <==> i < j < |s| && s[i].IsInside(s[j])
  {
    if i < j < |s| {
      PairEntries(s, i, j);
    } else if j < i < |s| {
      PairEntries(s, j, i);
      PlacedNeverEnclosedLater(s, j, i);
    } else if (i, j) in Populated(s).inside {
      EntriesInRange(s, InsideKind, (i, j));
    }
  }

  /**
   * The conflict relation of a placed picture is not symmetric: for every
   * inside entry (i, j) the later, enclosing shape j reports a conflict with
   * the earlier shape i, although i reports none with j.
   */
  lemma PlacedEnclosingShapeConflicts(s: seq<Shape>, i: nat, j: nat)
    requires Placed(s)
    requires (i, j) in Populated(s).inside
    ensures i < j < |s|
    ensures s[j].Conflict(s[i]) && !s[i].Conflict(s[j])
  {
    PlacedInsideEntries(s, i, j);
    ReverseContainmentConflicts(s[j], s[i]);
  }

  /** A picture's elements, relation lists, id and inside quota, as a value. */
  datatype Snapshot = Snapshot(elems: seq<Element>, lists: Relations, id: nat, minInsides: int)

  /**
   * An accepted picture: every shape passed isValid against the earlier
   * ones, the relation lists are those of populate, and there are enough
   * inside pairs.
   */
  ghost predicate Accepts(p: Snapshot)
  {
    && Placed(ShapesOf(p.elems))
    && p.lists == Populated(ShapesOf(p.elems))
    && |p.lists.inside| >= AsSizeT(p.minInsides)
  }

  /** The picture carries id pid and its elements carry eid, eid + 1, ... in insertion order. */
  ghost predicate NumberedFrom(p: Snapshot, pid: nat, eid: nat)
  {
    p.id == pid && forall i :: 0 <= i < |p.elems| ==> p.elems[i].id == eid + i
  }

  class Picture {
    /** The minimum number of inside pairs an accepted picture must have. */
    const minInsides: int
    /** The random source shared with the generator. */
    const src: Source
    var elems: seq<Element>
    var inside: seq<Pair>
    var north: seq<Pair>
    var east: seq<Pair>
    var id: nat

    constructor (minInsides: int, src: Source)
      ensures this.minInsides == minInsides && this.src == src
      ensures Empty() && id == UNSET_ID
    {
      this.minInsides := minInsides;
      this.src := src;
      elems, inside, north, east := [], [], [], [];
      id := UNSET_ID;
    }

    ghost predicate Empty()
      reads this
    {
      elems == [] && inside == [] && north == [] && east == []
    }

    function Shapes(): seq<Shape>
      reads this
    {
      ShapesOf(elems)
    }

    /** The picture's state as a value. */
    function Snap(): Snapshot
      reads this
    {
      Snapshot(elems, Lists(), id, minInsides)
    }

    ghost predicate Built()
      reads this
    {
      Accepts(Snap())
    }

    ghost predicate Numbered(pid: nat, eid: nat)
      reads this
    {
      NumberedFrom(Snap(), pid, eid)
    }

    method IsValid(check: Shape) returns (ok: bool)
      ensures ok == Admissible(Shapes(), check)
    {
      if check.Overflow() {
        return false;
      }
      var i := 0;
      while i < |elems|
        invariant 0 <= i <= |elems|
        invariant forall k :: 0 <= k < i ==> !elems[k].shape.Conflict(check)
      {
        if elems[i].shape.Conflict(check) {
          return false;
        }
        i := i + 1;
      }
      return true;
    }

    method CreateElement() returns (e: Option<Shape>)
      modifies src
      ensures e == FromCandidate(src.candidates(old(src.drawn)))
      ensures src.drawn == old(src.drawn) + 1 && src.sized == old(src.sized)
    {
      var c := src.DrawCandidate();
      e := FromCandidate(c);
    }

    /**
     * The placement loops of createPicture: fill the slots up to size, each
     * with the first admissible candidate, giving up on a slot after MAX_TRY
     * failures beyond the first.
     */
    method PlaceElements(size: nat) returns (placed: bool)
      requires FiguresInRange(src.candidates)
      modifies this, src
      ensures var p := Place(src.candidates, old(Shapes()), size, old(src.drawn), 0);
        && placed == p.ok && Shapes() == p.shapes
        && src.drawn == p.next && src.sized == old(src.sized)
        && old(elems) <= elems
        && (forall k :: |old(elems)| <= k < |elems| ==> elems[k].id == UNSET_ID)
        && id == old(id) && Lists() == old(Lists())
    {
      ghost var goal := Place(src.candidates, Shapes(), size, src.drawn, 0);
      while |elems| < size
        invariant Place(src.candidates, Shapes(), size, src.drawn, 0) == goal
        invariant old(elems) <= elems && id == old(id) && src.sized == old(src.sized)
        invariant forall k :: |old(elems)| <= k < |elems| ==> elems[k].id == UNSET_ID
        invariant Lists() == old(Lists())
        decreases size - |elems|
      {
        ghost var slotStart := elems;
        var filled := FillSlot(size, goal);
        if !filled {
          return false;
        }
        assert elems[|old(elems)|..|slotStart|] == slotStart[|old(elems)|..];
      }
      return true;
    }

    /** One slot of the placement loops: draw until a candidate is admissible or the slot's budget is spent. */
    method FillSlot(size: nat, ghost goal: Placement) returns (filled: bool)
      requires FiguresInRange(src.candidates)
      requires |elems| < size
      requires Place(src.candidates, Shapes(), size, src.drawn, 0) == goal
      modifies this, src
      ensures filled ==>
        && |elems| == |old(elems)| + 1 && old(elems) <= elems && elems[|old(elems)|].id == UNSET_ID
        && Place(src.candidates, Shapes(), size, src.drawn, 0) == goal
      ensures !filled ==> elems == old(elems) && goal == Placement(false, Shapes(), src.drawn)
      ensures id == old(id) && src.sized == old(src.sized) && Lists() == old(Lists())
    {
      var errorTrial := 0;
      while true
        invariant errorTrial <= MAX_TRY
        invariant elems == old(elems)
        invariant Place(src.candidates, Shapes(), size, src.drawn, errorTrial) == goal
        invariant id == old(id) && src.sized == old(src.sized) && Lists() == old(Lists())
        decreases MAX_TRY - errorTrial
      {
        var e := CreateElement();
        var valid := IsValid(e.value);
        if valid {
          ghost var before := Shapes();
          elems := elems + [Element(e.value, UNSET_ID)];
          assert Shapes() == before + [e.value];
          return true;
        } else {
          errorTrial := errorTrial + 1;
          if errorTrial > MAX_TRY {
            return false;
          }
        }
      }
    }

    method CreatePicture(size: nat) returns (ok: bool)
      requires FiguresInRange(src.candidates)
      modifies this, src
      ensures var p := Place(src.candidates, old(Shapes()), size, old(src.drawn), 0);
        && Shapes() == p.shapes
        && src.drawn == p.next && src.sized == old(src.sized)
        && old(elems) <= elems
        && (forall k :: |old(elems)| <= k < |elems| ==> elems[k].id == UNSET_ID)
        && id == old(id)
        && (p.ok ==>
              && inside == old(inside) + Populated(p.shapes).inside
              && east == old(east) + Populated(p.shapes).east
              && north == old(north) + Populated(p.shapes).north
              && ok == (|inside| >= AsSizeT(minInsides)))
        && (!p.ok ==> !ok && inside == old(inside) && east == old(east) && north == old(north))
      ensures old(Empty()) && ok ==> Built() && |elems| == size
    {
      ghost var draw := src.candidates;
      ghost var first := Shapes();
      var placed := PlaceElements(size);
      if !placed {
        return false;
      }
      Populate();
      ok := |inside| >= AsSizeT(minInsides);
      if old(Empty()) && ok {
        PlaceGrows(draw, first, size, old(src.drawn), 0);
        PlaceKeepsPlaced(draw, first, size, old(src.drawn), 0);
      }
    }

    /** The body of populate's inner loop: record the entries of pair (i, j), i < j. */
    method RelatePair(i: nat, j: nat)
      requires i < j < |elems|
      modifies this
      ensures elems == old(elems) && id == old(id)
      ensures Lists() == old(Lists()).Then(PairsOf(Shapes())(i, j))
    {
      ghost var s := Shapes();
      assert PairsOf(s)(i, j) == PairRelations(s, i, j);
      var elem1 := elems[i].shape;
      var elem2 := elems[j].shape;
      assert elem1 == s[i] && elem2 == s[j];
      ghost var before := Lists();
      ghost var pair := PairRelations(s, i, j);
      if elem1.IsInside(elem2) {
        inside := inside + [(i, j)];
        assert pair == Relations([(i, j)], [], []);
      } else if elem2.IsInside(elem1) {
        inside := inside + [(j, i)];
        assert pair == Relations([(j, i)], [], []);
      } else {
        assert pair.inside == [];
        if elem1.IsEastOf(elem2) {
          east := east + [(i, j)];
        } else if elem2.IsEastOf(elem1) {
          east := east + [(j, i)];
        }
        assert east == before.east + pair.east;
        if elem1.IsNorthOf(elem2) {
          north := north + [(i, j)];
        } else {
          north := north + [(j, i)];
        }
        assert north == before.north + pair.north;
      }
      assert inside == before.inside + pair.inside;
      assert east == before.east + pair.east;
      assert north == before.north + pair.north;
    }

    /** The three relation lists as one value. */
    function Lists(): Relations
      reads this
    {
      Relations(inside, north := north, east := east)
    }

    /** The inner loop of populate for shape i: the entries of the pairs (i, i + 1), ..., (i, n - 1) in that order. */
    method RelateRow(i: nat)
      requires i < |elems|
      modifies this
      ensures elems == old(elems) && id == old(id)
      ensures Lists() == old(Lists()).Then(Row(PairsOf(Shapes()), i, |elems|))
    {
      ghost var s := Shapes();
      ghost var f := PairsOf(s);
      ghost var rowStart := Lists();
      for j: nat := i + 1 to |elems|
        invariant elems == old(elems) && id == old(id)
        invariant Lists() == rowStart.Then(Row(f, i, j))
      {
        RelatePair(i, j);
        assert Row(f, i, j + 1) == Row(f, i, j).Then(f(i, j));
        ThenAssociative(rowStart, Row(f, i, j), f(i, j));
      }
    }

    method Populate()
      modifies this
      ensures elems == old(elems) && id == old(id)
      ensures Lists() == old(Lists()).Then(Populated(Shapes()))
    {
      ghost var f := PairsOf(Shapes());
      ghost var start := Lists();
      var n := |elems|;
      for i: nat := 0 to n
        invariant elems == old(elems) && id == old(id)
        invariant Lists() == start.Then(Rows(f, n, i))
      {
        RelateRow(i);
        ThenAssociative(start, Rows(f, n, i), Row(f, i, n));
      }
    }

    method AssignIDs(pid: nat, eid: nat) returns (pid': nat, eid': nat)
      modifies this
      ensures Numbered(pid, eid)
      ensures pid' == pid + 1 && eid' == eid + |elems|
      ensures Shapes() == old(Shapes()) && |elems| == |old(elems)|
      ensures inside == old(inside) && east == old(east) && north == old(north)
      ensures Built() == old(Built())
    {
      id := pid;
      pid' := pid + 1;
      eid' := eid;
      ghost var s := Shapes();
      for k := 0 to |elems|
        invariant |elems| == |old(elems)| && id == pid
        invariant Shapes() == s
        invariant eid' == eid + k
        invariant forall i :: 0 <= i < k ==> elems[i].id == eid + i
        invariant inside == old(inside) && east == old(east) && north == old(north)
      {
        elems := elems[k := elems[k].(id := eid')];
        eid' := eid' + 1;
      }
    }
  }
}
