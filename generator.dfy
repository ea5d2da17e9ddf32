/**
 * The dataset generator: it builds pictures until the picture id reaches
 * the requested count, retrying a whole picture until one is accepted,
 * numbers each accepted picture and its elements from two running
 * counters, and hands the pictures over in batches of CUTOFF, each batch
 * written to its own numbered fold.
 */
module DatasetGenerator {
  import opened Geometry
  import opened Shapes
  import opened Random
  import opened PictureBuilder
  import opened Relations

  /** Pictures held in memory before a batch is written out. */
  const CUTOFF: nat := 1000000

  /** The generator parameters: picture size range, shape size range and the inside quota. */
  datatype Params = Params(minNumElems: int, maxNumElems: int, minSize: int, maxSize: int, minInsides: int)

  /** The int picture size converted to the unsigned parameter of createPicture (32 bits). */
  function ToUnsigned(v: int): (u: nat)
    ensures u < 0x1_0000_0000
    ensures 0 <= v < 0x1_0000_0000 ==> u == v
  {
    v % 0x1_0000_0000
  }

  /**
   * The distributions of generate: picture sizes in [minNumElems,
   * maxNumElems], shape sizes in [minSize, maxSize], both coordinates in
   * [MARGIN, BOUND - MARGIN] inclusive and figure codes in 1..4.
   */
  ghost predicate Distributions(candidates: nat -> Candidate, sizes: nat -> int, p: Params)
  {
    && FiguresInRange(candidates)
    && (forall k :: MARGIN <= candidates(k).x <= BOUND - MARGIN && MARGIN <= candidates(k).y <= BOUND - MARGIN
                    && p.minSize <= candidates(k).size <= p.maxSize)
    && (forall k :: p.minNumElems <= sizes(k) <= p.maxNumElems)
  }

  /** With a non-negative lower bound, the drawn size reaches createPicture unchanged and in range. */
  lemma PictureSizeInRange(src: Source, p: Params, k: nat)
    requires Distributions(src.candidates, src.pictureSizes, p)
    requires 0 <= p.minNumElems && p.maxNumElems < 0x1_0000_0000
    ensures p.minNumElems <= ToUnsigned(src.pictureSizes(k)) <= p.maxNumElems
  {
  }

  /** A negative draw, possible only when minNumElems is negative, becomes a huge unsigned size. */
  lemma NegativeSizeWraps()
    ensures ToUnsigned(-1) == 0xFFFF_FFFF
  {
  }

  class Generator {
    const params: Params
    /** The random source shared by the generator and all its pictures. */
    const src: Source
    var foldId: int
    var pid: nat
    var eid: nat
    /** The batch in memory; each picture is owned by a unique_ptr and never changed after they are appended, so by value here. */
    var pictures: seq<Snapshot>

    constructor (params: Params, src: Source, pid: nat, eid: nat, foldId: int)
      ensures this.params == params && this.src == src
      ensures this.pid == pid && this.eid == eid && this.foldId == foldId
      ensures pictures == [] && Valid()
    {
      this.params, this.src := params, src;
      this.pid, this.eid, this.foldId := pid, eid, foldId;
      pictures := [];
    }

    /** A batch is flushed as soon as it reaches CUTOFF, so the one in memory is always smaller. */
    ghost predicate Valid()
      reads this
    {
      |pictures| < CUTOFF
    }

    /** output, reduced to its effect on the generator: the fold id moves on. */
    method Output()
      modifies this
      ensures foldId == old(foldId) + 1
      ensures pid == old(pid) && eid == old(eid) && pictures == old(pictures)
    {
      foldId := foldId + 1;
    }

    /**
     * The retry loop of generate: a fresh picture is asked for `size`
     * shapes, and replaced by a fresh one after every rejection.  The
     * picture kept is the first attempt from the candidate position at the
     * call that is not rejected, after `tries` rejected ones.  The retry
     * is unbounded in generate; here at most retryCap replacements are
     * made, and ok is false when they are used up, after retryCap + 1
     * rejected attempts.
     */
    method BuildAccepted(size: nat, retryCap: nat) returns (picture: Picture, ok: bool, tries: nat)
      requires FiguresInRange(src.candidates)
      modifies src
      ensures fresh(picture) && picture.src == src && picture.minInsides == params.minInsides
      ensures src.sized == old(src.sized)
      ensures ok ==> picture.Built() && |picture.elems| == size
      ensures ok ==> AcceptedAfter(src.candidates, size, params.minInsides, old(src.drawn), tries,
                                   picture.Shapes(), src.drawn)
      ensures !ok ==> RejectedUpTo(src.candidates, size, params.minInsides, old(src.drawn), retryCap + 1)
                      && src.drawn == After(src.candidates, size, old(src.drawn), retryCap + 1)
    {
      picture := new Picture(params.minInsides, src);
      ghost var start := src.drawn;
      ok := picture.CreatePicture(size);
      tries := 0;
      while !ok && tries < retryCap
        invariant fresh(picture) && picture.src == src && picture.minInsides == params.minInsides
        invariant src.sized == old(src.sized)
        invariant ok ==> picture.Built() && |picture.elems| == size
        invariant ok ==> Place(src.candidates, [], size, start, 0) == Placement(true, picture.Shapes(), src.drawn)
        invariant !ok ==> Rejected(src.candidates, size, params.minInsides, start)
                          && src.drawn == Place(src.candidates, [], size, start, 0).next
        invariant tries <= retryCap && start == After(src.candidates, size, old(src.drawn), tries)
        invariant RejectedUpTo(src.candidates, size, params.minInsides, old(src.drawn), tries)
        decreases retryCap - tries
      {
        RejectedSnoc(src.candidates, size, params.minInsides, old(src.drawn), tries);
        tries := tries + 1;
        picture := new Picture(params.minInsides, src);
        start := src.drawn;
        ok := picture.CreatePicture(size);
      }
      if !ok {
        RejectedSnoc(src.candidates, size, params.minInsides, old(src.drawn), tries);
        assert src.drawn == After(src.candidates, size, old(src.drawn), tries + 1);
      }
    }

    /**
     * One picture of generate: the first accepted attempt of `size` shapes
     * from the current candidate, numbered from pid and eid, which come
     * back advanced; its final state is returned.
     */
    method AcceptPicture(size: nat, retryCap: nat, pid: nat, eid: nat)
      returns (snap: Snapshot, ok: bool, pid': nat, eid': nat)
      requires FiguresInRange(src.candidates)
      modifies src
      ensures src.sized == old(src.sized) && old(src.drawn) <= src.drawn
      ensures ok ==> IsAccepted(params, size, Distributions(src.candidates, src.pictureSizes, params), src.candidates,
                                snap, pid, eid, eid', old(src.drawn), src.drawn)
      ensures ok ==> pid' == pid + 1
      ensures !ok ==> RejectedUpTo(src.candidates, size, params.minInsides, old(src.drawn), retryCap + 1)
                      && src.drawn == After(src.candidates, size, old(src.drawn), retryCap + 1)
    {
      var picture, tries;
      picture, ok, tries := BuildAccepted(size, retryCap);
      pid', eid' := pid, eid;
      if !ok {
        AfterGrows(src.candidates, size, old(src.drawn), retryCap + 1);
        snap := picture.Snap();
        return;
      }
      ghost var start := After(src.candidates, size, old(src.drawn), tries);
      if Distributions(src.candidates, src.pictureSizes, params) {
        PlaceDrawsInRange(src.candidates, [], size, start, 0, MARGIN, BOUND - MARGIN, params.minSize, params.maxSize);
      }
      ghost var shapes := picture.Shapes();
      pid', eid' := picture.AssignIDs(pid, eid);
      assert forall i :: 0 <= i < |picture.elems| ==> picture.elems[i].shape == shapes[i];
      snap := picture.Snap();
      assert AcceptedAfter(src.candidates, size, params.minInsides, old(src.drawn), tries, ShapesOf(snap.elems), src.drawn);
      FirstAcceptedOrdered(src.candidates, size, params.minInsides, old(src.drawn), snap, src.drawn);
    }

    /**
     * One iteration of generate's main loop: draw the picture size, build
     * and number an accepted picture of that size, append it to the batch,
     * and write out and clear the batch once it holds CUTOFF pictures.
     * ok is false when the picture used up its retryCap replacements; then
     * nothing but the streams has moved.
     */
    method Step(retryCap: nat, ghost st: Start, ghost appended: seq<Snapshot>, ghost firstIds: seq<nat>,
                ghost marks: seq<nat>)
      returns (ok: bool, snap: Snapshot)
      requires Valid() && FiguresInRange(src.candidates)
      requires Accepted(st, appended, firstIds, marks)
      requires st.params == params && st.sizes == src.pictureSizes && st.draw == src.candidates
      requires st.inRange == Distributions(src.candidates, src.pictureSizes, params)
      requires st.sized + |appended| == src.sized && st.pid + |appended| == pid && firstIds[|appended|] == eid
      requires marks[|appended|] == src.drawn
      modifies this, src
      ensures Valid()
      ensures src.sized == old(src.sized) + 1
      ensures ok ==> Accepted(st, appended + [snap], firstIds + [eid], marks + [src.drawn])
      ensures ok ==> pid == old(pid) + 1
      ensures ok && |old(pictures)| + 1 == CUTOFF ==> pictures == [] && foldId == old(foldId) + 1
      ensures ok && |old(pictures)| + 1 < CUTOFF ==> pictures == old(pictures) + [snap] && foldId == old(foldId)
      ensures !ok ==> pid == old(pid) && eid == old(eid) && pictures == old(pictures) && foldId == old(foldId)
      ensures !ok ==> RejectedUpTo(src.candidates, ToUnsigned(src.pictureSizes(old(src.sized))), params.minInsides,
                                   old(src.drawn), retryCap + 1)
    {
      var drawnSize := src.DrawPictureSize();
      var pid', eid';
      ghost var from := src.drawn;
      snap, ok, pid', eid' := AcceptPicture(ToUnsigned(drawnSize), retryCap, pid, eid);
      if !ok {
        return;
      }
      AcceptedSnoc(st, appended, firstIds, marks, params, ToUnsigned(drawnSize),
                   Distributions(src.candidates, src.pictureSizes, params), src.candidates, snap, pid, eid, eid',
                   from, src.drawn);
      pid, eid := pid', eid';
      pictures := pictures + [snap];
      if |pictures| == CUTOFF {
        Output();
        pictures := [];
      }
    }

    /**
     * generate: while the picture id is below num, draw a picture size,
     * build an accepted picture of that size, number it, append it, and
     * flush the batch when it reaches CUTOFF; after the loop a non-empty
     * batch is flushed once more.  finished is false only when some
     * picture used up its retryCap replacements; the run stops there,
     * without the final flush.  appended are the pictures of this run,
     * and marks[k] the candidate position where picture k began.
     */
    method Generate(num: nat, retryCap: nat)
      returns (finished: bool, ghost appended: seq<Snapshot>, ghost firstIds: seq<nat>, ghost marks: seq<nat>)
      requires Valid() && FiguresInRange(src.candidates)
      modifies this, src
      ensures Accepted(Start(params, src.pictureSizes, Distributions(src.candidates, src.pictureSizes, params),
                             src.candidates, old(pid), old(eid), old(src.sized), old(src.drawn)),
                       appended, firstIds, marks)
      ensures pid == old(pid) + |appended| && eid == firstIds[|appended|]
      ensures finished ==> pid == Max(old(pid), num)
      ensures finished ==> src.sized == old(src.sized) + |appended| && src.drawn == marks[|appended|]
      ensures !finished ==> pid < num && src.sized == old(src.sized) + |appended| + 1
      ensures !finished ==>
        RejectedUpTo(src.candidates, ToUnsigned(src.pictureSizes(old(src.sized) + |appended|)), params.minInsides,
                     marks[|appended|], retryCap + 1)
      ensures |old(pictures)| + |appended| == (|old(pictures)| + |appended|) / CUTOFF * CUTOFF + |pictures|
      ensures pictures == (old(pictures) + appended)[(|old(pictures)| + |appended|) / CUTOFF * CUTOFF..]
      ensures Valid()
      ensures foldId == old(foldId) + (|old(pictures)| + |appended|) / CUTOFF
                                    + (if finished && pictures != [] then 1 else 0)
    {
      ghost var st := Start(params, src.pictureSizes, Distributions(src.candidates, src.pictureSizes, params),
                            src.candidates, pid, eid, src.sized, src.drawn);
      appended, firstIds, marks := [], [eid], [src.drawn];
      ghost var flushes := 0;
      while pid < num
        invariant Valid()
        invariant Accepted(st, appended, firstIds, marks)
        invariant pid == old(pid) + |appended| && eid == firstIds[|appended|] && src.drawn == marks[|appended|]
        invariant pid <= Max(old(pid), num)
        invariant src.sized == old(src.sized) + |appended|
        invariant Batched(old(pictures) + appended, flushes, pictures)
        invariant foldId == old(foldId) + flushes
        decreases num - pid
      {
        ghost var batch := pictures;
        var ok, snap := Step(retryCap, st, appended, firstIds, marks);
        if !ok {
          DivisionOfTotal(|old(pictures)| + |appended|, flushes, |pictures|);
          return false, appended, firstIds, marks;
        }
        BatchedKeep(old(pictures) + appended, flushes, batch, snap);
        assert old(pictures) + (appended + [snap]) == old(pictures) + appended + [snap];
        if pictures == [] {
          flushes := flushes + 1;
        }
        appended, firstIds, marks := appended + [snap], firstIds + [eid], marks + [src.drawn];
      }
      DivisionOfTotal(|old(pictures)| + |appended|, flushes, |pictures|);
      finished := true;
      if pictures != [] {
        Output();
      }
    }
  }


  /**
   * What a run starts from: the parameters, the picture-size stream,
   * whether the streams keep to the distributions, the candidate stream,
   * and the picture id, element id and the positions in the two streams
   * at the start.
   */
  datatype Start = Start(params: Params, sizes: nat -> int, inRange: bool, draw: nat -> Candidate,
                         pid: nat, eid: nat, sized: nat, drawn: nat)

  /** The candidate position after n whole-picture attempts of `size` shapes, the first starting at `from`. */
  ghost function After(draw: nat -> Candidate, size: nat, from: nat, n: nat): nat
    requires FiguresInRange(draw)
  {
    if n == 0 then from else Place(draw, [], size, After(draw, size, from, n - 1), 0).next
  }

  /** The attempt starting at candidate `at` is rejected: its placement fails or it has too few inside pairs. */
  ghost predicate Rejected(draw: nat -> Candidate, size: nat, minInsides: int, at: nat)
    requires FiguresInRange(draw)
  {
    var p := Place(draw, [], size, at, 0);
    !(p.ok && |Populated(p.shapes).inside| >= AsSizeT(minInsides))
  }

  /** The first n attempts from `from` were all rejected. */
  ghost predicate RejectedUpTo(draw: nat -> Candidate, size: nat, minInsides: int, from: nat, n: nat)
  {
    && FiguresInRange(draw)
    && forall i :: 0 <= i < n ==> Rejected(draw, size, minInsides, After(draw, size, from, i))
  }

  /** One more rejected attempt extends the rejected prefix. */
  lemma RejectedSnoc(draw: nat -> Candidate, size: nat, minInsides: int, from: nat, n: nat)
    requires RejectedUpTo(draw, size, minInsides, from, n)
    requires Rejected(draw, size, minInsides, After(draw, size, from, n))
    ensures RejectedUpTo(draw, size, minInsides, from, n + 1)
  {
  }

  /**
   * After `tries` rejected attempts from `from`, the next one is accepted:
   * its placement succeeds with `shapes`, ending at candidate `to`, and it
   * meets the inside quota.
   */
  ghost predicate AcceptedAfter(draw: nat -> Candidate, size: nat, minInsides: int, from: nat, tries: nat,
                                shapes: seq<Shape>, to: nat)
  {
    && RejectedUpTo(draw, size, minInsides, from, tries)
    && Place(draw, [], size, After(draw, size, from, tries), 0) == Placement(true, shapes, to)
    && |Populated(shapes).inside| >= AsSizeT(minInsides)
  }

  /** The picture is the first attempt from `from` that is not rejected, and its drawing ends at `to`. */
  ghost predicate FirstAccepted(draw: nat -> Candidate, size: nat, minInsides: int, from: nat, p: Snapshot, to: nat)
  {
    exists tries: nat :: AcceptedAfter(draw, size, minInsides, from, tries, ShapesOf(p.elems), to)
  }

  /** The first accepted attempt is unique: its index, its shapes and its end position are determined. */
  lemma FirstAcceptedUnique(draw: nat -> Candidate, size: nat, minInsides: int, from: nat,
                            t1: nat, s1: seq<Shape>, to1: nat, t2: nat, s2: seq<Shape>, to2: nat)
    requires AcceptedAfter(draw, size, minInsides, from, t1, s1, to1)
    requires AcceptedAfter(draw, size, minInsides, from, t2, s2, to2)
    ensures t1 == t2 && s1 == s2 && to1 == to2
  {
    var r1 := Rejected(draw, size, minInsides, After(draw, size, from, t1));
    var r2 := Rejected(draw, size, minInsides, After(draw, size, from, t2));
    assert t1 < t2 ==> r1;
    assert t2 < t1 ==> r2;
  }

  /** The candidate position never moves back over whole-picture attempts. */
  lemma {:induction false} AfterGrows(draw: nat -> Candidate, size: nat, from: nat, n: nat)
    requires FiguresInRange(draw)
    ensures from <= After(draw, size, from, n)
  {
    if n > 0 {
      AfterGrows(draw, size, from, n - 1);
      PlaceGrows(draw, [], size, After(draw, size, from, n - 1), 0);
    }
  }

  /** An accepted picture begins drawing no earlier than `from` and ends no earlier than it begins. */
  lemma FirstAcceptedOrdered(draw: nat -> Candidate, size: nat, minInsides: int, from: nat, p: Snapshot, to: nat)
    requires FirstAccepted(draw, size, minInsides, from, p, to)
    ensures from <= to
  {
    var t :| AcceptedAfter(draw, size, minInsides, from, t, ShapesOf(p.elems), to);
    AfterGrows(draw, size, from, t);
    PlaceGrows(draw, [], size, After(draw, size, from, t), 0);
  }

  /**
   * An accepted picture of `size` shapes with the quota of the parameters,
   * numbered pid with element ids from eid on, next being the id after its
   * last element; it is the first attempt from candidate `from` that is
   * not rejected, and its drawing ends at candidate `to`; when the random
   * streams keep to the distributions, its shapes lie in the drawn ranges.
   */
  ghost predicate IsAccepted(params: Params, size: nat, inRange: bool, draw: nat -> Candidate,
                             p: Snapshot, pid: nat, eid: nat, next: nat, from: nat, to: nat)
  {
    && Accepts(p)
    && FirstAccepted(draw, size, params.minInsides, from, p, to)
    && p.minInsides == params.minInsides
    && |p.elems| == size
    && NumberedFrom(p, pid, eid)
    && next == eid + size
    && (inRange ==>
          forall i :: 0 <= i < |p.elems| ==>
            DrawnWithin(p.elems[i].shape, MARGIN, BOUND - MARGIN, params.minSize, params.maxSize))
  }

  /**
   * Picture k of a run has the k-th drawn size, picture id pid + k, element
   * ids from firstIds[k] on, and is the first accepted attempt from
   * candidate marks[k], ending at marks[k + 1].
   */
  ghost predicate AcceptedAt(st: Start, pics: seq<Snapshot>, firstIds: seq<nat>, marks: seq<nat>, k: nat)
    requires k < |pics| && |firstIds| == |pics| + 1 && |marks| == |pics| + 1
  {
    IsAccepted(st.params, ToUnsigned(st.sizes(st.sized + k)), st.inRange, st.draw,
               pics[k], st.pid + k, firstIds[k], firstIds[k + 1], marks[k], marks[k + 1])
  }

  /**
   * The pictures a run appended, one per iteration: firstIds[k] is the
   * first element id and marks[k] the first candidate position of picture
   * k, firstIds[0] and marks[0] those at the start, and each picture is
   * the k-th accepted one.
   */
  ghost predicate Accepted(st: Start, pics: seq<Snapshot>, firstIds: seq<nat>, marks: seq<nat>)
  {
    && |firstIds| == |pics| + 1 && |marks| == |pics| + 1
    && firstIds[0] == st.eid && marks[0] == st.drawn
    && forall k :: 0 <= k < |pics| ==> AcceptedAt(st, pics, firstIds, marks, k)
  }

  /** Appending the next accepted picture extends the run by one. */
  lemma AcceptedSnoc(st: Start, pics: seq<Snapshot>, firstIds: seq<nat>, marks: seq<nat>,
                     params: Params, size: nat, inRange: bool, draw: nat -> Candidate,
                     p: Snapshot, pid: nat, eid: nat, next: nat, from: nat, to: nat)
    requires Accepted(st, pics, firstIds, marks)
    requires IsAccepted(params, size, inRange, draw, p, pid, eid, next, from, to)
    requires params == st.params && size == ToUnsigned(st.sizes(st.sized + |pics|)) && inRange == st.inRange
    requires draw == st.draw
    requires pid == st.pid + |pics| && eid == firstIds[|pics|] && from == marks[|pics|]
    ensures Accepted(st, pics + [p], firstIds + [next], marks + [to])
  {
    var pics', firstIds', marks' := pics + [p], firstIds + [next], marks + [to];
    forall k | 0 <= k < |pics'| ensures AcceptedAt(st, pics', firstIds', marks', k) {
      if k < |pics| {
        assert AcceptedAt(st, pics, firstIds, marks, k);
        assert pics'[k] == pics[k] && firstIds'[k] == firstIds[k] && firstIds'[k + 1] == firstIds[k + 1];
        assert marks'[k] == marks[k] && marks'[k + 1] == marks[k + 1];
      }
    }
  }

  /** Element ids only grow along a run: firstIds[k] lies between the starting id and firstIds[k'] for k <= k'. */
  lemma {:induction false} FirstIdsGrow(st: Start, pics: seq<Snapshot>, firstIds: seq<nat>, marks: seq<nat>,
                                        k: nat, k': nat)
    requires Accepted(st, pics, firstIds, marks) && k <= k' <= |pics|
    ensures st.eid <= firstIds[k] <= firstIds[k']
    decreases k'
  {
    if k < k' {
      assert AcceptedAt(st, pics, firstIds, marks, k' - 1);
      FirstIdsGrow(st, pics, firstIds, marks, k, k' - 1);
    } else if k > 0 {
      assert AcceptedAt(st, pics, firstIds, marks, k - 1);
      FirstIdsGrow(st, pics, firstIds, marks, k - 1, k - 1);
    }
  }

  /** Candidate positions only move forward along a run: marks[k] <= marks[k + 1]. */
  lemma MarksGrow(st: Start, pics: seq<Snapshot>, firstIds: seq<nat>, marks: seq<nat>, k: nat)
    requires Accepted(st, pics, firstIds, marks) && k < |pics|
    ensures marks[k] <= marks[k + 1]
  {
    assert AcceptedAt(st, pics, firstIds, marks, k);
    FirstAcceptedOrdered(st.draw, ToUnsigned(st.sizes(st.sized + k)), st.params.minInsides, marks[k], pics[k], marks[k + 1]);
  }

  /**
   * Ids are contiguous across the whole run: picture k has id pid + k, and
   * its elements carry the ids after all elements of the pictures before it.
   */
  lemma AcceptedIdsContiguous(st: Start, pics: seq<Snapshot>, firstIds: seq<nat>, marks: seq<nat>, k: nat, i: nat)
    requires Accepted(st, pics, firstIds, marks) && k < |pics| && i < |pics[k].elems|
    ensures pics[k].id == st.pid + k
    ensures pics[k].elems[i].id == firstIds[k] + i
    ensures st.eid <= firstIds[k] && firstIds[k] + |pics[k].elems| <= firstIds[|pics|]
  {
    assert AcceptedAt(st, pics, firstIds, marks, k);
    FirstIdsGrow(st, pics, firstIds, marks, k, k);
    FirstIdsGrow(st, pics, firstIds, marks, k + 1, |pics|);
  }

  /** Two accepted pictures with the same shapes, quota, picture id and first element id are the same picture. */
  lemma SameShapesSamePicture(p: Snapshot, q: Snapshot, pid: nat, eid: nat)
    requires Accepts(p) && Accepts(q) && ShapesOf(p.elems) == ShapesOf(q.elems) && p.minInsides == q.minInsides
    requires NumberedFrom(p, pid, eid) && NumberedFrom(q, pid, eid)
    ensures p == q
  {
    assert |p.elems| == |ShapesOf(p.elems)| == |q.elems|;
    forall i | 0 <= i < |p.elems| ensures p.elems[i] == q.elems[i] {
      assert p.elems[i].shape == ShapesOf(p.elems)[i] == q.elems[i].shape;
    }
    assert p.elems == q.elems;
  }

  /** Two runs from the same start agree on the element id and candidate position of every picture so far. */
  lemma {:induction false} RunsAgreeUpTo(st: Start, pics: seq<Snapshot>, firstIds: seq<nat>, marks: seq<nat>,
                                         pics': seq<Snapshot>, firstIds': seq<nat>, marks': seq<nat>, k: nat)
    requires Accepted(st, pics, firstIds, marks) && Accepted(st, pics', firstIds', marks')
    requires |pics| == |pics'| && k <= |pics|
    ensures firstIds[k] == firstIds'[k] && marks[k] == marks'[k]
    ensures k > 0 ==> pics[k - 1] == pics'[k - 1]
  {
    if k > 0 {
      RunsAgreeUpTo(st, pics, firstIds, marks, pics', firstIds', marks', k - 1);
      assert AcceptedAt(st, pics, firstIds, marks, k - 1);
      assert AcceptedAt(st, pics', firstIds', marks', k - 1);
      var size := ToUnsigned(st.sizes(st.sized + (k - 1)));
      var m := st.params.minInsides;
      var t1 :| AcceptedAfter(st.draw, size, m, marks[k - 1], t1, ShapesOf(pics[k - 1].elems), marks[k]);
      var t2 :| AcceptedAfter(st.draw, size, m, marks[k - 1], t2, ShapesOf(pics'[k - 1].elems), marks'[k]);
      FirstAcceptedUnique(st.draw, size, m, marks[k - 1], t1, ShapesOf(pics[k - 1].elems), marks[k],
                          t2, ShapesOf(pics'[k - 1].elems), marks'[k]);
      SameShapesSamePicture(pics[k - 1], pics'[k - 1], st.pid + (k - 1), firstIds[k - 1]);
    }
  }

  /**
   * generate is determined by its streams: two runs from the same start
   * that append the same number of pictures append the same pictures,
   * with the same ids, and consume the same candidates.
   */
  lemma RunsDeterministic(st: Start, pics: seq<Snapshot>, firstIds: seq<nat>, marks: seq<nat>,
                          pics': seq<Snapshot>, firstIds': seq<nat>, marks': seq<nat>)
    requires Accepted(st, pics, firstIds, marks) && Accepted(st, pics', firstIds', marks')
    requires |pics| == |pics'|
    ensures pics == pics' && firstIds == firstIds' && marks == marks'
  {
    forall k | 0 <= k <= |pics| ensures firstIds[k] == firstIds'[k] && marks[k] == marks'[k] {
      RunsAgreeUpTo(st, pics, firstIds, marks, pics', firstIds', marks', k);
    }
    forall k | 0 <= k < |pics| ensures pics[k] == pics'[k] {
      RunsAgreeUpTo(st, pics, firstIds, marks, pics', firstIds', marks', k + 1);
    }
  }

  /** all, the pictures ever appended, is `flushes` full batches followed by the batch in memory. */
  ghost predicate Batched(all: seq<Snapshot>, flushes: nat, batch: seq<Snapshot>)
  {
    && |all| == flushes * CUTOFF + |batch|
    && |batch| < CUTOFF
    && batch == all[flushes * CUTOFF..]
  }

  /** Appending to the batch, and clearing it when it fills, keeps all the pictures accounted for. */
  lemma BatchedKeep(all: seq<Snapshot>, flushes: nat, batch: seq<Snapshot>, p: Snapshot)
    requires Batched(all, flushes, batch)
    ensures |batch| + 1 == CUTOFF ==> Batched(all + [p], flushes + 1, [])
    ensures |batch| + 1 < CUTOFF ==> Batched(all + [p], flushes, batch + [p])
  {
    assert (all + [p])[flushes * CUTOFF..] == batch + [p];
  }

  /** A total split as q full batches plus a partial one below CUTOFF has q as its quotient. */
  lemma DivisionOfTotal(total: nat, q: nat, rest: nat)
    requires total == q * CUTOFF + rest && rest < CUTOFF
    ensures total / CUTOFF == q
  {
  }
}
