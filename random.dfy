/**
 * The random source, as an oracle: a fixed stream of shape candidates and a
 * fixed stream of picture sizes, each consumed one value at a time.  The
 * generator and all its pictures share one source: the pictures are given
 * the generator's engine and distributions through picture_params, so that
 * every draw continues the one stream.
 */
module Random {
  import opened Shapes

  class Source {
    /** The k-th candidate createElement draws. */
    const candidates: nat -> Candidate
    /** The k-th picture size the generator draws. */
    const pictureSizes: nat -> int
    /** How many candidates have been drawn so far. */
    var drawn: nat
    /** How many picture sizes have been drawn so far. */
    var sized: nat

    constructor (candidates: nat -> Candidate, pictureSizes: nat -> int)
      ensures this.candidates == candidates && this.pictureSizes == pictureSizes
      ensures drawn == 0 && sized == 0
    {
      this.candidates := candidates;
      this.pictureSizes := pictureSizes;
      drawn, sized := 0, 0;
    }

    method DrawCandidate() returns (c: Candidate)
      modifies this
      ensures c == candidates(old(drawn))
      ensures drawn == old(drawn) + 1 && sized == old(sized)
    {
      c := candidates(drawn);
      drawn := drawn + 1;
    }

    method DrawPictureSize() returns (n: int)
      modifies this
      ensures n == pictureSizes(old(sized))
      ensures sized == old(sized) + 1 && drawn == old(drawn)
    {
      n := pictureSizes(sized);
      sized := sized + 1;
    }
  }

  /** Every candidate's figure code is one of the four shapes (type_rand ranges over 1..4). */
  ghost predicate FiguresInRange(candidates: nat -> Candidate)
  {
    forall k :: 1 <= candidates(k).fig <= 4
  }

  /** The shape a candidate with a valid figure code stands for. */
  function Build(c: Candidate): (s: Shape)
    requires 1 <= c.fig <= 4
    ensures FromCandidate(c) == Some(s)
  {
    FromCandidate(c).value
  }
}
