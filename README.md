# Bongard picture generator, modelled in Dafny

A model of the core of BongardGenerator, a generator of Bongard-style
pictures for a visual-reasoning benchmark. A picture is a 100 x 100
canvas holding squares, circles and point-up or point-down triangles.
The picture builder places the shapes one slot at a time by rejection
sampling. A candidate is kept when it stays inside the canvas and no
shape already placed reports a conflict with it. A slot is abandoned
after more than MAX_TRY failures. Once every slot is filled, the builder
derives the relation lists over all pairs in insertion order: *inside*,
*east* and *north*. It accepts the picture when there are at least
`min_insides` inside pairs. The generator builds pictures until the
picture id reaches the requested count, and it retries a whole picture
until one is accepted. It numbers each accepted picture and its elements
from two running counters. It writes the pictures out in batches of
CUTOFF, and each write moves the fold id on.

Modules:

- `Roots`: exact integer stand-ins for the floating-point sizes.
  - `TriangleHeight(w)` is ceil(w·√3/2).
  - `CircleSide(r)` is floor(r·√2).
  - `CircleInset(r)` is r - ceil(r/√2), the circle's inset truncated.
  - `InscribedSide(h, w)` is the triangle's `h*w/(h+w)`.
- `Geometry`: points and rectangles, with the four rectangle predicates
  (containment, overlap, east and north, with margins).
  - `Set` is Rectangle::set as written.
  - `Make` is the four-argument constructor.
- `Shapes`: the shape datatype with its outer and inner boxes, the
  element predicates (`IsInside`, `IsOverlapped`, `IsEastOf`,
  `IsNorthOf`, `Conflict`, `Overflow`), and createElement's mapping from
  a figure code to a shape.
- `Random`: the random engine as an oracle. It holds a stream of shape
  candidates and a stream of picture sizes, and both are consumed one
  draw at a time.
- `Relations`: populate's result as a function of the shapes. It is
  built pair by pair, row by row, in the order of the nested loops.
- `PictureBuilder`:
  - `Place`, a function on the candidate stream that specifies the
    placement loops;
  - the `Picture` class. `IsValid` changes nothing. `CreateElement`
    advances only the candidate stream. `CreatePicture` appends elements,
    advances the candidate stream and, through `Populate`, appends to the
    three relation lists. `AssignIDs` sets the picture's and the
    elements' ids;
  - the properties of accepted pictures.
- `DatasetGenerator`: the `Generator` class with `pid`, `eid`, the batch
  `pictures` and `foldId`. `Generate` is generate's loop, and
  `BuildAccepted` its retry loop. `Output` is output reduced to the
  fold-id increment. A run is described by the pictures it appended, the
  first element id of each, and the candidate position where each began:
  every picture is the first attempt from that position that createPicture
  accepts. `RunsDeterministic` shows that the two streams determine the
  run.

The model follows the code where it differs from what the declarations
promise (BongardPicture.hpp documents conflict as "partially
overlapped", and BongardGenerator.hpp documents generate as forbidding
two partially overlapped elements):

- **Rectangle::set.** Rectangle::set stores y + width as the right-top y
  coordinate (BongardPicture.cpp:211). Every box is therefore square in
  its corners; only the four-argument constructor uses the height.
- **conflict.** conflict asks twice whether this shape is inside the
  other (BongardPicture.cpp:105-106). It never asks whether the other
  shape is inside this one.
- **isValid.** isValid asks `existing->conflict(candidate)`
  (BongardPicture.cpp:36). The consequence, proved below, is that a later
  shape never lies inside an earlier one. Every inside entry is
  (enclosed, encloser), with the enclosed shape the earlier one. An
  accepted picture can hold an enclosing shape that, by its own conflict
  test, partially overlaps the shape it encloses
  (`PlacedEnclosingShapeConflicts`).
- **North.** North has no "neither" case: when the first shape is not
  north of the second, the reversed pair is recorded.
- **Picture sizes.** The picture size is drawn as an `int` and passed as
  `unsigned`, so it is taken modulo 2^32.
- **The inside quota.** The quota comparison converts `min_insides_` to
  a 64-bit `size_t`.

MAX_TRY keeps its literal value 10^8; no proof depends on that value.

## Model

| member | source | states |
|---|---|---|
| Geometry.Make | BongardPicture.cpp:201-205 | definition as written |
| Geometry.Set | BongardPicture.cpp:207-214 | definition as written |
| Geometry.Rectangle.IsInside | BongardPicture.cpp:131-136 | definition as written |
| Geometry.Rectangle.IsOverlapped | BongardPicture.cpp:138-143 | definition as written |
| Geometry.Rectangle.IsEastOf | BongardPicture.cpp:145-147 | definition as written |
| Geometry.Rectangle.IsNorthOf | BongardPicture.cpp:149-151 | definition as written |
| Geometry.SetCorners | BongardPicture.cpp:207-214 | after set(x, y, w, h) the corners are (x, y) and (x + w, y + w); the height is stored; with w >= 0 the box is well formed |
| Geometry.SetAgreesWithMakeIffSquare | BongardPicture.cpp:201-214 | set and the four-argument constructor build the same rectangle exactly when width equals height |
| Geometry.HeightIgnored | BongardPicture.cpp:131-151 | no rectangle predicate depends on the stored height, on either side |
| Geometry.OverlapSymmetric | BongardPicture.cpp:138-143 | overlap with a margin is symmetric in the two rectangles |
| Geometry.DirectionsExclusive | BongardPicture.cpp:145-151 | two well-formed rectangles are never each east of the other, nor each north of the other |
| Geometry.InsideAntisymmetric | BongardPicture.cpp:131-136 | with a positive margin, containment is irreflexive and never mutual |
| Geometry.InsideOverlaps | BongardPicture.cpp:131-143 | a well-formed rectangle inside another with margin m >= 0 overlaps it in both orders |
| Roots.LeastRoot | BongardPicture.cpp:185 | the result r is the least natural with a·r² >= b (both inequalities) |
| Roots.LeastRootUnique | BongardPicture.cpp:185 | the two inequalities determine the least root |
| Roots.LeastRootAtMost | BongardPicture.cpp:185 | any k with a·k² >= b bounds the least root from above |
| Roots.TriangleHeight | BongardPicture.cpp:185 | h is ceil(w·√3/2): the least h with 4h² >= 3w² |
| Roots.TriangleHeightBounds | BongardPicture.cpp:185-186 | for w >= 1 the height is between 1 and w |
| Roots.CircleSide | BongardPicture.cpp:172-174 | s is floor(r·√2): s² <= 2r² < (s + 1)² |
| Roots.CircleInset | BongardPicture.cpp:172-173 | the inset r - ceil(r/√2): at most r, and the largest m leaving 2(r - m)² >= r² |
| Roots.InscribedSide | BongardPicture.cpp:188 | definition as written: the triangle's inner width `height*width/(height+width)` in integer division |
| Roots.InscribedSideBounds | BongardPicture.cpp:188 | height·width/(height + width) is at most the height and at most the width |
| Roots.TwiceSideBound | BongardPicture.cpp:172-174 | twice the inscribed square's side is at most three radii |
| Roots.TwiceRootBound | BongardPicture.cpp:172-173 | the inset leaves at least half a radius: r <= 2(r - inset) |
| Roots.CircleFits | BongardPicture.cpp:169-175 | inset plus inscribed side stay within the diameter 2r |
| Shapes.Shape.Outer | BongardPicture.cpp:169-196 | definition as written |
| Shapes.Shape.Inner | BongardPicture.cpp:169-196 | definition as written |
| Shapes.Shape.IsOverlapped | BongardPicture.cpp:110-112 | definition as written |
| Shapes.Shape.IsInside | BongardPicture.cpp:114-116 | definition as written |
| Shapes.Shape.IsEastOf | BongardPicture.cpp:118-120 | definition as written |
| Shapes.Shape.IsNorthOf | BongardPicture.cpp:122-124 | definition as written |
| Shapes.Shape.Conflict | BongardPicture.cpp:104-108 | definition as written |
| Shapes.Shape.Overflow | BongardPicture.cpp:126-129 | definition as written |
| Shapes.FromCandidate | BongardPicture.cpp:43-55 | a shape exists iff the figure code is 1..4; it keeps x, y and size; 1 is a square, 2 a circle, 3 a point-down and 4 a point-up triangle |
| Shapes.InnerWithinOuter | BongardPicture.cpp:169-196 | every shape's outer and inner boxes are well formed and the inner box lies within the outer one |
| Shapes.CircleInnerWithinOuter | BongardPicture.cpp:169-175 | the circle's inscribed square lies within its bounding box |
| Shapes.TriangleInnerWithinOuter | BongardPicture.cpp:183-196 | the triangle's inscribed square, centred horizontally and standing on the base (the bottom edge for point-up, the top edge for point-down), lies within its bounding box |
| Shapes.SquareAndCircleOfOneDiameter | BongardPicture.cpp:169-181 | a square and a circle of equal size at one point share their outer box; the square's inner box is its outer box |
| Shapes.SquareCircleExample | BongardPicture.cpp:104-116 | a width-10 square and a diameter-10 circle at the origin overlap, with neither inside the other |
| Shapes.ContainmentAsymmetric | BongardPicture.cpp:114-116 | no shape is inside itself; two shapes are never inside each other |
| Shapes.InsideOverlapsShape | BongardPicture.cpp:110-116 | a shape inside another overlaps it in both orders |
| Shapes.ConflictCases | BongardPicture.cpp:104-108 | conflict is false when this shape is inside the other, and otherwise equals overlap |
| Shapes.ReverseContainmentConflicts | BongardPicture.cpp:104-108 | when b is inside a, a conflicts with b although b does not conflict with a |
| Shapes.DirectionsExclusiveShape | BongardPicture.cpp:118-124 | two shapes are never each east, nor each north, of the other |
| Shapes.TriangleOverflowUsesWidth | BongardPicture.cpp:126-129 | a point-up triangle of base 60 at (2, 40) overflows, although its apex at height 52 stays below the bound |
| Random.Build | BongardPicture.cpp:49-52 | for codes 1..4 the candidate always yields a shape, so the null return is unreachable |
| Random.FiguresInRange | BongardGenerator.cpp:48 | definition as written: every figure code lies in type_rand's range 1..4 |
| Random.Source.constructor | BongardGenerator.cpp:40-50 | definition as written: the fixed candidate and picture-size streams, both at position 0 |
| Random.Source.DrawCandidate | BongardPicture.cpp:44-47 | returns the next candidate of the stream and advances the candidate position by one |
| Random.Source.DrawPictureSize | BongardGenerator.cpp:56 | returns the next picture size of the stream and advances the size position by one |
| Relations.PairRelations | BongardPicture.cpp:83-99 | definition as written |
| Relations.Populated | BongardPicture.cpp:78-102 | definition as written |
| Relations.Row | BongardPicture.cpp:81-100 | definition as written: the inner loop over j for fixed i, pair by pair in order |
| Relations.Rows | BongardPicture.cpp:79-101 | definition as written: the outer loop over i, row by row in order |
| Relations.InThen | BongardPicture.cpp:84-97 | an entry of appended lists is an entry of one of the parts |
| Relations.ThenAssociative | BongardPicture.cpp:84-97 | appending to the lists is associative |
| Relations.PairCounts | BongardPicture.cpp:83-99 | each pair adds one inside entry or one north entry, and at most as many east entries as north entries |
| Relations.PairsOfCounts | BongardPicture.cpp:79-101 | every pair i < j of the picture satisfies the per-pair counts |
| Relations.RowCounts | BongardPicture.cpp:81-100 | the inner loop over j for fixed i adds inside plus north entries equal to the number of pairs visited |
| Relations.TriangularStep | BongardPicture.cpp:79-101 | the pairs of the first i rows of n shapes add up row by row |
| Relations.RowsCounts | BongardPicture.cpp:79-101 | after i outer iterations, inside plus north entries number (n - 1) + ... + (n - i), and east never exceeds north |
| Relations.PopulatedCounts | BongardPicture.cpp:78-102 | inside_.size() + north_.size() == n(n - 1)/2 and east_.size() <= north_.size() |
| Relations.PairEntriesArePair | BongardPicture.cpp:83-99 | each entry recorded for pair (i, j) is (i, j) or (j, i) |
| Relations.PairsOfWellPaired | BongardPicture.cpp:79-101 | the contributions of every pair name only that pair's two shapes |
| Relations.PairContributes | BongardPicture.cpp:83-99 | an entry in pair (i, j)'s contribution is exactly an entry whose lower and higher index are i and j |
| Relations.RowStepIn | BongardPicture.cpp:81-100 | an entry after one more inner iteration is in the earlier lists or in the new pair's contribution |
| Relations.RowsStepIn | BongardPicture.cpp:79-101 | an entry after one more outer iteration is in the earlier lists or in the new row |
| Relations.RowEntriesContributed | BongardPicture.cpp:81-100 | every entry of a row comes from a pair of that row |
| Relations.RowHoldsContributed | BongardPicture.cpp:81-100 | every contribution of a pair of the row is in the row |
| Relations.RowsEntriesContributed | BongardPicture.cpp:79-101 | every entry of the first i rows comes from a pair whose lower index is below i |
| Relations.RowsHoldContributed | BongardPicture.cpp:79-101 | every contribution of a pair whose lower index is below i is in the first i rows |
| Relations.PopulatedMembers | BongardPicture.cpp:78-102 | an entry is in the relation lists iff it names two distinct shapes of the picture and its pair contributes it |
| Relations.PairEntries | BongardPicture.cpp:83-99 | for i < j, each of the six possible entries (each list, each order) is recorded iff the branch conditions of populate hold |
| Relations.EntriesInRange | BongardPicture.cpp:79-84 | every entry names two distinct shapes of the picture |
| Relations.InsideExcludesDirections | BongardPicture.cpp:83-99 | an inside pair appears in neither order in east or north |
| Relations.NorthExactlyOnce | BongardPicture.cpp:94-98 | a pair without containment is in north in exactly one order |
| Relations.NeverBothOrders | BongardPicture.cpp:83-99 | no pair is recorded in both orders in any list |
| Relations.EntriesMeanWhatTheySay | BongardPicture.cpp:83-99 | an inside entry (i, j) means shape i is inside j; an east entry that i is east of j; a north entry that j is not north of i |
| PictureBuilder.Admissible | BongardPicture.cpp:31-41 | definition as written |
| PictureBuilder.Place | BongardPicture.cpp:57-72 | definition as written |
| PictureBuilder.AsSizeT | BongardPicture.cpp:75 | definition as written: the int quota converted to size_t for the comparison with inside_.size() |
| PictureBuilder.Accepts | BongardPicture.cpp:57-76 | definition as written: createPicture's outcome when it returns true — every shape admissible against the earlier ones, the lists those of populate, at least the quota of inside pairs |
| PictureBuilder.NumberedFrom | BongardPicture.cpp:225-230 | definition as written: the ids assignIDs leaves behind |
| PictureBuilder.PlaceGrows | BongardPicture.cpp:57-72 | placement only appends, each shape admissible against those before it; success reaches the target size, failure stays below it; at least one candidate per placed shape is drawn |
| PictureBuilder.PlaceFailsOnlyWhenExhausted | BongardPicture.cpp:59-69 | placement fails only after MAX_TRY + 1 consecutive inadmissible candidates, the last ones drawn |
| PictureBuilder.PlaceKeepsPlaced | BongardPicture.cpp:57-72 | started from a placed list, placement ends with a placed list |
| PictureBuilder.PlaceDrawsInRange | BongardPicture.cpp:43-48 | when every candidate is in the drawn ranges, so is every placed shape's position and size |
| PictureBuilder.PlacedWithinCanvas | BongardPicture.cpp:31-34 | no placed shape's outer right-top corner reaches BOUND |
| PictureBuilder.PlacedNeverEnclosedLater | BongardPicture.cpp:31-41 | in a placed picture, a later shape is never inside an earlier one |
| PictureBuilder.PlacedInsideEntries | BongardPicture.cpp:78-86 | in a placed picture, (i, j) is an inside entry iff i < j and shape i is inside shape j |
| PictureBuilder.PlacedEnclosingShapeConflicts | BongardPicture.cpp:31-41 | for every inside entry (i, j) of a placed picture, shape j conflicts with i but i does not conflict with j |
| PictureBuilder.Picture.constructor | BongardPicture.cpp:29 | a new picture is empty, with the unset id |
| PictureBuilder.Picture.IsValid | BongardPicture.cpp:31-41 | true iff the candidate does not overflow and no existing shape reports a conflict with it |
| PictureBuilder.Picture.CreateElement | BongardPicture.cpp:43-55 | the element built from the next candidate of the stream |
| PictureBuilder.Picture.FillSlot | BongardPicture.cpp:59-71 | one slot: either one element with the unset id is appended and the placement specification continues, or after MAX_TRY + 1 failures placement has failed |
| PictureBuilder.Picture.PlaceElements | BongardPicture.cpp:58-72 | the shapes and the candidate position are those of the placement specification; success is its success; the relation lists and ids are unchanged |
| PictureBuilder.Picture.CreatePicture | BongardPicture.cpp:57-76 | on success of placement, the relation lists gain populate's entries and the result is the inside quota test; otherwise false with the lists unchanged; from an empty picture, true means an accepted picture of exactly size shapes |
| PictureBuilder.Picture.RelatePair | BongardPicture.cpp:82-99 | one inner iteration appends pair (i, j)'s contribution to the lists |
| PictureBuilder.Picture.RelateRow | BongardPicture.cpp:80-100 | one outer iteration appends row i in order |
| PictureBuilder.Picture.Populate | BongardPicture.cpp:78-102 | the lists gain exactly the entries of all pairs in loop order; the shapes and ids are unchanged |
| PictureBuilder.Picture.AssignIDs | BongardPicture.cpp:225-230 | the picture gets id pid and pid grows by one; the elements get eid, eid + 1, ... in order and eid grows by the element count; nothing else changes |
| DatasetGenerator.ToUnsigned | BongardGenerator.cpp:56-58 | the int size as unsigned: below 2^32, and unchanged when it already was |
| DatasetGenerator.Distributions | BongardGenerator.cpp:44-48 | definition as written: the ranges of size_dis, area_rand, coord_rand and type_rand |
| DatasetGenerator.PictureSizeInRange | BongardGenerator.cpp:44-45 | with a non-negative lower bound, the drawn size reaches createPicture in [min_num_elems, max_num_elems] |
| DatasetGenerator.NegativeSizeWraps | BongardGenerator.cpp:56-58 | a drawn size of -1 becomes 2^32 - 1 |
| DatasetGenerator.Generator.constructor | BongardGenerator.cpp:31-41 | the counters and fold id come from the arguments, and the batch is empty |
| DatasetGenerator.Generator.Output | BongardGenerator.cpp:81-82 | the fold id grows by one; nothing else changes |
| DatasetGenerator.Generator.BuildAccepted | BongardGenerator.cpp:55-64 | the picture kept is the first attempt, from the candidate position at the call, that is not rejected, with the attempts before it all rejected; when retryCap replacements are used up, retryCap + 1 attempts were rejected and the position is after all of them |
| DatasetGenerator.Generator.AcceptPicture | BongardGenerator.cpp:55-67 | the picture is the first accepted attempt of the drawn size from the candidate position at the call, ending at the current position, which never moves back; numbered pid with element ids from eid on; shapes in the drawn ranges when the streams keep to the distributions; on failure, retryCap + 1 rejected attempts |
| DatasetGenerator.Generator.Step | BongardGenerator.cpp:55-72 | one loop iteration: one more size is drawn; the first accepted picture from the current candidate position extends the run and records where it ended; pid grows by one; the batch is appended to, or flushed and cleared when it reaches CUTOFF; on failure only the streams have moved |
| DatasetGenerator.Generator.Generate | BongardGenerator.cpp:43-79 | the run appends one picture per iteration until pid reaches num, each the first accepted attempt from where the previous one ended, with contiguous ids; the batch is the tail after the full batches; the fold id grows once per full batch and once more for a non-empty final batch; a stopped run ends with retryCap + 1 rejected attempts |
| DatasetGenerator.After | BongardGenerator.cpp:58-64 | definition as written: the candidate position after n whole-picture attempts |
| DatasetGenerator.Rejected | BongardGenerator.cpp:58 | definition as written: createPicture returns false for the attempt |
| DatasetGenerator.FirstAccepted | BongardGenerator.cpp:58-64 | definition as written: the picture is the first attempt that createPicture accepts |
| DatasetGenerator.FirstAcceptedUnique | BongardGenerator.cpp:58-64 | the first accepted attempt from a position is unique: its number of rejections, its shapes and its end position are determined |
| DatasetGenerator.AfterGrows | BongardGenerator.cpp:58-64 | the candidate position never moves back over attempts |
| DatasetGenerator.FirstAcceptedOrdered | BongardGenerator.cpp:58-64 | an accepted picture ends no earlier than the position it was sought from |
| DatasetGenerator.AcceptedSnoc | BongardGenerator.cpp:66-67 | appending the next accepted picture extends the run by one |
| DatasetGenerator.FirstIdsGrow | BongardGenerator.cpp:66 | element ids never decrease along a run |
| DatasetGenerator.AcceptedIdsContiguous | BongardGenerator.cpp:66 | picture k has id pid + k, and its elements carry ids after all elements of the pictures before it |
| DatasetGenerator.MarksGrow | BongardGenerator.cpp:54-64 | along a run, each picture begins where the previous one ended, and the candidate position only moves forward |
| DatasetGenerator.SameShapesSamePicture | BongardGenerator.cpp:66 | two accepted pictures with the same shapes, quota, picture id and first element id are equal |
| DatasetGenerator.RunsAgreeUpTo | BongardGenerator.cpp:54-67 | two runs from the same start agree on every picture, element id and candidate position up to k |
| DatasetGenerator.RunsDeterministic | BongardGenerator.cpp:43-79 | the streams determine the run: two runs from the same start with as many pictures append the same pictures with the same ids and consume the same candidates |
| DatasetGenerator.BatchedKeep | BongardGenerator.cpp:67-72 | appending to the batch, and clearing it when it fills, keeps every picture of the run accounted for |
| DatasetGenerator.DivisionOfTotal | BongardGenerator.cpp:69-78 | the number of full batches is the quotient of the pictures appended by CUTOFF |

## Left out

- Main.cpp is not part of this model. It holds argument parsing, number validation and directory checks, all before the core runs.
- The contents of output and of the picture's string form are left out, because they are file I/O and formatting. Only output's fold-id increment is kept.
- The model assumes every picture draws from the generator's engine and distributions and reads its quota, as intended. As written, BongardPicture's constructor binds its reference member `p_` (BongardPicture.hpp:378) to the by-value parameter `p` (BongardPicture.cpp:29), so `p_` dangles once the constructor returns, and the draws in createElement (BongardPicture.cpp:44-47) and the read of `min_insides_` (BongardPicture.cpp:75) are undefined behaviour. The model does not capture that.
- The Mersenne-twister engine and the uniform distributions are replaced by the two streams of `Random.Source`. Their ranges are a hypothesis (`Distributions`) that the properties depend on.
- Floating-point square roots are replaced by exact integer characterisations. The model does not prove that `(int)ceil((float)(w*sqrt(3)/2.0))` and the double arithmetic of the circle agree with them for every size. The inset of the circle's inner box, `x + radius_ - sqrt(2)/2.0*radius_` cast to `int`, rounds toward zero in C++ but down in the model (`x + CircleInset(r)`); the two differ only for negative x or y, which the drawn coordinates in [MARGIN, BOUND - MARGIN] never are.
- Shape sizes below 1 are left out (`Length`), because a zero-width triangle divides by zero in the triangle's constructor.
- DatasetGenerator.Generator.Generate: the picture-level retry is unbounded in the source. Here `BuildAccepted` gives each picture at most `retryCap` fresh pictures, and `finished` is false when one runs out. Termination of the unbounded loop is not modelled.
- Wrap-around of the 64-bit ids and of `int` coordinates is left out: counters are unbounded naturals. Only the int-to-unsigned size conversion and the int-to-size_t quota conversion are modelled.
- Progress printing is left out, because it is console output.
- Rectangle::set is a function returning a rectangle value, because rectangles are held by value inside each element and never aliased.
- An out-of-range figure code, and so createElement's null return, is excluded by `FiguresInRange`. `Shapes.FromCandidate` still returns `None` for it.
- The batch holds picture values (`Snapshot`), because each picture is owned by a `unique_ptr` and never changed after it is appended.
- Populate's inner-loop body and inner loop, and createPicture's placement loops, are separate methods (`RelatePair`, `RelateRow`, `FillSlot`, `PlaceElements`). They keep the same statements in the same order.
