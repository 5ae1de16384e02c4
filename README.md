# Depth-camera extrinsic calibration, modelled in Dafny

`scripts/calibrate.py` finds the pose of a depth camera relative to a world frame
from manual correspondences. The operator clicks, in order, the pixels of known
world points on the camera image. Every click is back-projected through the
inverse intrinsic matrix and scaled by the raw depth sample (in millimetres)
under it. It is then re-expressed in an x-out, y-left, z-up camera frame. The
3N x 12 linear system `A . x = b` is built, with `b` the stacked world points,
and solved by least squares. Its twelve unknowns are read back as a 3x3 matrix
and a translation.

The project models:

- `geometry.dfy` (module `Geometry`): exact 3-vectors and 3x3 matrices over the
  reals.
- `preparation.dfy` (module `Preparation`): the first half of `calibrate`. This
  covers the homogeneous lift of each click, the depth lookup (row `y`, column
  `x`), back-projection with the depth / 1000 scale, and the fixed axis remap.
  The lemmas prove:
  - back-projection and projection through `K` undo each other, in both
    directions;
  - a zero depth sample yields the camera origin;
  - the remap matrix is a proper rotation.
- `calibration.dfy` (module `Calibration`): the coefficient matrix `A` and the
  right-hand side `b`. `A` is filled in place into a zeroed `array2`, as the
  source's loop does. The main lemma proves that `A . x` is the stack of
  `M . p_i + t` for the pose read off `x` with the source's layout. It follows
  that `x` solves the system exactly iff that pose maps every camera point onto
  its world point.
- `collection.dfy` (module `Collection`): `mouse_callback` in two forms.
  - `Step` and `Run` are the pure transition function and its fold over an
    event stream.
  - `Session` is a class whose fields are the script's globals. Its `OnMouse`
    method updates the pending clicks in place.
  - The lemmas prove that no click is lost or duplicated. Every solve
    receives exactly N clicks, namely clicks `jN .. jN+N-1` of the stream.
    While every click lands on the depth image, at most N-1 clicks are
    pending.
  - A click off the depth image is still appended. When it completes a batch,
    `calibrate` raises IndexError, the reset of `coords` is skipped, and N
    clicks stay pending. From then on the length test never succeeds, so the
    session never solves again (`RunStalls`, `FailedSolveStalls`).
  - With no world points, no solve ever happens either. The script itself
    never gets that far: an empty ground-truth file already fails when the id
    column is dropped (line 132, `Err(NoRows)` here), before the window opens.
- `groundtruth.dfy` (module `GroundTruth`): `load_ground_truth`. It models
  Python's `replace` and `split` exactly: removal keeps the remaining
  characters in their order, and the join/split round trips hold.
  It also models the per-line loop as a method. The conversion of the table to
  a 2-D array fails on an empty file and on ragged rows, and those failures are
  modelled as errors.

The script does not reject zero depth, fewer than four points, or off-image
clicks, and neither does the model:

- A zero-depth sample becomes the camera origin (`ZeroDepthIsOrigin`).
- With fewer than four points the system is simply built smaller.
- An off-image click fails only when its batch is solved, as described above.
  The depth lookup follows numpy's index rule: an index `i` into an axis of
  length `len` is accepted iff `-len <= i < len`, and negative ones count from
  the end.
- `mouse_callback` compares the event code with `cv2.EVENT_FLAG_LBUTTON`.
  Numerically this is 1, the code of a left-button press, so `LeftButton` is 1.

## Model

| member | source | states |
|---|---|---|
| Preparation.Lift | scripts/calibrate.py:36 | the homogeneous lift `(u, v, 1)` of a click has third coordinate 1 |
| Preparation.LiftInjective | scripts/calibrate.py:36 | two clicks lift to the same homogeneous point iff they are the same click |
| Preparation.Wrap | scripts/calibrate.py:45 | an index numpy accepts reads a position inside the axis: the index itself if non-negative, otherwise counted from the end |
| Preparation.DepthAt | scripts/calibrate.py:45 | the sample under a click is `I_depth[y, x]`: row `y`, column `x`, with a negative row counted from the bottom |
| Preparation.DepthSamples | scripts/calibrate.py:45 | one depth sample per click, in click order: row `y`, column `x` of the depth image, with a negative row counted from the bottom |
| Preparation.BackProject | scripts/calibrate.py:42-48 | a click over a zero depth sample back-projects to the camera origin |
| Preparation.BackProjectRoundTrip | scripts/calibrate.py:36-48 | when `K . Kinv = I`, pushing the back-projected point through `K` gives the homogeneous click scaled by depth/1000 |
| Preparation.ReprojectionRecoversClick | scripts/calibrate.py:36-48 | when `K . Kinv = I` and the depth is non-zero, dividing the projection of the back-projected point by its third coordinate gives back the click's `u` and `v` |
| Preparation.ProjectThenBackProject | scripts/calibrate.py:36-48 | when `Kinv . K = I`, a point that `K` projects to a click at a given depth is exactly the back-projection of that click and depth |
| Preparation.BackProjectDepth | scripts/calibrate.py:42-48 | for a pinhole `Kinv` (last row `0 0 1`), the optical depth and the remapped forward coordinate both equal the sample in metres |
| Preparation.Remap | scripts/calibrate.py:51-55 | the remap sends `(x, y, z)` to `(z, -x, -y)` and preserves length |
| Preparation.AxisRemapIsOrthogonal | scripts/calibrate.py:51-54 | the remap matrix's transpose undoes it on either side |
| Preparation.AxisRemapDet | scripts/calibrate.py:51-54 | the remap matrix has determinant 1, so it is a rotation and not a reflection |
| Preparation.CameraPoints | scripts/calibrate.py:33-55 | one camera-frame point per click, in order: the remap of the back-projection of the click at its own depth sample |
| Preparation.ZeroDepthIsOrigin | scripts/calibrate.py:45-55 | a click over a zero depth sample contributes the origin as its camera point |
| Calibration.Unpack | scripts/calibrate.py:81-82 | unknown `3k+j` is entry `(k, j)` of the matrix and unknown `9+k` is component `k` of the translation |
| Calibration.UnpackPack | scripts/calibrate.py:81-82 | packing a pose into twelve unknowns and unpacking gives the pose back |
| Calibration.PackUnpack | scripts/calibrate.py:81-82 | every vector of twelve unknowns is the packing of the pose read off it |
| Calibration.DesignRow | scripts/calibrate.py:60-72 | row `k` of a point's block has the twelve columns of `A` (its entries are stated by `DesignRowEntries`) |
| Calibration.DesignRowEntries | scripts/calibrate.py:60-72 | row `k` of a point's block holds the point in columns `3k..3k+2`, a 1 in column `9+k` and zeros elsewhere |
| Calibration.DesignRowProduct | scripts/calibrate.py:60-82 | row `k` of a point's block times the unknowns is coordinate `k` of the point moved by the pose read off the unknowns |
| Calibration.DesignMatrix | scripts/calibrate.py:58-72 | `A` has three rows per point, `3N` in all, each of twelve columns |
| Calibration.DesignMatrixRow | scripts/calibrate.py:58-72 | row `r` of `A` is row `r mod 3` of the block of point `r div 3` |
| Calibration.DesignMatrixEntries | scripts/calibrate.py:58-72 | every entry of `A`, by row and column: point coordinate, 1 or 0 |
| Calibration.Flatten | scripts/calibrate.py:75 | `b` has length 3N and entry `3i+k` is coordinate `k` of world point `i` |
| Calibration.FlattenInjective | scripts/calibrate.py:75 | equal right-hand sides come only from equal world-point lists |
| Calibration.SystemProduct | scripts/calibrate.py:57-82 | `A . x` is the stack of the camera points moved by the pose read off `x` |
| Calibration.ExactSolution | scripts/calibrate.py:57-82 | `A . x = b` holds exactly iff the pose read off `x` maps every camera point onto its world point |
| Calibration.WriteBlock | scripts/calibrate.py:60-72 | the twelve assignments turn a zeroed three-row block into the point's block and leave every other row unchanged |
| Calibration.AssembleDesign | scripts/calibrate.py:57-72 | the freshly allocated, zero-initialised array filled point by point is the coefficient matrix `A` |
| Calibration.Calibrate | scripts/calibrate.py:33-75 | no clicks at all raise ValueError at the homogeneous lift (line 36); otherwise a click off the depth image raises IndexError (line 45); otherwise a world table of another length fails the reshape (line 75); otherwise the result is a fresh `A` of the clicks' camera points and the `b` of the world points |
| Collection.Step | scripts/calibrate.py:153-169 | a batch is solved iff a left click brings the pending count to N and every pending click is on the depth image; it fails iff the count reaches N with a click off the image, and then all N clicks stay pending; a solved batch has N clicks and the pending list empties; no click is lost or invented; short of a failure, fewer than N pending stays fewer than N |
| Collection.RunConserves | scripts/calibrate.py:153-169 | over any event stream, the solved batches followed by the pending clicks are the starting clicks followed by all left clicks |
| Collection.RunBatchesFull | scripts/calibrate.py:159-161 | every solved batch holds exactly N clicks |
| Collection.RunBounded | scripts/calibrate.py:156-169 | while every click is on the depth image, fewer than N pending clicks before a stream means fewer than N after it |
| Collection.RunStalls | scripts/calibrate.py:156-169 | once N or more clicks are pending, no later event solves and every later click is appended |
| Collection.FailedSolveStalls | scripts/calibrate.py:153-169 | a solve that raises leaves exactly N clicks pending, and no later event stream solves |
| Collection.EmptyWorldNeverSolves | scripts/calibrate.py:156-159 | with no world points, no event stream ever triggers a solve |
| Collection.BatchesAreConsecutiveClicks | scripts/calibrate.py:153-169 | from an empty start, click `m` of solve `j` is left click `jN+m` of the stream, so it is paired with world point `m` |
| Collection.RunCounts | scripts/calibrate.py:153-169 | from an empty start with every click on the depth image, the number of left clicks is N times the number of solves plus the pending count, which is below N |
| Collection.Session.constructor | scripts/calibrate.py:205-206 | a session starts with no pending clicks |
| Collection.Session.OnMouse | scripts/calibrate.py:148-169 | the pending clicks move as `Step` says; a system is built exactly when `Step` hands over a batch, and it is a fresh `A` of that batch with the world points' `b`; `calibrate` raises (an IndexError) exactly when `Step` fails, and then the clicks are not reset |
| GroundTruth.RemoveAll | scripts/calibrate.py:123 | removing a character leaves exactly the other characters, and a string without it unchanged |
| GroundTruth.RemoveAllCounts | scripts/calibrate.py:123 | removing a character keeps every other character with its count and drops all of that one |
| GroundTruth.RemoveAllAppend | scripts/calibrate.py:123 | removal distributes over concatenation, so the kept characters stay in their order |
| GroundTruth.Clean | scripts/calibrate.py:123 | a cleaned line has no newline and no space |
| GroundTruth.CleanCounts | scripts/calibrate.py:123 | a cleaned line has the line's other characters with the same counts |
| GroundTruth.CleanAppend | scripts/calibrate.py:123 | cleaning distributes over concatenation: the cleaned line is the line's own characters, in order, without newlines and spaces |
| GroundTruth.CleanChar | scripts/calibrate.py:123 | cleaning drops a single newline or space and keeps any other single character |
| GroundTruth.CleanIdempotent | scripts/calibrate.py:123 | cleaning a cleaned line changes nothing |
| GroundTruth.Split | scripts/calibrate.py:126 | splitting yields at least one field and no field contains the separator |
| GroundTruth.SplitCount | scripts/calibrate.py:126 | splitting yields one field more than there are separators |
| GroundTruth.JoinSplit | scripts/calibrate.py:126 | joining the fields with the separator gives back the string |
| GroundTruth.SplitJoin | scripts/calibrate.py:126 | splitting a join of separator-free fields gives back the fields |
| GroundTruth.ParseLine | scripts/calibrate.py:123-126 | a line's fields are the cleaned line split at commas, at least one of them |
| GroundTruth.ParseLineFields | scripts/calibrate.py:123-126 | a line's fields are at least one, free of commas, spaces and newlines, and joined with commas they are the cleaned line |
| GroundTruth.ParseAll | scripts/calibrate.py:116-126 | the table has one row per line, row `j` being the fields of line `j` |
| GroundTruth.ParseLines | scripts/calibrate.py:116-126 | the per-line append loop builds exactly that table |
| GroundTruth.DropIds | scripts/calibrate.py:129-132 | the table fails for no rows or ragged rows (and the error says which); otherwise every row loses exactly its first field, and a row with no fields stays empty |
| GroundTruth.LoadGroundTruth | scripts/calibrate.py:114-134 | an empty file is a no-rows error, ragged lines a ragged-rows error; otherwise one row per line holding its fields after the id |

## Left out

- The least-squares solve (`np.linalg.lstsq`, line 78) is not modelled. `ExactSolution` characterises its exact solutions, but least-squares optimality over real floats is not stated.
- The SVD projection of the solved matrix onto an orthogonal one (lines 85-86) is not modelled, because it is a numerical factorisation. So nothing is stated about the returned rotation, including the sign of its determinant.
- `np.linalg.inv` of the depth camera matrix (line 42) is not modelled. The inverse is an input of the model (`kinv`), and `BackProjectRoundTrip` and `ProjectThenBackProject` take the inverse relation as a precondition.
- Floating-point rounding is not modelled: all arithmetic is exact over the reals.
- GroundTruth.LoadGroundTruth: the fields stay strings. Their conversion to float64, and the ValueError on an empty or non-numeric field, are not modelled.
- Calibration.Calibrate: world points are `Vec3` values. The reshape's requirement that every ground-truth row has exactly three coordinates is therefore assumed, not checked; only a world table of the wrong length is modelled as a reshape failure.
- Collection.Session.OnMouse: what OpenCV does with the exception is outside the model. The binding prints it and keeps the window running, so the next event reaches the callback with the clicks left as they were.
- Collection.RunCounts: it states the count equation and the bound on the pending clicks, not the quotient and remainder written with division.
- `load_images` (reading the bag file), `load_intrinsics` (YAML) and the undistortion in `__main__` are left out, because they are file I/O and foreign calls. The depth image and the inverse intrinsics are inputs.
- Opening the ground-truth file is left out; its lines, as file iteration yields them, are the input.
- The OpenCV window, the callback registration and the printing of the result are left out, because they are UI and output. The callback's `flags` and `param` arguments are ignored, as in the script.
- The RGB intrinsics `Kr` are used only for undistortion, so they are left out.
