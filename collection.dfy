/**
 * `mouse_callback` in scripts/calibrate.py: every left-button event
 * appends the clicked pixel to `coords`; when `coords` has as many entries
 * as there are world points, `calibrate` runs on them and `coords` is
 * reset to empty. Other events change nothing. If `calibrate` raises (a
 * click off the depth image), the reset is skipped: `coords` keeps its
 * entries and, as it only grows from then on, no later click solves.
 *
 * `Step` and `Run` are the pure transition function and its fold over an
 * event stream; `Session` is the stateful form, with the module-level
 * globals of the script as its fields.
 */
module Collection {
  import opened Wrappers
  import opened Geometry
  import opened Preparation
  import opened Calibration

  /**
   * The event code compared against: `cv2.EVENT_FLAG_LBUTTON`, which has the
   * same value as a left-button press event.
   */
  const LeftButton: int := 1

  /** One mouse-callback invocation: the event code and the pixel under the cursor. */
  datatype Event = Event(kind: int, px: Pixel)

  /**
   * The clicks after one event, the batch handed to the solver if one was,
   * and whether `calibrate` raised on a complete batch.
   */
  datatype StepResult = StepResult(coords: seq<Pixel>, batch: Option<seq<Pixel>>, failed: bool)

  /** The pixels an event contributes: one for a left click, none otherwise. */
  function Clicked(ev: Event): seq<Pixel>
  {
    if ev.kind == LeftButton then [ev.px] else []
  }

  /** Everything a step leaves somewhere: the batch it solved, then what it keeps. */
  function Accounted(s: StepResult): seq<Pixel>
  {
    (if s.batch.Some? then s.batch.value else []) + s.coords
  }

  /** The batches a step solved: none or one. */
  function Solved(s: StepResult): seq<seq<Pixel>>
  {
    if s.batch.Some? then [s.batch.value] else []
  }

  /** One call of the callback with `n` world points and the depth image `img` loaded. */
  function Step(n: nat, img: Image, coords: seq<Pixel>, ev: Event): (s: StepResult)
    ensures s.batch.Some? <==> ev.kind == LeftButton && |coords| + 1 == n && AllInBounds(img, coords + [ev.px])
    ensures s.failed <==> ev.kind == LeftButton && |coords| + 1 == n && !AllInBounds(img, coords + [ev.px])
    ensures s.batch.Some? ==> |s.batch.value| == n && s.coords == [] && !s.failed
    ensures s.batch.None? ==> s.coords == coords + Clicked(ev)
    ensures Accounted(s) == coords + Clicked(ev)
    ensures |coords| < n && !s.failed ==> |s.coords| < n
  {
    if ev.kind != LeftButton then
      StepResult(coords, None, false)
    else
      var grown := coords + [ev.px];
      if |grown| != n then StepResult(grown, None, false)
      else if AllInBounds(img, grown) then StepResult([], Some(grown), false)
      else StepResult(grown, None, true)
  }

  /** The clicks left over and the batches solved, in order, over an event stream. */
  datatype Trace = Trace(coords: seq<Pixel>, batches: seq<seq<Pixel>>)

  function Run(n: nat, img: Image, coords: seq<Pixel>, evs: seq<Event>): Trace
    decreases |evs|
  {
    if evs == [] then Trace(coords, [])
    else
      var s := Step(n, img, coords, evs[0]);
      var rest := Run(n, img, s.coords, evs[1..]);
      Trace(rest.coords, Solved(s) + rest.batches)
  }

  /** All left-click pixels of an event stream, in order. */
  function Clicks(evs: seq<Event>): seq<Pixel>
  {
    if evs == [] then [] else Clicked(evs[0]) + Clicks(evs[1..])
  }

  function Concat(bs: seq<seq<Pixel>>): seq<Pixel>
  {
    if bs == [] then [] else bs[0] + Concat(bs[1..])
  }

  lemma {:induction false} ConcatAppend(bs: seq<seq<Pixel>>, cs: seq<seq<Pixel>>)
    ensures Concat(bs + cs) == Concat(bs) + Concat(cs)
  {
    if bs == [] {
      assert bs + cs == cs;
    } else {
      assert (bs + cs)[1..] == bs[1..] + cs;
      ConcatAppend(bs[1..], cs);
    }
  }

  lemma ConcatSolved(s: StepResult)
    ensures Concat(Solved(s)) + s.coords == Accounted(s)
  {
    if s.batch.Some? {
      assert Concat(Solved(s)) == s.batch.value + Concat([]);
    }
  }

  /**
   * No click is lost, duplicated or reordered: the solved batches followed
   * by the leftover clicks are the starting clicks followed by every new one.
   */
  lemma {:induction false} RunConserves(n: nat, img: Image, coords: seq<Pixel>, evs: seq<Event>)
    ensures Concat(Run(n, img, coords, evs).batches) + Run(n, img, coords, evs).coords == coords + Clicks(evs)
    decreases |evs|
  {
    if evs != [] {
      var s := Step(n, img, coords, evs[0]);
      var rest := Run(n, img, s.coords, evs[1..]);
      var head, tail := Concat(Solved(s)), Clicks(evs[1..]);
      RunConserves(n, img, s.coords, evs[1..]);
      assert Concat(rest.batches) + rest.coords == s.coords + tail;
      ConcatSolved(s);
      assert head + s.coords == coords + Clicked(evs[0]);
      ConcatAppend(Solved(s), rest.batches);
      assert Concat(Run(n, img, coords, evs).batches) == head + Concat(rest.batches);
      assert Run(n, img, coords, evs).coords == rest.coords;
      assert Clicks(evs) == Clicked(evs[0]) + tail;
      SeqAssoc(head, Concat(rest.batches), rest.coords, s.coords, tail, coords + Clicked(evs[0]));
    }
  }

  /** The bookkeeping step of `RunConserves`, over plain sequences. */
  lemma SeqAssoc<T>(h: seq<T>, b: seq<T>, c: seq<T>, sc: seq<T>, t: seq<T>, hc: seq<T>)
    requires b + c == sc + t && h + sc == hc
    ensures (h + b) + c == hc + t
  {
    calc {
      (h + b) + c;
      h + (b + c);
      h + (sc + t);
      (h + sc) + t;
    }
  }

  /** Every batch handed to the solver holds exactly `n` clicks. */
  lemma {:induction false} RunBatchesFull(n: nat, img: Image, coords: seq<Pixel>, evs: seq<Event>)
    ensures forall j :: 0 <= j < |Run(n, img, coords, evs).batches| ==> |Run(n, img, coords, evs).batches[j]| == n
    decreases |evs|
  {
    if evs != [] {
      var s := Step(n, img, coords, evs[0]);
      RunBatchesFull(n, img, s.coords, evs[1..]);
    }
  }

  /** A concatenation is on the image iff both parts are. */
  lemma InBoundsAppend(img: Image, a: seq<Pixel>, b: seq<Pixel>)
    ensures AllInBounds(img, a + b) <==> AllInBounds(img, a) && AllInBounds(img, b)
  {
    if AllInBounds(img, a) && AllInBounds(img, b) {
      forall i | 0 <= i < |a + b|
        ensures InBounds(img, (a + b)[i])
      {
        if i >= |a| {
          assert (a + b)[i] == b[i - |a|];
        }
      }
    }
    if AllInBounds(img, a + b) {
      forall i | 0 <= i < |a|
        ensures InBounds(img, a[i])
      {
        assert a[i] == (a + b)[i];
      }
      forall i | 0 <= i < |b|
        ensures InBounds(img, b[i])
      {
        assert b[i] == (a + b)[|a| + i];
      }
    }
  }

  /**
   * While every click lands on the depth image, no solve fails and fewer
   * than `n` clicks are ever pending between events.
   */
  lemma {:induction false} RunBounded(n: nat, img: Image, coords: seq<Pixel>, evs: seq<Event>)
    requires |coords| < n
    requires AllInBounds(img, coords) && AllInBounds(img, Clicks(evs))
    ensures |Run(n, img, coords, evs).coords| < n
    decreases |evs|
  {
    if evs != [] {
      var s := Step(n, img, coords, evs[0]);
      InBoundsAppend(img, Clicked(evs[0]), Clicks(evs[1..]));
      InBoundsAppend(img, coords, Clicked(evs[0]));
      assert !s.failed;
      assert AllInBounds(img, s.coords);
      RunBounded(n, img, s.coords, evs[1..]);
    }
  }

  /**
   * Once `n` or more clicks are pending (after a failed solve, or with no
   * world points at all), the length test never succeeds again: no later
   * event solves and every click piles up.
   */
  lemma {:induction false} RunStalls(n: nat, img: Image, coords: seq<Pixel>, evs: seq<Event>)
    requires |coords| >= n
    ensures Run(n, img, coords, evs).batches == []
    ensures Run(n, img, coords, evs).coords == coords + Clicks(evs)
    decreases |evs|
  {
    if evs != [] {
      var s := Step(n, img, coords, evs[0]);
      assert s.batch.None? && s.coords == coords + Clicked(evs[0]);
      RunStalls(n, img, s.coords, evs[1..]);
      assert Clicks(evs) == Clicked(evs[0]) + Clicks(evs[1..]);
      assert (coords + Clicked(evs[0])) + Clicks(evs[1..]) == coords + (Clicked(evs[0]) + Clicks(evs[1..]));
    }
  }

  /** A failed solve leaves exactly `n` clicks pending, so the session never solves again. */
  lemma FailedSolveStalls(n: nat, img: Image, coords: seq<Pixel>, ev: Event, evs: seq<Event>)
    requires Step(n, img, coords, ev).failed
    ensures |Step(n, img, coords, ev).coords| == n
    ensures Run(n, img, Step(n, img, coords, ev).coords, evs).batches == []
  {
    RunStalls(n, img, Step(n, img, coords, ev).coords, evs);
  }

  /** With no world points loaded the length test never succeeds: no solve, clicks pile up. */
  lemma EmptyWorldNeverSolves(img: Image, coords: seq<Pixel>, evs: seq<Event>)
    ensures Run(0, img, coords, evs).batches == []
    ensures Run(0, img, coords, evs).coords == coords + Clicks(evs)
  {
    RunStalls(0, img, coords, evs);
  }

  /** In a concatenation of `n`-blocks, entry `m` of block `j` sits at `j * n + m`. */
  lemma {:induction false} ConcatBlocks(bs: seq<seq<Pixel>>, n: nat, j: nat, m: nat)
    requires forall i :: 0 <= i < |bs| ==> |bs[i]| == n
    requires j < |bs| && m < n
    ensures |Concat(bs)| == |bs| * n
    ensures j * n + m < |Concat(bs)| && Concat(bs)[j * n + m] == bs[j][m]
  {
    ConcatLength(bs, n);
    if j > 0 {
      ConcatBlocks(bs[1..], n, j - 1, m);
      assert j * n + m == n + ((j - 1) * n + m);
    }
  }

  lemma {:induction false} ConcatLength(bs: seq<seq<Pixel>>, n: nat)
    requires forall i :: 0 <= i < |bs| ==> |bs[i]| == n
    ensures |Concat(bs)| == |bs| * n
  {
    if bs != [] {
      ConcatLength(bs[1..], n);
      assert |bs| * n == n + (|bs| - 1) * n;
    }
  }

  /**
   * Position is the only key: starting from no clicks, solve number `j`
   * receives clicks `j*n .. j*n + n - 1` of the stream, so click `m` of a
   * batch is paired with world point `m`.
   */
  lemma BatchesAreConsecutiveClicks(n: nat, img: Image, evs: seq<Event>, j: nat, m: nat)
    requires j < |Run(n, img, [], evs).batches| && m < n
    ensures |Run(n, img, [], evs).batches[j]| == n && j * n + m < |Clicks(evs)|
    ensures Run(n, img, [], evs).batches[j][m] == Clicks(evs)[j * n + m]
  {
    var t := Run(n, img, [], evs);
    RunConserves(n, img, [], evs);
    RunBatchesFull(n, img, [], evs);
    ConcatBlocks(t.batches, n, j, m);
    assert Concat(t.batches) + t.coords == Clicks(evs);
  }

  /**
   * Starting from no clicks with `n >= 1` world points, and every click on
   * the depth image, every `n` left clicks make one solve and fewer than `n`
   * stay pending: the number of solves and the pending count are the
   * quotient and remainder of the number of clicks by `n`.
   */
  lemma RunCounts(n: nat, img: Image, evs: seq<Event>)
    requires n >= 1
    requires AllInBounds(img, Clicks(evs))
    ensures |Clicks(evs)| == |Run(n, img, [], evs).batches| * n + |Run(n, img, [], evs).coords|
    ensures |Run(n, img, [], evs).coords| < n
  {
    var t := Run(n, img, [], evs);
    RunConserves(n, img, [], evs);
    RunBatchesFull(n, img, [], evs);
    RunBounded(n, img, [], evs);
    ConcatLength(t.batches, n);
    assert Concat(t.batches) + t.coords == [] + Clicks(evs);
  }

  /** What one callback invocation produced. */
  datatype Outcome =
    | Pending                      // no solve on this event
    | Calibrated(system: System)   // `calibrate` ran on the batch and built this system
    | Raised(error: SolveError)    // `calibrate` raised; the reset of `coords` was skipped

  /**
   * The calibration session: the script's globals `Kd` (here as the inverse
   * of its camera matrix), `I_depth`, `p_world` and `coords`.
   */
  class Session {
    const kinv: Mat3
    const depth: Image
    const world: seq<Vec3>
    var coords: seq<Pixel>

    /** `coords = []` before the window is shown. */
    constructor (kinv: Mat3, depth: Image, world: seq<Vec3>)
      ensures this.kinv == kinv && this.depth == depth && this.world == world
      ensures coords == []
    {
      this.kinv := kinv;
      this.depth := depth;
      this.world := world;
      coords := [];
    }

    /**
     * `mouse_callback(event, x, y, flags, param)`: `flags` and `param` are
     * unused. The pending clicks move as `Step` says; the outcome reports
     * the system solved on this call or the exception `calibrate` raised.
     */
    method OnMouse(event: int, x: int, y: int) returns (outcome: Outcome)
      modifies this
      ensures var s := Step(|world|, depth, old(coords), Event(event, Pixel(x, y)));
        && coords == s.coords
        && (outcome.Calibrated? <==> s.batch.Some?)
        && (outcome.Raised? <==> s.failed)
        && (outcome.Raised? ==> outcome.error == DepthIndexError)
        && (outcome.Calibrated? ==>
              && fresh(outcome.system.a)
              && IsDesign(outcome.system.a, CameraPoints(kinv, depth, s.batch.value))
              && outcome.system.b == Flatten(world))
    {
      outcome := Pending;
      if event == LeftButton {
        coords := coords + [Pixel(x, y)];
        if |coords| == |world| {
          var r := Calibrate(kinv, depth, coords, world);
          match r {
            case Ok(system) =>
              outcome := Calibrated(system);
              coords := [];
            case Err(e) =>
              outcome := Raised(e);
              assert e != ReshapeError;
              assert !AllInBounds(depth, coords);
          }
        }
      }
    }
  }
}
