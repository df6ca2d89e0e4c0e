/**
 * Frame-index selection (`_get_indices`): map a clip's frame count and
 * its sample record to exactly `n` frame indices, aligned on the first
 * fake period of a fake sample, with edge padding at the end of the clip
 * and a whole-clip fallback when the computation raises.
 */
module FrameSelection {
  import opened Wrappers
  import opened Builtins
  import opened NumPy
  import opened Metadata

  /** The window is aligned on a fake period: the sample is fake and lists at least one period. */
  predicate AlignsOnFake(s: Sample)
  {
    s.classLabel == 1 && |s.fakePeriods| > 0
  }

  /**
   * A loaded record is aligned on a fake period exactly when its entry
   * counts a fake and lists at least one period: a missing `fake_periods`
   * leaves even a fake entry unaligned.
   */
  lemma AlignsOnFakeOfEntry(e: Entry, audioRoot: string)
    requires e.nFakes.Some?
    ensures AlignsOnFake(MakeSample(e, audioRoot)) <==>
      e.nFakes.value > 0 && e.fakePeriods.Some? && e.fakePeriods.value != []
  {
  }

  /** Frames per second, estimated as frames over duration, with the duration taken as at least one second. */
  function Fps(totalFrames: int, duration: real): (fps: real)
    ensures fps * MaxReal(duration, 1.0) == totalFrames as real
    ensures duration <= 1.0 ==> fps == totalFrames as real
  {
    totalFrames as real / MaxReal(duration, 1.0)
  }

  /**
   * The frame of the first fake period's midpoint, `int(start * fps) +
   * int((end - start) * fps / 2)`; `None` when the period has fewer than
   * two numbers (Python raises `IndexError`).
   */
  function CenterFrame(totalFrames: int, s: Sample): (c: Option<int>)
    requires AlignsOnFake(s)
    ensures c.None? <==> |s.fakePeriods[0]| < 2
  {
    var p := s.fakePeriods[0];
    if |p| < 2 then None
    else
      Some(MidpointFrame(p[0], p[1], Fps(totalFrames, s.duration)))
  }

  /**
   * The frame of the midpoint of `[start, end]` at `fps` frames per second,
   * computed as `int(start * fps) + int((end - start) * fps / 2)`: the two
   * truncations leave it within two frames of the true midpoint.
   */
  function MidpointFrame(start: real, end: real, fps: real): (c: int)
    ensures var mid := (start + end) / 2.0 * fps; mid - 2.0 < c as real < mid + 2.0
  {
    var x, y := start * fps, (end - start) * fps / 2.0;
    TruncError(x);
    TruncError(y);
    MidpointSplit(start, end, fps);
    Trunc(x) + Trunc(y)
  }

  /** `start * f + (end - start) * f / 2` is the midpoint scaled by `f`. */
  lemma MidpointSplit(start: real, end: real, f: real)
    ensures start * f + (end - start) * f / 2.0 == (start + end) / 2.0 * f
  {
  }

  /**
   * The first frame of the window: the centre frame minus half the window,
   * clamped at 0, for a fake sample; 0 otherwise. `None` when the fake
   * period is malformed.
   */
  function WindowStart(totalFrames: int, s: Sample, n: nat): (r: Option<int>)
    ensures r.None? <==> AlignsOnFake(s) && |s.fakePeriods[0]| < 2
    ensures r.Some? ==> r.value >= 0
    ensures !AlignsOnFake(s) ==> r == Some(0)
  {
    if AlignsOnFake(s) then
      match CenterFrame(totalFrames, s)
      case None => None
      case Some(c) => Some(Max(0, c - n / 2))
    else Some(0)
  }

  /**
   * The body of the `try` in `_get_indices`: the window `[start, start + n)`
   * cut at `totalFrames`; a short window is edge-padded, a full one goes
   * through linspace. `None` is the exception path.
   */
  function TryIndices(totalFrames: int, s: Sample, n: nat): (r: Option<seq<int>>)
    ensures r.Some? ==> |r.value| == n
  {
    match WindowStart(totalFrames, s, n)
    case None => None
    case Some(startF) =>
      var endF := Min(totalFrames, startF + n);
      if endF - startF < n then EdgePad(Arange(startF, endF), n - (endF - startF))
      else Some(Linspace(startF, endF - 1, n))
  }

  /** `_get_indices`: the `try` body, or on exception `linspace(0, totalFrames - 1, n)` over the whole clip. */
  function GetIndices(totalFrames: int, s: Sample, n: nat): (r: seq<int>)
    ensures |r| == n
  {
    match TryIndices(totalFrames, s, n)
    case Some(indices) => indices
    case None => Linspace(0, totalFrames - 1, n)
  }

  /**
   * The `try` body succeeds exactly when the window starts inside the clip,
   * and then yields `start, start+1, …` capped at the last frame: a full
   * window gives the consecutive run (the window is never wider than `n`,
   * so linspace never subsamples), a window cut by the end of the clip is
   * padded with copies of the last frame.
   */
  lemma {:induction false} WindowIndices(totalFrames: int, s: Sample, n: nat)
    requires n >= 1
    ensures var st := WindowStart(totalFrames, s, n);
      TryIndices(totalFrames, s, n).Some? <==> st.Some? && st.value < totalFrames
    ensures var st, r := WindowStart(totalFrames, s, n), TryIndices(totalFrames, s, n);
      r.Some? ==> forall i :: 0 <= i < n ==> r.value[i] == Min(st.value + i, totalFrames - 1)
  {
    var st := WindowStart(totalFrames, s, n);
    if st.Some? {
      var startF := st.value;
      var endF := Min(totalFrames, startF + n);
      if endF - startF < n {
        var run := Arange(startF, endF);
        var padded := EdgePad(run, n - (endF - startF));
        assert TryIndices(totalFrames, s, n) == padded;
        if startF < totalFrames {
          assert endF == totalFrames && |run| == totalFrames - startF;
          forall i | 0 <= i < n
            ensures padded.value[i] == Min(startF + i, totalFrames - 1)
          {
            if i < |run| {
              assert padded.value[..|run|][i] == run[i];
            }
          }
        }
      } else {
        assert endF == startF + n;
        LinspaceRun(startF, endF - 1, n);
      }
    }
  }

  /**
   * A real sample, or a fake one without periods, is read from frame 0:
   * `0, 1, …, n-1` when the clip has at least `n` frames, otherwise every
   * frame once and then the last frame repeated.
   */
  lemma RealSampleFromStart(totalFrames: int, s: Sample, n: nat)
    requires !AlignsOnFake(s) && totalFrames >= 1
    ensures forall i :: 0 <= i < n ==> GetIndices(totalFrames, s, n)[i] == Min(i, totalFrames - 1)
  {
    if n >= 1 {
      WindowIndices(totalFrames, s, n);
    }
  }

  /**
   * When the centre frame has half a window before it and the whole window
   * fits in the clip, the indices are the `n` consecutive frames around it,
   * with the centre frame at position `n / 2`.
   */
  lemma FakeWindowCentred(totalFrames: int, s: Sample, n: nat)
    requires n >= 1 && AlignsOnFake(s) && |s.fakePeriods[0]| >= 2
    requires var c := CenterFrame(totalFrames, s).value; c >= n / 2 && c - n / 2 + n <= totalFrames
    ensures var c := CenterFrame(totalFrames, s).value;
      forall i :: 0 <= i < n ==> GetIndices(totalFrames, s, n)[i] == c - n / 2 + i
    ensures GetIndices(totalFrames, s, n)[n / 2] == CenterFrame(totalFrames, s).value
  {
    WindowIndices(totalFrames, s, n);
  }

  /**
   * Every failure of the `try` body (a malformed first period, or a window
   * that starts at or past `totalFrames`, beyond the clip) gives the
   * whole-clip linspace.
   */
  lemma FallbackOnFailure(totalFrames: int, s: Sample, n: nat)
    requires n >= 1
    requires var st := WindowStart(totalFrames, s, n); st.None? || st.value >= totalFrames
    ensures GetIndices(totalFrames, s, n) == Linspace(0, totalFrames - 1, n)
  {
    WindowIndices(totalFrames, s, n);
  }

  /**
   * For a clip with at least one frame, every index is a valid frame and
   * the indices never go backwards, on every path.
   */
  lemma {:induction false} IndicesWithinClip(totalFrames: int, s: Sample, n: nat)
    requires totalFrames >= 1
    ensures var r := GetIndices(totalFrames, s, n);
      forall i :: 0 <= i < n ==> 0 <= r[i] < totalFrames
    ensures var r := GetIndices(totalFrames, s, n);
      forall i, j :: 0 <= i <= j < n ==> r[i] <= r[j]
  {
    if n >= 1 {
      WindowIndices(totalFrames, s, n);
      if TryIndices(totalFrames, s, n).None? {
        LinspaceWithin(0, totalFrames - 1, n);
        LinspaceMonotone(0, totalFrames - 1, n);
      }
    }
  }

  /**
   * An empty clip always takes the fallback, `linspace(0, -1, n)`, which
   * truncates to `0, …, 0, -1`: its last index is -1.
   */
  lemma EmptyClipIndices(s: Sample, n: nat)
    requires n >= 2
    ensures forall i :: 0 <= i < n - 1 ==> GetIndices(0, s, n)[i] == 0
    ensures GetIndices(0, s, n)[n - 1] == -1
  {
    WindowIndices(0, s, n);
    LinspaceDownToMinusOne(n);
  }
}
