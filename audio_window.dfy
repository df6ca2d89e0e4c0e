/**
 * Audio window selection (the target-window step of `__getitem__`): cut a
 * single-channel waveform to exactly `audioSamples` samples, starting half
 * a window before the first fake period's start for a fake sample and at
 * sample 0 otherwise; a short segment is zero-padded on the right, a long
 * one truncated.
 */
module AudioWindow {
  import opened Wrappers
  import opened Builtins
  import opened Metadata
  import opened FrameSelection

  /** The fixed audio sample rate, in samples per second. */
  const SampleRate: int := 16000

  /** `n_fft` of the mel spectrogram taken of the segment. */
  const FftSize: int := 1024

  /**
   * The mel spectrogram's centred STFT reflect-pads the segment by
   * `n_fft // 2` samples on each side, and torch refuses a reflect padding
   * that is not shorter than the segment.
   */
  predicate SpectrogramAccepts(audioSamples: nat)
  {
    FftSize / 2 < audioSamples
  }

  /** The fallback waveform when the audio file cannot be loaded: `audioSamples` zeros. */
  function Silence(audioSamples: nat): (w: seq<real>)
    ensures |w| == audioSamples
    ensures forall i :: 0 <= i < audioSamples ==> w[i] == 0.0
  {
    seq(audioSamples, _ => 0.0)
  }

  /**
   * Right-pad with zeros or truncate to exactly `audioSamples` samples:
   * the samples that fit are kept in place, the rest of the window is silence.
   */
  function FixLength(w: seq<real>, audioSamples: nat): (r: seq<real>)
    ensures |r| == audioSamples
    ensures forall i :: 0 <= i < audioSamples ==> r[i] == if i < |w| then w[i] else 0.0
  {
    if |w| < audioSamples then w + Silence(audioSamples - |w|)
    else w[..audioSamples]
  }

  /** Fitting a waveform that already has the target length changes nothing; fitting twice is fitting once. */
  lemma FixLengthIdempotent(w: seq<real>, audioSamples: nat)
    ensures |w| == audioSamples ==> FixLength(w, audioSamples) == w
    ensures FixLength(FixLength(w, audioSamples), audioSamples) == FixLength(w, audioSamples)
  {
    var r := FixLength(w, audioSamples);
    assert FixLength(r, audioSamples) == r;
    if |w| == audioSamples {
      assert r == w;
    }
  }

  /**
   * The first sample of the window: `int(start * 16000)` less half a window,
   * clamped at 0, for a fake sample; 0 for a real one. `None` when the first
   * period is empty (Python raises `IndexError` reading its start).
   */
  function AudioStart(s: Sample, audioSamples: nat): (r: Option<nat>)
    ensures r.None? <==> AlignsOnFake(s) && |s.fakePeriods[0]| == 0
    ensures !AlignsOnFake(s) ==> r == Some(0)
  {
    if AlignsOnFake(s) then
      var p := s.fakePeriods[0];
      if |p| == 0 then None
      else
        var startSample := Trunc(p[0] * SampleRate as real);
        Some(Max(0, startSample - audioSamples / 2))
    else Some(0)
  }

  /**
   * The audio segment: the window `w[start : start + audioSamples]` of a
   * fake sample, or the whole waveform of a real one, fitted to
   * `audioSamples` samples. `None` when the period start cannot be read.
   */
  function TargetWindow(w: seq<real>, s: Sample, audioSamples: nat): (r: Option<seq<real>>)
    ensures r.Some? <==> AudioStart(s, audioSamples).Some?
  {
    if AlignsOnFake(s) then
      match AudioStart(s, audioSamples)
      case None => None
      case Some(start) => Some(FixLength(Slice(w, start, start + audioSamples), audioSamples))
    else Some(FixLength(w, audioSamples))
  }

  /**
   * The segment has exactly `audioSamples` samples, and sample `i` of it is
   * sample `start + i` of the waveform when that exists and silence past
   * the end of the waveform.
   */
  lemma {:induction false} TargetWindowSamples(w: seq<real>, s: Sample, audioSamples: nat)
    requires AudioStart(s, audioSamples).Some?
    ensures var start, r := AudioStart(s, audioSamples).value, TargetWindow(w, s, audioSamples).value;
      |r| == audioSamples &&
      forall i :: 0 <= i < audioSamples ==> r[i] == if start + i < |w| then w[start + i] else 0.0
  {
    var start := AudioStart(s, audioSamples).value;
    if AlignsOnFake(s) {
      var seg := Slice(w, start, start + audioSamples);
      assert |seg| == Max(0, Min(start + audioSamples, |w|) - Min(start, |w|));
      forall i | 0 <= i < audioSamples
        ensures FixLength(seg, audioSamples)[i] == if start + i < |w| then w[start + i] else 0.0
      {
        if i < |seg| {
          assert seg[i] == w[start + i];
        }
      }
    }
  }

  /** A real sample's segment is the start of the waveform, padded or truncated. */
  lemma RealSampleAudio(w: seq<real>, s: Sample, audioSamples: nat)
    requires !AlignsOnFake(s)
    ensures TargetWindow(w, s, audioSamples) == Some(FixLength(w, audioSamples))
    ensures |w| >= audioSamples ==> TargetWindow(w, s, audioSamples).value == w[..audioSamples]
  {
  }

  /** A silent waveform gives a silent segment, whatever the sample. */
  lemma SilenceStaysSilent(s: Sample, audioSamples: nat)
    requires AudioStart(s, audioSamples).Some?
    ensures TargetWindow(Silence(audioSamples), s, audioSamples) == Some(Silence(audioSamples))
  {
    var z := Silence(audioSamples);
    TargetWindowSamples(z, s, audioSamples);
    assert TargetWindow(z, s, audioSamples).value == z;
  }
}
