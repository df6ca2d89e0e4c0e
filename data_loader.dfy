/**
 * The LAV-DF multi-modal dataset: built once from the metadata by keeping
 * the entries of one split, it reports its size and, for an index, selects
 * the frame indices to decode and the audio window to transform.
 */
module DataLoader {
  import opened Wrappers
  import opened Builtins
  import opened Metadata
  import opened FrameSelection
  import opened AudioWindow

  /**
   * What `__getitem__` returns: the frames to decode and the audio segment
   * with the label, or, when the sample raises, zero tensors with the label.
   */
  datatype Item =
    | Decoded(frameIndices: seq<int>, audio: seq<real>, classLabel: int)
    | Zeroed(classLabel: int)

  /** Python's `data[idx]` position for `-|data| <= idx < |data|`. */
  function Position(idx: int, size: nat): (k: nat)
    requires 0 <= idx + size && idx < size
    ensures k < size
    ensures k == idx || k == idx + size
  {
    if idx < 0 then idx + size else idx
  }

  /**
   * The selected frames are stacked into one array and permuted to
   * (frames, channels, height, width); with no frame selected the array is
   * one-dimensional and the permutation raises.
   */
  predicate FramesStack(numFrames: nat)
  {
    numFrames >= 1
  }

  /**
   * With the default 16 frames and 3 seconds of audio (48000 samples),
   * neither the frame stacking nor the spectrogram raises: a dataset built
   * with the defaults zeroes an item only when its audio window cannot be
   * placed.
   */
  lemma DefaultsDecode()
    ensures FramesStack(16) && SpectrogramAccepts(Trunc(SampleRate as real * 3.0))
  {
    assert SampleRate as real * 3.0 == 48000.0;
    TruncOfInt(48000);
  }

  class LavdfDataset {
    const split: string
    const videoRoot: string
    const audioRoot: string
    const numFrames: nat
    const videoSize: int
    const targetSampleRate: int
    const audioSamples: nat
    /** The metadata the dataset was built from. */
    ghost const metadata: seq<Entry>
    /** The sample records, one per metadata entry of the split. */
    var data: seq<Sample>

    ghost predicate Valid()
      reads this
    {
      WellFormed(metadata, split) && data == Kept(metadata, split, audioRoot)
    }

    /**
     * Load time: walk the metadata and append a sample record for each
     * entry whose path lies under `split/`.
     */
    constructor (videoRoot: string, audioRoot: string, metadata: seq<Entry>, split: string := "train",
                 numFrames: nat := 16, videoSize: int := 112, audioDuration: real := 3.0)
      requires audioDuration >= 0.0
      requires WellFormed(metadata, split)
      ensures Valid()
      ensures this.split == split && this.videoRoot == videoRoot && this.audioRoot == audioRoot
      ensures this.numFrames == numFrames && this.videoSize == videoSize
      ensures this.targetSampleRate == SampleRate
      ensures this.audioSamples == Trunc(SampleRate as real * audioDuration)
      ensures this.metadata == metadata
    {
      this.split := split;
      this.videoRoot := videoRoot;
      this.audioRoot := audioRoot;
      this.numFrames := numFrames;
      this.videoSize := videoSize;
      this.targetSampleRate := SampleRate;
      this.audioSamples := Trunc(SampleRate as real * audioDuration);
      this.metadata := metadata;
      new;
      data := [];
      var i := 0;
      while i < |metadata|
        invariant 0 <= i <= |metadata|
        invariant WellFormed(metadata[..i], split)
        invariant data == Kept(metadata[..i], split, audioRoot)
      {
        KeptStep(metadata, split, audioRoot, i);
        var entry := metadata[i];
        if InSplit(entry.file, split) {
          data := data + [MakeSample(entry, audioRoot)];
        }
        i := i + 1;
      }
      assert metadata[..i] == metadata;
    }

    /** `__len__`: the number of metadata entries in the split. */
    function Length(): (count: nat)
      reads this
      requires Valid()
      ensures count == |SplitSet(metadata, split)|
    {
      KeptCount(metadata, split, audioRoot);
      |data|
    }

    /**
     * The selection part of `__getitem__`, for a clip of `totalFrames`
     * frames and an audio file that loaded as `loaded` (`None` when loading
     * failed, in which case silence is used). The label is always the
     * record's; the item is zeroed exactly when no frame is selected, the
     * segment is too short for the spectrogram, or the audio window cannot
     * be placed; otherwise it has `numFrames` indices, all valid frames for a
     * non-empty clip, and `audioSamples` audio samples.
     */
    method GetItem(idx: int, totalFrames: int, loaded: Option<seq<real>>) returns (item: Item)
      requires 0 <= idx + |data| && idx < |data|
      ensures item.classLabel == data[Position(idx, |data|)].classLabel
      ensures item.Decoded? <==>
        FramesStack(numFrames) && SpectrogramAccepts(audioSamples) &&
        AudioStart(data[Position(idx, |data|)], audioSamples).Some?
      ensures item.Decoded? ==>
        item.frameIndices == GetIndices(totalFrames, data[Position(idx, |data|)], numFrames) &&
        item.audio == TargetWindow(loaded.GetOr(Silence(audioSamples)), data[Position(idx, |data|)], audioSamples).value
      ensures item.Decoded? ==> |item.frameIndices| == numFrames && |item.audio| == audioSamples
      ensures item.Decoded? && totalFrames >= 1 ==>
        forall i :: 0 <= i < numFrames ==> 0 <= item.frameIndices[i] < totalFrames
    {
      var meta := data[Position(idx, |data|)];
      var indices := GetIndices(totalFrames, meta, numFrames);
      var waveform := match loaded
        case Some(w) => w
        case None => Silence(audioSamples);
      var segment := TargetWindow(waveform, meta, audioSamples);
      if !FramesStack(numFrames) {
        item := Zeroed(meta.classLabel);
      } else if segment.Some? && SpectrogramAccepts(audioSamples) {
        if totalFrames >= 1 {
          IndicesWithinClip(totalFrames, meta, numFrames);
        }
        TargetWindowSamples(waveform, meta, audioSamples);
        item := Decoded(indices, segment.value, meta.classLabel);
      } else {
        item := Zeroed(meta.classLabel);
      }
    }
  }
}
