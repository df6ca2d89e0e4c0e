/**
 * Metadata entries of the LAV-DF collection, the sample records the
 * dataset builds from them, and the split filter applied at load time.
 */
module Metadata {
  import opened Wrappers
  import opened PathLib

  /** A fake period as read from JSON: a list of numbers, `[start, end]` in seconds when well formed. */
  type Period = seq<real>

  /**
   * One metadata record. `file` is always read; `n_fakes` is read only
   * for entries of the requested split; `fake_periods` and `duration`
   * may be absent.
   */
  datatype Entry = Entry(
    file: string,
    nFakes: Option<int>,
    fakePeriods: Option<seq<Period>>,
    duration: Option<real>)

  /** A sample record: relative media path, audio path, 0/1 label, fake periods, clip duration. */
  datatype Sample = Sample(
    relPath: string,
    wavPath: string,
    classLabel: int,
    fakePeriods: seq<Period>,
    duration: real)

  /** An entry belongs to `split` when its path starts with `split + "/"`. */
  predicate InSplit(file: string, split: string)
  {
    split + "/" <= file
  }

  /** `file.startswith(split + "/")`: the path is longer than the split name, starts with it, and has `/` right after it. */
  lemma InSplitMeans(file: string, split: string)
    ensures InSplit(file, split) <==>
      |split| < |file| && file[..|split|] == split && file[|split|] == '/'
  {
    if |split| < |file| && file[..|split|] == split && file[|split|] == '/' {
      assert file[..|split| + 1] == split + "/";
    }
  }

  /**
   * Every entry of the split carries `n_fakes`. Loading reads `n_fakes`
   * only for entries of the split, and raises `KeyError` when one of them
   * lacks it.
   */
  predicate WellFormed(metadata: seq<Entry>, split: string)
  {
    forall j :: 0 <= j < |metadata| && InSplit(metadata[j].file, split) ==> metadata[j].nFakes.Some?
  }

  /**
   * The audio file of a media path: the same path under `audioRoot`, with
   * suffix `.wav`. It starts with the audio root and ends in `.wav`.
   */
  function WavPath(audioRoot: string, relPath: string): (w: string)
    ensures |w| >= |audioRoot| + 4
    ensures w[..|audioRoot|] == audioRoot && w[|w| - 4..] == ".wav"
  {
    var p := Join(audioRoot, relPath);
    JoinDirCoversRoot(audioRoot, relPath);
    WithSuffixKeepsPrefix(p, ".wav", |audioRoot|);
    WithSuffix(p, ".wav")
  }

  /** The sample record the dataset keeps for an entry of its split. */
  function MakeSample(e: Entry, audioRoot: string): (r: Sample)
    requires e.nFakes.Some?
    ensures r.relPath == e.file && r.wavPath == WavPath(audioRoot, e.file)
    ensures r.classLabel == 0 || r.classLabel == 1
    ensures r.classLabel == 1 <==> e.nFakes.value > 0
    ensures e.fakePeriods.None? ==> r.fakePeriods == []
    ensures e.fakePeriods.Some? ==> r.fakePeriods == e.fakePeriods.value
    ensures e.duration.None? ==> r.duration == 0.0
    ensures e.duration.Some? ==> r.duration == e.duration.value
  {
    Sample(
      e.file,
      WavPath(audioRoot, e.file),
      if e.nFakes.value > 0 then 1 else 0,
      e.fakePeriods.GetOr([]),
      e.duration.GetOr(0.0))
  }

  /**
   * The audio path keeps the directory structure and the stem of the media
   * file and ends in `.wav`, whatever suffix the media file had.
   */
  lemma WavPathShape(audioRoot: string, relPath: string)
    requires relPath != [] && relPath[|relPath| - 1] != '/'
    ensures Dir(WavPath(audioRoot, relPath)) == Dir(Join(audioRoot, relPath))
    ensures Stem(Name(WavPath(audioRoot, relPath))) == Stem(Name(Join(audioRoot, relPath)))
    ensures Suffix(Name(WavPath(audioRoot, relPath))) == ".wav"
  {
    var p := Join(audioRoot, relPath);
    assert p[|p| - 1] == relPath[|relPath| - 1];
    assert Name(p) != [];
    assert IsSimpleSuffix(".wav");
    WithSuffixParts(p, ".wav");
  }

  lemma WellFormedPrefix(metadata: seq<Entry>, split: string, i: nat)
    requires WellFormed(metadata, split) && i <= |metadata|
    ensures WellFormed(metadata[..i], split)
  {
    assert forall j :: 0 <= j < i ==> metadata[..i][j] == metadata[j];
  }

  /**
   * The records kept from `metadata`, in order: one per entry in the
   * split, none for the others.
   */
  function Kept(metadata: seq<Entry>, split: string, audioRoot: string): (r: seq<Sample>)
    requires WellFormed(metadata, split)
    ensures |r| <= |metadata|
    ensures forall k :: 0 <= k < |r| ==> InSplit(r[k].relPath, split)
    decreases |metadata|
  {
    if metadata == [] then []
    else
      var n := |metadata| - 1;
      WellFormedPrefix(metadata, split, n);
      var e := metadata[n];
      Kept(metadata[..n], split, audioRoot) +
      (if InSplit(e.file, split) then [MakeSample(e, audioRoot)] else [])
  }

  /** Extending the metadata by one entry adds that entry's record, if it is in the split. */
  lemma KeptStep(metadata: seq<Entry>, split: string, audioRoot: string, i: nat)
    requires WellFormed(metadata, split) && i < |metadata|
    ensures WellFormed(metadata[..i], split) && WellFormed(metadata[..i + 1], split)
    ensures Kept(metadata[..i + 1], split, audioRoot) ==
      Kept(metadata[..i], split, audioRoot) +
      (if InSplit(metadata[i].file, split) then [MakeSample(metadata[i], audioRoot)] else [])
  {
    WellFormedPrefix(metadata, split, i);
    WellFormedPrefix(metadata, split, i + 1);
    assert metadata[..i + 1][..i] == metadata[..i];
  }

  /** Positions of the entries in the split, in increasing order. */
  ghost function SplitPositions(metadata: seq<Entry>, split: string): seq<nat>
    decreases |metadata|
  {
    if metadata == [] then []
    else
      var n := |metadata| - 1;
      SplitPositions(metadata[..n], split) + (if InSplit(metadata[n].file, split) then [n] else [])
  }

  /** The set of positions of entries in the split. */
  ghost function SplitSet(metadata: seq<Entry>, split: string): set<int>
  {
    set j | 0 <= j < |metadata| && InSplit(metadata[j].file, split)
  }

  /** Extending the metadata by one entry appends its position, if it is in the split. */
  lemma SplitPositionsStep(metadata: seq<Entry>, split: string)
    requires metadata != []
    ensures var n := |metadata| - 1;
      SplitPositions(metadata, split) ==
      SplitPositions(metadata[..n], split) + (if InSplit(metadata[n].file, split) then [n] else [])
  {
  }

  /** Every listed position is that of an entry in the split. */
  lemma {:induction false} SplitPositionsValid(metadata: seq<Entry>, split: string)
    ensures forall k :: 0 <= k < |SplitPositions(metadata, split)| ==>
      SplitPositions(metadata, split)[k] < |metadata| &&
      InSplit(metadata[SplitPositions(metadata, split)[k]].file, split)
    decreases |metadata|
  {
    if metadata != [] {
      var n := |metadata| - 1;
      var init := metadata[..n];
      SplitPositionsValid(init, split);
      SplitPositionsStep(metadata, split);
      var pos, prev := SplitPositions(metadata, split), SplitPositions(init, split);
      forall k | 0 <= k < |pos|
        ensures pos[k] < |metadata| && InSplit(metadata[pos[k]].file, split)
      {
        if k < |prev| {
          assert pos[k] == prev[k];
          assert init[prev[k]] == metadata[prev[k]];
        }
      }
    }
  }

  /** The listed positions are strictly increasing and below the length of the metadata. */
  lemma {:induction false} SplitPositionsIncreasing(metadata: seq<Entry>, split: string)
    ensures forall k :: 0 <= k < |SplitPositions(metadata, split)| ==>
      SplitPositions(metadata, split)[k] < |metadata|
    ensures forall k, l :: 0 <= k < l < |SplitPositions(metadata, split)| ==>
      SplitPositions(metadata, split)[k] < SplitPositions(metadata, split)[l]
    decreases |metadata|
  {
    if metadata != [] {
      var n := |metadata| - 1;
      var init := metadata[..n];
      SplitPositionsIncreasing(init, split);
      SplitPositionsStep(metadata, split);
      var pos, prev := SplitPositions(metadata, split), SplitPositions(init, split);
      forall k | 0 <= k < |pos|
        ensures pos[k] < |metadata|
      {
        if k < |prev| {
          assert pos[k] == prev[k];
        }
      }
      forall k, l | 0 <= k < l < |pos|
        ensures pos[k] < pos[l]
      {
        assert pos[k] == prev[k];
        if l < |prev| {
          assert pos[l] == prev[l];
        }
      }
    }
  }

  /** Every entry of the split has its position listed. */
  lemma {:induction false} SplitPositionsComplete(metadata: seq<Entry>, split: string)
    ensures forall j :: 0 <= j < |metadata| && InSplit(metadata[j].file, split) ==>
      j in SplitPositions(metadata, split)
    decreases |metadata|
  {
    if metadata != [] {
      var n := |metadata| - 1;
      var init := metadata[..n];
      SplitPositionsComplete(init, split);
      SplitPositionsStep(metadata, split);
      var pos, prev := SplitPositions(metadata, split), SplitPositions(init, split);
      forall j | 0 <= j < |metadata| && InSplit(metadata[j].file, split)
        ensures j in pos
      {
        if j < n {
          assert init[j] == metadata[j];
          assert j in prev;
        } else {
          assert pos[|pos| - 1] == n;
        }
      }
    }
  }

  /** There is one kept record per listed position. */
  lemma {:induction false} KeptLength(metadata: seq<Entry>, split: string, audioRoot: string)
    requires WellFormed(metadata, split)
    ensures |Kept(metadata, split, audioRoot)| == |SplitPositions(metadata, split)|
    decreases |metadata|
  {
    if metadata != [] {
      var n := |metadata| - 1;
      WellFormedPrefix(metadata, split, n);
      KeptLength(metadata[..n], split, audioRoot);
      SplitPositionsStep(metadata, split);
    }
  }

  /**
   * Records built from a prefix of the metadata stay in place, and keep
   * their entries, when the prefix is extended.
   */
  lemma PrefixRecordsKept(metadata: seq<Entry>, init: seq<Entry>, split: string, audioRoot: string,
                          prev: seq<nat>, prevR: seq<Sample>, pos: seq<nat>, r: seq<Sample>)
    requires WellFormed(metadata, split) && WellFormed(init, split)
    requires |init| < |metadata| && init == metadata[..|init|]
    requires |prev| == |prevR| && prev <= pos && prevR <= r
    requires forall k :: 0 <= k < |prev| ==>
      prev[k] < |init| && InSplit(init[prev[k]].file, split) &&
      prevR[k] == MakeSample(init[prev[k]], audioRoot)
    ensures forall k :: 0 <= k < |prev| ==>
      pos[k] < |metadata| && InSplit(metadata[pos[k]].file, split) &&
      r[k] == MakeSample(metadata[pos[k]], audioRoot)
  {
    forall k | 0 <= k < |prev|
      ensures pos[k] < |metadata| && InSplit(metadata[pos[k]].file, split)
      ensures r[k] == MakeSample(metadata[pos[k]], audioRoot)
    {
      assert pos[k] == prev[k] && r[k] == prevR[k];
      assert init[prev[k]] == metadata[prev[k]];
    }
  }

  /**
   * Record `k` of the kept records is built from the entry at the `k`-th
   * position of the split.
   */
  lemma {:induction false} KeptAtPositions(metadata: seq<Entry>, split: string, audioRoot: string)
    requires WellFormed(metadata, split)
    ensures |Kept(metadata, split, audioRoot)| == |SplitPositions(metadata, split)|
    ensures forall k :: 0 <= k < |SplitPositions(metadata, split)| ==>
      SplitPositions(metadata, split)[k] < |metadata| &&
      InSplit(metadata[SplitPositions(metadata, split)[k]].file, split) &&
      Kept(metadata, split, audioRoot)[k] == MakeSample(metadata[SplitPositions(metadata, split)[k]], audioRoot)
    decreases |metadata|
  {
    if metadata != [] {
      var n := |metadata| - 1;
      var init := metadata[..n];
      WellFormedPrefix(metadata, split, n);
      KeptAtPositions(init, split, audioRoot);
      SplitPositionsStep(metadata, split);
      var r, prevR := Kept(metadata, split, audioRoot), Kept(init, split, audioRoot);
      var pos, prev := SplitPositions(metadata, split), SplitPositions(init, split);
      if InSplit(metadata[n].file, split) {
        assert r == prevR + [MakeSample(metadata[n], audioRoot)];
        assert pos == prev + [n];
        PrefixRecordsKept(metadata, init, split, audioRoot, prev, prevR, pos, r);
        assert pos[|prev|] == n && r[|prev|] == MakeSample(metadata[n], audioRoot);
      } else {
        assert r == prevR && pos == prev;
        PrefixRecordsKept(metadata, init, split, audioRoot, prev, prevR, pos, r);
      }
    }
  }

  /**
   * The kept records are exactly the records of the split's entries, in
   * their original order: record `k` is built from the entry at the `k`-th
   * position of the split, the positions increase, and every entry of the
   * split has its position listed.
   */
  lemma KeptInOrder(metadata: seq<Entry>, split: string, audioRoot: string)
    requires WellFormed(metadata, split)
    ensures var r, pos := Kept(metadata, split, audioRoot), SplitPositions(metadata, split);
      && |r| == |pos|
      && (forall k :: 0 <= k < |pos| ==>
            pos[k] < |metadata| && InSplit(metadata[pos[k]].file, split) &&
            r[k] == MakeSample(metadata[pos[k]], audioRoot))
      && (forall k, l :: 0 <= k < l < |pos| ==> pos[k] < pos[l])
      && (forall j :: 0 <= j < |metadata| && InSplit(metadata[j].file, split) ==> j in pos)
  {
    SplitPositionsIncreasing(metadata, split);
    SplitPositionsComplete(metadata, split);
    KeptAtPositions(metadata, split, audioRoot);
  }

  /** Extending the metadata by one entry adds its position to the split's set, if it is in the split. */
  lemma SplitSetStep(metadata: seq<Entry>, split: string)
    requires metadata != []
    ensures var n := |metadata| - 1;
      SplitSet(metadata, split) ==
      SplitSet(metadata[..n], split) + (if InSplit(metadata[n].file, split) then {n} else {})
  {
    var n := |metadata| - 1;
    var init := metadata[..n];
    var tail: set<int> := if InSplit(metadata[n].file, split) then {n} else {};
    forall j ensures j in SplitSet(metadata, split) <==> j in SplitSet(init, split) + tail
    {
      if 0 <= j < n {
        assert init[j] == metadata[j];
      }
    }
  }

  /** There are as many kept records as entries in the split. */
  lemma {:induction false} KeptCount(metadata: seq<Entry>, split: string, audioRoot: string)
    requires WellFormed(metadata, split)
    ensures |Kept(metadata, split, audioRoot)| == |SplitSet(metadata, split)|
    decreases |metadata|
  {
    if metadata != [] {
      var n := |metadata| - 1;
      var init := metadata[..n];
      WellFormedPrefix(metadata, split, n);
      KeptCount(init, split, audioRoot);
      SplitSetStep(metadata, split);
      var prev := SplitSet(init, split);
      assert n !in prev;
      if InSplit(metadata[n].file, split) {
        assert |prev + {n}| == |prev| + 1;
      }
    }
  }
}
