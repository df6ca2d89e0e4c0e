# LAV-DF multi-modal dataset: a Dafny model of its sampling logic

This project models the dataset adapter of a video + audio deepfake
classifier, `LAVDFMultiModalDataset` in
`Deepfake_Detection/src/data_loader.py`. It proves properties of the three
pieces of logic in that class:

- **Load-time filtering.** The constructor walks the metadata records. It keeps
  those whose `file` lies under `split/` and builds a sample record for each:
  relative path, `.wav` path, 0/1 label, fake periods and duration. This is the
  class `DataLoader.LavdfDataset` with a `data: seq<Sample>` field that the
  constructor fills in a loop. It is specified by the function `Metadata.Kept`.
- **Frame-index selection** (`_get_indices`). A fake sample's window is centred
  on the midpoint of its first fake period; any other sample's window starts at
  frame 0. The window is cut at the end of the clip and edge-padded. If the
  computation raises, the whole-clip `linspace` fallback is used. This is
  modelled as pure functions in `FrameSelection`: `TryIndices` returns
  `Option`, where `None` is the exception path. `GetIndices` applies the
  fallback.
- **Audio window selection** (the target-window step of `__getitem__`). A fake
  sample's window starts half a window before its first fake period's *start*,
  at 16000 samples per second. The segment is then zero-padded or truncated to
  exactly `audio_samples`. This is modelled on one channel, as `seq<real>`, in
  `AudioWindow`.

The Python and library behaviour the class depends on is modelled in small
modules of its own:

- `Builtins`: `int()` truncates toward zero, plus `max`, `min` and slicing.
- `NumPy`: `arange`, `pad(mode='edge')` and `linspace(...).astype(int)`.
- `PathLib`: `/` and `with_suffix`.
- `Wrappers`: an `Option` type that stands for "returns a value or raises".

`_get_indices` reads `self.num_frames`; here it is the parameter `n`. Seconds,
durations and fps are `real`. Frame counts and indices are `int`.

Four points about what the code does:

- Line 67 caps the window at `num_frames` frames. So the `linspace` branch at
  line 71 only ever runs on a window of exactly `num_frames` frames, and it
  yields consecutive frames (`FrameSelection.WindowIndices`).
- An empty first fake period makes `fake_periods[0][0]` raise at line 112.
  That exception reaches the outer `except`, so the whole item comes back as
  zero tensors (`DataLoader.Item.Zeroed`). A first period with exactly one
  number is different: the frame selector falls back to the whole clip, but
  the audio window still uses that number as its start.
- The label comes from `n_fakes > 0` alone (line 37). A fake sample with an
  empty `fake_periods` is aligned like a real one
  (`FrameSelection.AlignsOnFakeOfEntry`).
- Loading never looks at the file system. Lines 29-40 keep an entry on the
  split test alone, whatever the comment above them says about checking for
  the `.wav` file; a missing `.wav` only makes line 108 fall back to silence.

## Model

| member | source | states |
|---|---|---|
| `Builtins.Trunc` | Deepfake_Detection/src/data_loader.py:62 | Python `int()` on a number: the result is the integer next to `x` on the side of zero, less than one away |
| `Builtins.Slice` | Deepfake_Detection/src/data_loader.py:116 | `w[lo:hi]` has length `max(0, min(hi,len) - min(lo,len))`, and element `k` is `w[lo+k]` |
| `NumPy.Arange` | Deepfake_Detection/src/data_loader.py:69 | `arange(a, b)` is `a, a+1, …, b-1`, empty when `b <= a` |
| `NumPy.EdgePad` | Deepfake_Detection/src/data_loader.py:69 | edge padding keeps the input as a prefix and appends `w` copies of its last element; it raises exactly when the input is empty and `w > 0` |
| `NumPy.Linspace` | Deepfake_Detection/src/data_loader.py:71 | `linspace(a, b, n).astype(int)` has exactly `n` points |
| `NumPy.LinspaceRun` | Deepfake_Detection/src/data_loader.py:71 | a linspace over `n` consecutive integers is exactly `a, a+1, …, a+n-1` |
| `NumPy.LinspaceWithin` | Deepfake_Detection/src/data_loader.py:74 | for `0 <= a <= b`, every truncated point lies in `[a, b]` |
| `NumPy.LinspaceMonotone` | Deepfake_Detection/src/data_loader.py:74 | for `a <= b`, the truncated points never decrease |
| `NumPy.LinspaceToMinusOneAt` | Deepfake_Detection/src/data_loader.py:74 | point `i` of `linspace(0, -1, n).astype(int)` is 0 before the last point and -1 at it |
| `NumPy.LinspaceDownToMinusOne` | Deepfake_Detection/src/data_loader.py:74 | `linspace(0, -1, n).astype(int)` is `0, …, 0, -1` |
| `PathLib.Join` | Deepfake_Detection/src/data_loader.py:30 | `audio_root / rel_path` is the root, then the relative path, separated by exactly one `/`: the root's own trailing one or a new one |
| `PathLib.WithSuffix` | Deepfake_Detection/src/data_loader.py:30 | `with_suffix` cuts the old suffix of the last component from the end of the path and puts the new suffix in its place |
| `PathLib.LastIndexOf` | Deepfake_Detection/src/data_loader.py:30 | `rfind`: the position holds the character and no later position does, or -1 |
| `PathLib.Name` | Deepfake_Detection/src/data_loader.py:30 | a path is its directory part followed by its name, and the name holds no separator |
| `PathLib.WithSuffixParts` | Deepfake_Detection/src/data_loader.py:30 | `with_suffix` keeps the directory and the stem, and the new name's suffix is exactly the given one |
| `PathLib.WithSuffixIdempotent` | Deepfake_Detection/src/data_loader.py:30 | applying `with_suffix('.wav')` twice gives the same path as applying it once |
| `Metadata.InSplitMeans` | Deepfake_Detection/src/data_loader.py:33 | `file.startswith(f"{split}/")`: the path is longer than the split name, starts with it, and has `/` right after it |
| `Metadata.WavPath` | Deepfake_Detection/src/data_loader.py:30 | the audio path starts with the audio root and ends in `.wav` |
| `Metadata.MakeSample` | Deepfake_Detection/src/data_loader.py:29-40 | the record keeps `file` as `rel_path`; its label is 0 or 1, and 1 iff `n_fakes > 0`; a missing `fake_periods` becomes `[]` and a missing `duration` becomes 0 |
| `Metadata.WavPathShape` | Deepfake_Detection/src/data_loader.py:30 | the audio path has the media path's directory and stem under the audio root, with suffix `.wav` |
| `Metadata.Kept` | Deepfake_Detection/src/data_loader.py:25-40 | there are at most as many records as entries, and every record's `rel_path` starts with `split/` |
| `Metadata.KeptStep` | Deepfake_Detection/src/data_loader.py:26-40 | one more metadata entry appends its record when it is in the split, and nothing otherwise |
| `Metadata.SplitPositionsValid` | Deepfake_Detection/src/data_loader.py:25-32 | every listed position is that of an entry whose path starts with `split/` |
| `Metadata.SplitPositionsIncreasing` | Deepfake_Detection/src/data_loader.py:25-32 | the listed positions strictly increase, in metadata order |
| `Metadata.SplitPositionsComplete` | Deepfake_Detection/src/data_loader.py:25-32 | every entry whose path starts with `split/` has its position listed |
| `Metadata.KeptLength` | Deepfake_Detection/src/data_loader.py:26-40 | one record is kept per entry of the split |
| `Metadata.KeptAtPositions` | Deepfake_Detection/src/data_loader.py:26-40 | record `k` is built from the entry at the `k`-th listed position |
| `Metadata.KeptInOrder` | Deepfake_Detection/src/data_loader.py:26-40 | record `k` is built from the `k`-th entry of the split; positions increase, and every entry of the split is listed, so the records are exactly the split's entries in their original order |
| `Metadata.KeptCount` | Deepfake_Detection/src/data_loader.py:25-40 | the number of records equals the number of metadata entries in the split |
| `DataLoader.LavdfDataset.constructor` | Deepfake_Detection/src/data_loader.py:12-40 | the parameters keep the defaults `split="train"`, `num_frames=16`, `video_size=112`, `audio_duration=3`; after loading, `data` is exactly the records of the split's entries in order; `audio_samples` is `int(16000 * audio_duration)`; the target sample rate is 16000 |
| `DataLoader.DefaultsDecode` | Deepfake_Detection/src/data_loader.py:12 | with the defaults `num_frames=16` and `audio_duration=3`, neither the frame stacking (line 99) nor the spectrogram (line 124) can raise |
| `DataLoader.LavdfDataset.Length` | Deepfake_Detection/src/data_loader.py:54-55 | `__len__` is the number of metadata entries whose path starts with `split/` |
| `DataLoader.Position` | Deepfake_Detection/src/data_loader.py:77 | `data[idx]` with Python's negative indexing picks position `idx` or `idx + len` |
| `DataLoader.LavdfDataset.GetItem` | Deepfake_Detection/src/data_loader.py:76-130 | the label is always the record's; the item is zeroed exactly when no frame is selected (`num_frames == 0`, the permute at line 99 raises), the segment has at most 512 samples (the spectrogram's reflect padding at line 124 raises), or the audio window cannot be placed; otherwise there are `num_frames` frame indices, all valid frames of a non-empty clip, and `audio_samples` audio samples; a failed audio load counts as silence |
| `FrameSelection.AlignsOnFakeOfEntry` | Deepfake_Detection/src/data_loader.py:59 | a record is aligned on a fake period (`label == 1 and fake_periods`) exactly when its entry has `n_fakes > 0` and a non-empty `fake_periods` |
| `FrameSelection.Fps` | Deepfake_Detection/src/data_loader.py:61 | `fps * max(duration, 1) == total_frames`, so no division by zero; fps is the frame count for durations of at most one second |
| `FrameSelection.CenterFrame` | Deepfake_Detection/src/data_loader.py:60-62 | the centre frame cannot be computed exactly when the first period has fewer than two numbers |
| `FrameSelection.MidpointFrame` | Deepfake_Detection/src/data_loader.py:62 | `int(start*fps) + int((end-start)*fps/2)` is within two frames of the period's true midpoint `(start+end)/2 * fps` |
| `FrameSelection.WindowStart` | Deepfake_Detection/src/data_loader.py:59-65 | the window start is always `>= 0`; it is 0 for a sample that is not aligned on a fake period; it fails exactly when the first fake period is malformed |
| `FrameSelection.TryIndices` | Deepfake_Detection/src/data_loader.py:58-72 | on the non-exception path there are exactly `num_frames` indices |
| `FrameSelection.GetIndices` | Deepfake_Detection/src/data_loader.py:57-74 | on every path, fallback included, there are exactly `num_frames` indices |
| `FrameSelection.WindowIndices` | Deepfake_Detection/src/data_loader.py:67-71 | the `try` body succeeds iff the window starts inside the clip (`start_f < total_frames`); index `i` is then `min(start_f + i, total_frames - 1)`. A full window gives the consecutive run; a cut window is followed by copies of the last frame |
| `FrameSelection.RealSampleFromStart` | Deepfake_Detection/src/data_loader.py:59-71 | for a sample not aligned on a fake period, index `i` is `min(i, total_frames - 1)`, which is `0, 1, …, num_frames-1` when the clip is long enough |
| `FrameSelection.FakeWindowCentred` | Deepfake_Detection/src/data_loader.py:59-71 | when the window around the centre frame fits in the clip, the indices are the consecutive frames around it, with the centre frame at position `num_frames // 2` |
| `FrameSelection.FallbackOnFailure` | Deepfake_Detection/src/data_loader.py:73-74 | a malformed period, or a window starting at or past `total_frames`, yields `linspace(0, total_frames-1, num_frames)` |
| `FrameSelection.IndicesWithinClip` | Deepfake_Detection/src/data_loader.py:57-74 | for a clip of at least one frame, every index is in `[0, total_frames)` and the sequence is non-decreasing, on every path |
| `FrameSelection.EmptyClipIndices` | Deepfake_Detection/src/data_loader.py:74 | for an empty clip the indices are `0, …, 0, -1` |
| `AudioWindow.Silence` | Deepfake_Detection/src/data_loader.py:108 | the fallback waveform is `audio_samples` zeros |
| `AudioWindow.FixLength` | Deepfake_Detection/src/data_loader.py:119-122 | the result has exactly `audio_samples` samples; sample `i` is the input's sample `i` where there is one, and zero after the end |
| `AudioWindow.FixLengthIdempotent` | Deepfake_Detection/src/data_loader.py:119-122 | padding or truncating leaves a waveform of the target length unchanged; doing it twice is the same as once |
| `AudioWindow.AudioStart` | Deepfake_Detection/src/data_loader.py:111-114 | the window start is 0 for a sample not aligned on a fake period; it fails exactly when the first fake period is empty |
| `AudioWindow.TargetWindow` | Deepfake_Detection/src/data_loader.py:110-122 | a segment is produced exactly when the window start can be computed |
| `AudioWindow.TargetWindowSamples` | Deepfake_Detection/src/data_loader.py:111-122 | the segment has exactly `audio_samples` samples; sample `i` is waveform sample `start + i` when that exists, and zero past the end |
| `AudioWindow.RealSampleAudio` | Deepfake_Detection/src/data_loader.py:118-122 | for a sample not aligned on a fake period, the segment is the start of the waveform, padded, or truncated to its first `audio_samples` samples |
| `AudioWindow.SilenceStaysSilent` | Deepfake_Detection/src/data_loader.py:106-122 | the silent fallback waveform yields a silent segment |

## Left out

- Reading the metadata JSON (line 21) and the load-time `print` (line 42): I/O. The metadata is a constructor parameter.
- Video capture and the frame loop (lines 85-97): video decoding is I/O. For each selected index the source reads the frame, or uses a zero frame when the read fails. The model stops at the selected indices, and `totalFrames` is a parameter.
- `torchaudio.load` (line 105): audio decoding is I/O. Its result is the `loaded` parameter of `GetItem`, with `None` for a failed load. The sample rate it returns is ignored by the source and is not modelled.
- Mel spectrogram, decibel conversion and the 3-channel repeat (lines 45-46, 124), and the video resize, normalisation and tensor permutations (lines 49-52, 99-100): floating-point library transforms.
- The shapes of the zero tensors returned by the outer `except` (lines 128-130). The model returns `Zeroed(label)`. The failures it models are an empty frame selection, a segment too short for the spectrogram and an empty first fake period in the audio step; I/O failures are outside the model.
- Multi-channel audio: the waveform is one channel. The source applies the same slice, pad and truncation to every channel.
- `NumPy.Linspace`: computed over exact reals and then truncated, not in IEEE doubles. On the whole-clip fallback, rounding error can change an index by one where a point should land exactly on an integer.
- `FrameSelection.MidpointFrame`: `int(start_sec * fps)` and `int((end - start) * fps / 2)` are computed over exact reals, not IEEE doubles. A product whose exact value is an integer can land just below it in doubles (`0.57 * 100` is `56.99999999999999`) and truncate one lower, and a product just below an integer can round up to it; so each truncation in the source can differ by one from the model's.
- `AudioWindow.AudioStart`: `int(start_sec * 16000)` is computed over exact reals, not IEEE doubles, so wherever the exact product is at or just below an integer, the source's start sample can differ by one from the model's.
- `PathLib.Join`: a plain string join. It leaves out `pathlib`'s removal of repeated separators, trailing separators (`Path(root) / "x.mp4/"` is `root/x.mp4`) and `.` components, joining an absolute relative path, and the `ValueError` `with_suffix` raises on an empty name.
- A metadata entry of the split without `n_fakes` makes the constructor raise `KeyError`. This is the constructor's `WellFormed` precondition. Non-numeric JSON values are not modelled. An entry of any split without `file` makes the constructor raise `KeyError` too, since line 29 reads `entry['file']` for every entry; `Entry.file` is a required field, so the model does not capture this error path.
- `DataLoader.LavdfDataset.GetItem`: `np.array(frames)` also raises when some frame reads fail and others succeed with a frame size other than 112x112, which gives zero tensors; frame reads are I/O, so the model does not capture this case.
- `DataLoader.LavdfDataset.GetItem`: `self.data[idx]` at line 77 is outside the `try`, so an index out of range raises `IndexError` to the caller; Python's iteration over a dataset relies on this. The model requires `-len <= idx < len`.
- Negative `num_frames` (linspace raises) and negative `audio_duration` (negative tensor sizes) are excluded by the types and by `audioDuration >= 0`.
- `Deepfake_Detection/src/model.py`, `Deepfake_Detection/main.py` and `main.js` are not part of this model. They hold pretrained networks, device probing and browser UI.
- Determinism of the selection for repeated calls holds by construction: every selector is a function of its inputs.
