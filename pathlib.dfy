/**
 * The part of Python's `pathlib` that builds an audio path: joining a
 * root directory and a relative path with `/`, and `with_suffix`, which
 * replaces the suffix of the last path component. Paths are plain
 * strings with `/` as separator.
 */
module PathLib {

  /** Position of the last `c` in `s`, or -1 (Python's `str.rfind`). */
  function LastIndexOf(s: string, c: char): (i: int)
    ensures -1 <= i < |s|
    ensures 0 <= i ==> s[i] == c
    ensures forall k :: i < k < |s| ==> s[k] != c
    decreases |s|
  {
    if s == [] then -1
    else if s[|s| - 1] == c then |s| - 1
    else LastIndexOf(s[..|s| - 1], c)
  }

  /** The three properties of `LastIndexOf` determine it. */
  lemma LastIndexOfUnique(s: string, c: char, i: int)
    requires -1 <= i < |s|
    requires 0 <= i ==> s[i] == c
    requires forall k :: i < k < |s| ==> s[k] != c
    ensures LastIndexOf(s, c) == i
  {
  }

  /**
   * `str(Path(root) / rel)` for a relative `rel`: the root, then `rel`,
   * separated by exactly one `/`, the root's own trailing one or a new one;
   * an empty root is the current directory.
   */
  function Join(root: string, rel: string): (r: string)
    ensures |root| + |rel| <= |r| <= |root| + 1 + |rel|
    ensures r[..|root|] == root && r[|r| - |rel|..] == rel
    ensures root == [] ==> r == rel
    ensures root != [] ==> r[|r| - |rel| - 1] == '/'
    ensures root != [] && root[|root| - 1] == '/' ==> r == root + rel
    ensures root != [] && root[|root| - 1] != '/' ==> r == root + "/" + rel
  {
    if root == [] then rel
    else if root[|root| - 1] == '/' then root + rel
    else root + "/" + rel
  }

  /** The directory part of a joined path holds the whole root. */
  lemma JoinDirCoversRoot(root: string, rel: string)
    ensures |root| <= |Dir(Join(root, rel))|
  {
    var p := Join(root, rel);
    if root != [] {
      var s := |p| - |rel| - 1;
      assert p[s] == '/';
      assert LastIndexOf(p, '/') >= s;
    }
  }

  /** The directory part of `p`, up to and including its last `/`. */
  function Dir(p: string): (d: string)
    ensures |d| == LastIndexOf(p, '/') + 1
    ensures d == p[..|d|]
  {
    p[..LastIndexOf(p, '/') + 1]
  }

  /** `Path(p).name`: the last path component, which holds no separator. */
  function Name(p: string): (n: string)
    ensures n == p[|Dir(p)|..]
    ensures forall k :: 0 <= k < |n| ==> n[k] != '/'
  {
    var i := LastIndexOf(p, '/');
    var n := p[i + 1..];
    forall k | 0 <= k < |n|
      ensures n[k] != '/'
    {
      assert n[k] == p[i + 1 + k];
    }
    n
  }

  /**
   * Where `Path.suffix` starts in a name: at the last `.` when that dot is
   * neither the first nor the last character, otherwise at the end (no suffix).
   */
  function SuffixStart(name: string): (i: nat)
    ensures i <= |name|
  {
    var d := LastIndexOf(name, '.');
    if 0 < d < |name| - 1 then d else |name|
  }

  /** `Path.suffix` of a name. */
  function Suffix(name: string): string { name[SuffixStart(name)..] }

  /** `Path.stem` of a name: the name without its suffix. */
  function Stem(name: string): string { name[..SuffixStart(name)] }

  /** A suffix `with_suffix` accepts and `Path.suffix` gives back: one leading dot, then at least one character, no dot or separator. */
  predicate IsSimpleSuffix(suffix: string)
  {
    |suffix| >= 2 && suffix[0] == '.' &&
    forall k :: 0 < k < |suffix| ==> suffix[k] != '.' && suffix[k] != '/'
  }

  /**
   * `Path(p).with_suffix(suffix)`: replace the last component's suffix, or
   * append one if it has none. The old suffix is cut from the end of the
   * whole path and the new one put in its place.
   */
  function WithSuffix(p: string, suffix: string): (r: string)
    ensures |Suffix(Name(p))| <= |p|
    ensures r == p[..|p| - |Suffix(Name(p))|] + suffix
  {
    var d, name := Dir(p), Name(p);
    var i := SuffixStart(name);
    assert p == d + name;
    assert d + Stem(name) == p[..|d| + i];
    d + Stem(name) + suffix
  }

  /** `with_suffix` is the directory part, then the stem of the name, then the new suffix. */
  lemma WithSuffixIsDirStem(p: string, suffix: string)
    ensures WithSuffix(p, suffix) == Dir(p) + (Stem(Name(p)) + suffix)
  {
    assert Dir(p) + Stem(Name(p)) + suffix == Dir(p) + (Stem(Name(p)) + suffix);
  }

  /** `with_suffix` keeps every character of the directory part and ends in the new suffix. */
  lemma WithSuffixKeepsPrefix(p: string, suffix: string, k: nat)
    requires k <= |Dir(p)|
    ensures |WithSuffix(p, suffix)| >= k + |suffix|
    ensures WithSuffix(p, suffix)[..k] == p[..k]
    ensures WithSuffix(p, suffix)[|WithSuffix(p, suffix)| - |suffix|..] == suffix
  {
    var d := Dir(p);
    var w := WithSuffix(p, suffix);
    WithSuffixIsDirStem(p, suffix);
    assert w[..k] == d[..k];
  }

  /** A directory part followed by a separator-free name splits back into the two. */
  lemma DirOfAppend(dir: string, name: string)
    requires dir == [] || dir[|dir| - 1] == '/'
    requires forall k :: 0 <= k < |name| ==> name[k] != '/'
    ensures Dir(dir + name) == dir && Name(dir + name) == name
  {
    var p := dir + name;
    assert forall k :: |dir| <= k < |p| ==> p[k] == name[k - |dir|];
    LastIndexOfUnique(p, '/', |dir| - 1);
  }

  /** The stem of a non-empty name is non-empty and, like the name, free of separators. */
  lemma StemOfName(name: string)
    requires name != []
    requires forall k :: 0 <= k < |name| ==> name[k] != '/'
    ensures Stem(name) != []
    ensures forall k :: 0 <= k < |Stem(name)| ==> Stem(name)[k] != '/'
  {
    var stem := Stem(name);
    assert forall k :: 0 <= k < |stem| ==> stem[k] == name[k];
  }

  /** Appending a simple suffix to a non-empty stem makes that suffix the name's suffix. */
  lemma SuffixOfAppend(stem: string, suffix: string)
    requires stem != [] && IsSimpleSuffix(suffix)
    ensures SuffixStart(stem + suffix) == |stem|
  {
    var name := stem + suffix;
    assert forall k :: |stem| <= k < |name| ==> name[k] == suffix[k - |stem|];
    LastIndexOfUnique(name, '.', |stem|);
  }

  /**
   * `with_suffix` keeps the directory and the stem of the path and gives
   * it exactly the new suffix.
   */
  lemma {:induction false} WithSuffixParts(p: string, suffix: string)
    requires Name(p) != []
    requires IsSimpleSuffix(suffix)
    ensures Dir(WithSuffix(p, suffix)) == Dir(p)
    ensures Name(WithSuffix(p, suffix)) == Stem(Name(p)) + suffix
    ensures Stem(Name(WithSuffix(p, suffix))) == Stem(Name(p))
    ensures Suffix(Name(WithSuffix(p, suffix))) == suffix
  {
    var dir, stem := Dir(p), Stem(Name(p));
    WithSuffixIsDirStem(p, suffix);
    assert WithSuffix(p, suffix) == dir + (stem + suffix);
    StemOfName(Name(p));
    DirStemSuffix(dir, stem, suffix);
  }

  /** A directory part, a non-empty separator-free stem and a simple suffix split back into the three. */
  lemma DirStemSuffix(dir: string, stem: string, suffix: string)
    requires dir == [] || dir[|dir| - 1] == '/'
    requires stem != [] && forall k :: 0 <= k < |stem| ==> stem[k] != '/'
    requires IsSimpleSuffix(suffix)
    ensures Dir(dir + (stem + suffix)) == dir
    ensures Name(dir + (stem + suffix)) == stem + suffix
    ensures Stem(stem + suffix) == stem && Suffix(stem + suffix) == suffix
  {
    var name := stem + suffix;
    assert forall k :: 0 <= k < |name| ==> name[k] != '/' by {
      assert forall k :: |stem| <= k < |name| ==> name[k] == suffix[k - |stem|];
    }
    DirOfAppend(dir, name);
    SuffixOfAppend(stem, suffix);
  }

  /** Replacing a suffix twice with the same simple suffix is the same as once. */
  lemma WithSuffixIdempotent(p: string, suffix: string)
    requires Name(p) != []
    requires IsSimpleSuffix(suffix)
    ensures WithSuffix(WithSuffix(p, suffix), suffix) == WithSuffix(p, suffix)
  {
    WithSuffixParts(p, suffix);
  }
}
