/** The file-name helpers the driver relies on, as Go's `path/filepath`
    and `strings` define them on a system whose only separator is '/':
    `Ext`, `Base` and `TrimSuffix`, and the extension stripping built from
    them (drivers/notion/util.go, `UploadAndUpdateFile` and `UploadFile`). */
module Paths {

  const Separator: char := '/'

  /** `k` is where the extension of `path` starts: a '.' followed, up to
      the end, by neither a '.' nor a separator. */
  predicate ExtStart(path: string, k: int) {
    && 0 <= k < |path| && path[k] == '.'
    && forall j :: k < j < |path| ==> path[j] != '.' && path[j] != Separator
  }

  /** Go's backward scan from position `i`: the suffix from the first '.'
      met, or nothing once a separator or the start is reached. */
  function ScanExt(path: string, i: int): (e: string)
    requires -1 <= i < |path|
    requires forall j :: i < j < |path| ==> path[j] != '.' && path[j] != Separator
    ensures |e| <= |path| && e == path[|path| - |e|..]
    ensures e == [] || e[0] == '.'
    ensures forall j :: 0 <= j < |e| ==> e[j] != Separator
    decreases i + 1
  {
    if i < 0 || path[i] == Separator then ""
    else if path[i] == '.' then path[i..]
    else ScanExt(path, i - 1)
  }

  /** `filepath.Ext`: the suffix of `path` from the last '.' of its final
      element, or nothing when that element has no '.'. */
  function Ext(path: string): (e: string)
    ensures |e| <= |path| && e == path[|path| - |e|..]
    ensures e == [] || e[0] == '.'
    ensures forall j :: 0 <= j < |e| ==> e[j] != Separator
  {
    ScanExt(path, |path| - 1)
  }

  /** The scan finds the extension exactly when there is one. */
  lemma {:induction false} ScanExtSpec(path: string, i: int)
    requires -1 <= i < |path|
    requires forall j :: i < j < |path| ==> path[j] != '.' && path[j] != Separator
    ensures forall k :: 0 <= k <= i && ExtStart(path, k) ==> ScanExt(path, i) == path[k..]
    ensures (forall k :: !ExtStart(path, k)) ==> ScanExt(path, i) == ""
    decreases i + 1
  {
    if i >= 0 && path[i] != Separator && path[i] != '.' {
      ScanExtSpec(path, i - 1);
    } else if i >= 0 && path[i] == '.' {
      assert ExtStart(path, i);
    }
  }

  /** `Ext` characterized: the suffix from the '.' that starts the extension,
      or nothing when no position does. */
  lemma ExtSpec(path: string)
    ensures forall k :: ExtStart(path, k) ==> Ext(path) == path[k..]
    ensures (forall k :: !ExtStart(path, k)) ==> Ext(path) == ""
  {
    ScanExtSpec(path, |path| - 1);
  }

  /** `path` without its trailing separators. */
  function TrimTrailing(path: string): (r: string)
    ensures |r| <= |path| && r == path[..|r|]
    ensures r == [] || r[|r| - 1] != Separator
    ensures forall j :: |r| <= j < |path| ==> path[j] == Separator
  {
    if |path| > 0 && path[|path| - 1] == Separator then TrimTrailing(path[..|path| - 1]) else path
  }

  /** `e` ends `path` and starts at its beginning or just after a
      separator. */
  predicate EndsAtBoundary(path: string, e: string) {
    && |e| <= |path| && e == path[|path| - |e|..]
    && (|e| == |path| || path[|path| - |e| - 1] == Separator)
  }

  /** The part of `path` after its last separator. */
  function LastElement(path: string): (r: string)
    ensures EndsAtBoundary(path, r)
    ensures forall j :: 0 <= j < |r| ==> r[j] != Separator
  {
    if |path| == 0 || path[|path| - 1] == Separator then ""
    else LastElement(path[..|path| - 1]) + [path[|path| - 1]]
  }

  /** `path` has a character that is not a separator. */
  predicate HasElement(path: string) {
    exists j :: 0 <= j < |path| && path[j] != Separator
  }

  /** `filepath.Base`: the last element of `path` after trailing separators
      are dropped; "." for the empty path and "/" for a path of separators
      only. */
  function Base(path: string): (b: string)
    ensures b != []
    ensures b == [Separator] || forall j :: 0 <= j < |b| ==> b[j] != Separator
    ensures path == [] ==> b == "."
    ensures b == [Separator] <==> path != [] && !HasElement(path)
    // The last element of the path without its trailing separators.
    ensures HasElement(path) ==> EndsAtBoundary(TrimTrailing(path), b)
  {
    if path == [] then "."
    else
      var t := TrimTrailing(path);
      var elem := LastElement(t);
      TrimmedKeepsElement(path);
      if elem == [] then [Separator] else elem
  }

  /** Dropping the trailing separators leaves a path ending in an element,
      or nothing when there was none. */
  lemma TrimmedKeepsElement(path: string)
    ensures HasElement(path) <==> TrimTrailing(path) != []
    ensures HasElement(path) ==> LastElement(TrimTrailing(path)) != []
  {
    var t := TrimTrailing(path);
    if HasElement(path) {
      var j :| 0 <= j < |path| && path[j] != Separator;
      assert j < |t|;
    }
  }

  /** A name without separators is its own base, so `Base` is idempotent. */
  lemma {:induction false} LastElementOfElement(name: string)
    requires forall j :: 0 <= j < |name| ==> name[j] != Separator
    ensures LastElement(name) == name
    decreases |name|
  {
    if |name| > 0 {
      LastElementOfElement(name[..|name| - 1]);
      assert name[..|name| - 1] + [name[|name| - 1]] == name;
    }
  }

  lemma BaseIdempotent(path: string)
    ensures Base(Base(path)) == Base(path)
  {
    var b := Base(path);
    if b != [Separator] {
      assert TrimTrailing(b) == b;
      LastElementOfElement(b);
    } else {
      assert TrimTrailing(b) == [];
    }
  }

  /** `strings.TrimSuffix`: `s` without `suffix` when it ends with it,
      otherwise `s` unchanged. */
  function TrimSuffix(s: string, suffix: string): (r: string)
    ensures |suffix| <= |s| && s[|s| - |suffix|..] == suffix ==> r + suffix == s
    ensures !(|suffix| <= |s| && s[|s| - |suffix|..] == suffix) ==> r == s
  {
    if |suffix| <= |s| && s[|s| - |suffix|..] == suffix then s[..|s| - |suffix|] else s
  }

  /** The upload name of a file: its base name without the extension. */
  function StripExtension(path: string): string {
    var base := Base(path);
    TrimSuffix(base, Ext(base))
  }

  /** Stripping only removes the extension: putting it back gives the base
      name. */
  lemma StripExtensionRoundTrip(path: string)
    ensures StripExtension(path) + Ext(Base(path)) == Base(path)
  {
    var base := Base(path);
    var e := Ext(base);
    assert |e| <= |base| && base[|base| - |e|..] == e;
  }

  /** A name with an upper-case extension. */
  lemma ExtExample()
    ensures Ext("movie.MKV") == ".MKV"
  {
    var name := "movie.MKV";
    assert ExtStart(name, 5);
    ExtSpec(name);
  }

  /** A dot in a directory name is not an extension. */
  lemma NoExtExample()
    ensures Ext("dir.d/file") == ""
  {
    var name := "dir.d/file";
    assert forall k :: !ExtStart(name, k) by {
      forall k | 0 <= k < |name| && name[k] == '.' ensures !ExtStart(name, k) {
        assert name[5] == Separator;
      }
    }
    ExtSpec(name);
  }
}
