/** Finding files and directories by name.

The server lists files only; directories are inferred from the files in them.  The
matcher remembers which directories it has met, so that it reports each one once.
Paths are the components of a clean relative name.
*/
module Find {

  type Path = seq<string>

  datatype Found = Found(path: Path, isDir: bool)

  /** Whether a base name, of a directory or of a file, is wanted. */
  type Wanted = (string, bool) -> bool

  /** The directories above a file, without the root. */
  function Ancestors(name: Path): set<Path> {
    set i | 0 < i < |name| :: name[..i]
  }

  function Base(p: Path): string
    requires p != []
  {
    p[|p| - 1]
  }

  /** New wanted directories among the prefixes of `name` longer than j, up to length k, shallow first. */
  function NewDirs(wanted: Wanted, seen: set<Path>, name: Path, j: nat, k: nat): seq<Found>
    requires j <= k <= |name|
    decreases k - j
  {
    if j == k then []
    else
      var d := name[..j + 1];
      (if d !in seen && wanted(Base(d), true) then [Found(d, true)] else []) + NewDirs(wanted, seen, name, j + 1, k)
  }

  /** What one file name contributes when the directories in `seen` are known. */
  function Report(wanted: Wanted, seen: set<Path>, name: Path): seq<Found>
    requires name != []
  {
    NewDirs(wanted, seen, name, 0, |name| - 1) + if wanted(Base(name), false) then [Found(name, false)] else []
  }

  predicate Mirrors(a: seq<Found>, b: seq<Found>) {
    |a| == |b| && forall i :: 0 <= i < |a| ==> a[i] == b[|b| - 1 - i]
  }

  /** Swaps the two ends, then the next two, and so on. */
  method Reversed(up: seq<Found>) returns (matches: seq<Found>)
    ensures Mirrors(matches, up)
  {
    matches := up;
    var n := |up|;
    for i := 0 to n / 2
      invariant |matches| == n
      invariant forall k :: 0 <= k < i ==> matches[k] == up[n - 1 - k]
      invariant forall k :: n - i <= k < n ==> matches[k] == up[n - 1 - k]
      invariant forall k :: i <= k < n - i ==> matches[k] == up[k]
    {
      var j := n - i - 1;
      matches := matches[i := matches[j]][j := matches[i]];
    }
  }

  class Matcher {
    var seen: set<Path>
    const pattern: string
    const wanted: Wanted

    constructor (pattern: string, wanted: Wanted)
      ensures seen == {} && this.pattern == pattern && this.wanted == wanted
    {
      seen := {};
      this.pattern, this.wanted := pattern, wanted;
    }

    method Matches(name: Path) returns (matches: seq<Found>)
      requires name != []
      modifies this
      ensures pattern == "" ==> matches == [Found(name, false)] && seen == old(seen)
      ensures pattern != "" ==> matches == Report(wanted, old(seen), name) && seen == old(seen) + Ancestors(name)
    {
      if pattern == "" {
        return [Found(name, false)];
      }
      matches := [];
      var dir := name[..|name| - 1];
      while dir != []
        invariant |dir| < |name| && dir == name[..|dir|]
        invariant seen == old(seen) + set i | |dir| < i < |name| :: name[..i]
        invariant Mirrors(matches, NewDirs(wanted, old(seen), name, |dir|, |name| - 1))
        decreases |dir|
      {
        assert dir in seen <==> dir in old(seen);
        if dir !in seen {
          seen := seen + {dir};
          if wanted(Base(dir), true) {
            matches := matches + [Found(dir, true)];
          }
        }
        dir := dir[..|dir| - 1];
      }
      ghost var up := matches;
      matches := Reversed(matches);
      assert matches == NewDirs(wanted, old(seen), name, 0, |name| - 1);
      if wanted(Base(name), false) {
        matches := matches + [Found(name, false)];
      }
    }
  }

  /** The directories known after a list of files. */
  function Met(names: seq<Path>): set<Path> {
    if names == [] then {} else Met(names[..|names| - 1]) + Ancestors(names[|names| - 1])
  }

  /** File names are not empty. */
  predicate Proper(names: seq<Path>) {
    forall i :: 0 <= i < |names| ==> names[i] != []
  }

  /** Everything reported for a list of files, fed to the matcher one by one. */
  function Output(wanted: Wanted, names: seq<Path>): seq<Found>
    requires Proper(names)
  {
    if names == [] then []
    else
      var init, last := names[..|names| - 1], names[|names| - 1];
      Output(wanted, init) + Report(wanted, Met(init), last)
  }

  predicate Above(d: Path, names: seq<Path>) {
    exists i :: 0 <= i < |names| && d < names[i]
  }

  /** The matcher's memory holds exactly the directories above the files so far; so with a directory
      it holds all directories above that one. */
  lemma {:induction false} MetIff(names: seq<Path>, d: Path)
    ensures d in Met(names) <==> d != [] && Above(d, names)
  {
    if names == [] {
    } else {
      var init, last := names[..|names| - 1], names[|names| - 1];
      MetIff(init, d);
      AncestorsIff(last, d);
      AboveMore(d, init, last);
      assert names == init + [last];
    }
  }

  lemma AncestorsIff(name: Path, d: Path)
    ensures d in Ancestors(name) <==> d != [] && d < name
  {
    if d != [] && d < name {
      assert name[..|d|] == d;
    }
  }

  lemma AboveMore(d: Path, init: seq<Path>, last: Path)
    ensures Above(d, init + [last]) <==> Above(d, init) || d < last
  {
    var names := init + [last];
    assert names[|init|] == last;
    assert forall i :: 0 <= i < |init| ==> names[i] == init[i];
  }

  lemma {:induction false} NewDirsIff(wanted: Wanted, seen: set<Path>, name: Path, j: nat, k: nat, f: Found)
    requires j <= k <= |name|
    ensures f in NewDirs(wanted, seen, name, j, k) <==>
              f.isDir && j < |f.path| <= k && f.path <= name && f.path !in seen && wanted(Base(f.path), true)
    decreases k - j
  {
    if j == k {
    } else {
      var d := name[..j + 1];
      var head := if d !in seen && wanted(Base(d), true) then [Found(d, true)] else [];
      NewDirsIff(wanted, seen, name, j + 1, k, f);
      assert NewDirs(wanted, seen, name, j, k) == head + NewDirs(wanted, seen, name, j + 1, k);
      assert |f.path| == j + 1 && f.path <= name <==> f.path == d;
    }
  }

  /** A directory is reported exactly when it is wanted and lies above some file of the list; a file
      exactly when it is wanted and in the list. */
  predicate Due(wanted: Wanted, names: seq<Path>, f: Found) {
    && f.path != [] && wanted(f.path[|f.path| - 1], f.isDir)
    && if f.isDir then Above(f.path, names) else f.path in names
  }

  lemma ReportIff(wanted: Wanted, seen: set<Path>, name: Path, f: Found)
    requires name != []
    ensures f in Report(wanted, seen, name) <==>
              && f.path != [] && wanted(Base(f.path), f.isDir)
              && if f.isDir then f.path < name && f.path !in seen else f.path == name
  {
    NewDirsIff(wanted, seen, name, 0, |name| - 1, f);
  }

  lemma {:induction false} ReportedIff(wanted: Wanted, names: seq<Path>, f: Found)
    requires Proper(names)
    ensures f in Output(wanted, names) <==> Due(wanted, names, f)
  {
    if names == [] {
    } else {
      var init, last := names[..|names| - 1], names[|names| - 1];
      assert names == init + [last];
      ReportedIff(wanted, init, f);
      ReportIff(wanted, Met(init), last, f);
      MetIff(init, f.path);
      AboveMore(f.path, init, last);
    }
  }

  predicate Lengthening(r: seq<Found>) {
    forall a, b :: 0 <= a < b < |r| ==> |r[a].path| < |r[b].path|
  }

  lemma LengtheningCons(f: Found, rest: seq<Found>)
    requires Lengthening(rest)
    requires forall g :: g in rest ==> |f.path| < |g.path|
    ensures Lengthening([f] + rest)
  {
  }

  lemma {:induction false} NewDirsLengthen(wanted: Wanted, seen: set<Path>, name: Path, j: nat, k: nat)
    requires j <= k <= |name|
    ensures Lengthening(NewDirs(wanted, seen, name, j, k))
    decreases k - j
  {
    if j == k {
    } else {
      var d, rest := name[..j + 1], NewDirs(wanted, seen, name, j + 1, k);
      NewDirsLengthen(wanted, seen, name, j + 1, k);
      if d !in seen && wanted(Base(d), true) {
        forall g | g in rest
          ensures |d| < |g.path|
        {
          NewDirsIff(wanted, seen, name, j + 1, k, g);
        }
        LengtheningCons(Found(d, true), rest);
      }
    }
  }

  /** No directory is reported twice, and none after anything below it. */
  predicate InOrder(out: seq<Found>) {
    forall a, b :: 0 <= a < b < |out| && out[b].isDir ==>
      !(out[b].path < out[a].path) && !(out[a].isDir && out[a].path == out[b].path)
  }

  lemma ReportInOrder(wanted: Wanted, seen: set<Path>, name: Path)
    requires name != []
    ensures InOrder(Report(wanted, seen, name))
    ensures forall f :: f in Report(wanted, seen, name) ==> f.path <= name && (f.isDir ==> f.path !in seen)
  {
    var dirs, r := NewDirs(wanted, seen, name, 0, |name| - 1), Report(wanted, seen, name);
    forall f | f in r
      ensures f.path <= name && (f.isDir ==> f.path !in seen)
    {
      NewDirsIff(wanted, seen, name, 0, |name| - 1, f);
    }
    NewDirsLengthen(wanted, seen, name, 0, |name| - 1);
  }

  lemma AboveVia(names: seq<Path>, f: Found, d: Path)
    requires if f.isDir then Above(f.path, names) else f.path in names
    requires d < f.path
    ensures Above(d, names)
  {
  }

  /** Over any list of files every wanted directory is reported once, before everything below it. */
  lemma {:induction false} OutputInOrder(wanted: Wanted, names: seq<Path>)
    requires Proper(names)
    ensures InOrder(Output(wanted, names))
  {
    if names == [] {
    } else {
      var init, last := names[..|names| - 1], names[|names| - 1];
      var out, r := Output(wanted, init), Report(wanted, Met(init), last);
      OutputInOrder(wanted, init);
      ReportInOrder(wanted, Met(init), last);
      forall a, b | 0 <= a < |out| && 0 <= b < |r| && r[b].isDir
        ensures !(r[b].path < out[a].path) && !(out[a].isDir && out[a].path == r[b].path)
      {
        assert out[a] in out && r[b] in r;
        ReportedIff(wanted, init, out[a]);
        ReportIff(wanted, Met(init), last, r[b]);
        MetIff(init, r[b].path);
        if r[b].path < out[a].path { AboveVia(init, out[a], r[b].path); }
      }
    }
  }
}
