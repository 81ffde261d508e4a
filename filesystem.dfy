/**
  The abstract filesystem the scripts act on: a map from paths to byte
  contents. Directories are implicit in the paths (`mkdir(parents=True,
  exist_ok=True)` always succeeds and is not modelled), and a path is a
  `/`-separated string that is already resolved.

  File contents are bytes (`Content`) or, for the markdown the archivers
  read as text, strings; the update functions work for either.

  The outcome of an operating-system call that the scripts exist to distrust
  (`shutil.move`, `shutil.copy2`) is a parameter: the caller supplies what the
  filesystem holds at the two paths afterwards, and whether the call raised.
*/
module FileSystem {

  import opened Wrappers
  import opened Strings

  newtype byte = x: int | 0 <= x < 256

  type Path = string
  type Content = seq<byte>
  type Fs = map<Path, Content>

  // ---------------------------------------------------------------------
  // Paths

  /** `Path(p).name`: the text after the last `/`. */
  function BaseName(p: Path): (r: string)
    ensures EndsWith(p, r)
    ensures '/' !in r
    ensures |r| < |p| ==> p[|p| - |r| - 1] == '/'
    decreases |p|
  {
    if |p| == 0 then ""
    else if p[|p| - 1] == '/' then ""
    else BaseName(p[..|p| - 1]) + [p[|p| - 1]]
  }

  /** `Path(dir) / name`. */
  function Child(dir: Path, name: string): Path {
    dir + "/" + name
  }

  /** The name of a child is the name it was created with. */
  lemma {:induction false} BaseNameOfChild(dir: Path, name: string)
    requires '/' !in name
    ensures BaseName(Child(dir, name)) == name
    decreases |name|
  {
    if |name| == 0 {
    } else {
      var p := Child(dir, name);
      var init := name[..|name| - 1];
      assert p[..|p| - 1] == Child(dir, init);
      assert '/' !in init by {
        forall i | 0 <= i < |init| ensures init[i] != '/' {
          assert init[i] == name[i];
        }
      }
      BaseNameOfChild(dir, init);
      assert name == init + [name[|name| - 1]];
    }
  }

  /** The directory part of a path, up to and including its last `/`. */
  function DirPrefix(p: Path): (r: Path)
    ensures r + BaseName(p) == p
  {
    var k := |p| - |BaseName(p)|;
    assert p[..k] + p[k..] == p;
    p[..k]
  }

  /** `Path(p).parent / name`: the same directory, another file name. */
  function Sibling(p: Path, name: string): Path {
    DirPrefix(p) + name
  }

  /** The name of a sibling is the name it was given. */
  lemma {:induction false} BaseNameAfterDirectory(dir: Path, name: string)
    requires dir == [] || dir[|dir| - 1] == '/'
    requires '/' !in name
    ensures BaseName(dir + name) == name
    decreases |name|
  {
    var p := dir + name;
    if |name| == 0 {
      assert p == dir;
    } else {
      var init := name[..|name| - 1];
      assert p[..|p| - 1] == dir + init;
      assert '/' !in init by {
        forall i | 0 <= i < |init| ensures init[i] != '/' {
          assert init[i] == name[i];
        }
      }
      BaseNameAfterDirectory(dir, init);
      assert name == init + [name[|name| - 1]];
    }
  }

  lemma SiblingName(p: Path, name: string)
    requires '/' !in name
    ensures BaseName(Sibling(p, name)) == name
  {
    BaseNameAfterDirectory(DirPrefix(p), name);
  }

  /** `p` lies (directly or deeper) under directory `dir`. */
  predicate Under(p: Path, dir: Path) {
    StartsWith(p, dir + "/")
  }

  /** `Path(name).stem` for a name whose suffix is `.md`. */
  function StemMd(name: string): (r: string)
    ensures EndsWith(name, ".md") ==> r + ".md" == name
    ensures !EndsWith(name, ".md") ==> r == name
  {
    if EndsWith(name, ".md") then name[..|name| - 3] else name
  }

  // ---------------------------------------------------------------------
  // Glob patterns used by the scripts

  /** `fnmatch(name, f"{id}_*.md")`. */
  predicate MatchesIdUnderscoreMd(name: string, id: string) {
    StartsWith(name, id + "_") && EndsWith(name, ".md") && |name| >= |id| + 4
  }

  /** `fnmatch(name, f"*{id}*.md")`. */
  predicate MatchesContainsIdMd(name: string, id: string) {
    EndsWith(name, ".md") && Contains(name[..|name| - 3], id)
  }

  // ---------------------------------------------------------------------
  // Updates

  /** The filesystem with `p` holding `c`, or with `p` absent. */
  function Put<C>(fs: map<Path, C>, p: Path, c: Option<C>): (r: map<Path, C>)
    ensures c.Some? ==> p in r && r[p] == c.value
    ensures c.None? ==> p !in r
    ensures forall q :: q != p ==> (q in r <==> q in fs)
    ensures forall q :: q != p && q in r ==> r[q] == fs[q]
  {
    if c.Some? then fs[p := c.value] else fs - {p}
  }

  /** What the filesystem holds at the two ends of a `shutil.move` once it has returned or raised. */
  datatype MoveEffect<C> = MoveEffect(raised: bool, fromAfter: Option<C>, toAfter: Option<C>)

  /** What `shutil.copy2` did: raised before writing, or wrote `content` at the target. */
  datatype CopyOutcome<C> = CopyRaised | CopyWrote(content: C)

  /** A `shutil.move` that behaves as documented: the file leaves `from` and arrives intact at `to`. */
  function HonestMove<C>(c: C): (e: MoveEffect<C>)
    ensures !e.raised && e.fromAfter.None? && e.toAfter == Some(c)
  {
    MoveEffect(false, None, Some(c))
  }

  /** The filesystem after a move from `src` to `dst` with effect `e`. */
  function AfterMove<C>(fs: map<Path, C>, src: Path, dst: Path, e: MoveEffect<C>): (r: map<Path, C>)
    requires src != dst
    ensures (src in r) == e.fromAfter.Some? && (dst in r) == e.toAfter.Some?
    ensures e.fromAfter.Some? ==> r[src] == e.fromAfter.value
    ensures e.toAfter.Some? ==> r[dst] == e.toAfter.value
    ensures forall q :: q != src && q != dst ==> (q in r <==> q in fs)
    ensures forall q :: q != src && q != dst && q in r ==> r[q] == fs[q]
  {
    Put(Put(fs, src, e.fromAfter), dst, e.toAfter)
  }

  /** An honest move transfers the content and touches nothing else. */
  lemma HonestMoveTransfers<C>(fs: map<Path, C>, src: Path, dst: Path)
    requires src != dst && src in fs
    ensures AfterMove(fs, src, dst, HonestMove(fs[src])) == fs[dst := fs[src]] - {src}
  {
    var r := AfterMove(fs, src, dst, HonestMove(fs[src]));
    var t := fs[dst := fs[src]] - {src};
    assert forall q :: q in r <==> q in t;
  }

  /** `Path(src).rename(dst)` on POSIX: the content moves, and an existing `dst` is replaced. */
  function Renamed<C>(fs: map<Path, C>, src: Path, dst: Path): (r: map<Path, C>)
    requires src in fs
    ensures dst in r && r[dst] == fs[src]
    ensures src != dst ==> src !in r
    ensures forall q :: q != src && q != dst ==> (q in r <==> q in fs)
    ensures forall q :: q != src && q != dst && q in r ==> r[q] == fs[q]
  {
    if src == dst then fs else fs[dst := fs[src]] - {src}
  }

}
