/** Merging one directory tree into another, as `_merge_tree` does: new directories are
    copied whole, files overwrite files, and a file whose name is a directory at the
    destination is copied into that directory. */
module MergeTree {
  import opened Common

  datatype Node = File(content: string) | Dir(entries: map<string, Node>)

  // The contents of a directory.
  type Tree = map<string, Node>

  function Lookup(t: Tree, name: string): Option<Node> {
    if name in t then Some(t[name]) else None
  }

  // `copy2` of a file onto an existing path or not: into a directory under the file's own
  // name, which fails if that is a directory too.
  function CopyFile(name: string, content: string, there: Option<Node>): Node {
    if there == None || there.value.File? then File(content)
    else if name in there.value.entries && there.value.entries[name].Dir? then there.value
    else Dir(there.value.entries[name := File(content)])
  }

  // What ends up under a name.
  function MergedAt(src: Tree, dst: Tree, exclude: set<string>, name: string): Option<Node>
    decreases Dir(src), 0
  {
    if name !in src || name in exclude then Lookup(dst, name)
    else if src[name].File? then Some(CopyFile(name, src[name].content, Lookup(dst, name)))
    else if name !in dst then Some(src[name])
    else if dst[name].File? then Some(dst[name])
    else Some(Dir(Merge(src[name].entries, dst[name].entries, exclude)))
  }

  function Merge(src: Tree, dst: Tree, exclude: set<string>): Tree
    decreases Dir(src), 1
  {
    map name | name in src.Keys + dst.Keys && MergedAt(src, dst, exclude, name).Some?
      :: MergedAt(src, dst, exclude, name).value
  }

  lemma MergeLookup(src: Tree, dst: Tree, exclude: set<string>, name: string)
    ensures Lookup(Merge(src, dst, exclude), name) == MergedAt(src, dst, exclude, name)
  {
  }

  // A name's outcome depends on what stands under that name alone.
  lemma MergedAtLocal(src: Tree, a: Tree, b: Tree, exclude: set<string>, name: string)
    requires Lookup(a, name) == Lookup(b, name)
    ensures MergedAt(src, a, exclude, name) == MergedAt(src, b, exclude, name)
  {
  }

  lemma ExcludedKept(src: Tree, dst: Tree, exclude: set<string>, name: string)
    requires name in exclude
    ensures MergedAt(src, dst, exclude, name) == Lookup(dst, name)
  {
  }

  // One name of the source, present and not excluded.
  method MergeName(src: Tree, dst: Tree, exclude: set<string>, name: string) returns (node: Node)
    requires name in src && name !in exclude
    ensures MergedAt(src, dst, exclude, name) == Some(node)
    decreases Dir(src), 0
  {
    var there := Lookup(dst, name);
    if src[name].File? {
      node := CopyFile(name, src[name].content, there);
    } else if there == None {
      node := src[name];
    } else if there.value.File? {
      node := there.value;
    } else {
      var inner := MergeInto(src[name].entries, there.value.entries, exclude);
      node := Dir(inner);
    }
  }

  // The loop over the source's names, in any order.
  method MergeInto(src: Tree, dst: Tree, exclude: set<string>) returns (merged: Tree)
    ensures merged == Merge(src, dst, exclude)
    decreases Dir(src), 1
  {
    hide MergedAt, Merge;
    merged := dst;
    var rest := src.Keys;
    while rest != {}
      invariant rest <= src.Keys
      invariant forall n :: Lookup(merged, n) ==
                  if n in src && n !in rest then MergedAt(src, dst, exclude, n) else Lookup(dst, n)
      decreases |rest|
    {
      var name :| name in rest;
      ghost var before := merged;
      if name !in exclude {
        var node := MergeName(src, merged, exclude, name);
        MergedAtLocal(src, merged, dst, exclude, name);
        merged := merged[name := node];
      } else {
        ExcludedKept(src, dst, exclude, name);
      }
      assert forall n :: n != name ==> Lookup(merged, n) == Lookup(before, n);
      rest := rest - {name};
    }
    SameLookups(merged, Merge(src, dst, exclude), src, dst, exclude);
  }

  lemma SameLookups(a: Tree, b: Tree, src: Tree, dst: Tree, exclude: set<string>)
    requires forall n :: Lookup(a, n) == if n in src then MergedAt(src, dst, exclude, n) else Lookup(dst, n)
    requires b == Merge(src, dst, exclude)
    ensures a == b
  {
    forall n ensures Lookup(a, n) == Lookup(b, n) {
      MergeLookup(src, dst, exclude, n);
    }
    assert forall n :: n in a <==> Lookup(a, n).Some?;
    assert forall n :: n in b <==> Lookup(b, n).Some?;
  }

  datatype MergeError = FileExists

  // The call itself: it makes the destination directory if nothing is there.
  method MergeDirectory(src: Tree, dst: Option<Node>, exclude: set<string>) returns (r: Result<Node, MergeError>)
    ensures dst.None? ==> r == Ok(Dir(Merge(src, map[], exclude)))
    ensures dst.Some? && dst.value.File? ==> r == Err(FileExists)
    ensures dst.Some? && dst.value.Dir? ==> r == Ok(Dir(Merge(src, dst.value.entries, exclude)))
  {
    if dst.Some? && dst.value.File? {
      return Err(FileExists);
    }
    var merged := MergeInto(src, if dst.None? then map[] else dst.value.entries, exclude);
    return Ok(Dir(merged));
  }

  // ------------------------------------------------ merging again

  lemma SameTree(a: Tree, b: Tree)
    requires forall n :: Lookup(a, n) == Lookup(b, n)
    ensures a == b
  {
    assert forall n :: n in a <==> Lookup(a, n).Some?;
    assert forall n :: n in b <==> Lookup(b, n).Some?;
  }

  // A tree merged into itself stays as it is.
  lemma {:induction false} MergeSelf(t: Tree, exclude: set<string>)
    ensures Merge(t, t, exclude) == t
    decreases Dir(t)
  {
    forall n ensures Lookup(Merge(t, t, exclude), n) == Lookup(t, n) {
      MergeLookup(t, t, exclude, n);
      if n in t && t[n].Dir? {
        MergeSelf(t[n].entries, exclude);
      }
    }
    SameTree(Merge(t, t, exclude), t);
  }

  // A file copied twice in the same place.
  lemma CopyTwice(name: string, content: string, there: Option<Node>)
    ensures CopyFile(name, content, Some(CopyFile(name, content, there))) == CopyFile(name, content, there)
  {
    if there.Some? && there.value.Dir? {
      var m := there.value.entries;
      assert m[name := File(content)][name := File(content)] == m[name := File(content)];
    }
  }

  // Merging the same source again changes nothing, for all trees.
  lemma {:induction false} MergeIdempotent(src: Tree, dst: Tree, exclude: set<string>)
    ensures Merge(src, Merge(src, dst, exclude), exclude) == Merge(src, dst, exclude)
    decreases Dir(src)
  {
    var once := Merge(src, dst, exclude);
    forall n ensures Lookup(Merge(src, once, exclude), n) == Lookup(once, n) {
      MergeLookup(src, once, exclude, n);
      MergeLookup(src, dst, exclude, n);
      if n in src && n !in exclude {
        match src[n]
        case File(content) => CopyTwice(n, content, Lookup(dst, n));
        case Dir(m) =>
          MergeSelf(m, exclude);
          if n in dst && dst[n].Dir? {
            MergeIdempotent(m, dst[n].entries, exclude);
          }
      }
    }
    SameTree(Merge(src, once, exclude), once);
  }

  // ------------------------------------------------ paths

  type Path = p: seq<string> | p != [] witness [""]

  function At(t: Tree, p: Path): Option<Node>
    decreases |p|
  {
    if p[0] !in t then None
    else if |p| == 1 then Some(t[p[0]])
    else if t[p[0]].File? then None
    else At(t[p[0]].entries, p[1..])
  }

  // No component is an excluded name.
  ghost predicate Included(exclude: set<string>, p: Path) {
    forall i :: 0 <= i < |p| ==> p[i] !in exclude
  }

  // The path is d/d, somewhere, for a source file d that meets a directory d, and no
  // directory is in the way at d/d.
  ghost predicate LandsOn(src: Tree, dst: Tree, exclude: set<string>, p: Path) {
    && |p| >= 2 && p[|p| - 1] == p[|p| - 2] && Included(exclude, p[..|p| - 1])
    && At(src, p[..|p| - 1]).Some? && At(src, p[..|p| - 1]).value.File?
    && At(dst, p[..|p| - 1]).Some? && At(dst, p[..|p| - 1]).value.Dir?
    && (At(dst, p).Some? ==> At(dst, p).value.File?)
  }

  // At a path the source does not have, nothing appears, changes or goes, with everything
  // below it, unless a source file lands on it; then it holds that file. So a path is kept
  // exactly when none does or the file has the same content.
  lemma {:induction false} KeepsOtherPaths(src: Tree, dst: Tree, exclude: set<string>, p: Path)
    requires At(src, p).None?
    ensures At(Merge(src, dst, exclude), p)
         == if LandsOn(src, dst, exclude, p) then At(src, p[..|p| - 1]) else At(dst, p)
    ensures At(Merge(src, dst, exclude), p) == At(dst, p)
       <==> !(LandsOn(src, dst, exclude, p) && At(src, p[..|p| - 1]) != At(dst, p))
    decreases |p|
  {
    var n := p[0];
    MergeLookup(src, dst, exclude, n);
    if n in src && |p| > 1 {
      assert p[..1] == [n];
      if src[n].Dir? && n in dst && dst[n].Dir? {
        InnerLands(src, dst, exclude, p);
        if n !in exclude {
          KeepsOtherPaths(src[n].entries, dst[n].entries, exclude, p[1..]);
        }
      }
    }
  }

  lemma InnerLands(src: Tree, dst: Tree, exclude: set<string>, p: Path)
    requires |p| > 1 && p[0] in src && src[p[0]].Dir? && p[0] in dst && dst[p[0]].Dir?
    ensures LandsOn(src, dst, exclude, p)
       <==> p[0] !in exclude && LandsOn(src[p[0]].entries, dst[p[0]].entries, exclude, p[1..])
    ensures LandsOn(src, dst, exclude, p) ==> At(src, p[..|p| - 1]) == At(src[p[0]].entries, p[1..][..|p| - 2])
  {
    var q := p[1..];
    var front := p[..|p| - 1];
    if |q| >= 2 {
      assert front[1..] == q[..|q| - 1];
      assert front == [p[0]] + q[..|q| - 1];
      assert Included(exclude, front) <==> p[0] !in exclude && Included(exclude, q[..|q| - 1]);
    } else {
      assert front == [p[0]];
    }
  }

  // A directory of the source on the way to `p` meets a file of the destination.
  ghost predicate MeetsFile(dst: Tree, p: Path)
    decreases |p|
  {
    |p| > 1 && p[0] in dst && (dst[p[0]].File? || MeetsFile(dst[p[0]].entries, p[1..]))
  }

  // Where a source file at `p` arrives.
  function Arrival(dst: Tree, p: Path): Path {
    if At(dst, p).Some? && At(dst, p).value.Dir? then p + [p[|p| - 1]] else p
  }

  // A source file `d` meets a directory `d` that holds a directory `d`.
  ghost predicate MeetsDirectory(dst: Tree, p: Path) {
    && At(dst, p).Some? && At(dst, p).value.Dir?
    && p[|p| - 1] in At(dst, p).value.entries && At(dst, p).value.entries[p[|p| - 1]].Dir?
  }

  lemma AtStep(t: Tree, n: string, p: seq<string>)
    ensures At(t, [n] + p)
         == if n !in t then None
            else if p == [] then Some(t[n])
            else if t[n].File? then None
            else At(t[n].entries, p)
  {
    assert ([n] + p)[1..] == p;
  }

  // Every file of the source whose path has no excluded name arrives, at its own path or
  // inside the directory that stands there, unless one of the two obstacles is met.
  lemma {:induction false} FilesArrive(src: Tree, dst: Tree, exclude: set<string>, p: Path)
    requires At(src, p).Some? && At(src, p).value.File? && Included(exclude, p)
    requires !MeetsFile(dst, p) && !MeetsDirectory(dst, p)
    ensures At(Merge(src, dst, exclude), Arrival(dst, p)) == At(src, p)
    decreases |p|
  {
    var n := p[0];
    var merged := Merge(src, dst, exclude);
    MergeLookup(src, dst, exclude, n);
    if |p| == 1 {
      AtStep(merged, n, []);
      AtStep(merged, n, [n]);
      if n in dst && dst[n].Dir? {
        AtStep(merged[n].entries, n, []);
        assert Arrival(dst, p) == [n] + [n];
      }
    } else {
      var q := p[1..];
      var m := src[n].entries;
      if n in dst {
        var inner := dst[n].entries;
        FilesArrive(m, inner, exclude, q);
        AtStep(merged, n, Arrival(inner, q));
        assert Arrival(dst, p) == [n] + Arrival(inner, q);
      }
    }
  }

  // Every directory of the source whose path has no excluded name is a directory afterwards,
  // exactly unless a file of the destination stands on its path or at its place.
  lemma {:induction false} DirectoriesArriveIff(src: Tree, dst: Tree, exclude: set<string>, p: Path)
    requires At(src, p).Some? && At(src, p).value.Dir? && Included(exclude, p)
    ensures At(Merge(src, dst, exclude), p).Some? && At(Merge(src, dst, exclude), p).value.Dir?
       <==> !MeetsFile(dst, p) && !(At(dst, p).Some? && At(dst, p).value.File?)
    ensures MeetsFile(dst, p) || (At(dst, p).Some? && At(dst, p).value.File?)
        ==> At(Merge(src, dst, exclude), p) == At(dst, p)
    decreases |p|
  {
    var n := p[0];
    MergeLookup(src, dst, exclude, n);
    if |p| > 1 && n in dst && dst[n].Dir? {
      DirectoriesArriveIff(src[n].entries, dst[n].entries, exclude, p[1..]);
    }
  }

  // Walking along the path through names that are not excluded comes to one that is missing
  // in the destination, before the path's end.
  ghost predicate CopiedWhole(dst: Tree, exclude: set<string>, p: Path)
    decreases |p|
  {
    && |p| > 1 && p[0] !in exclude
    && (p[0] !in dst || (dst[p[0]].Dir? && CopiedWhole(dst[p[0]].entries, exclude, p[1..])))
  }

  // A source path with an excluded name in it is left out exactly unless a directory above
  // that name is copied whole; then it arrives all the same.
  lemma {:induction false} ExcludedArriveIff(src: Tree, dst: Tree, exclude: set<string>, p: Path)
    requires At(src, p).Some? && !Included(exclude, p)
    ensures At(Merge(src, dst, exclude), p) == if CopiedWhole(dst, exclude, p) then At(src, p) else At(dst, p)
    ensures CopiedWhole(dst, exclude, p) ==> At(dst, p).None?
    decreases |p|
  {
    var n := p[0];
    MergeLookup(src, dst, exclude, n);
    if n !in exclude && |p| > 1 && n in dst && dst[n].Dir? {
      assert !Included(exclude, p[1..]);
      ExcludedArriveIff(src[n].entries, dst[n].entries, exclude, p[1..]);
    }
  }

  // The same excluded file below a missing and below an existing directory.
  lemma ExcludedNameIsCopied()
    ensures var src: Tree := map["lib" := Dir(map[".git" := File("config")])];
            && At(Merge(src, map[], {".git"}), ["lib", ".git"]) == Some(File("config"))
            && At(Merge(src, map["lib" := Dir(map[])], {".git"}), ["lib", ".git"]) == None
  {
    var inner: Tree := map[".git" := File("config")];
    var src: Tree := map["lib" := Dir(inner)];
    var p: Path := ["lib", ".git"];
    assert p[1..] == [".git"];
    assert At(inner, p[1..]) == Some(File("config")) && p[1] == ".git";
    ExcludedArriveIff(src, map[], {".git"}, p);
    ExcludedArriveIff(src, map["lib" := Dir(map[])], {".git"}, p);
  }

  // When a source file is stopped by an obstacle, its path is left as it was.
  lemma {:induction false} ObstaclesKeep(src: Tree, dst: Tree, exclude: set<string>, p: Path)
    requires At(src, p).Some? && At(src, p).value.File? && Included(exclude, p)
    requires MeetsFile(dst, p) || MeetsDirectory(dst, p)
    ensures At(Merge(src, dst, exclude), p) == At(dst, p)
    decreases |p|
  {
    var n := p[0];
    MergeLookup(src, dst, exclude, n);
    if |p| > 1 && dst[n].Dir? {
      ObstaclesKeep(src[n].entries, dst[n].entries, exclude, p[1..]);
    }
  }
}
