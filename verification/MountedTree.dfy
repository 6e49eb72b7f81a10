/** Layer extraction as it runs: loops over tar entries that delete from and write into the mounted tree. */
module MountedTree {
  import opened Wrappers
  import opened Layers
  import opened LayerEntries

  /** A whiteout that names a child of its directory, not the directory itself or its parent. */
  predicate NormalTarget(e: TarEntry) {
    e.path != [] ==> e.path[|e.path| - 1] !in {".wh.", ".wh..", ".wh..."}
  }

  class Mount {
    var tree: Tree

    ghost predicate Valid()
      reads this
    {
      WellFormed(tree)
    }

    constructor ()
      ensures tree == map[] && Valid()
    {
      tree := map[];
    }

    predicate IsDir(p: Path)
      reads this
    {
      p == [] || Get(tree, p) == Some(Dir)
    }

    /** `remove_dir_all` on a directory. */
    method RemoveDirAll(p: Path)
      modifies this
      ensures tree == Prune(old(tree), p)
    {
      tree := Prune(tree, p);
    }

    /** `remove_file`: the single node, if there is one; the caller ignores errors. */
    method RemoveFile(p: Path)
      requires !IsDir(p)
      modifies this
      ensures tree == old(tree) - {p}
    {
      tree := tree - {p};
    }

    /** Delete a file or a whole directory, whichever is there. */
    method Remove(p: Path)
      requires Valid()
      modifies this
      ensures tree == Prune(old(tree), p)
      ensures Valid()
    {
      ApplyWellFormed(tree, Whiteout(p));
      ParentsAreDirectories(tree, p);
      ghost var pruned := Prune(tree, p);
      if IsDir(p) {
        RemoveDirAll(p);
      } else {
        assert forall q | q in tree && p <= q :: q == p;
        RemoveFile(p);
      }
      assert tree == pruned;
    }

    /** The listing of a directory. */
    function Children(dir: Path): (children: set<Path>)
      reads this
      ensures forall c :: c in children <==> c in tree && |c| == |dir| + 1 && dir <= c
    {
      set p | p in tree && |p| == |dir| + 1 && dir <= p
    }

    /** Opaque whiteout: delete the children one by one, each with what is below it. */
    method ClearDirectory(dir: Path)
      requires Valid()
      modifies this
      ensures tree == Clear(old(tree), dir)
      ensures Valid()
    {
      var listing := Children(dir);
      ghost var all := listing;
      while listing != {}
        invariant Valid() && listing <= all
        invariant forall c | c in listing :: |c| == |dir| + 1 && dir <= c
        invariant forall p :: p in tree <==> p in old(tree) && !(dir < p && p[..|dir| + 1] in all - listing)
        invariant forall p | p in tree :: tree[p] == old(tree)[p]
        decreases listing
      {
        var child :| child in listing;
        label before:
        Remove(child);
        listing := listing - {child};
        forall p
          ensures p in tree <==> p in old(tree) && !(dir < p && p[..|dir| + 1] in all - listing)
        {
          if dir < p && p[..|dir| + 1] == child {
            assert child <= p;
          }
          if child <= p {
            assert dir < p && p[..|dir| + 1] == child;
          }
        }
      }
      forall p | p in old(tree) && dir < p
        ensures p[..|dir| + 1] in all
      {
        var c := p[..|dir| + 1];
        assert c in old(tree) by {
          if |c| == |p| {
            assert c == p;
          }
        }
      }
    }

    /** Unpack one ordinary entry, creating missing parents. */
    method UnpackIn(p: Path, node: Node) returns (r: Result<bool, Path>)
      requires Valid()
      modifies this
      ensures match Unpack(old(tree), p, node) { case Ok(t) => r.Ok? && tree == t case Err(e) => r == Err(e) }
      ensures Valid()
    {
      var t := Unpack(tree, p, node);
      if t.Err? {
        return Err(t.error);
      }
      assert Apply(tree, Add(p, node)) == t;
      ApplyWellFormed(tree, Add(p, node));
      tree := t.value;
      return Ok(p != []);
    }

    /** One entry: an opaque marker, a whiteout, or something to unpack. */
    method ExtractEntry(e: TarEntry) returns (r: Result<bool, Path>)
      requires Valid() && NormalTarget(e)
      modifies this
      ensures match Apply(old(tree), Decode(e)) { case Ok(t) => r.Ok? && tree == t case Err(p) => r == Err(p) }
      ensures Extracted(old(tree), e, r.Err?, tree)
      ensures Valid()
    {
      StepDone(tree, e);
      if e.path != [] {
        var n := |e.path| - 1;
        var parent, name := e.path[..n], e.path[n];
        if name == OPAQUE_NAME {
          var there := parent == [] || parent in tree;
          if there {
            if !IsDir(parent) {
              return Err(parent);
            }
            ClearDirectory(parent);
          } else {
            ParentsAreDirectories(tree, parent);
            assert Clear(tree, parent) == tree;
          }
          return Ok(true);
        }
        if WHITEOUT_PREFIX <= name {
          Remove(parent + [name[|WHITEOUT_PREFIX|..]]);
          return Ok(true);
        }
      }
      r := UnpackIn(e.path, e.node);
    }

    /** A whole layer in streaming order, up to the first entry that fails. */
    method ExtractLayer(entries: seq<TarEntry>) returns (r: Result<bool, Path>)
      requires Valid() && forall e | e in entries :: NormalTarget(e)
      modifies this
      ensures match Stream(old(tree), Decoded(entries)) { case Ok(t) => r.Ok? && tree == t case Err(p) => r == Err(p) }
      ensures r.Ok? ==> LayerApplied(old(tree), entries, tree)
      ensures Valid()
    {
      for i := 0 to |entries|
        invariant Valid() && Stream(old(tree), Decoded(entries[..i])) == Ok(tree)
      {
        StreamNext(old(tree), entries, i, tree);
        r := ExtractEntry(entries[i]);
        if r.Err? {
          StreamStops(old(tree), Decoded(entries), i + 1, r.error);
          return;
        }
      }
      assert entries[..|entries|] == entries;
      LayerDone(old(tree), entries);
      r := Ok(true);
    }

    /** All layers bottom to top; the first failure ends the extraction. */
    method ExtractAllLayers(layers: seq<Layer>) returns (r: Result<bool, Path>)
      requires Valid() && forall l, e | l in layers && e in l.entries :: NormalTarget(e)
      modifies this
      ensures match StreamAll(old(tree), layers) { case Ok(t) => r.Ok? && tree == t case Err(p) => r == Err(p) }
      ensures old(tree) == map[] && r.Ok? ==> ImageOf(layers, tree)
      ensures old(tree) == map[] ==> (r.Ok? <==> NothingBlockedAnywhere(layers))
      ensures Valid()
    {
      ImageExtracted(layers);
      for i := 0 to |layers|
        invariant Valid() && StreamAll(old(tree), layers[..i]) == Ok(tree)
      {
        assert layers[..i + 1][..i] == layers[..i];
        if IsFilesystem(layers[i]) {
          r := ExtractLayer(layers[i].entries);
          if r.Err? {
            StreamAllStops(old(tree), layers, i + 1, r.error);
            return;
          }
        }
      }
      assert layers[..|layers|] == layers;
      r := Ok(true);
    }
  }

  lemma StreamNext(t: Tree, entries: seq<TarEntry>, i: nat, t': Tree)
    requires i < |entries| && Stream(t, Decoded(entries[..i])) == Ok(t')
    ensures Stream(t, Decoded(entries[..i + 1])) == Apply(t', Decode(entries[i]))
    ensures Decoded(entries)[..i + 1] == Decoded(entries[..i + 1])
  {
    assert Decoded(entries[..i + 1])[..i] == Decoded(entries[..i]);
  }

  /** Only below a directory is there anything. */
  lemma ParentsAreDirectories(t: Tree, p: Path)
    requires WellFormed(t)
    ensures p == [] || Get(t, p) == Some(Dir) || forall q | q in t :: !(p < q)
  {
    forall q | q in t && p < q
      ensures p == [] || Get(t, p) == Some(Dir)
    {
      assert q[..|p|] == p;
    }
  }

  /** A failed prefix decides the whole stream. */
  lemma {:induction false} StreamStops(t: Tree, ops: seq<Op>, i: nat, p: Path)
    requires i <= |ops| && Stream(t, ops[..i]) == Err(p)
    ensures Stream(t, ops) == Err(p)
  {
    if i < |ops| {
      assert ops[..|ops| - 1][..i] == ops[..i];
      StreamStops(t, ops[..|ops| - 1], i, p);
    } else {
      assert ops[..i] == ops;
    }
  }

  lemma {:induction false} StreamAllStops(t: Tree, layers: seq<Layer>, i: nat, p: Path)
    requires i <= |layers| && StreamAll(t, layers[..i]) == Err(p)
    ensures StreamAll(t, layers) == Err(p)
  {
    if i < |layers| {
      assert layers[..|layers| - 1][..i] == layers[..i];
      StreamAllStops(t, layers[..|layers| - 1], i, p);
    } else {
      assert layers[..i] == layers;
    }
  }
}
