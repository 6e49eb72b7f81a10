/**
 Image extraction told from the tar entries themselves: their paths, their nodes and the
 file names that make an entry a whiteout.
 */
module LayerEntries {
  import opened Wrappers
  import opened Layers

  // ---- One entry ----

  /** No marker file: its name does not start with the whiteout prefix. */
  predicate Ordinary(e: TarEntry) {
    e.path == [] || !(".wh." <= e.path[|e.path| - 1])
  }

  /** The entry is the path's own, or lies below it and brings it along as a parent. */
  predicate Creates(e: TarEntry, p: Path) {
    Ordinary(e) && p != [] && p <= e.path
  }

  predicate Puts(e: TarEntry, p: Path, node: Node) {
    Creates(e, p) && node == if e.path == p then e.node else Dir
  }

  /** The entry is the opaque marker of a directory above the path, or the whiteout of the path or of an ancestor. */
  ghost predicate Hides(e: TarEntry, p: Path) {
    || (exists dir: Path :: e.path == dir + [".wh..wh..opq"] && dir < p)
    || (exists dir: Path, name: string ::
          e.path == dir + [".wh." + name] && name != ".wh..opq" && dir + [name] <= p)
  }

  lemma OrdinaryIsAdded(e: TarEntry)
    requires Ordinary(e)
    ensures Decode(e) == Add(e.path, e.node)
  {
    assert ".wh." <= ".wh..wh..opq";
  }

  lemma MarkerIsOpaque(dir: Path, node: Node)
    ensures Decode(TarEntry(dir + [".wh..wh..opq"], node)) == Opaque(dir)
  {
    var p := dir + [".wh..wh..opq"];
    assert p[..|p| - 1] == dir;
  }

  lemma WhiteoutIsDecoded(dir: Path, name: string, node: Node)
    requires name != ".wh..opq"
    ensures Decode(TarEntry(dir + [".wh." + name], node)) == Whiteout(dir + [name])
  {
    var target := dir + [name];
    assert target[..|target| - 1] == dir;
    WhiteoutRoundTrip(target, node);
  }

  lemma LastName(path: Path, dir: Path, name: string)
    ensures path == dir + [name] <==> path != [] && dir == path[..|path| - 1] && name == path[|path| - 1]
  {
  }

  /** The two kinds of marker told apart by the file name. */
  lemma HidesByName(e: TarEntry, p: Path)
    ensures Hides(e, p) <==>
      e.path != [] &&
      var dir, name := e.path[..|e.path| - 1], e.path[|e.path| - 1];
      if name == ".wh..wh..opq" then dir < p else ".wh." <= name && dir + [name[4..]] <= p
  {
    forall dir: Path
      ensures e.path == dir + [".wh..wh..opq"] <==>
        e.path != [] && dir == e.path[..|e.path| - 1] && ".wh..wh..opq" == e.path[|e.path| - 1]
    {
      LastName(e.path, dir, ".wh..wh..opq");
    }
    forall dir: Path, name: string
      ensures e.path == dir + [".wh." + name] <==>
        e.path != [] && dir == e.path[..|e.path| - 1] && ".wh." + name == e.path[|e.path| - 1]
      ensures (".wh." + name)[4..] == name
      ensures ".wh." + name == ".wh..wh..opq" <==> name == ".wh..opq"
    {
      LastName(e.path, dir, ".wh." + name);
      PrefixedName(name);
    }
    if e.path != [] && ".wh." <= e.path[|e.path| - 1] {
      var dir, name := e.path[..|e.path| - 1], e.path[|e.path| - 1][4..];
      assert e.path[|e.path| - 1] == ".wh." + name;
      assert e.path == dir + [".wh." + name];
      PrefixedName(name);
    }
  }

  lemma PrefixedName(name: string)
    ensures (".wh." + name)[4..] == name
    ensures ".wh." + name == ".wh..wh..opq" <==> name == ".wh..opq"
  {
    assert ".wh." + ".wh..opq" == ".wh..wh..opq";
    assert ".wh..wh..opq"[4..] == ".wh..opq";
  }

  /** What an entry does to a path is what its decoded step does. */
  lemma EntryIsItsStep(e: TarEntry, p: Path)
    ensures Creates(e, p) <==> Establishes(Decode(e), p)
    ensures Hides(e, p) <==> Covers(Decode(e), p)
    ensures Creates(e, p) ==> Puts(e, p, NodeFor(Decode(e), p))
  {
    hide Hides;
    HidesByName(e, p);
    assert ".wh." <= ".wh..wh..opq";
  }

  // ---- A layer ----

  /** The two media types that are extracted. */
  predicate GzippedTar(layer: Layer) {
    || layer.mediaType == "application/vnd.oci.image.layer.v1.tar+gzip"
    || layer.mediaType == "application/vnd.docker.image.rootfs.diff.tar.gzip"
  }

  lemma GzippedTarIsFilesystem(layer: Layer)
    ensures GzippedTar(layer) <==> IsFilesystem(layer)
  {
  }

  /** No entry from this one on creates the path. */
  predicate NotCreatedFrom(entries: seq<TarEntry>, from: nat, p: Path) {
    forall k | from <= k < |entries| :: !Creates(entries[k], p)
  }

  ghost predicate NotHiddenFrom(entries: seq<TarEntry>, from: nat, p: Path) {
    forall k | from <= k < |entries| :: !Hides(entries[k], p)
  }

  /** The layer is skipped, or none of its entries concerns the path. */
  ghost predicate Untouched(layer: Layer, p: Path) {
    GzippedTar(layer) ==> NotCreatedFrom(layer.entries, 0, p) && NotHiddenFrom(layer.entries, 0, p)
  }

  lemma CreatedLast(entries: seq<TarEntry>, p: Path)
    ensures var e := LastAdd(Decoded(entries), p);
      && NotCreatedFrom(entries, e + 1, p)
      && (e >= 0 ==> Puts(entries[e], p, NodeFor(Decoded(entries)[e], p)))
  {
    forall k | 0 <= k < |entries|
      ensures Creates(entries[k], p) <==> Establishes(Decoded(entries)[k], p)
      ensures Creates(entries[k], p) ==> Puts(entries[k], p, NodeFor(Decoded(entries)[k], p))
    {
      EntryIsItsStep(entries[k], p);
    }
  }

  lemma HiddenLast(entries: seq<TarEntry>, p: Path)
    ensures var w := LastWhiteout(Decoded(entries), p);
      NotHiddenFrom(entries, w + 1, p) && (w >= 0 ==> Hides(entries[w], p))
  {
    forall k | 0 <= k < |entries|
      ensures Hides(entries[k], p) <==> Covers(Decoded(entries)[k], p)
    {
      EntryIsItsStep(entries[k], p);
    }
  }

  lemma UntouchedIsSilent(layer: Layer, p: Path)
    ensures Untouched(layer, p) <==> Silent(layer, p)
  {
    hide Creates, Hides;
    GzippedTarIsFilesystem(layer);
    CreatedLast(layer.entries, p);
    HiddenLast(layer.entries, p);
  }

  /** Entry `i` has the last word on the path: it puts the node there, and no later entry concerns the path. */
  ghost predicate LastWord(layer: Layer, i: nat, p: Path, node: Node) {
    && GzippedTar(layer)
    && i < |layer.entries| && Puts(layer.entries[i], p, node)
    && NotCreatedFrom(layer.entries, i + 1, p)
    && NotHiddenFrom(layer.entries, i + 1, p)
  }

  lemma LastWordIsDefines(layer: Layer, i: nat, p: Path, node: Node)
    ensures LastWord(layer, i, p, node) <==>
      Defines(layer, p, node) && i == LastAdd(Decoded(layer.entries), p)
  {
    hide Hides;
    GzippedTarIsFilesystem(layer);
    CreatedLast(layer.entries, p);
    HiddenLast(layer.entries, p);
    OneLastStep(Decoded(layer.entries), p);
  }

  // ---- The image ----

  /** Entry `i` of layer `l` has the last word, and no layer above concerns the path. */
  ghost predicate TopmostEntry(layers: seq<Layer>, l: nat, i: nat, p: Path, node: Node) {
    && l < |layers| && LastWord(layers[l], i, p, node)
    && forall k | l < k < |layers| :: Untouched(layers[k], p)
  }

  lemma TopmostEntryDefines(layers: seq<Layer>, l: nat, i: nat, p: Path, node: Node)
    ensures TopmostEntry(layers, l, i, p, node) <==>
      TopmostDefines(layers, l, p, node) && i == LastAdd(Decoded(layers[l].entries), p)
  {
    hide LastWord, Untouched, Defines, Silent;
    if l < |layers| {
      LastWordIsDefines(layers[l], i, p, node);
      forall k | l < k < |layers|
        ensures Untouched(layers[k], p) <==> Silent(layers[k], p)
      {
        UntouchedIsSilent(layers[k], p);
      }
    }
  }

  /**
   Over an empty image, what stands at a path is the node of an entry of that path, or a
   directory that an entry below it brings along: the one that has the last word in the
   topmost extracted layer with an entry or whiteout concerning the path.
   */
  lemma TopmostEntryWins(layers: seq<Layer>, p: Path, node: Node)
    requires StreamAll(map[], layers).Ok? && p != []
    ensures Get(StreamAll(map[], layers).value, p) == Some(node) <==>
      exists l: nat, i: nat :: TopmostEntry(layers, l, i, p, node)
  {
    hide TopmostEntry, StreamAll, Decoded;
    TopmostLayerWins(layers, p, node);
    forall l: nat, i: nat
      ensures TopmostEntry(layers, l, i, p, node) ==> TopmostDefines(layers, l, p, node)
    {
      TopmostEntryDefines(layers, l, i, p, node);
    }
    forall l: nat | TopmostDefines(layers, l, p, node)
      ensures exists i: nat :: TopmostEntry(layers, l, i, p, node)
    {
      TopmostEntryDefines(layers, l, LastAdd(Decoded(layers[l].entries), p), p, node);
    }
  }

  // ---- When extraction succeeds ----

  /** The image up to this entry, without it. */
  function UpTo(layers: seq<Layer>, l: nat, i: nat): seq<Layer>
    requires l < |layers| && i <= |layers[l].entries|
  {
    layers[..l] + [Layer(layers[l].mediaType, layers[l].entries[..i])]
  }

  /** In the image of these layers the node stands at the path. */
  ghost predicate Stands(layers: seq<Layer>, p: Path, node: Node) {
    exists l: nat, i: nat :: TopmostEntry(layers, l, i, p, node)
  }

  ghost predicate FileStands(layers: seq<Layer>, p: Path) {
    exists content :: Stands(layers, p, File(content))
  }

  /**
   The entry cannot be extracted onto what stands before it: a parent is a file, a file is
   to replace a directory or a directory a file, or the marker's directory is a file.
   */
  ghost predicate Blocked(before: seq<Layer>, e: TarEntry) {
    || (Ordinary(e) && e.path != [] && exists k :: 0 < k < |e.path| && FileStands(before, e.path[..k]))
    || (Ordinary(e) && e.path != [] && e.node == Dir && FileStands(before, e.path))
    || (Ordinary(e) && e.path != [] && e.node.File? && Stands(before, e.path, Dir))
    || (exists dir: Path :: dir != [] && e.path == dir + [".wh..wh..opq"] && FileStands(before, dir))
  }

  /** An image of which every tree node is known from its entries blocks exactly the entries that fail. */
  lemma BlockedIsError(t: Tree, before: seq<Layer>, e: TarEntry)
    requires forall p: Path, node | p != [] :: Get(t, p) == Some(node) <==> Stands(before, p, node)
    requires WellFormed(t)
    ensures Apply(t, Decode(e)).Err? <==> Blocked(before, e)
  {
    hide Stands;
    forall p: Path | p != []
      ensures IsFile(Get(t, p)) <==> FileStands(before, p)
    {
      if IsFile(Get(t, p)) {
        assert Get(t, p) == Some(File(t[p].content));
      }
    }
    if Ordinary(e) {
      OrdinaryIsAdded(e);
      OrdinaryBlocked(t, before, e);
    } else {
      MarkerBlocked(t, before, e);
    }
  }

  lemma OrdinaryBlocked(t: Tree, before: seq<Layer>, e: TarEntry)
    requires Ordinary(e)
    requires forall p: Path | p != [] :: IsFile(Get(t, p)) <==> FileStands(before, p)
    requires forall p: Path | p != [] :: Get(t, p) == Some(Dir) <==> Stands(before, p, Dir)
    ensures Unpack(t, e.path, e.node).Err? <==> Blocked(before, e)
  {
    hide Stands, FileStands;
    forall dir: Path
      ensures e.path != dir + [".wh..wh..opq"]
    {
      LastName(e.path, dir, ".wh..wh..opq");
      assert ".wh." <= ".wh..wh..opq";
    }
    forall k | 0 < k < |e.path|
      ensures IsFile(Get(t, e.path[..k])) <==> FileStands(before, e.path[..k])
    {
      assert e.path[..k] != [];
    }
  }

  lemma MarkerBlocked(t: Tree, before: seq<Layer>, e: TarEntry)
    requires !Ordinary(e) && [] !in t
    requires forall p: Path | p != [] :: IsFile(Get(t, p)) <==> FileStands(before, p)
    ensures Apply(t, Decode(e)).Err? <==> Blocked(before, e)
  {
    hide Stands, FileStands;
    var parent := e.path[..|e.path| - 1];
    forall dir: Path
      ensures e.path == dir + [".wh..wh..opq"] <==> dir == parent && e.path[|e.path| - 1] == ".wh..wh..opq"
    {
      LastName(e.path, dir, ".wh..wh..opq");
    }
  }

  lemma NextEntry(layers: seq<Layer>, l: nat, i: nat)
    requires l < |layers| && i < |layers[l].entries| && GzippedTar(layers[l])
    ensures var r := StreamAll(map[], UpTo(layers, l, i));
      StreamAll(map[], UpTo(layers, l, i + 1)) == if r.Err? then r else Apply(r.value, Decode(layers[l].entries[i]))
  {
    var entries := layers[l].entries;
    GzippedTarIsFilesystem(layers[l]);
    assert UpTo(layers, l, i)[..l] == layers[..l] == UpTo(layers, l, i + 1)[..l];
    assert Decoded(entries[..i + 1])[..i] == Decoded(entries[..i]);
  }

  lemma FirstEntry(layers: seq<Layer>, l: nat)
    requires l < |layers|
    ensures StreamAll(map[], UpTo(layers, l, 0)) == StreamAll(map[], layers[..l])
  {
    assert UpTo(layers, l, 0)[..l] == layers[..l];
    assert Decoded([]) == [];
  }

  lemma EntryExtracts(layers: seq<Layer>, l: nat, i: nat)
    requires l < |layers| && i < |layers[l].entries| && GzippedTar(layers[l])
    requires StreamAll(map[], UpTo(layers, l, i)).Ok?
    ensures StreamAll(map[], UpTo(layers, l, i + 1)).Ok? <==> !Blocked(UpTo(layers, l, i), layers[l].entries[i])
  {
    hide TopmostEntry, Blocked, StreamAll;
    var before := UpTo(layers, l, i);
    var t := StreamAll(map[], before).value;
    NextEntry(layers, l, i);
    forall p: Path, node | p != []
      ensures Get(t, p) == Some(node) <==> Stands(before, p, node)
    {
      TopmostEntryWins(before, p, node);
    }
    StreamAllWellFormed(before);
    BlockedIsError(t, before, layers[l].entries[i]);
  }

  lemma {:induction false} StreamAllWellFormed(layers: seq<Layer>)
    requires StreamAll(map[], layers).Ok?
    ensures WellFormed(StreamAll(map[], layers).value)
  {
    if layers != [] {
      var n := |layers| - 1;
      StreamAllWellFormed(layers[..n]);
      if IsFilesystem(layers[n]) {
        StreamWellFormed(StreamAll(map[], layers[..n]).value, Decoded(layers[n].entries));
      }
    }
  }

  /** None of the first `n` entries of the layer finds something in its way. */
  ghost predicate NothingBlocked(layers: seq<Layer>, l: nat, n: nat)
    requires l < |layers| && n <= |layers[l].entries|
  {
    GzippedTar(layers[l]) ==> forall i | 0 <= i < n :: !Blocked(UpTo(layers, l, i), layers[l].entries[i])
  }

  lemma {:induction false} LayerExtracts(layers: seq<Layer>, l: nat, n: nat)
    requires l < |layers| && n <= |layers[l].entries| && GzippedTar(layers[l])
    requires StreamAll(map[], layers[..l]).Ok?
    ensures StreamAll(map[], UpTo(layers, l, n)).Ok? <==> NothingBlocked(layers, l, n)
  {
    hide StreamAll, Blocked;
    if n == 0 {
      FirstEntry(layers, l);
    } else {
      LayerExtracts(layers, l, n - 1);
      NextEntry(layers, l, n - 1);
      if StreamAll(map[], UpTo(layers, l, n - 1)).Ok? {
        EntryExtracts(layers, l, n - 1);
      }
    }
  }

  lemma WholeLayer(layers: seq<Layer>)
    requires layers != []
    ensures var n := |layers| - 1; UpTo(layers, n, |layers[n].entries|) == layers
  {
    var n := |layers| - 1;
    assert layers[n].entries[..|layers[n].entries|] == layers[n].entries;
    assert layers[..n] + [layers[n]] == layers;
  }

  lemma NothingBlockedBelow(layers: seq<Layer>, n: nat, l: nat)
    requires l < n <= |layers|
    ensures NothingBlocked(layers[..n], l, |layers[l].entries|) <==> NothingBlocked(layers, l, |layers[l].entries|)
  {
    hide Blocked;
    assert layers[..n][..l] == layers[..l];
    assert forall i | 0 <= i <= |layers[l].entries| :: UpTo(layers[..n], l, i) == UpTo(layers, l, i);
  }

  /**
   An image is extracted if and only if no entry of a gzipped layer finds a file where it
   needs a directory, or the other way round, in what the entries before it have left.
   */
  lemma {:induction false} ExtractsIffNothingBlocked(layers: seq<Layer>)
    ensures StreamAll(map[], layers).Ok? <==>
      forall l | 0 <= l < |layers| :: NothingBlocked(layers, l, |layers[l].entries|)
  {
    hide NothingBlocked;
    if layers != [] {
      var n := |layers| - 1;
      ExtractsIffNothingBlocked(layers[..n]);
      forall l | 0 <= l < n
        ensures NothingBlocked(layers[..n], l, |layers[l].entries|) <==> NothingBlocked(layers, l, |layers[l].entries|)
      {
        NothingBlockedBelow(layers, n, l);
      }
      TopLayerExtracts(layers);
    }
  }

  lemma TopLayerExtracts(layers: seq<Layer>)
    requires layers != []
    ensures var n := |layers| - 1;
      StreamAll(map[], layers).Ok? <==>
      StreamAll(map[], layers[..n]).Ok? && NothingBlocked(layers, n, |layers[n].entries|)
  {
    hide StreamAll, Blocked;
    var n := |layers| - 1;
    if GzippedTar(layers[n]) && StreamAll(map[], layers[..n]).Ok? {
      LayerExtracts(layers, n, |layers[n].entries|);
      WholeLayer(layers);
    } else {
      TopSkipped(layers);
    }
  }

  lemma TopSkipped(layers: seq<Layer>)
    requires layers != [] && (!GzippedTar(layers[|layers| - 1]) || StreamAll(map[], layers[..|layers| - 1]).Err?)
    ensures StreamAll(map[], layers) == StreamAll(map[], layers[..|layers| - 1])
  {
    GzippedTarIsFilesystem(layers[|layers| - 1]);
  }

  // ---- The specification's image ----

  /** The layer's last entry that creates the path puts the node there, wherever the whiteouts stand. */
  predicate LastEntry(layer: Layer, i: nat, p: Path, node: Node) {
    && GzippedTar(layer)
    && i < |layer.entries| && Puts(layer.entries[i], p, node)
    && NotCreatedFrom(layer.entries, i + 1, p)
  }

  /**
   The changeset semantics of the OCI image specification: the topmost layer with an entry or
   whiteout concerning the path has an entry for it, and its last one puts the node there.
   */
  ghost predicate Specified(layers: seq<Layer>, p: Path, node: Node) {
    exists l: nat :: SpecifiedBy(layers, l, p, node)
  }

  ghost predicate SpecifiedBy(layers: seq<Layer>, l: nat, p: Path, node: Node) {
    && l < |layers| && (exists i: nat :: LastEntry(layers[l], i, p, node))
    && forall k | l < k < |layers| :: Untouched(layers[k], p)
  }

  lemma LastEntryIsLastAdd(layer: Layer, p: Path, node: Node)
    ensures (exists i: nat :: LastEntry(layer, i, p, node)) <==>
      IsFilesystem(layer) && LastAdd(Decoded(layer.entries), p) >= 0
      && NodeFor(Decoded(layer.entries)[LastAdd(Decoded(layer.entries), p)], p) == node
  {
    hide Creates;
    var e := LastAdd(Decoded(layer.entries), p);
    GzippedTarIsFilesystem(layer);
    CreatedLast(layer.entries, p);
    forall i: nat | LastEntry(layer, i, p, node)
      ensures i == e
    {
    }
    if e >= 0 && IsFilesystem(layer) && NodeFor(Decoded(layer.entries)[e], p) == node {
      assert LastEntry(layer, e, p, node);
    }
  }

  lemma SpecifiedOnTop(before: seq<Layer>, top: Layer, l: nat, p: Path, node: Node)
    ensures Untouched(top, p) ==> (SpecifiedBy(before + [top], l, p, node) <==>
      SpecifiedBy(before, l, p, node) || (l == |before| && exists i: nat :: LastEntry(top, i, p, node)))
    ensures !Untouched(top, p) ==> (SpecifiedBy(before + [top], l, p, node) <==>
      l == |before| && exists i: nat :: LastEntry(top, i, p, node))
  {
    hide Untouched, LastEntry;
    var layers := before + [top];
    assert layers[|before|] == top;
    assert forall k | 0 <= k < |before| :: layers[k] == before[k];
  }

  /** The recursive stacking of changesets is the declarative image. */
  lemma {:induction false} ImageChangesetIsSpecified(layers: seq<Layer>, p: Path, node: Node)
    ensures ImageChangeset(layers, p) == Some(node) <==> Specified(layers, p, node)
  {
    if layers != [] {
      hide LastEntry, Untouched, SpecifiedBy;
      var n := |layers| - 1;
      var before, top := layers[..n], layers[n];
      assert layers == before + [top];
      ImageChangesetIsSpecified(before, p, node);
      UntouchedIsSilent(top, p);
      LastEntryIsLastAdd(top, p, node);
      forall l: nat
        ensures Untouched(top, p) ==> (SpecifiedBy(layers, l, p, node) <==>
          SpecifiedBy(before, l, p, node) || (l == n && exists i: nat :: LastEntry(top, i, p, node)))
        ensures !Untouched(top, p) ==> (SpecifiedBy(layers, l, p, node) <==>
          l == n && exists i: nat :: LastEntry(top, i, p, node))
      {
        SpecifiedOnTop(before, top, l, p, node);
      }
      assert !Untouched(top, p) ==> (SpecifiedBy(layers, n, p, node) <==> exists i: nat :: LastEntry(top, i, p, node));
    }
  }

  /** Entry `i` creates the path, the later entry `w` hides it for good, and no layer above concerns it. */
  ghost predicate Lost(layers: seq<Layer>, l: nat, i: nat, w: nat, p: Path) {
    && l < |layers| && GzippedTar(layers[l])
    && i < w < |layers[l].entries|
    && Creates(layers[l].entries[i], p) && Hides(layers[l].entries[w], p)
    && NotCreatedFrom(layers[l].entries, w + 1, p)
    && forall k | l < k < |layers| :: Untouched(layers[k], p)
  }

  lemma LostInLayer(entries: seq<TarEntry>, i: nat, w: nat, p: Path)
    requires i < w < |entries|
    requires Creates(entries[i], p) && Hides(entries[w], p) && NotCreatedFrom(entries, w + 1, p)
    ensures 0 <= LastAdd(Decoded(entries), p) < LastWhiteout(Decoded(entries), p)
  {
    var ops := Decoded(entries);
    EntryIsItsStep(entries[i], p);
    EntryIsItsStep(entries[w], p);
    CreatedLast(entries, p);
    assert Establishes(ops[i], p) && Covers(ops[w], p);
    OneLastStep(ops, p);
  }

  lemma LostIsLostAt(layers: seq<Layer>, l: nat, p: Path)
    ensures (exists i: nat, w: nat :: Lost(layers, l, i, w, p)) <==> LostAt(layers, l, p)
  {
    hide Creates, Hides, Untouched, Silent;
    if l < |layers| {
      var entries := layers[l].entries;
      var e, w := LastAdd(Decoded(entries), p), LastWhiteout(Decoded(entries), p);
      GzippedTarIsFilesystem(layers[l]);
      forall k | l < k < |layers|
        ensures Untouched(layers[k], p) <==> Silent(layers[k], p)
      {
        UntouchedIsSilent(layers[k], p);
      }
      forall i: nat, w: nat | Lost(layers, l, i, w, p)
        ensures LostAt(layers, l, p)
      {
        LostInLayer(entries, i, w, p);
      }
      CreatedLast(entries, p);
      HiddenLast(entries, p);
      assert LostAt(layers, l, p) ==> Lost(layers, l, e, w, p);
    }
  }

  /** The tree has at the path what the specification says. */
  ghost predicate AsSpecified(t: Tree, layers: seq<Layer>, p: Path) {
    forall node :: Get(t, p) == Some(node) <==> Specified(layers, p, node)
  }

  ghost predicate NeverLost(layers: seq<Layer>, p: Path) {
    forall l: nat, i: nat, w: nat :: !Lost(layers, l, i, w, p)
  }

  /** At one path: what extraction leaves is what the specification says, unless an entry is lost. */
  lemma SpecifiedIffNotLost(layers: seq<Layer>, p: Path)
    requires StreamAll(map[], layers).Ok? && p != []
    ensures AsSpecified(StreamAll(map[], layers).value, layers, p) <==> NeverLost(layers, p)
  {
    hide Lost, LostAt, Specified, StreamAll, Stacked, ImageChangeset;
    var t, meant := StreamAll(map[], layers).value, ImageChangeset(layers, p);
    StreamAllIsStacked(layers, p);
    StackedIsChangesets(layers, p);
    forall node
      ensures meant == Some(node) <==> Specified(layers, p, node)
    {
      ImageChangesetIsSpecified(layers, p, node);
    }
    SameOption(Get(t, p), meant);
    NeverLostIsNowhere(layers, p);
  }

  lemma NeverLostIsNowhere(layers: seq<Layer>, p: Path)
    ensures NeverLost(layers, p) <==> forall l: nat :: !LostAt(layers, l, p)
  {
    hide Lost, LostAt;
    if NeverLost(layers, p) {
      forall l: nat
        ensures !LostAt(layers, l, p)
      {
        LostIsLostAt(layers, l, p);
      }
    } else {
      var l: nat, i: nat, w: nat :| Lost(layers, l, i, w, p);
      LostIsLostAt(layers, l, p);
    }
  }

  lemma SameOption(a: Option<Node>, b: Option<Node>)
    ensures a == b <==> forall node :: a == Some(node) <==> b == Some(node)
  {
    if a != b {
      if a.Some? {
        assert !(a == Some(a.value) <==> b == Some(a.value));
      } else {
        assert !(a == Some(b.value) <==> b == Some(b.value));
      }
    }
  }

  /**
   An image that can be extracted is the one the specification describes if and only if no
   entry, nor a parent it brings along, is hidden by a later whiteout of its own layer and
   neither created again there nor concerned by a layer above.
   */
  lemma ImageIsSpecifiedIffNothingLost(layers: seq<Layer>)
    requires StreamAll(map[], layers).Ok?
    ensures (forall p: Path | p != [] :: AsSpecified(StreamAll(map[], layers).value, layers, p)) <==>
      forall p: Path | p != [] :: NeverLost(layers, p)
  {
    hide AsSpecified, NeverLost, StreamAll;
    forall p: Path | p != []
      ensures AsSpecified(StreamAll(map[], layers).value, layers, p) <==> NeverLost(layers, p)
    {
      SpecifiedIffNotLost(layers, p);
    }
  }

  // ---- One entry on any tree ----

  predicate FileAt(t: Tree, p: Path) { p in t && t[p].File? }

  /** Everything below the directory is gone, everything else as before. */
  ghost predicate Emptied(before: Tree, dir: Path, after: Tree) {
    forall q :: Get(after, q) == if dir < q then None else Get(before, q)
  }

  /** The target and everything below it is gone, everything else as before. */
  ghost predicate Removed(before: Tree, target: Path, after: Tree) {
    forall q :: Get(after, q) == if target <= q then None else Get(before, q)
  }

  /** The entry's node at its path, directories at its parents, everything else as before. */
  ghost predicate With(before: Tree, p: Path, node: Node, after: Tree) {
    forall q ::
      Get(after, q) == if q == p then Some(node) else if q != [] && q <= p then Some(Dir) else Get(before, q)
  }

  /** What extracting one entry does, by its file name. */
  ghost predicate Extracted(before: Tree, e: TarEntry, failed: bool, after: Tree) {
    && (e.path == [] ==> !failed && after == before)
    && (e.path != [] && Ordinary(e) ==>
          && (failed <==>
                || (exists k :: 0 < k < |e.path| && FileAt(before, e.path[..k]))
                || (e.path in before && before[e.path].Dir? != e.node.Dir?))
          && (!failed ==> With(before, e.path, e.node, after)))
    && (forall dir: Path | e.path == dir + [".wh..wh..opq"] ::
          && (failed <==> FileAt(before, dir))
          && (!failed ==> Emptied(before, dir, after)))
    && (forall dir: Path, name: string | e.path == dir + [".wh." + name] && name != ".wh..opq" ::
          !failed && Removed(before, dir + [name], after))
  }

  lemma StepExtracts(t: Tree, e: TarEntry, failed: bool, t': Tree)
    requires match Apply(t, Decode(e)) { case Ok(done) => !failed && t' == done case Err(_) => failed }
    ensures Extracted(t, e, failed, t')
  {
    forall dir: Path | e.path == dir + [".wh..wh..opq"]
      ensures (failed <==> FileAt(t, dir)) && (!failed ==> Emptied(t, dir, t'))
    {
      MarkerIsOpaque(dir, e.node);
      assert e == TarEntry(dir + [".wh..wh..opq"], e.node);
    }
    forall dir: Path, name: string | e.path == dir + [".wh." + name] && name != ".wh..opq"
      ensures !failed && Removed(t, dir + [name], t')
    {
      WhiteoutIsDecoded(dir, name, e.node);
      assert e == TarEntry(dir + [".wh." + name], e.node);
    }
    if Ordinary(e) {
      OrdinaryIsAdded(e);
      if e.path != [] {
        OrdinaryExtracts(t, e.path, e.node, failed, t');
      }
    }
  }

  lemma OrdinaryExtracts(t: Tree, p: Path, node: Node, failed: bool, t': Tree)
    requires p != [] && match Unpack(t, p, node) { case Ok(done) => !failed && t' == done case Err(_) => failed }
    ensures failed <==>
      (exists k :: 0 < k < |p| && FileAt(t, p[..k])) || (p in t && t[p].Dir? != node.Dir?)
    ensures !failed ==> With(t, p, node, t')
  {
    if failed {
      if exists k :: 0 < k < |p| && IsFile(Get(t, p[..k])) {
        var k :| 0 < k < |p| && IsFile(Get(t, p[..k]));
        assert FileAt(t, p[..k]);
      }
    } else {
      forall k | 0 < k < |p|
        ensures !FileAt(t, p[..k])
      {
        assert !IsFile(Get(t, p[..k]));
      }
      forall q: Path
        ensures q in ProperPrefixes(p) <==> q != [] && q <= p && q != p
      {
        if q != [] && q <= p && q != p {
          assert q == p[..|q|];
        }
      }
    }
  }

  /** Of whatever the step gives: `StepExtracts` for every outcome. */
  lemma StepDone(t: Tree, e: TarEntry)
    ensures Apply(t, Decode(e)).Ok? ==> Extracted(t, e, false, Apply(t, Decode(e)).value)
    ensures Apply(t, Decode(e)).Err? ==> forall t' :: Extracted(t, e, true, t')
  {
    hide Extracted, Apply;
    if Apply(t, Decode(e)).Ok? {
      StepExtracts(t, e, false, Apply(t, Decode(e)).value);
    } else {
      forall t'
        ensures Extracted(t, e, true, t')
      {
        StepExtracts(t, e, true, t');
      }
    }
  }

  /** At every path stands what the last word on it in the topmost layer concerning it says. */
  ghost predicate ImageOf(layers: seq<Layer>, t: Tree) {
    forall p: Path, node | p != [] :: Get(t, p) == Some(node) <==> Stands(layers, p, node)
  }

  ghost predicate NothingBlockedAnywhere(layers: seq<Layer>) {
    forall l | 0 <= l < |layers| :: NothingBlocked(layers, l, |layers[l].entries|)
  }

  lemma ImageExtracted(layers: seq<Layer>)
    ensures StreamAll(map[], layers).Ok? <==> NothingBlockedAnywhere(layers)
    ensures StreamAll(map[], layers).Ok? ==> ImageOf(layers, StreamAll(map[], layers).value)
  {
    hide StreamAll, TopmostEntry, NothingBlocked;
    ExtractsIffNothingBlocked(layers);
    if StreamAll(map[], layers).Ok? {
      forall p: Path, node | p != []
        ensures Get(StreamAll(map[], layers).value, p) == Some(node) <==> Stands(layers, p, node)
      {
        TopmostEntryWins(layers, p, node);
      }
    }
  }

  /** At this path a layer leaves what its last entry or whiteout concerning the path says, or what was there. */
  ghost predicate AppliedAt(before: Tree, entries: seq<TarEntry>, after: Tree, p: Path) {
    && (NotCreatedFrom(entries, 0, p) && NotHiddenFrom(entries, 0, p) ==> Get(after, p) == Get(before, p))
    && forall i | 0 <= i < |entries| && NotCreatedFrom(entries, i + 1, p) && NotHiddenFrom(entries, i + 1, p) ::
         && (Creates(entries[i], p) ==> Get(after, p) == Some(if entries[i].path == p then entries[i].node else Dir))
         && (Hides(entries[i], p) ==> Get(after, p) == None)
  }

  ghost predicate LayerApplied(before: Tree, entries: seq<TarEntry>, after: Tree) {
    forall p: Path | p != [] :: AppliedAt(before, entries, after, p)
  }

  lemma LayerDone(t: Tree, entries: seq<TarEntry>)
    requires Stream(t, Decoded(entries)).Ok?
    ensures LayerApplied(t, entries, Stream(t, Decoded(entries)).value)
  {
    hide AppliedAt, Stream;
    forall p: Path | p != []
      ensures AppliedAt(t, entries, Stream(t, Decoded(entries)).value, p)
    {
      StreamingLaw(t, Decoded(entries), p);
      StreamedIsApplied(t, entries, Stream(t, Decoded(entries)).value, p);
    }
  }

  lemma StreamedIsApplied(t: Tree, entries: seq<TarEntry>, t': Tree, p: Path)
    requires Get(t', p) == Streamed(t, Decoded(entries), p)
    ensures AppliedAt(t, entries, t', p)
  {
    hide Creates, Hides;
    CreatedLast(entries, p);
    HiddenLast(entries, p);
    forall i | 0 <= i < |entries| && NotCreatedFrom(entries, i + 1, p) && NotHiddenFrom(entries, i + 1, p)
      ensures Creates(entries[i], p) ==> LastAdd(Decoded(entries), p) == i > LastWhiteout(Decoded(entries), p)
      ensures Hides(entries[i], p) ==> LastWhiteout(Decoded(entries), p) == i > LastAdd(Decoded(entries), p)
    {
      EntryIsItsStep(entries[i], p);
      OneLastStep(Decoded(entries), p);
    }
  }
}
