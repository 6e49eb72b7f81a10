/**
 Applying image layers to a file tree: the streaming order of the tar entries, and the
 declarative changeset it is meant to compute.
 */
module Layers {
  import opened Wrappers

  /** Normal path components below the mount point; `[]` is the mount point itself. */
  type Path = seq<string>

  datatype Node = Dir | File(content: seq<bv8>)

  type Tree = map<Path, Node>

  function Get(t: Tree, p: Path): Option<Node> { if p in t then Some(t[p]) else None }

  /** Every parent of something is a directory. */
  ghost predicate WellFormed(t: Tree) {
    && [] !in t
    && forall p, i | p in t && 0 < i < |p| :: p[..i] in t && t[p[..i]] == Dir
  }

  // ---- One entry ----

  datatype TarEntry = TarEntry(path: Path, node: Node)

  datatype Op =
    | Add(path: Path, node: Node)
    | Whiteout(target: Path)
    | Opaque(dir: Path)

  const OPAQUE_NAME := ".wh..wh..opq"
  const WHITEOUT_PREFIX := ".wh."

  /** What an entry asks for, told by its file name. */
  function Decode(e: TarEntry): Op {
    if e.path == [] then Add(e.path, e.node)
    else
      var n := |e.path| - 1;
      var parent, name := e.path[..n], e.path[n];
      if name == OPAQUE_NAME then Opaque(parent)
      else if WHITEOUT_PREFIX <= name then Whiteout(parent + [name[|WHITEOUT_PREFIX|..]])
      else Add(e.path, e.node)
  }

  /** The path of the whiteout file for a target. */
  function WhiteoutPath(target: Path): Path
    requires target != []
  {
    target[..|target| - 1] + [WHITEOUT_PREFIX + target[|target| - 1]]
  }

  /** A whiteout file is read back as the whiteout of its target, unless the target is called `.wh..opq`. */
  lemma WhiteoutRoundTrip(target: Path, node: Node)
    requires target != []
    ensures Decode(TarEntry(WhiteoutPath(target), node)) == Whiteout(target) <==> target[|target| - 1] != ".wh..opq"
  {
    var n, name := |target| - 1, target[|target| - 1];
    var p := WhiteoutPath(target);
    assert p[..n] == target[..n] && p[n] == WHITEOUT_PREFIX + name;
    assert p[n][|WHITEOUT_PREFIX|..] == name;
    assert target == target[..n] + [name];
    assert OPAQUE_NAME == WHITEOUT_PREFIX + ".wh..opq";
    if p[n] == OPAQUE_NAME {
      assert name == OPAQUE_NAME[|WHITEOUT_PREFIX|..] == ".wh..opq";
    }
  }

  function Decoded(entries: seq<TarEntry>): seq<Op> {
    seq(|entries|, i requires 0 <= i < |entries| => Decode(entries[i]))
  }

  // ---- Applying ----

  /** Without the target and everything below it. */
  function Prune(t: Tree, target: Path): Tree { map p | p in t && !(target <= p) :: t[p] }

  /** Without everything below the directory. */
  function Clear(t: Tree, dir: Path): Tree { map p | p in t && !(dir < p) :: t[p] }

  predicate IsFile(o: Option<Node>) { o.Some? && o.value.File? }

  /** A file stands where a directory is needed, or one kind would replace the other. */
  predicate Conflicts(t: Tree, p: Path, node: Node) {
    || (exists i | 0 < i < |p| :: IsFile(Get(t, p[..i])))
    || (p in t && t[p].Dir? != node.Dir?)
  }

  function ProperPrefixes(p: Path): set<Path> { set i | 0 < i < |p| :: p[..i] }

  /** `unpack_in`: create missing parents, then write; an empty path is skipped. */
  function Unpack(t: Tree, p: Path, node: Node): Result<Tree, Path> {
    if p == [] then Ok(t)
    else if Conflicts(t, p, node) then Err(p)
    else Ok(t + (map q | q in ProperPrefixes(p) :: Dir) + map[p := node])
  }

  /** One step, or the path it fails on. */
  function Apply(t: Tree, op: Op): Result<Tree, Path> {
    match op
    case Add(p, node) => Unpack(t, p, node)
    case Whiteout(target) => Ok(Prune(t, target))
    case Opaque(dir) => if IsFile(Get(t, dir)) then Err(dir) else Ok(Clear(t, dir))
  }

  function Stream(t: Tree, ops: seq<Op>): Result<Tree, Path> {
    if ops == [] then Ok(t)
    else
      var r := Stream(t, ops[..|ops| - 1]);
      if r.Err? then r else Apply(r.value, ops[|ops| - 1])
  }

  lemma ApplyWellFormed(t: Tree, op: Op)
    requires WellFormed(t) && Apply(t, op).Ok?
    ensures WellFormed(Apply(t, op).value)
  {
    var t' := Apply(t, op).value;
    match op
    case Add(path, node) =>
      if path != [] {
        forall p, i | p in t' && 0 < i < |p|
          ensures p[..i] in t' && t'[p[..i]] == Dir
        {
          if p <= path {
            assert p[..i] == path[..i];
            assert path[..i] in ProperPrefixes(path) && path[..i] != path;
          } else {
            assert p in t && p[..i] in t;
            if p[..i] == path {
              assert t[path] == Dir;
            }
          }
        }
      }
    case Whiteout(target) =>
    case Opaque(dir) =>
  }

  lemma {:induction false} StreamWellFormed(t: Tree, ops: seq<Op>)
    requires WellFormed(t) && Stream(t, ops).Ok?
    ensures WellFormed(Stream(t, ops).value)
  {
    if ops != [] {
      StreamWellFormed(t, ops[..|ops| - 1]);
      ApplyWellFormed(Stream(t, ops[..|ops| - 1]).value, ops[|ops| - 1]);
    }
  }

  // ---- What a stream leaves at a path ----

  /** The entry creates the path, itself or as a parent. */
  predicate Establishes(op: Op, p: Path) { op.Add? && p != [] && p <= op.path }

  function NodeFor(op: Op, p: Path): Node
    requires Establishes(op, p)
  {
    if op.path == p then op.node else Dir
  }

  /** The whiteout hides the path: it, or an ancestor, or everything in a directory above it. */
  predicate Covers(op: Op, p: Path) {
    || (op.Whiteout? && op.target <= p)
    || (op.Opaque? && op.dir < p)
  }

  /** The last entry that establishes the path, or -1. */
  function LastAdd(ops: seq<Op>, p: Path): (e: int)
    ensures -1 <= e < |ops|
    ensures e >= 0 ==> Establishes(ops[e], p)
    ensures forall k | e < k < |ops| :: !Establishes(ops[k], p)
  {
    if ops == [] then -1
    else if Establishes(ops[|ops| - 1], p) then |ops| - 1
    else LastAdd(ops[..|ops| - 1], p)
  }

  /** The last whiteout that hides the path, or -1. */
  function LastWhiteout(ops: seq<Op>, p: Path): (w: int)
    ensures -1 <= w < |ops|
    ensures w >= 0 ==> Covers(ops[w], p)
    ensures forall k | w < k < |ops| :: !Covers(ops[k], p)
  {
    if ops == [] then -1
    else if Covers(ops[|ops| - 1], p) then |ops| - 1
    else LastWhiteout(ops[..|ops| - 1], p)
  }

  /** By position in the stream: whichever comes last, entry or whiteout, decides. */
  function Streamed(t: Tree, ops: seq<Op>, p: Path): Option<Node> {
    var e, w := LastAdd(ops, p), LastWhiteout(ops, p);
    if e > w then Some(NodeFor(ops[e], p)) else if w > e then None else Get(t, p)
  }

  /**
   The changeset of the OCI image specification: whiteouts hide content of the lower tree
   only, wherever they stand in the layer, and the layer's own entries go on top.
   */
  function Changeset(t: Tree, ops: seq<Op>, p: Path): Option<Node> {
    var e := LastAdd(ops, p);
    if e >= 0 then Some(NodeFor(ops[e], p))
    else if LastWhiteout(ops, p) >= 0 then None
    else Get(t, p)
  }

  /** The effect of one step on one path. */
  lemma ApplyAt(t: Tree, op: Op, p: Path)
    requires Apply(t, op).Ok? && p != []
    ensures Get(Apply(t, op).value, p) ==
      if Establishes(op, p) then Some(NodeFor(op, p)) else if Covers(op, p) then None else Get(t, p)
  {
    if op.Add? && op.path != [] {
      if p <= op.path && p != op.path {
        assert p == op.path[..|p|] && p in ProperPrefixes(op.path);
      }
      assert p in ProperPrefixes(op.path) ==> p <= op.path;
    }
  }

  /** A stream that succeeds leaves at every path what the last entry or whiteout says. */
  lemma {:induction false} StreamingLaw(t: Tree, ops: seq<Op>, p: Path)
    requires Stream(t, ops).Ok? && p != []
    ensures Get(Stream(t, ops).value, p) == Streamed(t, ops, p)
  {
    if ops != [] {
      var before := ops[..|ops| - 1];
      StreamingLaw(t, before, p);
      ApplyAt(Stream(t, before).value, ops[|ops| - 1], p);
    }
  }

  /** The step clashes with what the stream left there so far. */
  ghost predicate Clash(t: Tree, ops: seq<Op>, i: nat)
    requires i < |ops|
  {
    match ops[i]
    case Add(p, node) =>
      p != [] && (
        || (exists k | 0 < k < |p| :: IsFile(Streamed(t, ops[..i], p[..k])))
        || (Streamed(t, ops[..i], p).Some? && Streamed(t, ops[..i], p).value.Dir? != node.Dir?))
    case Whiteout(_) => false
    case Opaque(dir) => dir != [] && IsFile(Streamed(t, ops[..i], dir))
  }

  lemma AddClashes(t: Tree, ops: seq<Op>, i: nat, t': Tree)
    requires i < |ops| && ops[i].Add? && forall p: Path | p != [] :: Get(t', p) == Streamed(t, ops[..i], p)
    ensures Unpack(t', ops[i].path, ops[i].node).Err? <==> Clash(t, ops, i)
  {
    var path := ops[i].path;
    if path != [] {
      forall k | 0 < k < |path|
        ensures IsFile(Get(t', path[..k])) <==> IsFile(Streamed(t, ops[..i], path[..k]))
      {
        assert path[..k] != [];
      }
      assert Get(t', path) == Streamed(t, ops[..i], path);
    }
  }

  lemma ClashIsError(t: Tree, ops: seq<Op>, i: nat)
    requires WellFormed(t) && i < |ops| && Stream(t, ops[..i]).Ok?
    ensures Apply(Stream(t, ops[..i]).value, ops[i]).Err? <==> Clash(t, ops, i)
  {
    var t', op := Stream(t, ops[..i]).value, ops[i];
    StreamWellFormed(t, ops[..i]);
    forall p: Path | p != []
      ensures Get(t', p) == Streamed(t, ops[..i], p)
    {
      StreamingLaw(t, ops[..i], p);
    }
    match op
    case Add(_, _) => AddClashes(t, ops, i, t');
    case Whiteout(_) =>
    case Opaque(dir) => assert dir != [] ==> Get(t', dir) == Streamed(t, ops[..i], dir);
  }

  lemma ClashOfPrefix(t: Tree, ops: seq<Op>, n: nat, i: nat)
    requires i < n <= |ops|
    ensures Clash(t, ops[..n], i) <==> Clash(t, ops, i)
  {
    assert ops[..n][..i] == ops[..i];
  }

  /** A stream succeeds exactly when no step finds the wrong kind of node. */
  lemma {:induction false} SucceedsIffNoClash(t: Tree, ops: seq<Op>)
    requires WellFormed(t)
    ensures Stream(t, ops).Ok? <==> forall i | 0 <= i < |ops| :: !Clash(t, ops, i)
  {
    hide Clash, Apply;
    if ops != [] {
      var n := |ops| - 1;
      var before := ops[..n];
      SucceedsIffNoClash(t, before);
      forall i | 0 <= i < n
        ensures Clash(t, ops, i) <==> Clash(t, before, i)
      {
        ClashOfPrefix(t, ops, n, i);
      }
      if Stream(t, before).Ok? {
        ClashIsError(t, ops, n);
      }
    }
  }

  // ---- Streaming against the changeset ----

  /** No entry of the layer is hidden by a later whiteout and not added again. */
  predicate NothingLost(ops: seq<Op>) {
    forall i | 0 <= i < |ops| && ops[i].Add? && ops[i].path != [] ::
      LastAdd(ops, ops[i].path) > LastWhiteout(ops, ops[i].path)
  }

  /** If a path the layer adds survives, so do the parents it brings along. */
  lemma ParentsSurvive(ops: seq<Op>, p: Path)
    requires NothingLost(ops) && LastAdd(ops, p) >= 0
    ensures LastAdd(ops, p) > LastWhiteout(ops, p)
  {
    var e, w := LastAdd(ops, p), LastWhiteout(ops, p);
    var q := ops[e].path;
    assert p <= q;
    assert Establishes(ops[LastAdd(ops, q)], p) && LastAdd(ops, q) <= e;
    if w >= 0 {
      assert Covers(ops[w], q) && LastWhiteout(ops, q) >= w;
    }
  }

  /** No step both adds and hides a path. */
  lemma OneLastStep(ops: seq<Op>, p: Path)
    ensures LastAdd(ops, p) == LastWhiteout(ops, p) ==> LastAdd(ops, p) < 0
  {
  }

  /** An entry that is lost shows: the stream has nothing where the changeset has the entry. */
  lemma LostPath(t: Tree, ops: seq<Op>) returns (p: Path)
    requires Stream(t, ops).Ok? && !NothingLost(ops)
    ensures p != [] && Get(Stream(t, ops).value, p) == None && Changeset(t, ops, p).Some?
  {
    var i :| 0 <= i < |ops| && ops[i].Add? && ops[i].path != []
      && LastAdd(ops, ops[i].path) <= LastWhiteout(ops, ops[i].path);
    p := ops[i].path;
    LostIsGone(t, ops, i, p);
    StreamingLaw(t, ops, p);
  }

  lemma LostIsGone(t: Tree, ops: seq<Op>, i: nat, p: Path)
    requires i < |ops| && Establishes(ops[i], p) && LastAdd(ops, p) <= LastWhiteout(ops, p)
    ensures Streamed(t, ops, p) == None && Changeset(t, ops, p).Some?
  {
    assert LastAdd(ops, p) >= i;
    OneLastStep(ops, p);
  }

  /**
   A stream that succeeds computes the changeset at every path, on any lower tree, if and
   only if it loses none of the layer's own entries.
   */
  lemma StreamIsChangesetIffNothingLost(t: Tree, ops: seq<Op>)
    requires Stream(t, ops).Ok?
    ensures (forall p: Path | p != [] :: Get(Stream(t, ops).value, p) == Changeset(t, ops, p)) <==> NothingLost(ops)
  {
    var t' := Stream(t, ops).value;
    if NothingLost(ops) {
      forall p: Path | p != []
        ensures Get(t', p) == Changeset(t, ops, p)
      {
        StreamingLaw(t, ops, p);
        if LastAdd(ops, p) >= 0 {
          ParentsSurvive(ops, p);
        }
      }
    } else {
      var p := LostPath(t, ops);
      assert Get(t', p) != Changeset(t, ops, p);
    }
  }

  /** Whiteouts come before the entries they would cover. */
  predicate WhiteoutsFirst(ops: seq<Op>) {
    forall i, j | 0 <= i < j < |ops| :: ops[i].Add? && ops[i].path != [] ==> !Covers(ops[j], ops[i].path)
  }

  /** A layer with its whiteouts first is applied as its changeset. */
  lemma WhiteoutsFirstGivesChangeset(t: Tree, ops: seq<Op>, p: Path)
    requires WhiteoutsFirst(ops) && Stream(t, ops).Ok? && p != []
    ensures Get(Stream(t, ops).value, p) == Changeset(t, ops, p)
  {
    forall i | 0 <= i < |ops| && ops[i].Add? && ops[i].path != []
      ensures LastAdd(ops, ops[i].path) > LastWhiteout(ops, ops[i].path)
    {
      var w := LastWhiteout(ops, ops[i].path);
      assert Establishes(ops[i], ops[i].path) && LastAdd(ops, ops[i].path) >= i;
      if w >= 0 {
        assert Covers(ops[w], ops[i].path) && w != i;
      }
    }
    StreamIsChangesetIffNothingLost(t, ops);
  }

  /** An opaque marker after a sibling deletes the sibling, which the changeset keeps. */
  lemma LateOpaqueDeletesSibling(dir: string, name: string, content: seq<bv8>)
    ensures var ops := [Add([dir, name], File(content)), Opaque([dir])];
      && Stream(map[], ops).Ok?
      && Get(Stream(map[], ops).value, [dir, name]) == None
      && Changeset(map[], ops, [dir, name]) == Some(File(content))
  {
    var ops := [Add([dir, name], File(content)), Opaque([dir])];
    var p := [dir, name];
    assert ops[..1] == [Add(p, File(content))] && ops[..1][..0] == [];
    var t1 := Unpack(map[], p, File(content)).value;
    assert p[..1] == [dir] && [dir] in ProperPrefixes(p);
    assert Stream(map[], ops[..1]) == Ok(t1);
    assert t1[[dir]] == Dir;
    StreamingLaw(map[], ops, p);
    assert Covers(ops[1], p) && Establishes(ops[0], p);
  }

  // ---- All layers ----

  datatype Layer = Layer(mediaType: string, entries: seq<TarEntry>)

  const OCI_LAYER_GZIP := "application/vnd.oci.image.layer.v1.tar+gzip"
  const DOCKER_LAYER_GZIP := "application/vnd.docker.image.rootfs.diff.tar.gzip"

  predicate IsFilesystem(layer: Layer) { layer.mediaType == OCI_LAYER_GZIP || layer.mediaType == DOCKER_LAYER_GZIP }

  /** Bottom to top, skipping layers that are no gzipped tar. */
  function StreamAll(t: Tree, layers: seq<Layer>): Result<Tree, Path> {
    if layers == [] then Ok(t)
    else
      var n := |layers| - 1;
      var r := StreamAll(t, layers[..n]);
      if r.Err? || !IsFilesystem(layers[n]) then r else Stream(r.value, Decoded(layers[n].entries))
  }

  /** The layer leaves the path as it found it. */
  predicate Silent(layer: Layer, p: Path) {
    IsFilesystem(layer) ==> LastAdd(Decoded(layer.entries), p) < 0 && LastWhiteout(Decoded(layer.entries), p) < 0
  }

  /** The layer adds the path, as this node, and does not hide it again afterwards. */
  predicate Defines(layer: Layer, p: Path, node: Node) {
    && IsFilesystem(layer)
    && var ops := Decoded(layer.entries);
       LastAdd(ops, p) > LastWhiteout(ops, p) && NodeFor(ops[LastAdd(ops, p)], p) == node
  }

  /** It defines the path, and no layer above defines or hides it. */
  ghost predicate TopmostDefines(layers: seq<Layer>, l: nat, p: Path, node: Node) {
    l < |layers| && Defines(layers[l], p, node) && forall k | l < k < |layers| :: Silent(layers[k], p)
  }

  /** What a layer on top makes of the node below. */
  function OnTop(below: Option<Node>, layer: Layer, p: Path): Option<Node> {
    var ops := Decoded(layer.entries);
    if !IsFilesystem(layer) || (LastAdd(ops, p) < 0 && LastWhiteout(ops, p) < 0) then below
    else if LastAdd(ops, p) > LastWhiteout(ops, p) then Some(NodeFor(ops[LastAdd(ops, p)], p))
    else None
  }

  function Stacked(layers: seq<Layer>, p: Path): Option<Node> {
    if layers == [] then None else OnTop(Stacked(layers[..|layers| - 1], p), layers[|layers| - 1], p)
  }

  lemma {:induction false} StreamAllIsStacked(layers: seq<Layer>, p: Path)
    requires StreamAll(map[], layers).Ok? && p != []
    ensures Get(StreamAll(map[], layers).value, p) == Stacked(layers, p)
  {
    if layers != [] {
      var n := |layers| - 1;
      StreamAllIsStacked(layers[..n], p);
      if IsFilesystem(layers[n]) {
        StreamingLaw(StreamAll(map[], layers[..n]).value, Decoded(layers[n].entries), p);
      }
    }
  }

  /** A silent layer on top changes nothing about who defines the path. */
  lemma SilentOnTop(before: seq<Layer>, top: Layer, l: nat, p: Path, node: Node)
    requires Silent(top, p)
    ensures TopmostDefines(before + [top], l, p, node) <==> TopmostDefines(before, l, p, node)
  {
    var layers := before + [top];
    if TopmostDefines(before, l, p, node) {
      forall k | l < k < |layers|
        ensures Silent(layers[k], p)
      {
      }
    } else if TopmostDefines(layers, l, p, node) {
      assert l < |before|;
      forall k | l < k < |before|
        ensures Silent(before[k], p)
      {
        assert layers[k] == before[k];
      }
    }
  }

  /** Under a layer that is not silent, nothing below it counts. */
  lemma LoudOnTop(before: seq<Layer>, top: Layer, l: nat, p: Path, node: Node)
    requires !Silent(top, p)
    ensures TopmostDefines(before + [top], l, p, node) <==> l == |before| && Defines(top, p, node)
  {
    assert (before + [top])[|before|] == top;
  }

  lemma {:induction false} StackedIsTopmost(layers: seq<Layer>, p: Path, node: Node)
    ensures Stacked(layers, p) == Some(node) <==> exists l: nat :: TopmostDefines(layers, l, p, node)
  {
    if layers != [] {
      var n := |layers| - 1;
      var before, top := layers[..n], layers[n];
      assert layers == before + [top];
      if Silent(top, p) {
        StackedIsTopmost(before, p, node);
        forall l: nat
          ensures TopmostDefines(layers, l, p, node) <==> TopmostDefines(before, l, p, node)
        {
          SilentOnTop(before, top, l, p, node);
        }
      } else {
        forall l: nat
          ensures TopmostDefines(layers, l, p, node) <==> l == n && Defines(top, p, node)
        {
          LoudOnTop(before, top, l, p, node);
        }
        assert Defines(top, p, node) ==> TopmostDefines(layers, n, p, node);
      }
    }
  }

  /**
   Over an empty image, a path ends up as a node exactly when some layer defines it so and
   no layer above defines it or hides it or an ancestor of it.
   */
  lemma TopmostLayerWins(layers: seq<Layer>, p: Path, node: Node)
    requires StreamAll(map[], layers).Ok? && p != []
    ensures Get(StreamAll(map[], layers).value, p) == Some(node) <==>
      exists l: nat :: TopmostDefines(layers, l, p, node)
  {
    StreamAllIsStacked(layers, p);
    StackedIsTopmost(layers, p, node);
  }

  // ---- The image against the changesets of its layers ----

  /** The specification's image at a path: the changesets of the filesystem layers, one on top of the other. */
  function ImageChangeset(layers: seq<Layer>, p: Path): Option<Node> {
    if layers == [] then None
    else
      var below, top := ImageChangeset(layers[..|layers| - 1], p), layers[|layers| - 1];
      if !IsFilesystem(top) then below
      else
        var ops := Decoded(top.entries);
        if LastAdd(ops, p) >= 0 then Some(NodeFor(ops[LastAdd(ops, p)], p))
        else if LastWhiteout(ops, p) >= 0 then None
        else below
  }

  /** One layer: its changeset over the image below. */
  lemma ChangesetOnTop(t: Tree, layers: seq<Layer>, top: Layer, p: Path)
    requires IsFilesystem(top) && Get(t, p) == ImageChangeset(layers, p)
    ensures ImageChangeset(layers + [top], p) == Changeset(t, Decoded(top.entries), p)
  {
    assert (layers + [top])[..|layers|] == layers;
  }

  /** The layer adds the path and hides it again, and no layer above concerns it. */
  predicate LostAt(layers: seq<Layer>, l: nat, p: Path) {
    && l < |layers| && IsFilesystem(layers[l])
    && 0 <= LastAdd(Decoded(layers[l].entries), p) < LastWhiteout(Decoded(layers[l].entries), p)
    && forall k | l < k < |layers| :: Silent(layers[k], p)
  }

  /** No entry, and no parent an entry brings along, is lost for good. */
  predicate NothingLostForGood(layers: seq<Layer>) {
    forall l: nat, i: nat, j: nat ::
      l < |layers| && i < |layers[l].entries| && 0 < j <= |layers[l].entries[i].path| ==>
        !LostAt(layers, l, layers[l].entries[i].path[..j])
  }

  lemma SilentLosesNothing(before: seq<Layer>, top: Layer, l: nat, p: Path)
    requires Silent(top, p)
    ensures LostAt(before + [top], l, p) <==> LostAt(before, l, p)
  {
    var layers := before + [top];
    assert forall k | 0 <= k < |before| :: layers[k] == before[k];
    if l < |before| && forall k | l < k < |before| :: Silent(before[k], p) {
      forall k | l < k < |layers|
        ensures Silent(layers[k], p)
      {
      }
    }
  }

  lemma LoudAlone(before: seq<Layer>, top: Layer, l: nat, p: Path)
    requires !Silent(top, p)
    ensures LostAt(before + [top], l, p) <==>
      l == |before| && 0 <= LastAdd(Decoded(top.entries), p) < LastWhiteout(Decoded(top.entries), p)
  {
    assert (before + [top])[|before|] == top;
  }

  lemma {:induction false} StackedIsChangesets(layers: seq<Layer>, p: Path)
    ensures Stacked(layers, p) == ImageChangeset(layers, p) <==> forall l: nat :: !LostAt(layers, l, p)
  {
    if layers != [] {
      var n := |layers| - 1;
      var before, top := layers[..n], layers[n];
      assert layers == before + [top];
      StackedIsChangesets(before, p);
      if Silent(top, p) {
        forall l: nat
          ensures LostAt(layers, l, p) <==> LostAt(before, l, p)
        {
          SilentLosesNothing(before, top, l, p);
        }
      } else {
        forall l: nat
          ensures LostAt(layers, l, p) <==>
            l == n && 0 <= LastAdd(Decoded(top.entries), p) < LastWhiteout(Decoded(top.entries), p)
        {
          LoudAlone(before, top, l, p);
        }
        OneLastStep(Decoded(top.entries), p);
        assert LostAt(layers, n, p) <==> 0 <= LastAdd(Decoded(top.entries), p) < LastWhiteout(Decoded(top.entries), p);
      }
    }
  }

  /** A path that is lost is the path of an entry of that layer, or a parent of one. */
  lemma LostIsBounded(layers: seq<Layer>, l: nat, p: Path)
    requires NothingLostForGood(layers) && p != []
    ensures !LostAt(layers, l, p)
  {
    if l < |layers| && LastAdd(Decoded(layers[l].entries), p) >= 0 {
      var e := LastAdd(Decoded(layers[l].entries), p);
      assert Decode(layers[l].entries[e]) == Add(layers[l].entries[e].path, layers[l].entries[e].node);
      assert p == layers[l].entries[e].path[..|p|];
    }
  }

  /**
   An image that can be extracted is at every path what the changesets of its layers make
   one on top of the other, if and only if no entry of a layer and no parent of one is hidden
   by a later whiteout of that layer, unless a layer above adds or hides that path anyway.
   */
  lemma ImageIsChangesetsIffNothingLost(layers: seq<Layer>)
    requires StreamAll(map[], layers).Ok?
    ensures (forall p: Path | p != [] :: Get(StreamAll(map[], layers).value, p) == ImageChangeset(layers, p))
      <==> NothingLostForGood(layers)
  {
    if NothingLostForGood(layers) {
      forall p: Path | p != []
        ensures Get(StreamAll(map[], layers).value, p) == ImageChangeset(layers, p)
      {
        NothingLostAt(layers, p);
      }
    } else {
      var l: nat, i: nat, j: nat :| l < |layers| && i < |layers[l].entries| && 0 < j <= |layers[l].entries[i].path|
        && LostAt(layers, l, layers[l].entries[i].path[..j]);
      LossShows(layers, l, layers[l].entries[i].path[..j]);
    }
  }

  lemma NothingLostAt(layers: seq<Layer>, p: Path)
    requires StreamAll(map[], layers).Ok? && NothingLostForGood(layers) && p != []
    ensures Get(StreamAll(map[], layers).value, p) == ImageChangeset(layers, p)
  {
    StreamAllIsStacked(layers, p);
    StackedIsChangesets(layers, p);
    forall l: nat
      ensures !LostAt(layers, l, p)
    {
      LostIsBounded(layers, l, p);
    }
  }

  lemma LossShows(layers: seq<Layer>, l: nat, p: Path)
    requires StreamAll(map[], layers).Ok? && LostAt(layers, l, p) && p != []
    ensures Get(StreamAll(map[], layers).value, p) != ImageChangeset(layers, p)
  {
    StreamAllIsStacked(layers, p);
    StackedIsChangesets(layers, p);
  }
}
