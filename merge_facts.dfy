/**
 * What the merge stage guarantees: its error paths, what it adds to the
 * registry, and, when the partitions are laid out as a split build leaves
 * them, that it succeeds, moves every file and removes every partition.
 */
module MergeFacts {
  import opened Wrappers
  import opened Paths
  import opened Strings
  import opened Artifacts
  import opened Files
  import opened Merge

  // ---------------------------------------------------------------------------
  // Moves and what they do to the filesystem

  /** The directory of the partition named `name`. */
  function SplitDir(dist: Path, name: string): Path {
    Join(dist, Name(name))
  }

  /** A file the relocation loop moves, where to, and the partition whose manifest asks for it. */
  datatype Move = Move(from: Path, to: Path, owner: string)

  /** The moves the manifest of partition `owner` asks for: one per artifact that is not Metadata. */
  function Moves(dist: Path, owner: string, arts: seq<Artifact>): (r: seq<Move>)
    ensures forall m :: m in r ==> m.owner == owner
    decreases |arts|
  {
    if arts == [] then []
    else if arts[0].kind == Metadata then Moves(dist, owner, arts[1..])
    else [Move(Join(SplitDir(dist, owner), arts[0].path), Join(dist, arts[0].path), owner)] + Moves(dist, owner, arts[1..])
  }

  /** The registry entries one manifest contributes, in manifest order. */
  function Expected(dist: Path, arts: seq<Artifact>): (r: seq<Artifact>)
    ensures |r| <= |arts|
    ensures forall k :: 0 <= k < |r| ==> r[k].kind != Metadata
    decreases |arts|
  {
    if arts == [] then []
    else if arts[0].kind == Metadata then Expected(dist, arts[1..])
    else [arts[0].(path := Join(dist, arts[0].path))] + Expected(dist, arts[1..])
  }

  /** A move that can go ahead: the source is a file and nothing blocks the destination or its parents. */
  predicate MoveReady(fs: Fs, m: Move) {
    && m.from in fs.files
    && |m.to.names| > 0
    && m.to !in fs.dirs
    && forall k :: 0 <= k < |m.to.names| ==> Prefix(m.to, k) !in fs.files
  }

  /** Two moves that do not interfere with each other. */
  predicate Apart(m: Move, n: Move) {
    m.from != n.from && !Within(m.to, n.to) && !Within(n.to, m.to)
  }

  /** Distinct sources, and no destination at or beneath another. */
  predicate Disjoint(ms: seq<Move>) {
    forall i, j :: 0 <= i < j < |ms| ==> Apart(ms[i], ms[j])
  }

  /** The filesystem after one successful move: parent directories created, then the file renamed. */
  function Moved(fs: Fs, m: Move): Fs {
    Fs(if m.from in fs.files then (fs.files - {m.from})[m.to := fs.files[m.from]] else fs.files,
       fs.dirs + Ancestry(Dir(m.to)))
  }

  function MovedAll(fs: Fs, ms: seq<Move>): Fs
    decreases |ms|
  {
    if ms == [] then fs else MovedAll(Moved(fs, ms[0]), ms[1..])
  }

  /** `x` is a file in both filesystems with the same content, or in neither. */
  predicate SameFile(a: Fs, b: Fs, x: Path) {
    (x in a.files <==> x in b.files) && (x in a.files ==> a.files[x] == b.files[x])
  }

  lemma WithinTransitive(a: Path, b: Path, c: Path)
    requires Within(a, b) && Within(b, c)
    ensures Within(a, c)
  {
    assert a.names[..|c.names|] == a.names[..|b.names|][..|c.names|];
  }

  /** The directories MkdirAll creates for a destination's parent lie strictly above it. */
  lemma AncestryAbove(t: Path, x: Path)
    requires x in Ancestry(Dir(t))
    ensures StrictlyWithin(t, x)
  {
    var k :| 1 <= k <= |Dir(t).names| && x == Prefix(Dir(t), k);
    assert t.names[..k] == Dir(t).names[..k];
  }

  /** A ready move succeeds, and leaves every other ready move that it stays apart from ready. */
  lemma MoveStep(fs: Fs, m: Move, rest: seq<Move>)
    requires MoveReady(fs, m)
    requires forall n :: n in rest ==> MoveReady(fs, n) && Apart(m, n)
    ensures fs.MkdirAll(Dir(m.to)).Ok?
    ensures fs.MkdirAll(Dir(m.to)).value.Rename(m.from, m.to) == Ok(Moved(fs, m))
    ensures forall n :: n in rest ==> MoveReady(Moved(fs, m), n)
  {
    var t := m.to;
    var d := Dir(t);
    forall k | 1 <= k <= |d.names|
      ensures Prefix(d, k) !in fs.files
    {
      assert Prefix(d, k) == Prefix(t, k);
    }
    var fs1 := Fs(fs.files, fs.dirs + Ancestry(d));
    assert fs.MkdirAll(d) == Ok(fs1);
    if t in Ancestry(d) {
      AncestryAbove(t, t);
    }
    assert d == Prefix(t, |t.names| - 1);
    if |d.names| > 0 {
      assert d == Prefix(d, |d.names|);
      assert d in Ancestry(d);
    }
    assert fs1.Rename(m.from, t) == Ok(Moved(fs, m));
    forall n | n in rest
      ensures MoveReady(Moved(fs, m), n)
    {
      if n.to in Ancestry(d) {
        AncestryAbove(t, n.to);
      }
    }
  }

  /** A Disjoint list splits into two Disjoint lists whose moves are Apart from each other. */
  lemma DisjointSplit(a: seq<Move>, b: seq<Move>)
    requires Disjoint(a + b)
    ensures Disjoint(a) && Disjoint(b)
    ensures forall m, n :: m in a && n in b ==> Apart(m, n)
  {
    var ab := a + b;
    forall i, j | 0 <= i < j < |a|
      ensures Apart(a[i], a[j])
    {
      assert ab[i] == a[i] && ab[j] == a[j];
    }
    forall i, j | 0 <= i < j < |b|
      ensures Apart(b[i], b[j])
    {
      assert ab[|a| + i] == b[i] && ab[|a| + j] == b[j];
    }
    forall m, n | m in a && n in b
      ensures Apart(m, n)
    {
      var i :| 0 <= i < |a| && a[i] == m;
      var j :| 0 <= j < |b| && b[j] == n;
      assert ab[i] == m && ab[|a| + j] == n;
    }
  }

  /**
   * A manifest whose moves are all ready and Disjoint relocates without error:
   * every entry is registered in order and every file is moved, and the moves
   * still to come after it stay ready.
   */
  lemma {:induction false} RelocateReady(dist: Path, owner: string, arts: seq<Artifact>, w: World, rest: seq<Move>)
    requires forall m :: m in Moves(dist, owner, arts) ==> MoveReady(w.fs, m)
    requires Disjoint(Moves(dist, owner, arts))
    requires forall m, n :: m in Moves(dist, owner, arts) && n in rest ==> Apart(m, n)
    requires forall n :: n in rest ==> MoveReady(w.fs, n)
    ensures Relocate(dist, SplitDir(dist, owner), arts, w) ==
      Effect(Pass, World(MovedAll(w.fs, Moves(dist, owner, arts)), w.registry + Expected(dist, arts)))
    ensures forall n :: n in rest ==> MoveReady(MovedAll(w.fs, Moves(dist, owner, arts)), n)
    decreases |arts|, 1
  {
    if arts == [] {
      assert w.registry + [] == w.registry;
    } else if arts[0].kind == Metadata {
      RelocateReady(dist, owner, arts[1..], w, rest);
    } else {
      RelocateReadyMoved(dist, owner, arts, w, rest);
    }
  }

  /** RelocateReady when the first entry is moved. */
  lemma {:induction false} RelocateReadyMoved(dist: Path, owner: string, arts: seq<Artifact>, w: World, rest: seq<Move>)
    requires arts != [] && arts[0].kind != Metadata
    requires forall m :: m in Moves(dist, owner, arts) ==> MoveReady(w.fs, m)
    requires Disjoint(Moves(dist, owner, arts))
    requires forall m, n :: m in Moves(dist, owner, arts) && n in rest ==> Apart(m, n)
    requires forall n :: n in rest ==> MoveReady(w.fs, n)
    ensures Relocate(dist, SplitDir(dist, owner), arts, w) ==
      Effect(Pass, World(MovedAll(w.fs, Moves(dist, owner, arts)), w.registry + Expected(dist, arts)))
    ensures forall n :: n in rest ==> MoveReady(MovedAll(w.fs, Moves(dist, owner, arts)), n)
    decreases |arts|, 0
  {
    {
      var ms := Moves(dist, owner, arts);
      var m := ms[0];
      var tail := ms[1..];
      assert tail == Moves(dist, owner, arts[1..]);
      DisjointSplit([m], tail);
      assert [m] + tail == ms;
      forall n | n in tail + rest
        ensures MoveReady(w.fs, n) && Apart(m, n)
      {
      }
      MoveStep(w.fs, m, tail + rest);
      var entry := arts[0].(path := m.to);
      var w' := World(Moved(w.fs, m), w.registry + [entry]);
      RelocateOne(dist, SplitDir(dist, owner), arts, w, m);
      forall a, n | a in tail && n in rest
        ensures Apart(a, n)
      {
      }
      RelocateReady(dist, owner, arts[1..], w', rest);
      assert w.registry + [entry] + Expected(dist, arts[1..]) == w.registry + Expected(dist, arts);
    }
  }

  /** A relocation step whose directory creation and move both succeed goes on with the rest of the manifest. */
  lemma RelocateOne(dist: Path, splitDir: Path, arts: seq<Artifact>, w: World, m: Move)
    requires arts != [] && arts[0].kind != Metadata
    requires m.from == Join(splitDir, arts[0].path) && m.to == Join(dist, arts[0].path)
    requires w.fs.MkdirAll(Dir(m.to)).Ok? && w.fs.MkdirAll(Dir(m.to)).value.Rename(m.from, m.to) == Ok(Moved(w.fs, m))
    ensures Relocate(dist, splitDir, arts, w) ==
      Relocate(dist, splitDir, arts[1..], World(Moved(w.fs, m), w.registry + [arts[0].(path := m.to)]))
  {
  }

  /** Moves change files only at their sources and destinations, and directories only above their destinations. */
  lemma {:induction false} MovedAllFrame(fs: Fs, ms: seq<Move>)
    ensures forall x :: (forall m :: m in ms ==> x != m.from && x != m.to) ==> SameFile(fs, MovedAll(fs, ms), x)
    ensures forall x :: (forall m :: m in ms ==> !StrictlyWithin(m.to, x)) ==> (x in MovedAll(fs, ms).dirs <==> x in fs.dirs)
    decreases |ms|
  {
    if ms != [] {
      var m := ms[0];
      assert forall n :: n in ms[1..] ==> n in ms;
      MovedAllFrame(Moved(fs, m), ms[1..]);
      forall x | forall n :: n in ms ==> !StrictlyWithin(n.to, x)
        ensures x in Moved(fs, m).dirs <==> x in fs.dirs
      {
        if x in Ancestry(Dir(m.to)) {
          AncestryAbove(m.to, x);
        }
      }
      forall x | forall n :: n in ms ==> x != n.from && x != n.to
        ensures SameFile(fs, MovedAll(fs, ms), x)
      {
        assert x != m.from && x != m.to;
        assert SameFile(fs, Moved(fs, m), x);
        assert forall n :: n in ms[1..] ==> x != n.from && x != n.to;
        assert SameFile(Moved(fs, m), MovedAll(Moved(fs, m), ms[1..]), x);
      }
    }
  }

  /** After Disjoint moves, every destination holds what its source held before. */
  lemma {:induction false} MovedAllContent(fs: Fs, ms: seq<Move>)
    requires Disjoint(ms)
    requires forall m, n :: m in ms && n in ms ==> m.from != n.to
    requires forall m :: m in ms ==> m.from in fs.files
    ensures forall m :: m in ms ==> m.to in MovedAll(fs, ms).files && MovedAll(fs, ms).files[m.to] == fs.files[m.from]
    decreases |ms|
  {
    if ms != [] {
      var m := ms[0];
      var tail := ms[1..];
      var fs1 := Moved(fs, m);
      assert [m] + tail == ms;
      DisjointSplit([m], tail);
      assert forall n :: n in tail ==> n in ms;
      MovedAllContent(fs1, tail);
      MovedAllFrame(fs1, tail);
      forall n | n in tail
        ensures n.from != m.to && m.to != n.to && n.from != m.from
        ensures fs1.files[n.from] == fs.files[n.from]
      {
      }
      assert SameFile(fs1, MovedAll(fs, ms), m.to);
      assert fs1.files[m.to] == fs.files[m.from];
      forall n | n in ms
        ensures n == m || n in tail
      {
      }
    }
  }

  // ---------------------------------------------------------------------------
  // Partitions

  /** A partition directory under dist and the artifact list its manifest decodes to. */
  datatype Partition = Partition(name: string, arts: seq<Artifact>)

  function Names(parts: seq<Partition>): (r: seq<string>)
    ensures |r| == |parts| && forall i :: 0 <= i < |parts| ==> r[i] == parts[i].name
  {
    seq(|parts|, i requires 0 <= i < |parts| => parts[i].name)
  }

  /** The names of the directory entries of a listing, in listing order. */
  function DirNames(items: seq<DirEntry>): seq<string>
    decreases |items|
  {
    if items == [] then []
    else if items[0].isDir then [items[0].name] + DirNames(items[1..])
    else DirNames(items[1..])
  }

  /** Every move of every partition, in the order the stage performs them. */
  function Plan(dist: Path, parts: seq<Partition>): seq<Move>
    decreases |parts|
  {
    if parts == [] then [] else Moves(dist, parts[0].name, parts[0].arts) + Plan(dist, parts[1..])
  }

  /** The registry entries the partitions contribute, in the order the stage adds them. */
  function Registered(dist: Path, parts: seq<Partition>): seq<Artifact>
    decreases |parts|
  {
    if parts == [] then [] else Expected(dist, parts[0].arts) + Registered(dist, parts[1..])
  }

  /** `t` lies in none of the partition directories named in `all`. */
  predicate Outside(dist: Path, all: set<string>, t: Path) {
    forall q :: q in all ==> !Within(t, SplitDir(dist, q))
  }

  predicate Distinct(parts: seq<Partition>) {
    forall i, j :: 0 <= i < j < |parts| ==> parts[i].name != parts[j].name
  }

  /**
   * The layout a split build leaves and a merge can finish: every partition
   * (all named in `all`) holds its manifest; every source lies in its own
   * partition and is a regular file; every destination lies outside all
   * partitions, is not a directory, and has no regular file on its parent
   * chain; and no two moves share a source or nest their destinations.
   */
  predicate Ready(dist: Path, fs: Fs, all: set<string>, parts: seq<Partition>) {
    && (forall i :: 0 <= i < |parts| ==> parts[i].name in all)
    && (forall i :: 0 <= i < |parts| ==>
          fs.ReadFile(ManifestPath(SplitDir(dist, parts[i].name))) == Ok(ManifestFile(parts[i].arts)))
    && (forall n :: n in Plan(dist, parts) ==>
          Within(n.from, SplitDir(dist, n.owner)) && Outside(dist, all, n.to) && MoveReady(fs, n))
    && Disjoint(Plan(dist, parts))
  }

  /** The path of a partition entry is dist with the entry's name added. */
  lemma SplitDirChild(dist: Path, name: string)
    ensures SplitDir(dist, name) == Child(dist, name)
  {
    assert dist.names[..|dist.names|] == dist.names;
  }

  /** Partition directories with different names share nothing. */
  lemma Siblings(dist: Path, a: string, b: string, x: Path)
    requires Within(x, SplitDir(dist, a)) && Within(x, SplitDir(dist, b))
    ensures a == b
  {
    SplitDirChild(dist, a);
    SplitDirChild(dist, b);
    assert x.names[|dist.names|] == (dist.names + [a])[|dist.names|];
    assert x.names[|dist.names|] == (dist.names + [b])[|dist.names|];
  }

  lemma ManifestWithin(splitDir: Path)
    ensures Within(ManifestPath(splitDir), splitDir)
  {
    assert splitDir.names[..|splitDir.names|] == splitDir.names;
  }

  lemma {:induction false} PlanOwners(dist: Path, parts: seq<Partition>)
    ensures forall n :: n in Plan(dist, parts) ==> n.owner in Names(parts)
    decreases |parts|
  {
    if parts != [] {
      PlanOwners(dist, parts[1..]);
      assert forall q :: q in Names(parts[1..]) ==> q in Names(parts);
    }
  }

  /** The filesystem after partition `p` is merged: its files moved, then its directory removed. */
  function AfterPartition(dist: Path, fs: Fs, p: Partition): Fs {
    var r := MovedAll(fs, Moves(dist, p.name, p.arts)).RemoveAll(SplitDir(dist, p.name));
    if r.Ok? then r.value else fs
  }

  /** Sources lie in their own partition and destinations outside all of them, so no source is a destination. */
  lemma SourcesAreNotDestinations(dist: Path, all: set<string>, m: Move, n: Move)
    requires Within(m.from, SplitDir(dist, m.owner)) && m.owner in all && Outside(dist, all, n.to)
    ensures m.from != n.to
  {
    assert !Within(n.to, SplitDir(dist, m.owner));
  }

  /** Merging the first partition leaves the others ready. */
  lemma ReadyAfterPartition(dist: Path, all: set<string>, parts: seq<Partition>, fs: Fs)
    requires parts != [] && Distinct(parts) && Ready(dist, fs, all, parts)
    ensures Ready(dist, AfterPartition(dist, fs, parts[0]), all, parts[1..])
  {
    var ms := Moves(dist, parts[0].name, parts[0].arts);
    var rest := Plan(dist, parts[1..]);
    assert Plan(dist, parts) == ms + rest;
    DisjointSplit(ms, rest);
    ManifestsAfterPartition(dist, all, parts, fs);
    MovesAfterPartition(dist, all, parts, fs);
    assert forall n :: n in rest ==> n in Plan(dist, parts);
  }

  /** The first partition's moves and removal leave the later manifests where they were. */
  lemma ManifestsAfterPartition(dist: Path, all: set<string>, parts: seq<Partition>, fs: Fs)
    requires parts != [] && Distinct(parts) && Ready(dist, fs, all, parts)
    ensures var fs2 := AfterPartition(dist, fs, parts[0]);
      forall i :: 1 <= i < |parts| ==>
        fs2.ReadFile(ManifestPath(SplitDir(dist, parts[i].name))) == Ok(ManifestFile(parts[i].arts))
  {
    var p := parts[0];
    var sd := SplitDir(dist, p.name);
    var ms := Moves(dist, p.name, p.arts);
    var rest := Plan(dist, parts[1..]);
    assert Plan(dist, parts) == ms + rest;
    DisjointSplit(ms, rest);
    RelocateReady(dist, p.name, p.arts, World(fs, []), rest);
    var fs1 := MovedAll(fs, ms);
    SplitDirChild(dist, p.name);
    var fs2 := AfterPartition(dist, fs, p);
    assert fs2 == fs1.RemoveAll(sd).value;
    MovedAllFrame(fs, ms);
    forall i | 1 <= i < |parts|
      ensures fs2.ReadFile(ManifestPath(SplitDir(dist, parts[i].name))) == Ok(ManifestFile(parts[i].arts))
    {
      var q := parts[i].name;
      var mp := ManifestPath(SplitDir(dist, q));
      ManifestWithin(SplitDir(dist, q));
      if Within(mp, sd) {
        Siblings(dist, q, p.name, mp);
      }
      forall m | m in ms
        ensures mp != m.from && mp != m.to
      {
        assert Within(m.from, sd);
        assert !Within(m.to, SplitDir(dist, q));
      }
      assert SameFile(fs, fs1, mp);
    }
  }

  /** The first partition's moves and removal leave the later moves ready. */
  lemma MovesAfterPartition(dist: Path, all: set<string>, parts: seq<Partition>, fs: Fs)
    requires parts != [] && Distinct(parts) && Ready(dist, fs, all, parts)
    ensures forall n :: n in Plan(dist, parts[1..]) ==> MoveReady(AfterPartition(dist, fs, parts[0]), n)
  {
    var p := parts[0];
    var later := parts[1..];
    var sd := SplitDir(dist, p.name);
    var ms := Moves(dist, p.name, p.arts);
    var rest := Plan(dist, later);
    assert Plan(dist, parts) == ms + rest;
    DisjointSplit(ms, rest);
    RelocateReady(dist, p.name, p.arts, World(fs, []), rest);
    var fs1 := MovedAll(fs, ms);
    SplitDirChild(dist, p.name);
    var fs2 := AfterPartition(dist, fs, p);
    assert fs2 == fs1.RemoveAll(sd).value;
    PlanOwners(dist, later);
    forall n | n in rest
      ensures MoveReady(fs2, n)
    {
      assert n.owner in Names(later);
      var k :| 0 <= k < |later| && later[k].name == n.owner;
      assert parts[k + 1].name == n.owner;
      if Within(n.from, sd) {
        Siblings(dist, n.owner, p.name, n.from);
      }
    }
  }

  /**
   * What merging partition `p` into `fs` achieves: each destination holds its
   * source's content, nothing is left beneath the partition directory, and
   * nothing else changes.
   */
  ghost predicate PartitionMerged(dist: Path, p: Partition, fs: Fs) {
    var sd := SplitDir(dist, p.name);
    var ms := Moves(dist, p.name, p.arts);
    var fs2 := AfterPartition(dist, fs, p);
    && (forall x :: !Within(x, sd) && (forall m :: m in ms ==> x != m.to) ==> SameFile(fs, fs2, x))
    && (forall x :: !Within(x, sd) && (forall m :: m in ms ==> !StrictlyWithin(m.to, x)) ==>
          (x in fs2.dirs <==> x in fs.dirs))
    && (forall x :: x in fs2.files || x in fs2.dirs ==> !Within(x, sd))
    && (forall m :: m in ms ==> m.from in fs.files && m.to in fs2.files && fs2.files[m.to] == fs.files[m.from])
  }

  /**
   * A ready first partition merges without error: its entries are registered,
   * each destination holds its source's content, nothing is left beneath the
   * partition directory, and nothing else changes.
   */
  lemma PartitionStep(dist: Path, all: set<string>, parts: seq<Partition>, w: World)
    requires parts != [] && Ready(dist, w.fs, all, parts)
    ensures var p := parts[0];
      MergePartition(dist, SplitDir(dist, p.name), w) ==
        Effect(Pass, World(AfterPartition(dist, w.fs, p), w.registry + Expected(dist, p.arts)))
    ensures PartitionMerged(dist, parts[0], w.fs)
  {
    var p := parts[0];
    var sd := SplitDir(dist, p.name);
    var ms := Moves(dist, p.name, p.arts);
    var rest := Plan(dist, parts[1..]);
    assert Plan(dist, parts) == ms + rest;
    DisjointSplit(ms, rest);
    assert forall m :: m in ms ==> m in Plan(dist, parts);
    RelocateReady(dist, p.name, p.arts, w, rest);
    var fs1 := MovedAll(w.fs, ms);
    SplitDirChild(dist, p.name);
    var fs2 := AfterPartition(dist, w.fs, p);
    assert fs2 == fs1.RemoveAll(sd).value;
    assert w.fs.ReadFile(ManifestPath(sd)) == Ok(ManifestFile(p.arts));
    MovedAllFrame(w.fs, ms);
    forall m, n | m in ms && n in ms
      ensures m.from != n.to
    {
      SourcesAreNotDestinations(dist, all, m, n);
    }
    MovedAllContent(w.fs, ms);
    forall x | !Within(x, sd) && (forall m :: m in ms ==> x != m.to)
      ensures SameFile(w.fs, fs2, x)
    {
      forall m | m in ms
        ensures x != m.from
      {
        assert Within(m.from, sd);
      }
      assert SameFile(w.fs, fs1, x);
    }
    forall m | m in ms
      ensures m.to in fs2.files && fs2.files[m.to] == w.fs.files[m.from]
    {
      assert !Within(m.to, sd);
    }
  }

  /** `x` is a file path no partition directory contains and no move writes. */
  predicate Untouched(dist: Path, parts: seq<Partition>, x: Path) {
    && (forall i :: 0 <= i < |parts| ==> !Within(x, SplitDir(dist, parts[i].name)))
    && (forall m :: m in Plan(dist, parts) ==> x != m.to)
  }

  /** `x` is a directory path no partition directory contains and that is no parent of a destination. */
  predicate DirUntouched(dist: Path, parts: seq<Partition>, x: Path) {
    && (forall i :: 0 <= i < |parts| ==> !Within(x, SplitDir(dist, parts[i].name)))
    && (forall m :: m in Plan(dist, parts) ==> !StrictlyWithin(m.to, x))
  }

  /** Every destination holds what its source held in `before`. */
  ghost predicate Delivered(dist: Path, parts: seq<Partition>, before: Fs, after: Fs) {
    forall m :: m in Plan(dist, parts) ==>
      m.from in before.files && m.to in after.files && after.files[m.to] == before.files[m.from]
  }

  /** Nothing is left beneath any partition directory. */
  ghost predicate Cleared(dist: Path, parts: seq<Partition>, after: Fs) {
    forall i, x :: 0 <= i < |parts| && (x in after.files || x in after.dirs) ==>
      !Within(x, SplitDir(dist, parts[i].name))
  }

  /** Everything the partitions and their moves do not concern is as it was. */
  ghost predicate Framed(dist: Path, parts: seq<Partition>, before: Fs, after: Fs) {
    && (forall x :: Untouched(dist, parts, x) ==> SameFile(before, after, x))
    && (forall x :: DirUntouched(dist, parts, x) ==> (x in after.dirs <==> x in before.dirs))
  }

  /** What merging the partitions `parts` from world `w` into `e` achieves. */
  ghost predicate MergedAsPlanned(dist: Path, parts: seq<Partition>, w: World, e: Effect) {
    && e.out == Pass
    && e.world.registry == w.registry + Registered(dist, parts)
    && Delivered(dist, parts, w.fs, e.world.fs)
    && Cleared(dist, parts, e.world.fs)
    && Framed(dist, parts, w.fs, e.world.fs)
  }

  /** The loop over the listing merges ready partitions, in listing order, as planned. */
  lemma {:induction false} ItemsReady(dist: Path, items: seq<DirEntry>, w: World, all: set<string>, parts: seq<Partition>)
    requires DirNames(items) == Names(parts)
    requires Distinct(parts) && Ready(dist, w.fs, all, parts)
    ensures MergedAsPlanned(dist, parts, w, MergeItems(dist, items, w))
    decreases |items|
  {
    if items == [] {
      assert parts == [];
      assert w.registry + [] == w.registry;
    } else if !items[0].isDir {
      ItemsReady(dist, items[1..], w, all, parts);
    } else {
      var p := parts[0];
      var later := parts[1..];
      assert Names(later) == DirNames(items[1..]);
      assert Join(dist, Name(items[0].name)) == SplitDir(dist, p.name);
      PartitionStep(dist, all, parts, w);
      ReadyAfterPartition(dist, all, parts, w.fs);
      var fs2 := AfterPartition(dist, w.fs, p);
      var w2 := World(fs2, w.registry + Expected(dist, p.arts));
      assert Distinct(later);
      ItemsReady(dist, items[1..], w2, all, later);
      Combine(dist, all, parts, w, MergeItems(dist, items[1..], w2));
    }
  }

  /** The facts about the first partition and about the later ones make the facts about all of them. */
  lemma Combine(dist: Path, all: set<string>, parts: seq<Partition>, w: World, e: Effect)
    requires parts != [] && Distinct(parts) && Ready(dist, w.fs, all, parts)
    requires PartitionMerged(dist, parts[0], w.fs)
    requires MergedAsPlanned(dist, parts[1..],
      World(AfterPartition(dist, w.fs, parts[0]), w.registry + Expected(dist, parts[0].arts)), e)
    ensures MergedAsPlanned(dist, parts, w, e)
  {
    assert w.registry + Expected(dist, parts[0].arts) + Registered(dist, parts[1..]) ==
      w.registry + Registered(dist, parts);
    CombineDelivered(dist, all, parts, w.fs, e.world.fs);
    CombineCleared(dist, all, parts, w.fs, e.world.fs);
    CombineFramed(dist, all, parts, w.fs, e.world.fs);
  }

  /** A path beneath the first partition is beneath no other partition and concerns none of their moves. */
  lemma BeneathFirst(dist: Path, all: set<string>, parts: seq<Partition>, x: Path)
    requires parts != [] && Distinct(parts)
    requires forall n :: n in Plan(dist, parts[1..]) ==> Outside(dist, all, n.to)
    requires parts[0].name in all
    requires Within(x, SplitDir(dist, parts[0].name))
    ensures Untouched(dist, parts[1..], x) && DirUntouched(dist, parts[1..], x)
  {
    var p := parts[0];
    var later := parts[1..];
    var sd := SplitDir(dist, p.name);
    forall i | 0 <= i < |later|
      ensures !Within(x, SplitDir(dist, later[i].name))
    {
      assert later[i] == parts[i + 1];
      if Within(x, SplitDir(dist, later[i].name)) {
        Siblings(dist, later[i].name, p.name, x);
      }
    }
    forall m | m in Plan(dist, later)
      ensures x != m.to && !StrictlyWithin(m.to, x)
    {
      assert !Within(m.to, sd);
      if StrictlyWithin(m.to, x) {
        WithinTransitive(m.to, x, sd);
      }
    }
  }

  /** Destinations of the first partition are delivered and then left alone by the later ones. */
  lemma CombineDelivered(dist: Path, all: set<string>, parts: seq<Partition>, fs: Fs, fs3: Fs)
    requires parts != [] && Distinct(parts) && Ready(dist, fs, all, parts)
    requires PartitionMerged(dist, parts[0], fs)
    requires Delivered(dist, parts[1..], AfterPartition(dist, fs, parts[0]), fs3)
    requires Framed(dist, parts[1..], AfterPartition(dist, fs, parts[0]), fs3)
    ensures Delivered(dist, parts, fs, fs3)
  {
    var ms := Moves(dist, parts[0].name, parts[0].arts);
    var rest := Plan(dist, parts[1..]);
    assert Plan(dist, parts) == ms + rest;
    DeliveredFirst(dist, all, parts, fs, fs3);
    DeliveredLater(dist, all, parts, fs, fs3);
  }

  /** The first partition's destinations keep what it delivered, since no later move concerns them. */
  lemma DeliveredFirst(dist: Path, all: set<string>, parts: seq<Partition>, fs: Fs, fs3: Fs)
    requires parts != [] && Ready(dist, fs, all, parts)
    requires PartitionMerged(dist, parts[0], fs)
    requires Framed(dist, parts[1..], AfterPartition(dist, fs, parts[0]), fs3)
    ensures forall m :: m in Moves(dist, parts[0].name, parts[0].arts) ==>
      m.from in fs.files && m.to in fs3.files && fs3.files[m.to] == fs.files[m.from]
  {
    var later := parts[1..];
    var ms := Moves(dist, parts[0].name, parts[0].arts);
    var rest := Plan(dist, later);
    assert Plan(dist, parts) == ms + rest;
    DisjointSplit(ms, rest);
    forall m | m in ms
      ensures m.from in fs.files && m.to in fs3.files && fs3.files[m.to] == fs.files[m.from]
    {
      forall i | 0 <= i < |later|
        ensures !Within(m.to, SplitDir(dist, later[i].name))
      {
        assert later[i] == parts[i + 1];
      }
      forall n | n in rest
        ensures m.to != n.to
      {
        assert Apart(m, n);
      }
      assert Untouched(dist, later, m.to);
    }
  }

  /** A later partition's sources are untouched by the first partition, so what they deliver is the original content. */
  lemma DeliveredLater(dist: Path, all: set<string>, parts: seq<Partition>, fs: Fs, fs3: Fs)
    requires parts != [] && Distinct(parts) && Ready(dist, fs, all, parts)
    requires PartitionMerged(dist, parts[0], fs)
    requires Delivered(dist, parts[1..], AfterPartition(dist, fs, parts[0]), fs3)
    ensures forall m :: m in Plan(dist, parts[1..]) ==>
      m.from in fs.files && m.to in fs3.files && fs3.files[m.to] == fs.files[m.from]
  {
    var p := parts[0];
    var later := parts[1..];
    var sd := SplitDir(dist, p.name);
    var ms := Moves(dist, p.name, p.arts);
    var rest := Plan(dist, later);
    var fs2 := AfterPartition(dist, fs, p);
    assert Plan(dist, parts) == ms + rest;
    PlanOwners(dist, later);
    forall m | m in rest
      ensures m.from in fs.files && m.to in fs3.files && fs3.files[m.to] == fs.files[m.from]
    {
      var k :| 0 <= k < |later| && later[k].name == m.owner;
      assert parts[k + 1].name == m.owner;
      if Within(m.from, sd) {
        Siblings(dist, m.owner, p.name, m.from);
      }
      forall n | n in ms
        ensures m.from != n.to
      {
        SourcesAreNotDestinations(dist, all, m, n);
      }
      assert SameFile(fs, fs2, m.from);
    }
  }


  /** The first partition is cleared, and the later ones put nothing back beneath it. */
  lemma CombineCleared(dist: Path, all: set<string>, parts: seq<Partition>, fs: Fs, fs3: Fs)
    requires parts != [] && Distinct(parts) && Ready(dist, fs, all, parts)
    requires PartitionMerged(dist, parts[0], fs)
    requires Cleared(dist, parts[1..], fs3)
    requires Framed(dist, parts[1..], AfterPartition(dist, fs, parts[0]), fs3)
    ensures Cleared(dist, parts, fs3)
  {
    var p := parts[0];
    var sd := SplitDir(dist, p.name);
    var fs2 := AfterPartition(dist, fs, p);
    assert Plan(dist, parts) == Moves(dist, p.name, p.arts) + Plan(dist, parts[1..]);
    forall i, x | 0 <= i < |parts| && (x in fs3.files || x in fs3.dirs)
      ensures !Within(x, SplitDir(dist, parts[i].name))
    {
      if i == 0 && Within(x, sd) {
        BeneathFirst(dist, all, parts, x);
      } else if i > 0 {
        assert parts[i] == parts[1..][i - 1];
      }
    }
  }

  /** What neither the first partition nor the later ones concern stays as it was. */
  lemma CombineFramed(dist: Path, all: set<string>, parts: seq<Partition>, fs: Fs, fs3: Fs)
    requires parts != [] && Ready(dist, fs, all, parts)
    requires PartitionMerged(dist, parts[0], fs)
    requires Framed(dist, parts[1..], AfterPartition(dist, fs, parts[0]), fs3)
    ensures Framed(dist, parts, fs, fs3)
  {
    var p := parts[0];
    var later := parts[1..];
    var ms := Moves(dist, p.name, p.arts);
    assert Plan(dist, parts) == ms + Plan(dist, later);
    assert forall i :: 0 <= i < |later| ==> later[i] == parts[i + 1];
    forall x | Untouched(dist, parts, x)
      ensures SameFile(fs, fs3, x)
    {
      assert Untouched(dist, later, x);
    }
    forall x | DirUntouched(dist, parts, x)
      ensures x in fs3.dirs <==> x in fs.dirs
    {
      assert DirUntouched(dist, later, x);
    }
  }

  /** The directory entries of a sorted listing keep its strict order, and none sorts before the first entry. */
  lemma {:induction false} DirNamesSorted(items: seq<DirEntry>)
    requires forall i, j :: 0 <= i < j < |items| ==> Less(items[i].name, items[j].name)
    ensures StrictlySorted(DirNames(items))
    ensures forall j :: 0 <= j < |DirNames(items)| ==>
      items[0].name == DirNames(items)[j] || Less(items[0].name, DirNames(items)[j])
    decreases |items|
  {
    if items != [] {
      var d := DirNames(items[1..]);
      DirNamesSorted(items[1..]);
      forall j | 0 <= j < |d|
        ensures Less(items[0].name, d[j])
      {
        assert items[1..][0] == items[1];
        if items[1].name != d[j] {
          LessTransitive(items[0].name, items[1].name, d[j]);
        }
      }
    }
  }

  /**
   * The merge stage on a ready layout, with `parts` the partition directories
   * of dist in listing order and the artifact lists of their manifests: it
   * succeeds; the registry gains every entry that is not Metadata with its
   * path joined onto dist, partitions in listing order and entries in manifest
   * order; every destination holds its source's content; nothing is left
   * beneath any partition directory; and every other path is as it was.
   */
  lemma MergeSucceeds(dist: Path, w: World, parts: seq<Partition>)
    requires w.fs.ReadDir(dist).Ok? && DirNames(w.fs.ReadDir(dist).value) == Names(parts)
    requires Ready(dist, w.fs, set i | 0 <= i < |parts| :: parts[i].name, parts)
    ensures MergeAll(dist, w).out == Pass
    ensures MergeAll(dist, w).world.registry == w.registry + Registered(dist, parts)
    ensures Delivered(dist, parts, w.fs, MergeAll(dist, w).world.fs)
    ensures Cleared(dist, parts, MergeAll(dist, w).world.fs)
    ensures Framed(dist, parts, w.fs, MergeAll(dist, w).world.fs)
  {
    var items := w.fs.ReadDir(dist).value;
    ReadDirListing(w.fs, dist);
    DirNamesSorted(items);
    forall i, j | 0 <= i < j < |parts|
      ensures parts[i].name != parts[j].name
    {
      assert Names(parts)[i] == parts[i].name && Names(parts)[j] == parts[j].name;
      if parts[i].name == parts[j].name {
        LessIrreflexive(parts[i].name);
      }
    }
    ItemsReady(dist, items, w, set i | 0 <= i < |parts| :: parts[i].name, parts);
  }

  // ---------------------------------------------------------------------------
  // Error paths and the registry

  /** A missing output directory fails the stage with not-found before anything changes. */
  lemma MissingDist(dist: Path, w: World)
    requires dist.names != [] && dist !in w.fs.files && dist !in w.fs.dirs
    ensures MergeAll(dist, w) == Effect(Fail(NotExist), w)
  {
  }

  /** A partition directory without a manifest fails with not-found, changing nothing. */
  lemma MissingManifest(dist: Path, splitDir: Path, w: World)
    requires ManifestPath(splitDir) !in w.fs.files && ManifestPath(splitDir) !in w.fs.dirs
    ensures MergePartition(dist, splitDir, w) == Effect(Fail(NotExist), w)
  {
    ManifestWithin(splitDir);
  }

  /** The directory entries of a listing. */
  function OnlyDirs(items: seq<DirEntry>): (r: seq<DirEntry>)
    ensures forall i :: 0 <= i < |r| ==> r[i].isDir
    decreases |items|
  {
    if items == [] then []
    else if items[0].isDir then [items[0]] + OnlyDirs(items[1..])
    else OnlyDirs(items[1..])
  }

  /** Entries of dist that are not directories play no part in the merge. */
  lemma {:induction false} IgnoresFiles(dist: Path, items: seq<DirEntry>, w: World)
    ensures MergeItems(dist, items, w) == MergeItems(dist, OnlyDirs(items), w)
    decreases |items|
  {
    if items != [] {
      if items[0].isDir {
        var e := MergePartition(dist, Join(dist, Name(items[0].name)), w);
        var ds := OnlyDirs(items);
        assert ds[0] == items[0] && ds[1..] == OnlyDirs(items[1..]);
        IgnoresFiles(dist, items[1..], e.world);
      } else {
        IgnoresFiles(dist, items[1..], w);
      }
    }
  }

  /** `after` is `before` followed by entries that are not Metadata. */
  predicate Grows(before: seq<Artifact>, after: seq<Artifact>) {
    && |before| <= |after| && after[..|before|] == before
    && forall k :: |before| <= k < |after| ==> after[k].kind != Metadata
  }

  lemma GrowsTransitive(a: seq<Artifact>, b: seq<Artifact>, c: seq<Artifact>)
    requires Grows(a, b) && Grows(b, c)
    ensures Grows(a, c)
  {
    assert c[..|a|] == c[..|b|][..|a|];
  }

  /**
   * Relocation registers a prefix of the manifest's non-Metadata entries, in
   * manifest order and with their paths joined onto dist, and all of them when it succeeds.
   */
  lemma {:induction false} RelocateRegisters(dist: Path, splitDir: Path, arts: seq<Artifact>, w: World)
    ensures var r := Relocate(dist, splitDir, arts, w).world.registry;
      w.registry <= r <= w.registry + Expected(dist, arts)
    ensures Relocate(dist, splitDir, arts, w).out.Pass? ==>
      Relocate(dist, splitDir, arts, w).world.registry == w.registry + Expected(dist, arts)
    decreases |arts|
  {
    if arts != [] && arts[0].kind != Metadata {
      var entry := arts[0].(path := Join(dist, arts[0].path));
      var e := Relocate(dist, splitDir, arts, w);
      var w1 := World(w.fs, w.registry + [entry]);
      assert w.registry + Expected(dist, arts) == w1.registry + Expected(dist, arts[1..]);
      var fs1 := w.fs.MkdirAll(Dir(entry.path));
      if fs1.Ok? && fs1.value.Rename(Join(splitDir, arts[0].path), entry.path).Ok? {
        var fs2 := fs1.value.Rename(Join(splitDir, arts[0].path), entry.path).value;
        RelocateRegisters(dist, splitDir, arts[1..], World(fs2, w1.registry));
        assert w.registry <= w1.registry;
      }
    } else if arts != [] {
      RelocateRegisters(dist, splitDir, arts[1..], w);
    }
  }

  lemma RelocateGrows(dist: Path, splitDir: Path, arts: seq<Artifact>, w: World)
    ensures Grows(w.registry, Relocate(dist, splitDir, arts, w).world.registry)
  {
    RelocateRegisters(dist, splitDir, arts, w);
    var r := Relocate(dist, splitDir, arts, w).world.registry;
    var x := Expected(dist, arts);
    forall k | |w.registry| <= k < |r|
      ensures r[k].kind != Metadata
    {
      assert r[k] == (w.registry + x)[k] == x[k - |w.registry|];
    }
  }

  /** Over a whole listing the registry only grows, and never by a Metadata entry. */
  lemma {:induction false} MergeItemsGrows(dist: Path, items: seq<DirEntry>, w: World)
    ensures Grows(w.registry, MergeItems(dist, items, w).world.registry)
    decreases |items|
  {
    if items != [] {
      if items[0].isDir {
        var sd := Join(dist, Name(items[0].name));
        var e := MergePartition(dist, sd, w);
        var f := w.fs.ReadFile(ManifestPath(sd));
        if f.Ok? && Decode(f.value).Ok? {
          RelocateGrows(dist, sd, Decode(f.value).value, w);
        }
        assert Grows(w.registry, e.world.registry);
        MergeItemsGrows(dist, items[1..], e.world);
        if e.out.Pass? {
          GrowsTransitive(w.registry, e.world.registry, MergeItems(dist, items, w).world.registry);
        }
      } else {
        MergeItemsGrows(dist, items[1..], w);
      }
    }
  }

  /** Pipe.Run never removes or reorders registry entries and never registers Metadata. */
  lemma MergeGrows(dist: Path, w: World)
    ensures Grows(w.registry, MergeAll(dist, w).world.registry)
  {
    if w.fs.ReadDir(dist).Ok? {
      MergeItemsGrows(dist, w.fs.ReadDir(dist).value, w);
    }
  }

  /**
   * A non-Metadata entry whose file is missing from the partition is already
   * registered when the stage fails with not-found.
   */
  lemma MissingSourceRegistered(dist: Path, splitDir: Path, arts: seq<Artifact>, w: World)
    requires arts != [] && arts[0].kind != Metadata
    requires w.fs.MkdirAll(Dir(Join(dist, arts[0].path))).Ok?
    requires var fs1 := w.fs.MkdirAll(Dir(Join(dist, arts[0].path))).value;
      Join(splitDir, arts[0].path) !in fs1.files && !fs1.IsDirectory(Join(splitDir, arts[0].path))
    ensures Relocate(dist, splitDir, arts, w).out == Fail(NotExist)
    ensures Relocate(dist, splitDir, arts, w).world.registry ==
      w.registry + [arts[0].(path := Join(dist, arts[0].path))]
  {
  }

  // ---------------------------------------------------------------------------
  // The tree stays well formed

  /** Each relocation creates directories and moves a file, so the tree stays well formed, whatever fails. */
  lemma {:induction false} RelocateWellformed(dist: Path, splitDir: Path, arts: seq<Artifact>, w: World)
    requires w.fs.Wellformed()
    ensures Relocate(dist, splitDir, arts, w).world.fs.Wellformed()
    decreases |arts|
  {
    if arts != [] {
      if arts[0].kind == Metadata {
        RelocateWellformed(dist, splitDir, arts[1..], w);
      } else {
        var from := Join(splitDir, arts[0].path);
        var to := Join(dist, arts[0].path);
        var registry := w.registry + [arts[0].(path := to)];
        if w.fs.MkdirAll(Dir(to)).Ok? {
          var fs1 := w.fs.MkdirAll(Dir(to)).value;
          MkdirAllWellformed(w.fs, Dir(to));
          if fs1.Rename(from, to).Ok? {
            RenameWellformed(fs1, from, to);
            RelocateWellformed(dist, splitDir, arts[1..], World(fs1.Rename(from, to).value, registry));
          }
        }
      }
    }
  }

  /** Merging one partition directory leaves a well-formed tree well formed. */
  lemma MergePartitionWellformed(dist: Path, splitDir: Path, w: World)
    requires w.fs.Wellformed()
    ensures MergePartition(dist, splitDir, w).world.fs.Wellformed()
  {
    var read := w.fs.ReadFile(ManifestPath(splitDir));
    if read.Ok? && Decode(read.value).Ok? {
      var arts := Decode(read.value).value;
      RelocateWellformed(dist, splitDir, arts, w);
      var e := Relocate(dist, splitDir, arts, w);
      if e.out.Pass? && e.world.fs.RemoveAll(splitDir).Ok? {
        RemoveAllWellformed(e.world.fs, splitDir);
      }
    }
  }

  lemma {:induction false} MergeItemsWellformed(dist: Path, items: seq<DirEntry>, w: World)
    requires w.fs.Wellformed()
    ensures MergeItems(dist, items, w).world.fs.Wellformed()
    decreases |items|
  {
    if items != [] {
      if !items[0].isDir {
        MergeItemsWellformed(dist, items[1..], w);
      } else {
        var splitDir := Join(dist, Name(items[0].name));
        MergePartitionWellformed(dist, splitDir, w);
        MergeItemsWellformed(dist, items[1..], MergePartition(dist, splitDir, w).world);
      }
    }
  }

  /** The merge stage, whether it succeeds or stops at an error, leaves a well-formed tree well formed. */
  lemma MergeAllWellformed(dist: Path, w: World)
    requires w.fs.Wellformed()
    ensures MergeAll(dist, w).world.fs.Wellformed()
  {
    if w.fs.ReadDir(dist).Ok? {
      MergeItemsWellformed(dist, w.fs.ReadDir(dist).value, w);
    }
  }

  // ---------------------------------------------------------------------------
  // Split, then merge

  /**
   * The split stage narrows dist to `<dist>/<target>`, and split-artifacts
   * rewrites each path beneath it relative to that directory.  The merge of
   * the partition `target` then finds the file where it was built and moves it
   * to the same place with the `target` segment dropped.
   */
  lemma SplitThenMerge(dist: Path, target: string, p: Path)
    requires IsName(target) && Valid(p)
    requires Within(p, JoinString(dist, target))
    ensures Rel(JoinString(dist, target), p).Ok?
    ensures var rel := Rel(JoinString(dist, target), p).value;
      && rel.up == 0
      && Join(SplitDir(dist, target), rel) == p
      && Join(dist, rel) == Path(dist.absolute, dist.up, dist.names + p.names[|dist.names| + 1..])
  {
    var splitDist := JoinString(dist, target);
    JoinStringName(dist, target);
    SplitDirChild(dist, target);
    assert splitDist == SplitDir(dist, target);
    RelOfPrefix(splitDist, p);
    RelJoin(splitDist, p);
  }
}
