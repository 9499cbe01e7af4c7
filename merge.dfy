/**
 * The merge stage: gathers the partitions a split build left under the output
 * directory, registers their artifacts under the output directory, moves each file
 * up into the output directory and removes the partition directories.
 */
module Merge {
  import opened Wrappers
  import opened Paths
  import opened Artifacts
  import opened Files

  const PipeName := "merge"

  /** The manifest every partition directory holds. */
  const ManifestName := "artifacts.json"

  /** The stage runs only in merge mode. */
  predicate Skip(ctx: Context)
    reads ctx
  {
    !ctx.merge
  }

  /** The stage has a non-empty name and skips exactly when merge mode is off. */
  lemma PipeIdentity(ctx: Context)
    ensures PipeName != "" && (Skip(ctx) <==> !ctx.merge)
  {
  }

  function ManifestPath(splitDir: Path): Path {
    Join(splitDir, Name(ManifestName))
  }

  /** json.Unmarshal of a manifest into an artifact list. */
  function Decode(f: File): (r: Result<seq<Artifact>>)
    ensures r.Ok? <==> f.ManifestFile?
    ensures r.Ok? ==> f == ManifestFile(r.value)
    ensures r.Err? ==> r.error == Malformed
  {
    match f
    case Blob(_) => Err(Malformed)
    case ManifestFile(entries) => Ok(entries)
  }

  /** Everything the stage reads and changes: the filesystem and the artifact registry. */
  datatype World = World(fs: Fs, registry: seq<Artifact>)

  /** The error the stage returns and the world it leaves behind. */
  datatype Effect = Effect(out: Outcome, world: World)

  /**
   * The relocation loop over one manifest: Metadata entries are skipped; every
   * other one is first registered at its path joined onto dist, then its parent
   * directory is created and the file is moved there.  The first failure stops
   * the stage.
   */
  function Relocate(dist: Path, splitDir: Path, arts: seq<Artifact>, w: World): Effect
    decreases |arts|
  {
    if arts == [] then Effect(Pass, w)
    else if arts[0].kind == Metadata then Relocate(dist, splitDir, arts[1..], w)
    else
      var from := Join(splitDir, arts[0].path);
      var to := Join(dist, arts[0].path);
      var registry := w.registry + [arts[0].(path := to)];
      match w.fs.MkdirAll(Dir(to))
      case Err(e) => Effect(Fail(e), World(w.fs, registry))
      case Ok(fs1) =>
        match fs1.Rename(from, to)
        case Err(e) => Effect(Fail(e), World(fs1, registry))
        case Ok(fs2) => Relocate(dist, splitDir, arts[1..], World(fs2, registry))
  }

  /** One partition directory: read and decode its manifest, relocate, then remove the directory. */
  function MergePartition(dist: Path, splitDir: Path, w: World): (e: Effect)
    ensures e.out.Pass? ==> forall x :: x in e.world.fs.files || x in e.world.fs.dirs ==> !Within(x, splitDir)
  {
    match w.fs.ReadFile(ManifestPath(splitDir))
    case Err(e) => Effect(Fail(e), w)
    case Ok(f) =>
      match Decode(f)
      case Err(e) => Effect(Fail(e), w)
      case Ok(arts) =>
        var e := Relocate(dist, splitDir, arts, w);
        if e.out.Fail? then e
        else
          match e.world.fs.RemoveAll(splitDir)
          case Err(err) => Effect(Fail(err), e.world)
          case Ok(fs') => Effect(Pass, World(fs', e.world.registry))
  }

  /** The loop over the listing of dist: entries that are not directories are ignored. */
  function MergeItems(dist: Path, items: seq<DirEntry>, w: World): Effect
    decreases |items|
  {
    if items == [] then Effect(Pass, w)
    else if !items[0].isDir then MergeItems(dist, items[1..], w)
    else
      var e := MergePartition(dist, Join(dist, Name(items[0].name)), w);
      if e.out.Fail? then e else MergeItems(dist, items[1..], e.world)
  }

  /** Pipe.Run as a function of the world. */
  ghost function MergeAll(dist: Path, w: World): (e: Effect)
    ensures e.out.Pass? ==> w.fs.IsDirectory(dist)
  {
    match w.fs.ReadDir(dist)
    case Err(e) => Effect(Fail(e), w)
    case Ok(items) => MergeItems(dist, items, w)
  }

  /** Merges the partition directory `splitDir` into `dist`. */
  method RunPartition(ctx: Context, fs: FileSystem, dist: Path, splitDir: Path) returns (r: Outcome)
    modifies ctx`artifacts, fs
    ensures Effect(r, World(fs.State(), ctx.artifacts)) == MergePartition(dist, splitDir, old(World(fs.State(), ctx.artifacts)))
  {
    var read := fs.ReadFile(ManifestPath(splitDir));
    if read.Err? {
      return Fail(read.error);
    }
    var decoded := Decode(read.value);
    if decoded.Err? {
      return Fail(decoded.error);
    }
    var arts := decoded.value;
    ghost var w0 := World(fs.State(), ctx.artifacts);
    assert arts[0..] == arts;
    var j := 0;
    while j < |arts|
      invariant 0 <= j <= |arts|
      invariant Relocate(dist, splitDir, arts, w0) == Relocate(dist, splitDir, arts[j..], World(fs.State(), ctx.artifacts))
    {
      var a := arts[j];
      assert arts[j..][0] == a && arts[j..][1..] == arts[j + 1..];
      if a.kind == Metadata {
        j := j + 1;
        continue;
      }
      var from := Join(splitDir, a.path);
      var to := Join(dist, a.path);
      ctx.artifacts := ctx.artifacts + [a.(path := to)];
      r := fs.MkdirAll(Dir(to));
      if r.Fail? {
        return;
      }
      r := fs.Rename(from, to);
      if r.Fail? {
        return;
      }
      j := j + 1;
    }
    r := fs.RemoveAll(splitDir);
  }

  /** Pipe.Run: merges every partition directory of `ctx.dist`, in listing order. */
  method Run(ctx: Context, fs: FileSystem) returns (r: Outcome)
    modifies ctx`artifacts, fs
    ensures Effect(r, World(fs.State(), ctx.artifacts)) == MergeAll(ctx.dist, old(World(fs.State(), ctx.artifacts)))
  {
    var dist := ctx.dist;
    var listed := fs.ReadDir(dist);
    if listed.Err? {
      return Fail(listed.error);
    }
    var items := listed.value;
    ghost var w0 := World(fs.State(), ctx.artifacts);
    assert items[0..] == items;
    var i := 0;
    while i < |items|
      invariant 0 <= i <= |items| && ctx.dist == dist
      invariant MergeItems(dist, items, w0) == MergeItems(dist, items[i..], World(fs.State(), ctx.artifacts))
    {
      assert items[i..][0] == items[i] && items[i..][1..] == items[i + 1..];
      if !items[i].isDir {
        i := i + 1;
        continue;
      }
      r := RunPartition(ctx, fs, dist, Join(dist, Name(items[i].name)));
      if r.Fail? {
        return;
      }
      i := i + 1;
    }
    return Pass;
  }
}
