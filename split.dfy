/**
 * The split stage, which narrows the output directory to one target OS, and its
 * companion that makes every artifact path relative to the narrowed directory.
 */
module Split {
  import opened Wrappers
  import opened Paths
  import opened Artifacts

  const SplitPipeName := "split"
  const ArtifactsPipeName := "split-artifacts"

  /** Both split stages skip unless split mode is on. */
  predicate Skip(ctx: Context)
    reads ctx
  {
    !ctx.split
  }

  /** The two stages have distinct, non-empty names and skip under the same condition. */
  lemma PipesIdentity(ctx: Context)
    ensures SplitPipeName != "" && ArtifactsPipeName != "" && SplitPipeName != ArtifactsPipeName
    ensures Skip(ctx) <==> !ctx.split
  {
  }

  /** The process environment and the runtime's own OS, read by the split stage. */
  datatype Env = Env(vars: map<string, string>, runtimeOs: string)

  /** os.Getenv: an unset variable reads as "". */
  function Getenv(env: Env, key: string): string {
    if key in env.vars then env.vars[key] else ""
  }

  /** ordered.First: the first non-empty value, or "" when every value is empty. */
  function First(values: seq<string>): (r: string)
    ensures r == "" <==> forall i :: 0 <= i < |values| ==> values[i] == ""
    ensures r != "" ==> exists i :: 0 <= i < |values| && values[i] == r
                                 && forall j :: 0 <= j < i ==> values[j] == ""
  {
    if values == [] then ""
    else if values[0] != "" then values[0]
    else
      var r := First(values[1..]);
      assert forall i :: 1 <= i < |values| ==> values[i] == values[1..][i - 1];
      r
  }

  /** getFilter: the split target OS. */
  function GetFilter(env: Env): (r: string)
    ensures r == Getenv(env, "GGOOS") || r == Getenv(env, "GOOS") || r == env.runtimeOs
    ensures r == "" ==> env.runtimeOs == ""
  {
    var values := [Getenv(env, "GGOOS"), Getenv(env, "GOOS"), env.runtimeOs];
    assert values[2] == env.runtimeOs;
    First(values)
  }

  /** GGOOS overrides GOOS, which overrides the runtime OS. */
  lemma GetFilterPrecedence(env: Env)
    ensures Getenv(env, "GGOOS") != "" ==> GetFilter(env) == Getenv(env, "GGOOS")
    ensures Getenv(env, "GGOOS") == "" && Getenv(env, "GOOS") != "" ==> GetFilter(env) == Getenv(env, "GOOS")
    ensures Getenv(env, "GGOOS") == "" && Getenv(env, "GOOS") == "" ==> GetFilter(env) == env.runtimeOs
  {
    var vs := [Getenv(env, "GGOOS"), Getenv(env, "GOOS"), env.runtimeOs];
    if vs[0] == "" && vs[1] != "" {
      assert vs[1..] == [vs[1], vs[2]];
    }
    if vs[0] == "" && vs[1] == "" {
      assert vs[1..][1..] == [vs[2]];
    }
  }

  /** Pipe.Run: records the target and narrows the output directory to `<dist>/<target>`. */
  method RunSplit(ctx: Context, env: Env) returns (r: Outcome)
    modifies ctx`splitTarget, ctx`dist
    ensures r == Pass
    ensures ctx.splitTarget == GetFilter(env)
    ensures ctx.dist == JoinString(old(ctx.dist), ctx.splitTarget)
  {
    ctx.splitTarget := GetFilter(env);
    ctx.dist := JoinString(ctx.dist, ctx.splitTarget);
    return Pass;
  }

  /** For a plain OS name the new output directory is the old one with that name added. */
  lemma SplitDistIsChild(dist: Path, env: Env)
    requires IsName(GetFilter(env))
    ensures JoinString(dist, GetFilter(env)) == Join(dist, Name(GetFilter(env)))
  {
    JoinStringName(dist, GetFilter(env));
  }

  // ---------------------------------------------------------------------------
  // ArtifactsPipe

  /** What visiting the registry returns: the visitor's error and the registry afterwards. */
  datatype Visited = Visited(out: Outcome, artifacts: seq<Artifact>)

  function Prepend(done: seq<Artifact>, v: Visited): Visited {
    Visited(v.out, done + v.artifacts)
  }

  /**
   * ArtifactsPipe.Run over a registry: each path becomes Rel(dist, path) in
   * order; the first failure stops the visit, leaving that artifact with the
   * empty path Rel returned and the later artifacts untouched.
   */
  function Relativize(dist: Path, arts: seq<Artifact>): (v: Visited)
    ensures |v.artifacts| == |arts|
    decreases |arts|
  {
    if arts == [] then Visited(Pass, [])
    else
      match Rel(dist, arts[0].path)
      case Err(e) => Visited(Fail(e), [arts[0].(path := Dot)] + arts[1..])
      case Ok(p) => Prepend([arts[0].(path := p)], Relativize(dist, arts[1..]))
  }

  /** The visit changes only paths: every other field, and the order and length, stay. */
  lemma {:induction false} RelativizeKeepsFields(dist: Path, arts: seq<Artifact>)
    ensures forall i :: 0 <= i < |arts| ==> SameButPath(arts[i], Relativize(dist, arts).artifacts[i])
    decreases |arts|
  {
    if arts != [] {
      RelativizeKeepsFields(dist, arts[1..]);
      assert forall i :: 1 <= i < |arts| ==> arts[1..][i - 1] == arts[i];
    }
  }

  /** The visit succeeds exactly when every path can be made relative, and then each path is its Rel. */
  lemma {:induction false} RelativizePass(dist: Path, arts: seq<Artifact>)
    ensures Relativize(dist, arts).out.Pass? <==> forall i :: 0 <= i < |arts| ==> Rel(dist, arts[i].path).Ok?
    ensures Relativize(dist, arts).out.Pass? ==>
      forall i :: 0 <= i < |arts| ==> Relativize(dist, arts).artifacts[i].path == Rel(dist, arts[i].path).value
    decreases |arts|
  {
    if arts != [] {
      RelativizePass(dist, arts[1..]);
      assert forall i :: 1 <= i < |arts| ==> arts[1..][i - 1] == arts[i];
    }
  }

  /**
   * When the path at `i` is the first that cannot be made relative, the visit
   * fails there: earlier paths are rewritten, that artifact gets the empty path
   * Rel returned, and the later artifacts are untouched.
   */
  lemma {:induction false} RelativizeFail(dist: Path, arts: seq<Artifact>, i: nat)
    requires i < |arts| && Rel(dist, arts[i].path).Err?
    requires forall j :: 0 <= j < i ==> Rel(dist, arts[j].path).Ok?
    ensures var v := Relativize(dist, arts);
      && v.out == Fail(CannotRel)
      && (forall j :: 0 <= j < i ==> v.artifacts[j].path == Rel(dist, arts[j].path).value)
      && v.artifacts[i].path == Dot
      && v.artifacts[i + 1..] == arts[i + 1..]
    decreases i
  {
    if i > 0 {
      assert forall j :: 0 <= j < i - 1 ==> arts[1..][j] == arts[j + 1];
      RelativizeFail(dist, arts[1..], i - 1);
      assert arts[1..][i..] == arts[i + 1..];
    }
  }

  /** When `dist` is a segment prefix of every path, each path becomes the rest after it. */
  lemma RelativizeUnderDist(dist: Path, arts: seq<Artifact>)
    requires forall i :: 0 <= i < |arts| ==> Within(arts[i].path, dist)
    ensures var v := Relativize(dist, arts);
      && v.out == Pass
      && forall i :: 0 <= i < |arts| ==>
           Within(arts[i].path, dist) && v.artifacts[i].path == Path(false, 0, arts[i].path.names[|dist.names|..])
  {
    forall i | 0 <= i < |arts|
      ensures Rel(dist, arts[i].path) == Ok(Path(false, 0, arts[i].path.names[|dist.names|..]))
    {
      RelOfPrefix(dist, arts[i].path);
    }
    RelativizePass(dist, arts);
  }

  /** After a successful visit, joining `dist` back onto each new path gives the old path. */
  lemma RelativizeJoin(dist: Path, arts: seq<Artifact>)
    requires forall i :: 0 <= i < |arts| ==> Valid(arts[i].path)
    requires Relativize(dist, arts).out == Pass
    ensures forall i :: 0 <= i < |arts| ==> Join(dist, Relativize(dist, arts).artifacts[i].path) == arts[i].path
  {
    RelativizePass(dist, arts);
    forall i | 0 <= i < |arts|
      ensures Join(dist, Relativize(dist, arts).artifacts[i].path) == arts[i].path
    {
      RelJoin(dist, arts[i].path);
    }
  }

  /** A path Rel rewrites joins the rewritten prefix of the registry. */
  lemma RelativizeStepOk(dist: Path, arts: seq<Artifact>, done: seq<Artifact>, cur: seq<Artifact>, i: nat, p: Path)
    requires i < |arts| && |done| == i && cur == done + arts[i..]
    requires Rel(dist, arts[i].path) == Ok(p)
    ensures Prepend(done, Relativize(dist, arts[i..])) ==
      Prepend(done + [arts[i].(path := p)], Relativize(dist, arts[i + 1..]))
    ensures cur[i := arts[i].(path := p)] == (done + [arts[i].(path := p)]) + arts[i + 1..]
  {
    assert arts[i..][0] == arts[i] && arts[i..][1..] == arts[i + 1..];
    var tail := Relativize(dist, arts[i + 1..]).artifacts;
    assert done + ([arts[i].(path := p)] + tail) == (done + [arts[i].(path := p)]) + tail;
  }

  /** A path Rel refuses ends the visit, with that artifact's path emptied. */
  lemma RelativizeStepErr(dist: Path, arts: seq<Artifact>, done: seq<Artifact>, cur: seq<Artifact>, i: nat)
    requires i < |arts| && |done| == i && cur == done + arts[i..]
    requires Rel(dist, arts[i].path).Err?
    ensures Prepend(done, Relativize(dist, arts[i..])) ==
      Visited(Fail(Rel(dist, arts[i].path).error), cur[i := arts[i].(path := Dot)])
  {
    assert arts[i..][0] == arts[i] && arts[i..][1..] == arts[i + 1..];
    assert cur[i := arts[i].(path := Dot)] == done + ([arts[i].(path := Dot)] + arts[i + 1..]);
  }

  /** The visit of ArtifactsPipe.Run over the registry, one artifact at a time. */
  method VisitRelativize(dist: Path, arts: seq<Artifact>) returns (v: Visited)
    ensures v == Relativize(dist, arts)
  {
    var cur := arts;
    ghost var done: seq<Artifact> := [];
    var i := 0;
    assert arts[0..] == arts;
    assert Prepend([], Relativize(dist, arts)) == Relativize(dist, arts);
    while i < |cur|
      invariant 0 <= i <= |arts| && |done| == i
      invariant cur == done + arts[i..]
      invariant Relativize(dist, arts) == Prepend(done, Relativize(dist, arts[i..]))
    {
      var a := cur[i];
      var rel := Rel(dist, a.path);
      if rel.Err? {
        RelativizeStepErr(dist, arts, done, cur, i);
        return Visited(Fail(rel.error), cur[i := a.(path := Dot)]);
      }
      RelativizeStepOk(dist, arts, done, cur, i, rel.value);
      cur := cur[i := a.(path := rel.value)];
      done := done + [a.(path := rel.value)];
      i := i + 1;
    }
    assert cur == done;
    return Visited(Pass, cur);
  }

  /** ArtifactsPipe.Run: rewrites the registry's paths, in order, stopping at the first error. */
  method RunArtifacts(ctx: Context) returns (r: Outcome)
    modifies ctx`artifacts
    ensures Visited(r, ctx.artifacts) == Relativize(ctx.dist, old(ctx.artifacts))
  {
    var v := VisitRelativize(ctx.dist, ctx.artifacts);
    ctx.artifacts := v.artifacts;
    r := v.out;
  }
}
