/**
 * The `continue` command: the flag rules that prepare the context, and the
 * loop that runs the continue pipeline stage by stage.
 */
module Continue {
  import opened Wrappers
  import opened Paths
  import opened Artifacts

  /** The command-line options of `continue` (the timeout is not modelled). */
  datatype ContinueOpts = ContinueOpts(
    config: string,
    releaseNotesFile: string,
    releaseNotesTmpl: string,
    releaseHeaderFile: string,
    releaseHeaderTmpl: string,
    releaseFooterFile: string,
    releaseFooterTmpl: string,
    autoSnapshot: bool,
    snapshot: bool,
    draft: bool,
    failFast: bool,
    merge: bool,
    parallelism: int,
    skips: seq<string>)

  const Publish := "publish"
  const Announce := "announce"
  const Validate := "validate"

  // ---------------------------------------------------------------------------
  // Skips

  /**
   * skips.SetRelease: adds the requested names in order, refusing the first
   * one that is not an allowed release skip.
   */
  function SetRelease(current: set<string>, keys: seq<string>, allowed: set<string>): (r: Result<set<string>>)
    ensures r.Ok? <==> forall i :: 0 <= i < |keys| ==> keys[i] in allowed
    ensures r.Ok? ==> r.value == current + set i | 0 <= i < |keys| :: keys[i]
    ensures r.Err? ==> r.error == InvalidSkip
    decreases |keys|
  {
    if keys == [] then Ok(current)
    else if keys[0] !in allowed then Err(InvalidSkip)
    else
      var r := SetRelease(current + {keys[0]}, keys[1..], allowed);
      assert forall i :: 1 <= i < |keys| ==> keys[i] == keys[1..][i - 1];
      assert r.Ok? ==> (set i | 0 <= i < |keys| :: keys[i]) == {keys[0]} + set i | 0 <= i < |keys[1..]| :: keys[1..][i];
      r
  }

  /** The skips a snapshot implies, and announce following publish. */
  function ImpliedSkips(s: set<string>, snapshot: bool): (r: set<string>)
    ensures s <= r
    ensures snapshot ==> Publish in r && Announce in r && Validate in r
    ensures Publish in r ==> Announce in r
  {
    var s1 := if snapshot then s + {Publish, Announce, Validate} else s;
    if Publish in s1 then s1 + {Announce} else s1
  }

  /** The implied skips are the least set that contains the requested ones and obeys both rules. */
  lemma ImpliedSkipsLeast(s: set<string>, snapshot: bool, t: set<string>)
    requires s <= t
    requires snapshot ==> Publish in t && Announce in t && Validate in t
    requires Publish in t ==> Announce in t
    ensures ImpliedSkips(s, snapshot) <= t
  {
  }

  // ---------------------------------------------------------------------------
  // Context setup

  /** Whether the run is a snapshot: asked for, or implied by a dirty tree under --auto-snapshot. */
  function IsSnapshot(options: ContinueOpts, dirty: bool): bool {
    options.snapshot || (options.autoSnapshot && dirty)
  }

  /**
   * setupContinueContext: copies the flags into the context, then applies the
   * requested skips and the skips they imply.  `procs` stands for
   * runtime.GOMAXPROCS(0), `dirty` for git.CheckDirty reporting a dirty tree
   * and `allowed` for the release skip names.
   */
  method SetupContinueContext(ctx: Context, options: ContinueOpts, procs: int, dirty: bool, allowed: set<string>)
    returns (r: Outcome)
    modifies ctx`action, ctx`parallelism, ctx`releaseNotesFile, ctx`releaseNotesTmpl, ctx`releaseHeaderFile
    modifies ctx`releaseHeaderTmpl, ctx`releaseFooterFile, ctx`releaseFooterTmpl, ctx`snapshot, ctx`failFast
    modifies ctx`clean, ctx`merge, ctx`draft, ctx`skips
    ensures ctx.action == ActionContinue
    ensures options.parallelism > 0 ==> ctx.parallelism == options.parallelism
    ensures options.parallelism <= 0 ==> ctx.parallelism == procs
    ensures ctx.releaseNotesFile == options.releaseNotesFile && ctx.releaseNotesTmpl == options.releaseNotesTmpl
    ensures ctx.releaseHeaderFile == options.releaseHeaderFile && ctx.releaseHeaderTmpl == options.releaseHeaderTmpl
    ensures ctx.releaseFooterFile == options.releaseFooterFile && ctx.releaseFooterTmpl == options.releaseFooterTmpl
    ensures ctx.snapshot == IsSnapshot(options, dirty)
    ensures ctx.failFast == options.failFast && !ctx.clean && ctx.merge == options.merge && ctx.draft == options.draft
    ensures var requested := SetRelease(old(ctx.skips), options.skips, allowed);
      && (requested.Err? ==> r == Fail(InvalidSkip) && ctx.skips == old(ctx.skips))
      && (requested.Ok? ==> r == Pass && ctx.skips == ImpliedSkips(requested.value, ctx.snapshot))
  {
    SetRunFlags(ctx, options, procs);
    SetReleaseNotes(ctx, options);
    SetModes(ctx, options, dirty);
    r := ApplySkips(ctx, options.skips, allowed);
  }

  /** The action, and the parallelism flag falling back to the processor count. */
  method SetRunFlags(ctx: Context, options: ContinueOpts, procs: int)
    modifies ctx`action, ctx`parallelism
    ensures ctx.action == ActionContinue
    ensures options.parallelism > 0 ==> ctx.parallelism == options.parallelism
    ensures options.parallelism <= 0 ==> ctx.parallelism == procs
  {
    ctx.action := ActionContinue;
    ctx.parallelism := procs;
    if options.parallelism > 0 {
      ctx.parallelism := options.parallelism;
    }
  }

  /** The release notes, header and footer files and templates. */
  method SetReleaseNotes(ctx: Context, options: ContinueOpts)
    modifies ctx`releaseNotesFile, ctx`releaseNotesTmpl, ctx`releaseHeaderFile
    modifies ctx`releaseHeaderTmpl, ctx`releaseFooterFile, ctx`releaseFooterTmpl
    ensures ctx.releaseNotesFile == options.releaseNotesFile && ctx.releaseNotesTmpl == options.releaseNotesTmpl
    ensures ctx.releaseHeaderFile == options.releaseHeaderFile && ctx.releaseHeaderTmpl == options.releaseHeaderTmpl
    ensures ctx.releaseFooterFile == options.releaseFooterFile && ctx.releaseFooterTmpl == options.releaseFooterTmpl
  {
    ctx.releaseNotesFile := options.releaseNotesFile;
    ctx.releaseNotesTmpl := options.releaseNotesTmpl;
    ctx.releaseHeaderFile := options.releaseHeaderFile;
    ctx.releaseHeaderTmpl := options.releaseHeaderTmpl;
    ctx.releaseFooterFile := options.releaseFooterFile;
    ctx.releaseFooterTmpl := options.releaseFooterTmpl;
  }

  /** Snapshot (asked for, or implied by a dirty tree), fail-fast, clean, merge and draft. */
  method SetModes(ctx: Context, options: ContinueOpts, dirty: bool)
    modifies ctx`snapshot, ctx`failFast, ctx`clean, ctx`merge, ctx`draft
    ensures ctx.snapshot == IsSnapshot(options, dirty)
    ensures ctx.failFast == options.failFast && !ctx.clean && ctx.merge == options.merge && ctx.draft == options.draft
  {
    ctx.snapshot := options.snapshot;
    ctx.failFast := options.failFast;
    ctx.clean := false;
    ctx.merge := options.merge;
    if options.autoSnapshot && dirty {
      ctx.snapshot := true;
    }
    ctx.draft := options.draft;
  }

  /** The skip half of setupContinueContext: the requested skips, then the ones they imply. */
  method ApplySkips(ctx: Context, keys: seq<string>, allowed: set<string>) returns (r: Outcome)
    modifies ctx`skips
    ensures var requested := SetRelease(old(ctx.skips), keys, allowed);
      && (requested.Err? ==> r == Fail(InvalidSkip) && ctx.skips == old(ctx.skips))
      && (requested.Ok? ==> r == Pass && ctx.skips == ImpliedSkips(requested.value, ctx.snapshot))
  {
    var requested := SetRelease(ctx.skips, keys, allowed);
    if requested.Err? {
      return Fail(requested.error);
    }
    ctx.skips := requested.value;
    if ctx.snapshot {
      ctx.skips := ctx.skips + {Publish, Announce, Validate};
    }
    if Publish in ctx.skips {
      ctx.skips := ctx.skips + {Announce};
    }
    return Pass;
  }

  // ---------------------------------------------------------------------------
  // The stage loop

  /**
   * One stage of the continue pipeline: whether skip.Maybe skips it, and the
   * outcome of its logged, error-handled Run when it does run.
   */
  datatype Stage = Stage(name: string, skip: bool, result: Outcome)

  predicate Fails(s: Stage) {
    !s.skip && s.result.Fail?
  }

  /** The indices below `n` of the stages that are not skipped, in increasing order. */
  function Active(stages: seq<Stage>, n: nat): (r: seq<nat>)
    requires n <= |stages|
    ensures forall a, b :: 0 <= a < b < |r| ==> r[a] < r[b]
    ensures forall k :: 0 <= k < |r| ==> r[k] < n && !stages[r[k]].skip
  {
    if n == 0 then []
    else if stages[n - 1].skip then Active(stages, n - 1)
    else Active(stages, n - 1) + [n - 1]
  }

  /** Every stage below `n` that is not skipped is listed. */
  lemma {:induction false} ActiveComplete(stages: seq<Stage>, n: nat, j: nat)
    requires n <= |stages| && j < n && !stages[j].skip
    ensures j in Active(stages, n)
    decreases n
  {
    if j < n - 1 {
      ActiveComplete(stages, n - 1, j);
    }
  }

  /** The first stage that runs and fails, if any. */
  function FirstFailure(stages: seq<Stage>): (r: Option<nat>)
    ensures r.Some? ==> r.value < |stages| && Fails(stages[r.value]) &&
                        forall j :: 0 <= j < r.value ==> !Fails(stages[j])
    ensures r.None? ==> forall j :: 0 <= j < |stages| ==> !Fails(stages[j])
    decreases |stages|
  {
    if stages == [] then None
    else if Fails(stages[0]) then Some(0)
    else
      var rest := FirstFailure(stages[1..]);
      assert forall j :: 1 <= j < |stages| ==> stages[j] == stages[1..][j - 1];
      if rest.None? then None else Some(rest.value + 1)
  }

  /**
   * The loop of continueProject: runs the stages in order, skipping those that
   * skip, and returns the first error.  `ran` lists the stages whose Run was called.
   */
  method RunStages(stages: seq<Stage>) returns (r: Outcome, ran: seq<nat>)
    ensures FirstFailure(stages).None? ==> r == Pass && ran == Active(stages, |stages|)
    ensures FirstFailure(stages).Some? ==>
      r == stages[FirstFailure(stages).value].result && ran == Active(stages, FirstFailure(stages).value + 1)
  {
    ran := [];
    var i := 0;
    while i < |stages|
      invariant 0 <= i <= |stages|
      invariant ran == Active(stages, i)
      invariant forall j :: 0 <= j < i ==> !Fails(stages[j])
    {
      if stages[i].skip {
        i := i + 1;
        continue;
      }
      ran := ran + [i];
      if stages[i].result.Fail? {
        FirstFailureAt(stages, i);
        return stages[i].result, ran;
      }
      i := i + 1;
    }
    return Pass, ran;
  }

  /** The failing stage is the last to run, and every stage that runs before it succeeds. */
  lemma StopsAtFirstFailure(stages: seq<Stage>, i: nat)
    requires FirstFailure(stages) == Some(i)
    ensures var ran := Active(stages, i + 1);
      && |ran| > 0 && ran[|ran| - 1] == i
      && forall k :: 0 <= k < |ran| - 1 ==> stages[ran[k]].result == Pass
  {
    var ran := Active(stages, i + 1);
    assert ran == Active(stages, i) + [i];
  }

  /** A failing stage with no failing stage before it is the first failure. */
  lemma FirstFailureAt(stages: seq<Stage>, i: nat)
    requires i < |stages| && Fails(stages[i])
    requires forall j :: 0 <= j < i ==> !Fails(stages[j])
    ensures FirstFailure(stages) == Some(i)
  {
  }

  /**
   * continueProject: loads the configuration (its outcome is `loaded`, giving
   * the output directory), sets up a fresh context and runs the stages.  A
   * load or setup error is returned before any stage runs, with no context.
   */
  method ContinueProject(options: ContinueOpts, loaded: Result<Path>, procs: int, dirty: bool,
                         allowed: set<string>, stages: seq<Stage>)
    returns (ctx: Context?, r: Outcome, ran: seq<nat>)
    ensures loaded.Err? ==> ctx == null && r == Fail(loaded.error) && ran == []
    ensures loaded.Ok? && SetRelease({}, options.skips, allowed).Err? ==>
      ctx == null && r == Fail(InvalidSkip) && ran == []
    ensures loaded.Ok? && SetRelease({}, options.skips, allowed).Ok? ==>
      && ctx != null && fresh(ctx)
      && ctx.dist == loaded.value && ctx.action == ActionContinue
      && ctx.skips == ImpliedSkips(SetRelease({}, options.skips, allowed).value, IsSnapshot(options, dirty))
      && (FirstFailure(stages).None? ==> r == Pass && ran == Active(stages, |stages|))
      && (FirstFailure(stages).Some? ==>
            r == stages[FirstFailure(stages).value].result && ran == Active(stages, FirstFailure(stages).value + 1))
  {
    if loaded.Err? {
      return null, Fail(loaded.error), [];
    }
    var c := new Context(loaded.value);
    var setup := SetupContinueContext(c, options, procs, dirty, allowed);
    if setup.Fail? {
      return null, setup, [];
    }
    r, ran := RunStages(stages);
    ctx := c;
  }
}
