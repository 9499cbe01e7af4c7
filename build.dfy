/** The build stage's narrowing of the target matrix for split and partial builds. */
module Build {
  import opened Artifacts

  /** The string targets are matched against: the split target wins over the partial one. */
  function MatchTarget(split: bool, splitTarget: string, partialTarget: string): string {
    if split then splitTarget else partialTarget
  }

  /**
   * Keeps only the first target that starts with the match string when a split
   * or partial build is requested, and every target otherwise.
   */
  method Filter(ctx: Context, targets: seq<string>) returns (result: seq<string>)
    ensures !ctx.partial && !ctx.split ==> result == targets
    ensures ctx.partial || ctx.split ==>
      var m := MatchTarget(ctx.split, ctx.splitTarget, ctx.partialTarget);
      && |result| <= 1
      && (result == [] <==> forall i :: 0 <= i < |targets| ==> !(m <= targets[i]))
      && (result != [] ==> exists i :: 0 <= i < |targets| && result[0] == targets[i] && m <= targets[i]
                                        && forall j :: 0 <= j < i ==> !(m <= targets[j]))
  {
    if !ctx.partial && !ctx.split {
      return targets;
    }
    var target: string;
    if ctx.split {
      target := ctx.splitTarget;
    } else {
      target := ctx.partialTarget;
    }
    result := [];
    var i := 0;
    while i < |targets|
      invariant 0 <= i <= |targets|
      invariant result == []
      invariant forall j :: 0 <= j < i ==> !(target <= targets[j])
    {
      if !(target <= targets[i]) {
        i := i + 1;
        continue;
      }
      result := result + [targets[i]];
      break;
    }
  }

  /** The documented example: the first "darwin" target is chosen, not the later one. */
  method FilterFirstMatchExample(ctx: Context) returns (result: seq<string>)
    requires ctx.split && ctx.splitTarget == "darwin"
    ensures result == ["darwin_amd64_v1"]
  {
    var targets := ["darwin_amd64_v1", "darwin_arm64", "linux_amd64_v1"];
    result := Filter(ctx, targets);
    assert "darwin" <= targets[0];
    assert result != [] && |result| == 1;
    var i :| 0 <= i < |targets| && result[0] == targets[i] && "darwin" <= targets[i]
             && forall j :: 0 <= j < i ==> !("darwin" <= targets[j]);
    assert i == 0;
    assert result == [result[0]];
  }
}
