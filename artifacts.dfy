/** Produced build outputs and the run-wide context that holds them. */
module Artifacts {
  import opened Paths

  /** The artifact type discriminant; `Metadata` marks run-scoped records. */
  datatype Kind = Binary | Archive | Checksum | Metadata | OtherKind(code: int)

  /** One produced file, as the registry and a manifest hold it. */
  datatype Artifact = Artifact(
    name: string,
    path: Path,
    goos: string,
    goarch: string,
    goarm: string,
    kind: Kind,
    kindName: string,
    extra: map<string, string>)

  /** `b` is `a` with only its path possibly changed. */
  predicate SameButPath(a: Artifact, b: Artifact) {
    b == a.(path := b.path)
  }

  datatype Action = ActionNone | ActionContinue

  /**
   * The shared context of one invocation.  `dist` is Config.Dist and `draft`
   * is Config.Release.Draft; `artifacts` is the registry in insertion order.
   */
  class Context {
    var action: Action
    var parallelism: int
    var releaseNotesFile: string
    var releaseNotesTmpl: string
    var releaseHeaderFile: string
    var releaseHeaderTmpl: string
    var releaseFooterFile: string
    var releaseFooterTmpl: string
    var snapshot: bool
    var failFast: bool
    var clean: bool
    var merge: bool
    var draft: bool
    var skips: set<string>
    var split: bool
    var splitTarget: string
    var partial: bool
    var partialTarget: string
    var dist: Path
    var artifacts: seq<Artifact>

    /** A fresh context for the configured output directory, with every flag off. */
    constructor (dist: Path)
      ensures this.dist == dist && artifacts == [] && skips == {}
      ensures action == ActionNone && parallelism == 0
      ensures !snapshot && !failFast && !clean && !merge && !draft && !split && !partial
      ensures splitTarget == "" && partialTarget == ""
      ensures releaseNotesFile == "" && releaseNotesTmpl == "" && releaseHeaderFile == ""
      ensures releaseHeaderTmpl == "" && releaseFooterFile == "" && releaseFooterTmpl == ""
    {
      this.dist := dist;
      artifacts := [];
      skips := {};
      action := ActionNone;
      parallelism := 0;
      snapshot, failFast, clean, merge, draft, split, partial := false, false, false, false, false, false, false;
      splitTarget, partialTarget := "", "";
      releaseNotesFile, releaseNotesTmpl, releaseHeaderFile := "", "", "";
      releaseHeaderTmpl, releaseFooterFile, releaseFooterTmpl := "", "", "";
    }
  }
}
