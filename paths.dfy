/**
 * Slash-separated paths as path/filepath sees them after Clean: an optional
 * leading "/", a run of leading ".." elements (relative paths only) and then
 * plain names.  The text "" and "." are both the empty relative path `Dot`.
 */
module Paths {
  import opened Wrappers

  datatype Path = Path(absolute: bool, up: nat, names: seq<string>)

  const Dot := Path(false, 0, [])

  /** A path element that Clean keeps as it is. */
  predicate IsName(s: string) {
    s != "" && s != "." && s != ".." && '/' !in s
  }

  /** The shape every cleaned path has: "/.." is "/", and every name is plain. */
  predicate Valid(p: Path) {
    && (p.absolute ==> p.up == 0)
    && forall i :: 0 <= i < |p.names| ==> IsName(p.names[i])
  }

  /** The relative path made of one element. */
  function Name(n: string): Path {
    Path(false, 0, [n])
  }

  /** The elements of the path's text, in order. */
  function Elements(p: Path): seq<string> {
    seq(p.up, _ => "..") + p.names
  }

  /** One element of filepath.Clean's lexical processing. */
  function Step(p: Path, e: string): Path {
    if e == "" || e == "." then p
    else if e == ".." then
      if |p.names| > 0 then Path(p.absolute, p.up, p.names[..|p.names| - 1])
      else if p.absolute then p
      else Path(false, p.up + 1, [])
    else Path(p.absolute, p.up, p.names + [e])
  }

  /** Clean applied to the elements `es` appended to the path `p`. */
  function Steps(p: Path, es: seq<string>): Path
    decreases |es|
  {
    if es == [] then p else Steps(Step(p, es[0]), es[1..])
  }

  /** The pieces of `s` between slashes (strings.Split(s, "/")). */
  function Segments(s: string): (r: seq<string>)
    ensures |r| >= 1
    ensures forall i :: 0 <= i < |r| ==> '/' !in r[i]
    decreases |s|
  {
    if s == [] then [""]
    else
      var rest := Segments(s[1..]);
      if s[0] == '/' then [""] + rest else [[s[0]] + rest[0]] + rest[1..]
  }

  /** filepath.Join(p, s) for a path and an uncleaned string. */
  function JoinString(p: Path, s: string): (r: Path)
    ensures r.absolute == p.absolute
    ensures Valid(p) ==> Valid(r)
  {
    StepsValid(p, Segments(s));
    Steps(p, Segments(s))
  }

  /** Clean keeps a path clean, and keeps it absolute or relative, whatever slash-free elements follow. */
  lemma {:induction false} StepsValid(p: Path, es: seq<string>)
    requires forall i :: 0 <= i < |es| ==> '/' !in es[i]
    ensures Steps(p, es).absolute == p.absolute
    ensures Valid(p) ==> Valid(Steps(p, es))
    decreases |es|
  {
    if es != [] {
      var q := Step(p, es[0]);
      assert Valid(p) ==> Valid(q);
      StepsValid(q, es[1..]);
    }
  }

  /**
   * filepath.Join(p, q) for two cleaned paths: the ".." elements of `q` remove
   * names of `p` (or climb above a relative `p`, or stop at "/"), then the names
   * of `q` follow.  A leading "/" of `q` does not matter.
   */
  function Join(p: Path, q: Path): (r: Path)
    ensures r.absolute == p.absolute
    ensures Valid(p) && Valid(q) ==> Valid(r)
  {
    if q.up <= |p.names| then Path(p.absolute, p.up, p.names[..|p.names| - q.up] + q.names)
    else if p.absolute then Path(true, 0, q.names)
    else Path(false, p.up + (q.up - |p.names|), q.names)
  }

  /** filepath.Dir(p): all but the last element. */
  function Dir(p: Path): (r: Path)
    ensures |p.names| > 0 ==> StrictlyWithin(p, r) && |r.names| + 1 == |p.names|
    ensures Valid(p) ==> Valid(r)
  {
    if |p.names| > 0 then Path(p.absolute, p.up, p.names[..|p.names| - 1])
    else if p.up > 0 then Path(p.absolute, p.up - 1, [])
    else p
  }

  /** The ancestor of `p` made of its first `k` names. */
  function Prefix(p: Path, k: nat): Path
    requires k <= |p.names|
  {
    Path(p.absolute, p.up, p.names[..k])
  }

  /** `q` is `p` itself or lies beneath it. */
  predicate Within(q: Path, p: Path) {
    q.absolute == p.absolute && q.up == p.up && |p.names| <= |q.names| && q.names[..|p.names|] == p.names
  }

  /** `q` lies strictly beneath `p`. */
  predicate StrictlyWithin(q: Path, p: Path) {
    Within(q, p) && |p.names| < |q.names|
  }

  /** Number of leading elements `a` and `b` have in common. */
  function CommonPrefix(a: seq<string>, b: seq<string>): (k: nat)
    ensures k <= |a| && k <= |b| && a[..k] == b[..k]
    ensures k < |a| && k < |b| ==> a[k] != b[k]
  {
    if a == [] || b == [] || a[0] != b[0] then 0
    else 1 + CommonPrefix(a[1..], b[1..])
  }

  /**
   * filepath.Rel(base, targ) on cleaned paths: the path that leads from `base`
   * to `targ`, climbing with ".." where `base` goes deeper.  It fails when one
   * path is absolute and the other is not, and when `base` starts with more
   * ".." elements than `targ` (the first element that differs in `base` is "..").
   */
  function Rel(base: Path, targ: Path): (r: Result<Path>)
    ensures r.Ok? ==> !r.value.absolute
    ensures r.Ok? && Valid(targ) ==> Valid(r.value)
  {
    if base.absolute != targ.absolute || base.up > targ.up then Err(CannotRel)
    else if base.up < targ.up then Ok(Path(false, |base.names| + (targ.up - base.up), targ.names))
    else
      var k := CommonPrefix(base.names, targ.names);
      Ok(Path(false, |base.names| - k, targ.names[k..]))
  }

  // ---------------------------------------------------------------------------
  // Join agrees with Clean

  lemma {:induction false} StepsAppend(p: Path, a: seq<string>, b: seq<string>)
    ensures Steps(p, a + b) == Steps(Steps(p, a), b)
    decreases |a|
  {
    if a == [] {
      assert a + b == b;
    } else {
      assert (a + b)[1..] == a[1..] + b;
      StepsAppend(Step(p, a[0]), a[1..], b);
    }
  }

  /** Clean of `k` ".." elements after `p`. */
  lemma {:induction false} StepsUps(p: Path, k: nat)
    requires p.absolute ==> p.up == 0
    ensures Steps(p, seq(k, _ => "..")) ==
      if k <= |p.names| then Path(p.absolute, p.up, p.names[..|p.names| - k])
      else if p.absolute then Path(true, 0, [])
      else Path(false, p.up + (k - |p.names|), [])
    decreases k
  {
    var ups := seq(k, _ => "..");
    if k == 0 {
      assert p.names[..|p.names|] == p.names;
    } else {
      assert ups[0] == ".." && ups[1..] == seq(k - 1, _ => "..");
      var p' := Step(p, "..");
      StepsUps(p', k - 1);
      if 0 < |p.names| && k <= |p.names| {
        assert p.names[..|p.names| - 1][..|p.names| - k] == p.names[..|p.names| - k];
      }
    }
  }

  /** Plain names are appended unchanged by Clean. */
  lemma {:induction false} StepsNames(p: Path, ns: seq<string>)
    requires forall i :: 0 <= i < |ns| ==> IsName(ns[i])
    ensures Steps(p, ns) == Path(p.absolute, p.up, p.names + ns)
    decreases |ns|
  {
    if ns == [] {
      assert p.names + ns == p.names;
    } else {
      StepsNames(Step(p, ns[0]), ns[1..]);
      assert p.names + [ns[0]] + ns[1..] == p.names + ns;
    }
  }

  /** Join is Clean of the concatenated text (the definition of filepath.Join). */
  lemma JoinIsClean(p: Path, q: Path)
    requires p.absolute ==> p.up == 0
    requires Valid(q)
    ensures Join(p, q) == Steps(p, Elements(q))
  {
    var ups := seq(q.up, _ => "..");
    assert Elements(q) == ups + q.names;
    StepsAppend(p, ups, q.names);
    StepsUps(p, q.up);
    var mid := Steps(p, ups);
    StepsNames(mid, q.names);
    if q.up > |p.names| {
      assert mid.names == [];
      assert [] + q.names == q.names;
    }
  }

  lemma {:induction false} SegmentsOfName(s: string)
    requires '/' !in s
    ensures Segments(s) == [s]
    decreases |s|
  {
    if s != [] {
      SegmentsOfName(s[1..]);
      assert [s[0]] + s[1..] == s;
    }
  }

  /** Joining a plain name appends it; joining "" leaves the path as it is. */
  lemma JoinStringName(p: Path, t: string)
    ensures IsName(t) ==> JoinString(p, t) == Path(p.absolute, p.up, p.names + [t])
    ensures t == "" ==> JoinString(p, t) == p
  {
    if IsName(t) {
      SegmentsOfName(t);
      assert Steps(p, [t]) == Steps(Step(p, t), []);
    }
    if t == "" {
      assert Segments(t) == [""];
      assert Steps(p, [""]) == Steps(Step(p, ""), []);
    }
  }

  // ---------------------------------------------------------------------------
  // Rel

  /** Rel fails exactly in its two refusal cases, and never yields an absolute path. */
  lemma RelFails(base: Path, targ: Path)
    ensures Rel(base, targ).Err? <==> base.absolute != targ.absolute || base.up > targ.up
    ensures Rel(base, targ).Ok? ==> !Rel(base, targ).value.absolute
  {
  }

  /** Rel inverts Join: following the relative path from `base` reaches `targ` again. */
  lemma RelJoin(base: Path, targ: Path)
    requires Valid(targ)
    requires Rel(base, targ).Ok?
    ensures Join(base, Rel(base, targ).value) == targ
  {
    if base.up == targ.up {
      var k := CommonPrefix(base.names, targ.names);
      assert base.names[..|base.names| - (|base.names| - k)] == targ.names[..k];
      assert targ.names[..k] + targ.names[k..] == targ.names;
    }
  }

  /** When `base` is a segment prefix of `targ`, Rel is the rest of `targ`, with no "..". */
  lemma RelOfPrefix(base: Path, targ: Path)
    requires Within(targ, base)
    ensures Rel(base, targ) == Ok(Path(false, 0, targ.names[|base.names|..]))
  {
    assert CommonPrefix(base.names, targ.names) == |base.names|;
  }

  /** Rel climbs no ".." exactly when `base` is a segment prefix of `targ`. */
  lemma RelDownward(base: Path, targ: Path)
    ensures Rel(base, targ).Ok? && Rel(base, targ).value.up == 0 <==> Within(targ, base)
  {
    if Within(targ, base) {
      RelOfPrefix(base, targ);
    }
    if Rel(base, targ).Ok? && Rel(base, targ).value.up == 0 {
      var k := CommonPrefix(base.names, targ.names);
      assert base.names == base.names[..k];
    }
  }

  /** Dir drops the last name, and joining that name back gives the path. */
  lemma DirJoin(p: Path)
    requires |p.names| > 0
    ensures Join(Dir(p), Name(p.names[|p.names| - 1])) == p
    ensures StrictlyWithin(p, Dir(p)) && |Dir(p).names| + 1 == |p.names|
  {
    assert p.names[..|p.names| - 1] + [p.names[|p.names| - 1]] == p.names;
  }
}
