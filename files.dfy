/**
 * An in-memory filesystem standing in for the os calls the merge stage makes:
 * regular files by path, and the set of directories.
 */
module Files {
  import opened Wrappers
  import opened Paths
  import opened Strings
  import opened Artifacts

  /**
   * A regular file: content the model does not interpret, or an artifacts
   * manifest whose JSON is well formed, given as the list it decodes to.
   */
  datatype File = Blob(content: string) | ManifestFile(entries: seq<Artifact>)

  /** One entry of a directory listing. */
  datatype DirEntry = DirEntry(name: string, isDir: bool)

  /** The path of the entry `n` of directory `d`. */
  function Child(d: Path, n: string): Path {
    Path(d.absolute, d.up, d.names + [n])
  }

  predicate IsChild(q: Path, d: Path) {
    q.absolute == d.absolute && q.up == d.up && |q.names| == |d.names| + 1 && q.names[..|d.names|] == d.names
  }

  /** The directories that creating `p` and all its parents brings into existence. */
  function Ancestry(p: Path): set<Path> {
    set k | 1 <= k <= |p.names| :: Prefix(p, k)
  }

  /** The listing of a directory's names, in the order os.ReadDir returns them. */
  function Entries(dirs: set<Path>, d: Path, names: seq<string>): (r: seq<DirEntry>)
    ensures |r| == |names|
    ensures forall i :: 0 <= i < |names| ==> r[i] == DirEntry(names[i], Child(d, names[i]) in dirs)
  {
    seq(|names|, i requires 0 <= i < |names| => DirEntry(names[i], Child(d, names[i]) in dirs))
  }

  datatype Fs = Fs(files: map<Path, File>, dirs: set<Path>) {

    /**
     * The shape every real tree has: no path is both a file and a directory,
     * and the parent of every file and directory is an existing directory.
     */
    predicate Wellformed() {
      && (forall x :: x in files ==> x !in dirs && |x.names| > 0 && IsDirectory(Dir(x)))
      && (forall x :: x in dirs ==> |x.names| > 0 && IsDirectory(Dir(x)))
    }

    /** A path without names ("/", ".", "..") always denotes an existing directory. */
    predicate IsDirectory(p: Path) {
      p.names == [] || p in dirs
    }

    /** The names of the entries directly inside `d`. */
    function Children(d: Path): set<string> {
      set q | q in files.Keys + dirs && IsChild(q, d) :: q.names[|d.names|]
    }

    /** os.ReadDir: the entries of `d` sorted by name. */
    ghost function ReadDir(d: Path): (r: Result<seq<DirEntry>>)
      ensures r.Ok? <==> IsDirectory(d) && !(d.names != [] && d in files)
      ensures r.Ok? ==> |r.value| == |Children(d)| && forall i :: 0 <= i < |r.value| ==> r.value[i].name in Children(d)
    {
      if d.names != [] && d in files then Err(NotDir)
      else if !IsDirectory(d) then Err(NotExist)
      else Ok(Entries(dirs, d, SortedList(Children(d))))
    }

    /** os.ReadFile. */
    function ReadFile(p: Path): (r: Result<File>)
      ensures r.Ok? <==> p in files
      ensures r.Err? ==> (r.error == IsDir <==> IsDirectory(p))
    {
      if p in files then Ok(files[p])
      else if IsDirectory(p) then Err(IsDir)
      else Err(NotExist)
    }

    /** os.MkdirAll: fails when `p` or one of its parents is a regular file. */
    function MkdirAll(p: Path): (r: Result<Fs>)
      ensures r.Ok? ==> r.value.IsDirectory(p) && r.value.files == files && dirs <= r.value.dirs
    {
      if exists k :: 1 <= k <= |p.names| && Prefix(p, k) in files then Err(NotDir)
      else
        InAncestry(p);
        Ok(Fs(files, dirs + Ancestry(p)))
    }

    /** os.Rename of a regular file; the destination, if a file, is replaced. */
    function Rename(from: Path, to: Path): (r: Result<Fs>)
      ensures r.Ok? ==> from in files && to in r.value.files && r.value.files[to] == files[from] && r.value.dirs == dirs
      ensures r.Ok? && from != to ==> from !in r.value.files
    {
      if from !in files then (if IsDirectory(from) then Err(Unsupported) else Err(NotExist))
      else if IsDirectory(to) then Err(IsDir)
      else if Dir(to) in files then Err(NotDir)
      else if !IsDirectory(Dir(to)) then Err(NotExist)
      else Ok(Fs((files - {from})[to := files[from]], dirs))
    }

    /** os.RemoveAll: `p` and everything beneath it; a missing `p` is not an error. */
    function RemoveAll(p: Path): (r: Result<Fs>)
      ensures r.Ok? <==> p.names != []
      ensures r.Ok? ==> forall x :: x in r.value.files || x in r.value.dirs ==> !Within(x, p)
    {
      if p.names == [] then Err(Invalid)
      else Ok(Fs(map q | q in files && !Within(q, p) :: files[q], set q | q in dirs && !Within(q, p)))
    }
  }

  /** Creating the directories on the way to `p` keeps the tree well formed. */
  lemma MkdirAllWellformed(fs: Fs, p: Path)
    requires fs.Wellformed() && fs.MkdirAll(p).Ok?
    ensures fs.MkdirAll(p).value.Wellformed()
  {
    var after := fs.MkdirAll(p).value;
    forall x | x in Ancestry(p)
      ensures x !in fs.files && |x.names| > 0 && after.IsDirectory(Dir(x))
    {
      var k :| 1 <= k <= |p.names| && x == Prefix(p, k);
      assert p.names[..k][..k - 1] == p.names[..k - 1];
      if k > 1 {
        assert Dir(x) == Prefix(p, k - 1);
      }
    }
  }

  /** A path with names is the last of its own ancestry. */
  lemma InAncestry(p: Path)
    ensures p.names != [] ==> p in Ancestry(p)
  {
    if p.names != [] {
      assert Prefix(p, |p.names|) == p;
    }
  }

  /** Moving a file to a name whose parent directory exists keeps the tree well formed. */
  lemma RenameWellformed(fs: Fs, from: Path, to: Path)
    requires fs.Wellformed() && fs.Rename(from, to).Ok?
    ensures fs.Rename(from, to).value.Wellformed()
  {
    var after := fs.Rename(from, to).value;
    assert after.files == (fs.files - {from})[to := fs.files[from]] && after.dirs == fs.dirs;
    forall x | x in after.files
      ensures x !in after.dirs && |x.names| > 0 && after.IsDirectory(Dir(x))
    {
      if x != to {
        assert x in fs.files;
      }
    }
  }

  /** A parent lies above everything its child lies above. */
  lemma WithinParent(x: Path, p: Path)
    requires |x.names| > 0 && Within(Dir(x), p)
    ensures Within(x, p)
  {
    assert x.names[..|p.names|] == Dir(x).names[..|p.names|];
  }

  /** Removing a whole subtree keeps the tree well formed. */
  lemma RemoveAllWellformed(fs: Fs, p: Path)
    requires fs.Wellformed() && fs.RemoveAll(p).Ok?
    ensures fs.RemoveAll(p).value.Wellformed()
  {
    var after := fs.RemoveAll(p).value;
    forall x | x in after.files || x in after.dirs
      ensures after.IsDirectory(Dir(x))
    {
      if Dir(x).names != [] && Within(Dir(x), p) {
        WithinParent(x, p);
      }
    }
  }

  /** The entries of a directory are exactly the paths one name below it. */
  lemma ChildrenOf(fs: Fs, d: Path, n: string)
    ensures n in fs.Children(d) <==> Child(d, n) in fs.files.Keys + fs.dirs
  {
    var c := Child(d, n);
    if Child(d, n) in fs.files.Keys + fs.dirs {
      assert IsChild(c, d) && c.names[|d.names|] == n;
    }
    if n in fs.Children(d) {
      var q :| q in fs.files.Keys + fs.dirs && IsChild(q, d) && q.names[|d.names|] == n;
      assert q.names == q.names[..|d.names|] + [q.names[|d.names|]];
      assert q == c;
    }
  }

  /** A listing names every entry once, in increasing order, and flags the directories. */
  lemma ReadDirListing(fs: Fs, d: Path)
    requires fs.ReadDir(d).Ok?
    ensures var items := fs.ReadDir(d).value;
      && (forall i, j :: 0 <= i < j < |items| ==> Less(items[i].name, items[j].name))
      && (forall n :: (exists i :: 0 <= i < |items| && items[i].name == n) <==> Child(d, n) in fs.files.Keys + fs.dirs)
      && (forall i :: 0 <= i < |items| ==> (items[i].isDir <==> Child(d, items[i].name) in fs.dirs))
  {
    var items := fs.ReadDir(d).value;
    var names := SortedList(fs.Children(d));
    forall n
      ensures (exists i :: 0 <= i < |items| && items[i].name == n) <==> Child(d, n) in fs.files.Keys + fs.dirs
    {
      ChildrenOf(fs, d, n);
      if n in names {
        var i :| 0 <= i < |names| && names[i] == n;
        assert items[i].name == n;
      }
    }
  }

  /** The host filesystem: the state every os call reads and changes. */
  class FileSystem {
    var files: map<Path, File>
    var dirs: set<Path>

    function State(): Fs
      reads this
    {
      Fs(files, dirs)
    }

    constructor (fs: Fs)
      ensures State() == fs
    {
      files := fs.files;
      dirs := fs.dirs;
    }

    method ReadDir(d: Path) returns (r: Result<seq<DirEntry>>)
      ensures r == State().ReadDir(d)
    {
      if d.names != [] && d in files {
        return Err(NotDir);
      }
      if !State().IsDirectory(d) {
        return Err(NotExist);
      }
      var names := Sort(State().Children(d));
      return Ok(Entries(dirs, d, names));
    }

    method ReadFile(p: Path) returns (r: Result<File>)
      ensures r == State().ReadFile(p)
    {
      r := State().ReadFile(p);
    }

    method MkdirAll(p: Path) returns (r: Outcome)
      modifies this
      ensures r == OutcomeOf(old(State()).MkdirAll(p))
      ensures State() == After(old(State()), old(State()).MkdirAll(p))
    {
      var res := State().MkdirAll(p);
      if res.Err? {
        return Fail(res.error);
      }
      files, dirs := res.value.files, res.value.dirs;
      return Pass;
    }

    method Rename(from: Path, to: Path) returns (r: Outcome)
      modifies this
      ensures r == OutcomeOf(old(State()).Rename(from, to))
      ensures State() == After(old(State()), old(State()).Rename(from, to))
    {
      var res := State().Rename(from, to);
      if res.Err? {
        return Fail(res.error);
      }
      files, dirs := res.value.files, res.value.dirs;
      return Pass;
    }

    method RemoveAll(p: Path) returns (r: Outcome)
      modifies this
      ensures r == OutcomeOf(old(State()).RemoveAll(p))
      ensures State() == After(old(State()), old(State()).RemoveAll(p))
    {
      var res := State().RemoveAll(p);
      if res.Err? {
        return Fail(res.error);
      }
      files, dirs := res.value.files, res.value.dirs;
      return Pass;
    }
  }

  /** The error a filesystem call reports. */
  function OutcomeOf(res: Result<Fs>): Outcome {
    if res.Ok? then Pass else Fail(res.error)
  }

  /** The state after a filesystem call: unchanged when it fails. */
  function After(before: Fs, res: Result<Fs>): Fs {
    if res.Ok? then res.value else before
  }
}
