/** The part of a POSIX filesystem that the image download touches: regular
    files and symbolic links keyed by path string, the `os.path.join` and
    `os.path.dirname` string functions, and the calls `os.path.exists`,
    `os.path.islink`, `os.readlink`, `os.unlink`, `os.symlink` and
    `open(path, 'wb').write`. Directories and path normalisation are not modelled. */
module Files {
  import opened Wrappers
  import Text

  type Bytes = seq<bv8>

  datatype Entry = File(data: Bytes) | Link(target: string)

  type Tree = map<string, Entry>

  /** The number of symbolic links the Linux kernel follows before failing with ELOOP. */
  const MaxSymlinks: nat := 40

  /** `os.path.join(a, b)` for two components. */
  function Join(a: string, b: string): (p: string)
    ensures b != [] && b[0] == '/' ==> p == b
    ensures (b == [] || b[0] != '/') && a != [] && a[|a| - 1] != '/' ==> p == a + "/" + b
  {
    if b != [] && b[0] == '/' then b
    else if a == [] || a[|a| - 1] == '/' then a + b
    else a + "/" + b
  }

  predicate IsSlash(c: char) {
    c == '/'
  }

  /** The index just past the last `/` in `p`, or 0. */
  function AfterLastSlash(p: string): (i: nat)
    ensures i <= |p|
    ensures i > 0 ==> p[i - 1] == '/'
    ensures forall j :: i <= j < |p| ==> p[j] != '/'
  {
    if p == [] then 0
    else if p[|p| - 1] == '/' then |p|
    else AfterLastSlash(p[..|p| - 1])
  }

  /** `os.path.dirname(p)`: everything before the last `/`, with trailing slashes
      removed unless it consists of slashes only. */
  function Dirname(p: string): string {
    var head := p[..AfterLastSlash(p)];
    if head != [] && exists j :: 0 <= j < |head| && head[j] != '/' then Text.TrimEnd(head, IsSlash) else head
  }

  /** The path a POSIX call ends up at after following symbolic links, at most
      `hops` of them; `None` when the chain is longer (ELOOP). A relative link
      target is taken relative to the directory of the link. */
  function Resolve(fs: Tree, p: string, hops: nat): (r: Option<string>)
    ensures r.Some? ==> r.value !in fs || fs[r.value].File?
    decreases hops
  {
    if p in fs && fs[p].Link? then
      if hops == 0 then None else Resolve(fs, Join(Dirname(p), fs[p].target), hops - 1)
    else Some(p)
  }

  /** `os.path.exists(p)`: following links ends at a regular file. */
  predicate Exists(fs: Tree, p: string) {
    var r := Resolve(fs, p, MaxSymlinks);
    r.Some? && r.value in fs
  }

  /** `os.path.islink(p)`. */
  predicate IsLink(fs: Tree, p: string) {
    p in fs && fs[p].Link?
  }

  /** `open(p, 'rb').read()` on a path that exists. */
  function ReadThrough(fs: Tree, p: string): Bytes
    requires Exists(fs, p)
  {
    fs[Resolve(fs, p, MaxSymlinks).value].data
  }

  /** The `OSError`s the modelled calls raise. */
  datatype OsError =
    | FileExists(src: string, dst: string)
    | NoSuchFile(src: string, dst: string)
    | SymlinkLoop(path: string)

  /** `str(e)` of such an error. */
  function Describe(e: OsError): string {
    match e
    case FileExists(src, dst) => "[Errno 17] File exists: '" + src + "' -> '" + dst + "'"
    case NoSuchFile(src, dst) => "[Errno 2] No such file or directory: '" + src + "' -> '" + dst + "'"
    case SymlinkLoop(path) => "[Errno 40] Too many levels of symbolic links: '" + path + "'"
  }

  /** `os.symlink(target, p)`: fails on an empty target and on a taken path,
      dangling links included. */
  function Symlink(fs: Tree, target: string, p: string): (r: Result<Tree, OsError>)
    ensures r.Ok? <==> target != [] && p !in fs
    ensures r.Ok? ==> r.value == fs[p := Link(target)]
  {
    if target == [] then Err(NoSuchFile(target, p))
    else if p in fs then Err(FileExists(target, p))
    else Ok(fs[p := Link(target)])
  }

  /** `open(p, 'wb').write(data)`: the bytes land at the end of the link chain. */
  function WriteFile(fs: Tree, p: string, data: Bytes): (r: Result<Tree, OsError>)
    ensures r.Ok? <==> Resolve(fs, p, MaxSymlinks).Some?
    ensures r.Ok? ==> r.value == fs[Resolve(fs, p, MaxSymlinks).value := File(data)]
  {
    match Resolve(fs, p, MaxSymlinks)
    case None => Err(SymlinkLoop(p))
    case Some(q) => Ok(fs[q := File(data)])
  }

  /** A path that exists is itself an entry of the tree. */
  lemma ExistsIsEntry(fs: Tree, p: string)
    requires Exists(fs, p)
    ensures p in fs
  {
  }

  /** A path that is a regular file resolves to itself. */
  lemma FileResolvesToItself(fs: Tree, p: string)
    requires p in fs && fs[p].File?
    ensures Exists(fs, p) && ReadThrough(fs, p) == fs[p].data
  {
  }

  /** Replacing the regular file (or the absent entry) at the end of a chain
      leaves the chain in place: the path still resolves there. */
  lemma {:induction false} ResolveAfterReplace(fs: Tree, p: string, hops: nat, e: Entry)
    requires Resolve(fs, p, hops).Some? && e.File?
    ensures Resolve(fs[Resolve(fs, p, hops).value := e], p, hops) == Resolve(fs, p, hops)
    decreases hops
  {
    var q := Resolve(fs, p, hops).value;
    var fs' := fs[q := e];
    if p in fs && fs[p].Link? {
      var next := Join(Dirname(p), fs[p].target);
      assert p != q && fs'[p] == fs[p];
      ResolveAfterReplace(fs, next, hops - 1, e);
      assert Resolve(fs', p, hops) == Resolve(fs', next, hops - 1);
    } else {
      assert p == q && fs'[p] == e;
    }
  }

  /** A link whose target names a regular file reads that file's bytes. */
  lemma LinkToFile(fs: Tree, p: string, q: string)
    requires p in fs && fs[p].Link? && Join(Dirname(p), fs[p].target) == q
    requires q in fs && fs[q].File?
    ensures Exists(fs, p) && ReadThrough(fs, p) == fs[q].data
  {
    assert Resolve(fs, p, MaxSymlinks) == Resolve(fs, q, MaxSymlinks - 1);
  }

  /** After a write succeeds, the path exists and reads back the written bytes. */
  lemma WriteThenRead(fs: Tree, p: string, data: Bytes)
    requires WriteFile(fs, p, data).Ok?
    ensures Exists(WriteFile(fs, p, data).value, p)
    ensures ReadThrough(WriteFile(fs, p, data).value, p) == data
  {
    ResolveAfterReplace(fs, p, MaxSymlinks, File(data));
  }

  /** In a directory named without a trailing slash, a plain file name is found
      in that directory again. */
  lemma DirnameOfJoin(dir: string, name: string)
    requires dir != [] && dir[|dir| - 1] != '/'
    requires name != [] && '/' !in name
    ensures Dirname(Join(dir, name)) == dir
  {
    var p := dir + "/" + name;
    assert Join(dir, name) == p;
    var i := AfterLastSlash(p);
    assert i == |dir| + 1 by {
      forall k | |dir| < k < |p|
        ensures p[k] != '/'
      {
        assert p[k] == name[k - |dir| - 1];
      }
      assert p[|dir|] == '/';
    }
    var head := p[..i];
    assert head == dir + "/";
    assert head[0] != '/' || exists j :: 0 <= j < |head| && head[j] != '/' by {
      assert head[|dir| - 1] == dir[|dir| - 1];
    }
    var r := Text.TrimEnd(head, IsSlash);
    assert |r| == |dir| by {
      assert !IsSlash(head[|dir| - 1]);
    }
  }

  /** Distinct plain file names in one directory are distinct paths. */
  lemma JoinInjective(dir: string, a: string, b: string)
    requires a != [] && a[0] != '/' && b != [] && b[0] != '/'
    requires Join(dir, a) == Join(dir, b)
    ensures a == b
  {
    if dir == [] || dir[|dir| - 1] == '/' {
      assert a == Join(dir, a)[|dir|..];
    } else {
      assert a == Join(dir, a)[|dir| + 1..];
    }
  }

  /** The filesystem as a mutable object, one method per modelled call. */
  class FileSystem {
    var entries: Tree

    constructor (entries: Tree)
      ensures this.entries == entries
    {
      this.entries := entries;
    }

    /** `os.unlink(p)` on an existing entry: removes the entry, not a link's target. */
    method Unlink(p: string)
      requires p in entries
      modifies this
      ensures entries == old(entries) - {p}
    {
      entries := entries - {p};
    }

    /** `os.symlink(target, p)`. */
    method MakeSymlink(target: string, p: string) returns (r: Outcome<OsError>)
      modifies this
      ensures r.Pass? <==> Symlink(old(entries), target, p).Ok?
      ensures r.Pass? ==> entries == Symlink(old(entries), target, p).value
      ensures r.Fail? ==> entries == old(entries) && r.error == Symlink(old(entries), target, p).error
    {
      var res := Symlink(entries, target, p);
      if res.Ok? {
        entries := res.value;
        r := Pass;
      } else {
        r := Fail(res.error);
      }
    }

    /** `open(p, 'wb').write(data)`. */
    method Write(p: string, data: Bytes) returns (r: Outcome<OsError>)
      modifies this
      ensures r.Pass? <==> WriteFile(old(entries), p, data).Ok?
      ensures r.Pass? ==> entries == WriteFile(old(entries), p, data).value
      ensures r.Fail? ==> entries == old(entries) && r.error == WriteFile(old(entries), p, data).error
    {
      var res := WriteFile(entries, p, data);
      if res.Ok? {
        entries := res.value;
        r := Pass;
      } else {
        r := Fail(res.error);
      }
    }
  }
}
