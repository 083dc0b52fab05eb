/** The part of the host filesystem the builder touches: a map from path to
    node. A directory records whether new entries may be created in it; a
    regular file records its bytes and whether it may be opened. */
module FileSystems {
  import opened Common

  /** A path as its sequence of names, relative to the working directory;
      the empty path is the working directory itself. */
  type Path = seq<string>

  datatype Node =
    | Directory(writable: bool)
    | Regular(contents: Bytes, readable: bool)

  type Tree = map<Path, Node>

  /** java.nio's Path.getParent(): there is none (null) for a path of a
      single name, even though the operating system places it in the
      working directory. */
  function Parent(p: Path): (r: Option<Path>)
    ensures r.Some? <==> |p| > 1
    ensures r.Some? ==> r.value + [p[|p| - 1]] == p
  {
    if |p| <= 1 then None else Some(p[..|p| - 1])
  }

  /** The directory the operating system creates or opens `p` in. */
  function Container(p: Path): Path
    requires p != []
  {
    p[..|p| - 1]
  }

  /** File.getName(): the last name of the path. */
  function Name(p: Path): string
  {
    if p == [] then "" else p[|p| - 1]
  }

  /** new File(dir, name) for a non-empty `dir`; for the empty path, the
      name inside the working directory. */
  function Child(dir: Path, name: string): Path
  {
    dir + [name]
  }

  /** The path as text, names joined by '/'. */
  function Show(p: Path): string
  {
    if p == [] then ""
    else if |p| == 1 then p[0]
    else Show(p[..|p| - 1]) + "/" + p[|p| - 1]
  }

  /** Files.isDirectory */
  predicate IsDirectory(t: Tree, p: Path)
  {
    p in t && t[p].Directory?
  }

  /** Files.isRegularFile: true whether or not the file may be opened. */
  predicate IsRegularFile(t: Tree, p: Path)
  {
    p in t && t[p].Regular?
  }

  /** new FileInputStream(p) (or new FileReader(p)) succeeds. */
  predicate CanRead(t: Tree, p: Path)
  {
    IsRegularFile(t, p) && t[p].readable
  }

  /** File.length(): 0 for a path that is not a regular file. */
  function Length(t: Tree, p: Path): nat
  {
    if IsRegularFile(t, p) then |t[p].contents| else 0
  }

  predicate IsWritableDirectory(t: Tree, p: Path)
  {
    IsDirectory(t, p) && t[p].writable
  }

  /** Files.createDirectory(p) succeeds. */
  predicate CanCreateDirectory(t: Tree, p: Path)
  {
    p != [] && p !in t && IsWritableDirectory(t, Container(p))
  }

  /** new FileOutputStream(p) succeeds: `p` lies in a writable directory and
      is not a directory or a file that may not be opened. */
  predicate CanOpenForWrite(t: Tree, p: Path)
  {
    p != [] && IsWritableDirectory(t, Container(p)) &&
    (p in t ==> t[p].Regular? && t[p].readable)
  }

  /** The tree after `p` has been written with `data`. */
  function Store(t: Tree, p: Path, data: Bytes): Tree
  {
    t[p := Regular(data, true)]
  }

  class FileSystem {
    var tree: Tree

    constructor (t: Tree)
      ensures tree == t
    {
      tree := t;
    }

    /** Files.createDirectory */
    method CreateDirectory(p: Path) returns (ok: bool)
      modifies this
      ensures ok == CanCreateDirectory(old(tree), p)
      ensures tree == if ok then old(tree)[p := Directory(true)] else old(tree)
    {
      ok := CanCreateDirectory(tree, p);
      if ok {
        tree := tree[p := Directory(true)];
      }
    }

    /** new FileOutputStream(p): creates `p`, or truncates it, empty. */
    method OpenForWrite(p: Path) returns (ok: bool)
      modifies this
      ensures ok == CanOpenForWrite(old(tree), p)
      ensures tree == if ok then Store(old(tree), p, []) else old(tree)
    {
      ok := CanOpenForWrite(tree, p);
      if ok {
        tree := Store(tree, p, []);
      }
    }

    /** Writing `data` into a stream already opened on `p`: the file then
        holds exactly `data`. */
    method Put(p: Path, data: Bytes)
      modifies this
      ensures tree == Store(old(tree), p, data)
    {
      tree := Store(tree, p, data);
    }

    /** Opening `p` for writing, writing `data` and closing it. */
    method WriteFile(p: Path, data: Bytes) returns (ok: bool)
      modifies this
      ensures ok == CanOpenForWrite(old(tree), p)
      ensures tree == if ok then Store(old(tree), p, data) else old(tree)
    {
      ok := CanOpenForWrite(tree, p);
      if ok {
        tree := Store(tree, p, data);
      }
    }
  }
}
