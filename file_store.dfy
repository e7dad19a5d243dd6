/**
 * The part of the filesystem the upload and download routes touch: a map
 * from absolute normalised path to node. Every path handed to the operating
 * system is first resolved against the working directory with `AbsPath`, so
 * resolution is lexical and symbolic links do not exist in this model.
 */
module FileStore {
  import opened Wrappers
  import opened PosixPath

  /** A directory, or a regular file with its bytes. */
  datatype Node = Dir | File(content: seq<bv8>)

  type FileMap = map<string, Node>

  /** `os.path.isdir(p)`, with `os.getcwd()` supplied as `cwd`. */
  predicate IsDirAt(fs: FileMap, cwd: string, p: string) {
    var k := AbsPath(cwd, p);
    k in fs && fs[k].Dir?
  }

  /** `a` is `k` or is reached from `k` by taking `dirname` repeatedly. */
  predicate AncestorOf(a: string, k: string)
    decreases |k|
  {
    DirnameShorter(k);
    a == k || (Dirname(k) != k && AncestorOf(a, Dirname(k)))
  }

  /**
   * `os.makedirs(k, exist_ok=True)` on a resolved path: when the parent is
   * missing it is created first, recursively; then `k` is created unless it
   * already is a directory. It fails (an `OSError`) when `k` is a file or
   * its parent is not a directory. The result says whether it succeeded and
   * gives the map afterwards: directories created before a failure stay.
   */
  function AfterMakeDirs(fs: FileMap, k: string): (r: (bool, FileMap))
    decreases |k|
    ensures forall p :: p in fs ==> p in r.1 && r.1[p] == fs[p]
    ensures forall p :: p in r.1 && p !in fs ==> r.1[p] == Dir && AncestorOf(p, k)
    ensures r.0 ==> k in r.1 && r.1[k] == Dir
    ensures !r.0 ==> exists p :: AncestorOf(p, k) && p in fs && fs[p].File?
  {
    var head := Dirname(k);
    DirnameShorter(k);
    var (ok, fs1) := if head != k && head !in fs then AfterMakeDirs(fs, head) else (true, fs);
    if !ok then (false, fs1)
    else if k in fs1 then
      assert k !in fs ==> AncestorOf(k, k);
      (fs1[k].Dir?, fs1)
    else if head != k && !(head in fs1 && fs1[head].Dir?) then
      assert AncestorOf(head, k);
      (false, fs1)
    else (true, fs1[k := Dir])
  }

  /**
   * `FileStorage.save(k)`, which opens `k` for writing: that fails when `k`
   * is a directory or its parent is not one; otherwise `k` becomes a file
   * holding `content`, replacing any file there, and nothing else changes.
   */
  function AfterSave(fs: FileMap, k: string, content: seq<bv8>): (r: Option<FileMap>)
    ensures r.Some? <==> !(k in fs && fs[k].Dir?) && Dirname(k) in fs && fs[Dirname(k)].Dir?
    ensures r.Some? ==> k in r.value && r.value[k] == File(content)
    ensures r.Some? ==> forall p :: p != k ==> (p in r.value <==> p in fs) && (p in fs ==> r.value[p] == fs[p])
  {
    if k in fs && fs[k].Dir? then None
    else if !(Dirname(k) in fs && fs[Dirname(k)].Dir?) then None
    else Some(fs[k := File(content)])
  }

  /**
   * `os.makedirs(dirKey, exist_ok=True)` followed, when it succeeds, by
   * saving at `fileKey`: whether both succeeded, and the map afterwards.
   * Nothing is removed and no existing entry other than the saved file
   * changes; every new entry is the saved file or a directory on the way
   * down to `dirKey`; on success the file holds `content`.
   */
  function AfterStore(fs: FileMap, dirKey: string, fileKey: string, content: seq<bv8>): (r: (bool, FileMap))
    ensures forall p :: p in fs ==> p in r.1
    ensures forall p :: p in fs && p != fileKey ==> r.1[p] == fs[p]
    ensures forall p :: p in r.1 && p !in fs ==> p == fileKey || (r.1[p] == Dir && AncestorOf(p, dirKey))
    ensures r.0 ==> fileKey in r.1 && r.1[fileKey] == File(content)
    ensures r.0 <==> AfterMakeDirs(fs, dirKey).0 && AfterSave(AfterMakeDirs(fs, dirKey).1, fileKey, content).Some?
  {
    var (ok, fs1) := AfterMakeDirs(fs, dirKey);
    if !ok then (false, fs1)
    else
      match AfterSave(fs1, fileKey, content)
      case None => (false, fs1)
      case Some(fs2) => (true, fs2)
  }

  /** The filesystem as mutable state: what `os.makedirs` and `file.save` change. */
  class Disk {
    var nodes: FileMap

    constructor(initial: FileMap)
      ensures nodes == initial
    {
      nodes := initial;
    }

    method MakeDirs(k: string) returns (ok: bool)
      modifies this
      ensures (ok, nodes) == AfterMakeDirs(old(nodes), k)
    {
      var r := AfterMakeDirs(nodes, k);
      ok := r.0;
      nodes := r.1;
    }

    method Save(k: string, content: seq<bv8>) returns (ok: bool)
      modifies this
      ensures ok == AfterSave(old(nodes), k, content).Some?
      ensures nodes == if ok then AfterSave(old(nodes), k, content).value else old(nodes)
    {
      var r := AfterSave(nodes, k, content);
      if r.Some? {
        nodes := r.value;
        ok := true;
      } else {
        ok := false;
      }
    }
  }
}
