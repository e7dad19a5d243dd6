/**
 * The decisions of the three routes, `/api/list`, `/download/<path>` and
 * `/upload`, and the shared-folder setting they read. Each route checks
 * its guards in a fixed order and answers with the first failure, or with
 * its result. HTTP status codes: every `Failure` is answered with 400,
 * except `NotFound` (404) and `ServerError` (500, an exception escaping the
 * handler).
 */
module Server {
  import opened Wrappers
  import opened PosixPath
  import opened PathGate
  import opened Listing
  import opened FileStore

  datatype Failure =
    | NoFolder       // "No folder selected" / "No folder shared"
    | InvalidPath    // "Invalid path"
    | IsDirectory    // "Cannot download a directory"
    | MissingFile    // "Missing file"
    | EmptyFilename  // "No selected file"
    | NotFound       // send_from_directory found no regular file
    | ServerError    // an exception: scandir, makedirs or save failed, or join on None

  /** What a route answers: a failure, or its result. */
  datatype Response =
    | Fail(failure: Failure)
    | Listed(path: string, items: seq<Entry>)
    | Sent(name: string, content: seq<bv8>)
    | Saved

  /** An uploaded file part: the name the client sent and the bytes. */
  datatype FilePart = FilePart(filename: string, content: seq<bv8>)

  /** `request.args.get(key, default)` and `request.form.get(key, default)`. */
  function Get(m: map<string, string>, key: string, default: string): (v: string)
    ensures key in m ==> v == m[key]
    ensures key !in m ==> v == default
  {
    if key in m then m[key] else default
  }

  /** `not shared_folder`: never set, or set to the empty string. */
  predicate FolderUnset(folder: Option<string>) {
    folder.None? || folder.value == ""
  }

  // ---------------------------------------------------------------------
  // /api/list
  // ---------------------------------------------------------------------

  /**
   * The answer of `/api/list`. `scandir` lists the directory at a path, or
   * fails (`None`); a failure escapes the handler as a server error.
   */
  function ListResponse(folder: Option<string>, args: map<string, string>, cwd: string,
                        scandir: string -> Option<seq<Entry>>): Response
  {
    if FolderUnset(folder) then Fail(NoFolder)
    else
      var root := folder.value;
      var rel := Get(args, "path", "");
      if !Accepts(cwd, root, rel) then Fail(InvalidPath)
      else
        match scandir(Target(root, rel))
        case None => Fail(ServerError)
        case Some(scan) => Listed(rel, ListItems(scan, Get(args, "search", ""), Get(args, "sort", "name")))
  }

  /**
   * Guard order and result of `/api/list`: an unset folder is refused before
   * any path is built; a path the gate refuses is invalid; a listing echoes
   * the requested path, and its items are exactly the matching scanned
   * entries (as a multiset), each containing the search term, directories
   * first.
   */
  lemma ListDecision(folder: Option<string>, args: map<string, string>, cwd: string,
                     scandir: string -> Option<seq<Entry>>)
    ensures var r := ListResponse(folder, args, cwd, scandir);
            var rel := Get(args, "path", "");
            var search := Lower(Get(args, "search", ""));
            && (FolderUnset(folder) <==> r == Fail(NoFolder))
            && (!FolderUnset(folder) && !Accepts(cwd, folder.value, rel) <==> r == Fail(InvalidPath))
            && (r.Listed? ==>
                  && !FolderUnset(folder) && Accepts(cwd, folder.value, rel)
                  && scandir(Target(folder.value, rel)).Some?
                  && r.path == rel
                  && multiset(r.items) == multiset(Filter(scandir(Target(folder.value, rel)).value, Searched(search)))
                  && (forall i :: 0 <= i < |r.items| ==> Contains(Lower(r.items[i].name), search))
                  && (forall i, j :: 0 <= i < j < |r.items| && !r.items[i].isDir ==> !r.items[j].isDir))
            && (!FolderUnset(folder) && Accepts(cwd, folder.value, rel) ==>
                  match scandir(Target(folder.value, rel))
                  case None => r == Fail(ServerError)
                  case Some(scan) => r == Listed(rel, ListItems(scan, Get(args, "search", ""), Get(args, "sort", "name"))))
            && (r.Listed? && ParseSort(Get(args, "sort", "name")).Some? ==>
                  var o := ParseSort(Get(args, "sort", "name")).value;
                  forall i, j :: 0 <= i < j < |r.items| && r.items[i].isDir == r.items[j].isDir ==>
                    !Before(o, r.items[j], r.items[i]))
  {
    var r := ListResponse(folder, args, cwd, scandir);
    if r.Listed? {
      var root := folder.value;
      var rel := Get(args, "path", "");
      var scan := scandir(Target(root, rel)).value;
      var search := Get(args, "search", "");
      var sortBy := Get(args, "sort", "name");
      ListingContents(scan, search, sortBy);
      if ParseSort(sortBy).Some? {
        ListingOrder(Filter(scan, Searched(Lower(search))), ParseSort(sortBy).value);
      }
    }
  }

  /**
   * The scan loop of `api_list`: walks the scanned entries in order and
   * appends each one whose lower-cased name contains `term` (every entry
   * when `term` is empty).
   */
  method ScanMatching(entries: seq<Entry>, term: string) returns (items: seq<Entry>)
    ensures items == Filter(entries, Searched(term))
  {
    items := [];
    var i := 0;
    while i < |entries|
      invariant 0 <= i <= |entries|
      invariant items == Filter(entries[..i], Searched(term))
    {
      var e := entries[i];
      PrefixSnoc(entries, i);
      FilterSnoc(entries[..i], e, Searched(term));
      i := i + 1;
      if term != "" && !Contains(Lower(e.name), term) {
        continue;
      }
      items := items + [e];
    }
    assert entries[..i] == entries;
  }

  lemma PrefixSnoc(s: seq<Entry>, i: nat)
    requires i < |s|
    ensures s[..i + 1] == s[..i] + [s[i]]
  {
  }

  // ---------------------------------------------------------------------
  // /download/<path>
  // ---------------------------------------------------------------------

  /**
   * `send_from_directory(directory, name)`: the bytes of the regular file at
   * `join(directory, name)`, sent under `name`; a 404 when there is none.
   */
  function SendFromDirectory(fs: FileMap, cwd: string, directory: string, name: string): (r: Response)
    ensures r.Sent? <==> AbsPath(cwd, Join(directory, name)) in fs && fs[AbsPath(cwd, Join(directory, name))].File?
    ensures r.Sent? ==> r == Sent(name, fs[AbsPath(cwd, Join(directory, name))].content)
    ensures !r.Sent? ==> r == Fail(NotFound)
  {
    var k := AbsPath(cwd, Join(directory, name));
    if k in fs && fs[k].File? then Sent(name, fs[k].content) else Fail(NotFound)
  }

  /** The answer of `/download/<filepath>`. */
  function DownloadResponse(folder: Option<string>, filepath: string, cwd: string, fs: FileMap): Response {
    if FolderUnset(folder) then Fail(NoFolder)
    else
      var root := folder.value;
      var target := Target(root, filepath);
      if !Accepts(cwd, root, filepath) then Fail(InvalidPath)
      else if IsDirAt(fs, cwd, target) then Fail(IsDirectory)
      else SendFromDirectory(fs, cwd, Dirname(target), Basename(target))
  }

  /**
   * `/download` under a canonical shared folder: an unset folder and a
   * refused path come first; an accepted path names the canonical target
   * `/t1/.../tm`, which is refused when it is a directory, sent under its
   * last component `tm` when it is a file, and not found otherwise.
   */
  lemma DownloadDecision(cwd: string, rs: seq<string>, filepath: string, fs: FileMap)
    requires |rs| >= 1 && AllClean(rs)
    ensures var r := DownloadResponse(Some(Absolute(rs)), filepath, cwd, fs);
            var ts := NormSegments(Join(Absolute(rs), filepath));
            && DownloadResponse(None, filepath, cwd, fs) == Fail(NoFolder)
            && (!Accepts(cwd, Absolute(rs), filepath) <==> r == Fail(InvalidPath))
            && (Accepts(cwd, Absolute(rs), filepath) ==>
                  |ts| >= 1 && AllClean(ts) &&
                  var t := Absolute(ts);
                  r == if t in fs && fs[t].Dir? then Fail(IsDirectory)
                       else if t in fs then Sent(ts[|ts| - 1], fs[t].content)
                       else Fail(NotFound))
  {
    var root := Absolute(rs);
    if Accepts(cwd, root, filepath) {
      var ts := NormSegments(Join(root, filepath));
      GateDecision(cwd, rs, filepath);
      var t := Absolute(ts);
      var parent := ts[..|ts| - 1];
      var name := ts[|ts| - 1];
      assert ts == parent + [name];
      assert AllClean(parent);
      SplitLastComponent(parent, name);
      NormpathOfCanonical(ts);
      AbsPathOfCanonical(cwd, ts);
    }
  }

  // ---------------------------------------------------------------------
  // /upload
  // ---------------------------------------------------------------------

  /**
   * The answer of `/upload` and the filesystem afterwards. `secure` is
   * Werkzeug's `secure_filename`, left uninterpreted. There is no guard for
   * an unset folder: joining onto `None` raises, a server error.
   */
  function UploadResult(folder: Option<string>, files: map<string, FilePart>, form: map<string, string>,
                        cwd: string, secure: string -> string, fs: FileMap): (Response, FileMap)
  {
    if "file" !in files then (Fail(MissingFile), fs)
    else
      var part := files["file"];
      var dest := Get(form, "path", "");
      if part.filename == "" then (Fail(EmptyFilename), fs)
      else
        var name := secure(part.filename);
        if folder.None? then (Fail(ServerError), fs)
        else
          var root := folder.value;
          var saveDir := Target(root, dest);
          if !Accepts(cwd, root, dest) then (Fail(InvalidPath), fs)
          else
            var (ok, fs') := AfterStore(fs, AbsPath(cwd, saveDir), AbsPath(cwd, Join(saveDir, name)), part.content);
            (if ok then Saved else Fail(ServerError), fs')
  }

  /** Where an upload creates directories: the resolved save directory. */
  function UploadDirKey(root: string, form: map<string, string>, cwd: string): string {
    AbsPath(cwd, Target(root, Get(form, "path", "")))
  }

  /** Where an upload writes: the resolved `join(save_dir, secure_filename(name))`. */
  function UploadFileKey(root: string, form: map<string, string>, cwd: string, name: string): string {
    AbsPath(cwd, Join(Target(root, Get(form, "path", "")), name))
  }

  /**
   * Guard order of `/upload`: a missing file part, then an empty file name,
   * are refused before any path work; then joining onto an unset (`None`)
   * folder fails; then the gate. None of these touches the filesystem. The
   * route never answers "no folder".
   */
  lemma UploadGuards(folder: Option<string>, files: map<string, FilePart>, form: map<string, string>,
                     cwd: string, secure: string -> string, fs: FileMap)
    ensures var (r, fs') := UploadResult(folder, files, form, cwd, secure, fs);
            && r != Fail(NoFolder)
            && ("file" !in files <==> r == Fail(MissingFile))
            && ("file" in files && files["file"].filename == "" <==> r == Fail(EmptyFilename))
            && (r == Fail(MissingFile) || r == Fail(EmptyFilename) || r == Fail(InvalidPath) ==> fs' == fs)
            && ("file" in files && files["file"].filename != "" && folder.None? ==> r == Fail(ServerError) && fs' == fs)
            && (r == Fail(InvalidPath) <==>
                  "file" in files && files["file"].filename != "" && folder.Some? &&
                  !Accepts(cwd, folder.value, Get(form, "path", "")))
  {
  }

  /**
   * An upload that passes every guard answers OK exactly when `makedirs`
   * of the save directory and the save of the file both succeed, and then
   * the filesystem is the one those two steps leave; otherwise it is a
   * server error.
   */
  lemma UploadStored(root: string, files: map<string, FilePart>, form: map<string, string>,
                     cwd: string, secure: string -> string, fs: FileMap)
    requires "file" in files && files["file"].filename != ""
    requires Accepts(cwd, root, Get(form, "path", ""))
    ensures var dirKey := UploadDirKey(root, form, cwd);
            var fileKey := UploadFileKey(root, form, cwd, secure(files["file"].filename));
            var s := AfterStore(fs, dirKey, fileKey, files["file"].content);
            var (r, fs') := UploadResult(Some(root), files, form, cwd, secure, fs);
            && r == (if s.0 then Saved else Fail(ServerError))
            && fs' == s.1
            && (r == Saved <==>
                  AfterMakeDirs(fs, dirKey).0 && AfterSave(AfterMakeDirs(fs, dirKey).1, fileKey, files["file"].content).Some?)
  {
    var part := files["file"];
    var saveDir := Target(root, Get(form, "path", ""));
    var name := secure(part.filename);
    var stored := AfterStore(fs, AbsPath(cwd, saveDir), AbsPath(cwd, Join(saveDir, name)), part.content);
    assert UploadResult(Some(root), files, form, cwd, secure, fs) == (if stored.0 then Saved else Fail(ServerError), stored.1);
  }

  /**
   * What an upload changes: nothing is removed; no existing entry other
   * than the written file changes; a new entry is either the written file
   * or a directory on the way down to the save directory; a successful
   * upload leaves the uploaded bytes at the written path.
   */
  lemma UploadFrame(root: string, files: map<string, FilePart>, form: map<string, string>,
                    cwd: string, secure: string -> string, fs: FileMap)
    requires "file" in files && files["file"].filename != ""
    ensures var (r, fs') := UploadResult(Some(root), files, form, cwd, secure, fs);
            var fileKey := UploadFileKey(root, form, cwd, secure(files["file"].filename));
            && (forall p :: p in fs ==> p in fs')
            && (forall p :: p in fs && p != fileKey ==> fs'[p] == fs[p])
            && (forall p :: p in fs' && p !in fs ==>
                  p == fileKey || (fs'[p] == Dir && AncestorOf(p, UploadDirKey(root, form, cwd))))
            && (r == Saved ==> fileKey in fs' && fs'[fileKey] == File(files["file"].content))
  {
    var part := files["file"];
    var dest := Get(form, "path", "");
    var name := secure(part.filename);
    var result := UploadResult(Some(root), files, form, cwd, secure, fs);
    if Accepts(cwd, root, dest) {
      var saveDir := Target(root, dest);
      var dirKey := AbsPath(cwd, saveDir);
      var fileKey := AbsPath(cwd, Join(saveDir, name));
      var stored := AfterStore(fs, dirKey, fileKey, part.content);
      assert result == (if stored.0 then Saved else Fail(ServerError), stored.1);
      assert dirKey == UploadDirKey(root, form, cwd);
      assert fileKey == UploadFileKey(root, form, cwd, name);
    } else {
      assert result == (Fail(InvalidPath), fs);
    }
  }

  /**
   * Round trip: after a successful upload into a canonical shared folder,
   * under a file name that `secure_filename` turned into a plain component,
   * downloading `join(path, name)` sends back exactly the uploaded bytes
   * under that name.
   */
  lemma UploadThenDownload(cwd: string, rs: seq<string>, files: map<string, FilePart>,
                           form: map<string, string>, secure: string -> string, fs: FileMap)
    requires |rs| >= 1 && AllClean(rs)
    requires "file" in files && CleanSegment(secure(files["file"].filename))
    requires UploadResult(Some(Absolute(rs)), files, form, cwd, secure, fs).0 == Saved
    ensures var fs' := UploadResult(Some(Absolute(rs)), files, form, cwd, secure, fs).1;
            var name := secure(files["file"].filename);
            DownloadResponse(Some(Absolute(rs)), Join(Get(form, "path", ""), name), cwd, fs') ==
              Sent(name, files["file"].content)
  {
    var root := Absolute(rs);
    var dest := Get(form, "path", "");
    var name := secure(files["file"].filename);
    var fs' := UploadResult(Some(root), files, form, cwd, secure, fs).1;
    UploadSaved(root, files, form, cwd, secure, fs);
    DownloadWritten(cwd, rs, form, name, files["file"].content, fs');
  }

  /**
   * Whatever map holds `content` at the path an accepted upload writes,
   * downloading `join(path, name)` sends that content under `name`.
   */
  lemma DownloadWritten(cwd: string, rs: seq<string>, form: map<string, string>, name: string,
                        content: seq<bv8>, fs: FileMap)
    requires |rs| >= 1 && AllClean(rs) && CleanSegment(name)
    requires Accepts(cwd, Absolute(rs), Get(form, "path", ""))
    requires UploadFileKey(Absolute(rs), form, cwd, name) in fs
    requires fs[UploadFileKey(Absolute(rs), form, cwd, name)] == File(content)
    ensures DownloadResponse(Some(Absolute(rs)), Join(Get(form, "path", ""), name), cwd, fs) == Sent(name, content)
  {
    var root := Absolute(rs);
    var dest := Get(form, "path", "");
    var ts := NormSegments(Join(root, dest));
    NameBelowAccepted(cwd, rs, dest, name);
    FileKeyCanonical(root, form, cwd, name, ts);
    assert root[0] == '/';
    SendCanonical(cwd, root, Join(dest, name), ts, name, content, fs);
  }

  /** A successful upload passed every guard and left the bytes at the written path. */
  lemma UploadSaved(root: string, files: map<string, FilePart>, form: map<string, string>,
                    cwd: string, secure: string -> string, fs: FileMap)
    requires UploadResult(Some(root), files, form, cwd, secure, fs).0 == Saved
    ensures "file" in files && files["file"].filename != ""
    ensures Accepts(cwd, root, Get(form, "path", ""))
    ensures var fs' := UploadResult(Some(root), files, form, cwd, secure, fs).1;
            var fileKey := UploadFileKey(root, form, cwd, secure(files["file"].filename));
            fileKey in fs' && fs'[fileKey] == File(files["file"].content)
  {
    UploadFrame(root, files, form, cwd, secure, fs);
  }

  /** When the save directory is the canonical `/t1/.../tm`, the written path is `/t1/.../tm/name`. */
  lemma FileKeyCanonical(root: string, form: map<string, string>, cwd: string, name: string, ts: seq<string>)
    requires AllClean(ts) && CleanSegment(name)
    requires Target(root, Get(form, "path", "")) == Absolute(ts)
    ensures UploadFileKey(root, form, cwd, name) == Absolute(ts + [name])
  {
    assert AllClean(ts + [name]);
    AbsoluteSnoc(ts, name);
    JoinCanonical(ts, name);
    AbsPathOfCanonical(cwd, ts + [name]);
  }

  /** Downloading an accepted path whose target is the canonical `/t1/.../tm/name`, holding a file, sends it under `name`. */
  lemma SendCanonical(cwd: string, root: string, filepath: string, ts: seq<string>, name: string,
                      content: seq<bv8>, fs: FileMap)
    requires root != "" && Accepts(cwd, root, filepath)
    requires AllClean(ts) && CleanSegment(name) && Target(root, filepath) == Absolute(ts + [name])
    requires Absolute(ts + [name]) in fs && fs[Absolute(ts + [name])] == File(content)
    ensures DownloadResponse(Some(root), filepath, cwd, fs) == Sent(name, content)
  {
    var t := Absolute(ts + [name]);
    assert AllClean(ts + [name]);
    SplitLastComponent(ts, name);
    AbsPathOfCanonical(cwd, ts + [name]);
    assert !IsDirAt(fs, cwd, t);
    assert Join(Dirname(t), Basename(t)) == t;
  }

  /** Listing and downloading refuse an unset folder whatever else the request holds. */
  lemma UnsetFolderRefused(folder: Option<string>, args: map<string, string>, filepath: string, cwd: string,
                           scandir: string -> Option<seq<Entry>>, fs: FileMap)
    requires FolderUnset(folder)
    ensures ListResponse(folder, args, cwd, scandir) == Fail(NoFolder)
    ensures DownloadResponse(folder, filepath, cwd, fs) == Fail(NoFolder)
  {
  }

  // ---------------------------------------------------------------------
  // The application state
  // ---------------------------------------------------------------------

  /** The server's shared state: the shared folder the window sets. */
  class App {
    /** `shared_folder`: `None` until the window sets it. */
    var sharedFolder: Option<string>

    constructor()
      ensures sharedFolder == None
    {
      sharedFolder := None;
    }

    /** `set_shared_folder`: the window passes the absolute path it chose. */
    method SetSharedFolder(path: string)
      modifies this
      ensures sharedFolder == Some(path)
    {
      sharedFolder := Some(path);
    }

    /** `api_list`: the guards, the scan loop with the search filter, then the two sorts. */
    method ApiList(args: map<string, string>, cwd: string, scandir: string -> Option<seq<Entry>>)
      returns (resp: Response)
      ensures resp == ListResponse(sharedFolder, args, cwd, scandir)
    {
      if FolderUnset(sharedFolder) {
        return Fail(NoFolder);
      }
      var root := sharedFolder.value;
      var rel := Get(args, "path", "");
      var target := Normpath(Join(root, rel));
      if !StartsWith(target, AbsPath(cwd, root)) {
        return Fail(InvalidPath);
      }
      var term := Lower(Get(args, "search", ""));
      var sortBy := Get(args, "sort", "name");
      var scanned := scandir(target);
      if scanned.None? {
        return Fail(ServerError);
      }
      var items := ScanMatching(scanned.value, term);
      var order := ParseSort(sortBy);
      if order.Some? {
        items := SortStable(order.value, items);
      }
      items := SortStable(DirsFirst, items);
      return Listed(rel, items);
    }

    /** `upload`: the guards, then `os.makedirs` and `file.save` on the disk. */
    method Upload(files: map<string, FilePart>, form: map<string, string>, cwd: string,
                  secure: string -> string, disk: Disk) returns (resp: Response)
      modifies disk
      ensures (resp, disk.nodes) == UploadResult(sharedFolder, files, form, cwd, secure, old(disk.nodes))
    {
      if "file" !in files {
        return Fail(MissingFile);
      }
      var part := files["file"];
      var dest := Get(form, "path", "");
      if part.filename == "" {
        return Fail(EmptyFilename);
      }
      var name := secure(part.filename);
      if sharedFolder.None? {
        return Fail(ServerError);
      }
      var root := sharedFolder.value;
      var saveDir := Normpath(Join(root, dest));
      if !StartsWith(saveDir, AbsPath(cwd, root)) {
        return Fail(InvalidPath);
      }
      var ok := disk.MakeDirs(AbsPath(cwd, saveDir));
      if !ok {
        return Fail(ServerError);
      }
      ok := disk.Save(AbsPath(cwd, Join(saveDir, name)), part.content);
      if !ok {
        return Fail(ServerError);
      }
      return Saved;
    }
  }
}
