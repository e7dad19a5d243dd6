# WiFi-Server request logic in Dafny

WiFi-Server shares one folder of the desktop machine over HTTP on the local
network. A Tkinter window picks the folder; a Flask server in `app.py` then
serves three routes:

- `/api/list` lists a directory of the shared folder as JSON, filtered by a
  search term and sorted.
- `/download/<path>` sends one file.
- `/upload` stores a posted file.

This project models the decisions those routes make and proves what they
guarantee. It covers the path gate each route runs untrusted paths through,
the filter-and-sort pipeline of the listing, the order of each route's
guards, and the effect of an upload on the filesystem.

Modules, leaf first:

- `Wrappers`: `Option`.
- `PosixPath`: the parts of Python's `posixpath` the routes use:
  - `join`;
  - `normpath`, including the rule that keeps exactly two leading slashes;
  - `abspath`, with the working directory as a parameter;
  - `basename` and `dirname`.
- `PathGate`: `normpath(join(root, rel))` and the string-prefix test against
  `abspath(root)`. For a canonical root `/r1/.../rn` it proves exactly which
  targets the test accepts: every target below the root, and also targets
  whose n-th component only starts with `rn` (the sibling `/shared-other`
  next to `/shared`).
- `Listing`: scanned entries, the case-insensitive search filter, the sort
  argument (`name`, `size`, `modified`, optional `_desc`), Python's stable
  `list.sort`, and the grouping sort on `not is_dir` that puts directories
  first.
- `FileStore`: the filesystem as a map from resolved absolute path to a
  directory or a file's bytes. It covers `os.makedirs(exist_ok=True)`,
  `FileStorage.save`, and a `Disk` object whose map those two update in
  place.
- `Server`:
  - the responses of the three routes as functions of the request, the
    shared folder and the filesystem;
  - lemmas on guard order, containment and the upload/download round trip;
  - the `App` class holding the mutable `shared_folder`, with methods for
    the two routes that loop or change state. `ApiList` runs the scan loop
    with its search filter and then the two sorts. `Upload` calls `makedirs`
    and `save` on a `Disk`. The download route only reads, so it stays the
    function `DownloadResponse` of the current folder and map.

The gate checks a string prefix, not components. The code in
`app.py:81-83`, `116-117` and `128-129` tests only whether the normalised
target starts with `abspath(shared_folder)` as a string. Component-wise
containment would reject `/shared-other` for the root `/shared`; this string
test accepts it. The model follows the code:
- `PathGate.SiblingPrefixAccepted` proves that the sibling is accepted;
- `PathGate.GateDecision` states the exact set of accepted targets.

Likewise, `/upload` has no guard for an unset folder. Joining onto `None`
raises, so the model answers it with a server error. An empty-string folder
is used as it is, which makes `abspath("")` the working directory.

HTTP status codes: every `Failure` is answered with 400, except `NotFound`
(404) and `ServerError` (500, an exception escaping the handler).

## Model

| member | source | states |
|---|---|---|
| PosixPath.Split | app.py:81 | The pieces of a path between separators: there is at least one, and none contains `/`. |
| PosixPath.JoinOfSplit | app.py:81 | Joining the pieces of a split with `/` gives back the original string. |
| PosixPath.SplitOfJoin | app.py:81 | Splitting slash-free pieces joined with `/` gives back the pieces. |
| PosixPath.SplitAtSlash | app.py:81 | A separator splits a string into the pieces of its left part followed by the pieces of its right part. |
| PosixPath.Join | app.py:81 | `os.path.join`: an absolute second argument replaces the first. Otherwise the result starts with the first argument and ends with the second, and is at most one character longer than both together. |
| PosixPath.JoinSeparator | app.py:81 | For a relative second argument, `join` puts exactly one `/` between the parts when the first is non-empty and does not already end with `/`. Otherwise it simply concatenates them. |
| PosixPath.JoinAssociative | app.py:128-131 | For a plain name `n`, `join(a, join(d, n)) == join(join(a, d), n)`. The file an upload writes is therefore the path a download of `join(path, n)` resolves. |
| PosixPath.Normpath | app.py:81 | `os.path.normpath` never returns the empty string (an empty path becomes `"."`). |
| PosixPath.NormpathAbsolute | app.py:81 | A path with one leading slash normalises to `/` followed by clean components: no empty component, `.`, `..` or `/`. |
| PosixPath.NormpathOfCanonical | app.py:81 | A canonical absolute path is its own normal form, and its components are recovered from it. |
| PosixPath.NormpathIdempotent | app.py:81 | Normalising a path with one leading slash twice is the same as normalising it once. |
| PosixPath.AbsPath | app.py:82 | `os.path.abspath` gives an absolute path whenever the working directory or the path is absolute. |
| PosixPath.AbsPathNormal | app.py:82 | A path that resolves, against the working directory, to one with a single leading `/` becomes `/` followed by clean components. |
| PosixPath.AbsPathOfCanonical | app.py:82 | A canonical absolute path is its own `abspath`, whatever the working directory. |
| PosixPath.AbsPathIdempotent | app.py:82 | Resolving an already resolved path with a single leading `/` changes nothing. |
| PosixPath.JoinOntoCanonical | app.py:81 | A relative path joined onto a canonical root keeps one leading slash. Its components are normpath's walk over the relative path, starting from the root's components. |
| PosixPath.Basename | app.py:119 | `os.path.basename` has no `/` and is a suffix of the path. It is either the whole path or is preceded by a `/`, so it is everything after the last separator. |
| PosixPath.Dirname | app.py:119 | `os.path.dirname` is a prefix of the path. |
| PosixPath.RStripSlashesExact | app.py:119 | `rstrip('/')` removes only trailing separators, and leaves a non-empty result unless the input held nothing else. |
| PosixPath.DirnameExact | app.py:119 | For every path: the path is `h` followed by its basename, and `h` is the dirname followed only by separators. `h` is kept whole when it is all separators. Otherwise the dirname is non-empty and does not end with `/`. |
| PosixPath.SplitLastComponent | app.py:119 | For `/s1/.../sm/name`: `basename` is `name`, `dirname` is `/s1/.../sm`, and joining them gives the path back. |
| PathGate.Target | app.py:81 | The target `normpath(join(root, path))` of every route. `GateDecision` and `JoinOntoCanonical` state what it resolves to. |
| PathGate.Accepts | app.py:82 | The gate `target.startswith(abspath(root))` of every route (also lines 117 and 129). `GateDecision` states exactly which paths it accepts, and `SiblingPrefixAccepted`, `DoubleSlashRejected` and `SlashRootAdmitsAll` its edge cases. |
| PathGate.JoinPrefix | app.py:82 | One slash-joined component list starts with another as a string exactly when all but the last root component match and the last is a string prefix of the target's component there. |
| PathGate.AbsolutePrefix | app.py:82 | The same condition decides the string-prefix test between two canonical absolute paths. |
| PathGate.GateDecision | app.py:81-83 | For a canonical root other than `/`: a joined path with one leading slash yields a canonical target. The gate accepts exactly when that target passes the component condition above. Every descendant of the root is accepted. An accepted non-descendant differs from the root only in its last root-level component, which extends the root's as a string. |
| PathGate.DoubleSlashRejected | app.py:81-83 | For a canonical root other than `/`: a joined path with exactly two leading slashes (a `path` starting with `//` but not `///`) normalises to something the gate rejects. |
| PathGate.EmptyPathIsRoot | app.py:80-81 | An empty `path` resolves to the canonical root itself, which is accepted. |
| PathGate.AbsoluteRelReplacesRoot | app.py:81 | A `path` starting with `/` discards the root: the target is `normpath(path)`. |
| PathGate.SlashRootAdmitsAll | app.py:81-82 | With root `/`, every request path is accepted. |
| PathGate.NameBelowAccepted | app.py:128-129 | When the upload destination is accepted and resolves to `/t1/.../tm`, then `join(destination, name)` for a plain name resolves to `/t1/.../tm/name` and is accepted too. |
| PathGate.SiblingPrefixAccepted | app.py:81-83 | With root `/shared`, the path `../shared-other` resolves to `/shared-other`, which is not inside the root, and the gate accepts it. |
| Listing.KeyLtStrictTotal | app.py:101-106 | Python's `<` on the sort keys (lower-cased names, sizes, modified strings) is irreflexive, transitive and total. |
| Listing.BeforeAsymmetric | app.py:102 | Under any order, ascending or descending, two entries are never each before the other. |
| Listing.NotBeforeTransitive | app.py:102 | "Not before" is transitive, which is what a stable sort needs of its key. |
| Listing.Filter | app.py:89-91 | Keeps only entries the selector holds for, and takes no entry the input lacks. |
| Listing.FilterCount | app.py:89-91 | Each entry occurs in the filtered list as often as in the input if the selector holds for it, otherwise not at all. |
| Listing.FilterSnoc | app.py:89-96 | One more scanned entry extends the filtered list by that entry if it matches, by nothing otherwise: one turn of the scan loop. |
| Listing.Insert | app.py:102 | Insertion adds exactly the one entry to the multiset. |
| Listing.InsertSorted | app.py:102 | Inserting into a sorted list keeps it sorted. |
| Listing.SortStable | app.py:102 | `list.sort(key=..., reverse=...)`: the result is sorted by the key in the requested direction and is a permutation of the input. |
| Listing.FilterSort | app.py:101-109 | Sorting then filtering equals filtering then sorting, as stability requires. |
| Listing.SortEqualKeys | app.py:102 | A list whose keys are all equal is left as it is by the sort. |
| Listing.StableTies | app.py:102-106 | Entries with the same key value keep their relative order, in either direction. |
| Listing.DirsFirstBefore | app.py:109 | Under the `not is_dir` key, an entry comes before another exactly when it is a directory and the other a file. |
| Listing.DirsFirstGroups | app.py:109 | The grouping sort gives the directories in their previous order followed by the files in their previous order. |
| Listing.ParseSort | app.py:98-106 | The `sort` argument read as `_desc` suffix and key. `ParseSortExact` states exactly which strings select which order. |
| Listing.ListItems | app.py:85-109 | The `items` of a listing: search filter, then the primary sort, then the grouping sort. `ListingContents`, `ListingOrder`, `ListingTies` and `ArrangeGroups` state its contents and order. |
| Listing.ParseSortExact | app.py:98-106 | `sort` selects a given order exactly when it is the key name (`name`, `size`, `modified`) with `_desc` appended for descending. |
| Listing.ParseSortOf | app.py:98-99 | Each order's argument spelling parses back to that order. |
| Listing.ArrangeGroups | app.py:101-109 | The returned list is the directories sorted by the primary key followed by the files sorted by the primary key. |
| Listing.MatchesContain | app.py:90-91 | Every entry the search keeps has a lower-cased name containing the term. |
| Listing.ListingContents | app.py:85-109 | Every listed item's lower-cased name contains the lower-cased search term. The items are a permutation of the matching scanned entries. No directory follows a file. |
| Listing.ListingOrder | app.py:101-109 | Among the directories, and among the files, the items are in the requested order. |
| Listing.ListingTies | app.py:101-109 | Within each group, the items sharing one key value appear in scan order, even when descending. |
| Listing.UnknownSortKeepsScanOrder | app.py:101-109 | An unrecognised `sort` leaves the directories and the files each in scan order. |
| Listing.EmptySearchKeepsAll | app.py:85-91 | An empty search term keeps every scanned entry, in scan order. |
| FileStore.IsDirAt | app.py:118 | `os.path.isdir` on the resolved path. `DownloadDecision` states its effect: a directory target is refused. |
| FileStore.AfterMakeDirs | app.py:130 | `os.makedirs(exist_ok=True)` removes and changes nothing and creates only directories on the path down to the target. On success the target is a directory; on failure some ancestor is a file. |
| FileStore.AfterSave | app.py:131 | In the model, saving succeeds exactly when the target is not a directory and its parent is one. The target then holds the bytes, and every other path is unchanged. |
| FileStore.AfterStore | app.py:130-131 | `os.makedirs` then, on success, the save. It succeeds exactly when both steps do, and then the file holds the bytes. Nothing is removed, and every existing path other than the saved file keeps its value. Anything new is the saved file or a directory on the way to the save directory. |
| FileStore.Disk.constructor | app.py:130-131 | The disk starts with the given map. |
| FileStore.Disk.MakeDirs | app.py:130 | Updates the disk's map in place as `AfterMakeDirs` does, and reports success. |
| FileStore.Disk.Save | app.py:131 | Updates the disk's map in place as `AfterSave` does when it succeeds, and leaves it unchanged otherwise. |
| Server.FolderUnset | app.py:78 | `not shared_folder` (also line 115). `ListDecision` and `UnsetFolderRefused` state that exactly this refuses listing and download. |
| Server.ListResponse | app.py:76-111 | The answer of `/api/list`. `ListDecision` states its guards, errors, listing and order. |
| Server.DownloadResponse | app.py:113-119 | The answer of `/download/<path>`. `DownloadDecision` states its guards and the file sent, and `UnsetFolderRefused` its unset-folder case. |
| Server.UploadResult | app.py:121-132 | The answer of `/upload` and the filesystem afterwards. `UploadGuards` states its guards, `UploadStored` its outcome after them, `UploadFrame` what it changes, and `UploadThenDownload` the round trip. |
| Server.Get | app.py:80 | `args.get(key, default)`: the value when the key is present, the default otherwise. |
| Server.ListDecision | app.py:76-111 | Unset folder gives "No folder selected" exactly. Otherwise a path the gate refuses gives "Invalid path" exactly. For an accepted path, a failed scan gives a server error and a successful one gives exactly the listing `ListItems` of the scan, `search` and `sort`. A listing echoes `path`, and its items are the matching scanned entries as a multiset, each containing the search term, directories first. When `sort` names a key, directories among themselves and files among themselves are in that order. |
| Server.ScanMatching | app.py:87-96 | The scan loop appends exactly the entries the search keeps, in scan order. |
| Server.SendFromDirectory | app.py:119 | `send_from_directory` sends the regular file at `join(directory, name)` under `name`, and gives 404 when there is none. |
| Server.DownloadDecision | app.py:113-119 | For a canonical root other than `/`: refused paths give "Invalid path" exactly. An accepted target is refused if it is a directory, sent under its last component if it is a file, and not found otherwise. |
| Server.SendCanonical | app.py:116-119 | An accepted target resolving to the canonical `/t1/.../tm/name` and holding a file is sent under `name` with that file's bytes. |
| Server.UploadGuards | app.py:121-129 | A missing `file` part and an empty filename are refused first. An unset folder is a server error; "no folder" is never answered. A refused destination gives "Invalid path" exactly. None of these touches the filesystem. |
| Server.UploadStored | app.py:121-132 | Once every guard passes, the upload answers OK exactly when `makedirs` of the save directory and then the save of the file both succeed. The filesystem afterwards is what those steps leave; any other outcome is a server error. |
| Server.UploadFrame | app.py:128-132 | An upload removes nothing, and every existing path other than the written file keeps its value. Every new path is the written file or a directory on the way to the save directory. On success the written path holds the uploaded bytes. |
| Server.UploadSaved | app.py:130-132 | A successful upload passed the guards and the gate, and left the uploaded bytes at `join(save_dir, secure_filename(name))`. |
| Server.FileKeyCanonical | app.py:128-131 | A save directory resolving to `/t1/.../tm` puts the file at `/t1/.../tm/name`. |
| Server.DownloadWritten | app.py:113-119 | For a canonical root other than `/` and a plain-component name: if a map holds content at the path an accepted upload writes, downloading `join(path, name)` sends that content under `name`. |
| Server.UploadThenDownload | app.py:113-132 | After a successful upload into a canonical shared folder other than `/`, under a name `secure_filename` made a plain component, downloading `join(path, name)` returns exactly the uploaded bytes under that name. |
| Server.UnsetFolderRefused | app.py:78-79 | With no shared folder, listing (and download, line 115) answer "no folder" whatever the request holds. |
| Server.App.constructor | app.py:19 | `shared_folder` starts unset. |
| Server.App.SetSharedFolder | app.py:23-26 | `set_shared_folder` stores the given path as the shared folder. |
| Server.App.ApiList | app.py:76-111 | The route's guards, scan loop and two in-order sorts produce exactly `ListResponse` for the current shared folder, so `ListDecision` holds of its answer. |
| Server.App.Upload | app.py:121-132 | The route's answer and the disk afterwards are exactly `UploadResult` for the current folder and the previous disk, so `UploadGuards`, `UploadStored`, `UploadFrame` and `UploadThenDownload` hold of it. |

## Left out

- `get_lan_ip`, `get_port` and `generate_qr` (app.py:28-49): sockets, a constant, and a third-party QR library writing an image.
- `start_server_thread`, `run_flask` and the `server_thread`/`server_running` globals (app.py:20-21, 51-69): threads and the server lifecycle. Concurrent requests, and a folder change during a request, are not modelled; each route reads one snapshot of the shared folder.
- The `/` route, Flask routing, `jsonify` and `render_template` (app.py:72-74, 111): routes are functions from request to a `Response` value; status codes are stated above, not modelled as values.
- `send_from_directory` (app.py:119): modelled as sending the regular file at the resolved `join(directory, name)`, or a 404 otherwise. Werkzeug's own `safe_join` checks, headers and `as_attachment` are not part of this model.
- `secure_filename` (app.py:127): an uninterpreted parameter. The round trip assumes its result is a plain component.
- `os.scandir` and `entry.stat` (app.py:88-92): one input function per call, returning the scanned entries or failing as a whole. A `stat` failing for a single entry is not distinguished from that.
- `datetime.fromtimestamp(...).isoformat()` (app.py:95): the modified time is an opaque string, compared as Python compares strings.
- `str.lower` (app.py:85, 90, 102): ASCII case folding only.
- `list.sort` (app.py:102-109): modelled as a stable insertion sort returning a new sequence, which `App.ApiList` assigns back to `items`. In-place reordering of the Python list and Timsort's own steps are not captured; the results agree because both sorts are stable.
- Symbolic links and filesystem case rules: paths are resolved lexically with `abspath`. The model does not capture a symlink inside the folder pointing outside it.
- Root `/`: the download and upload lemmas (`DownloadDecision`, `UploadThenDownload`) are stated for a canonical root other than `/`. For root `/` only the gate is covered, by `SlashRootAdmitsAll`. There, a request path starting with `//` resolves to a path that keeps two leading slashes.
- `//` aliasing: the file map keys are normalised paths, and normpath keeps `//x` apart from `/x`. Linux treats both as the same file. With root `/`, an upload to `path=//x` therefore creates the keys `//` and `//x` in the model, where the real system writes under `/x`.
- FileStore.AfterMakeDirs: failure is stated in one direction only (some ancestor is a file). The converse needs a well-formed directory tree, which the path map does not enforce.
- File names are strings of characters, not bytes; character encoding is not modelled.
- Environmental failures of `os.makedirs` and `file.save` (app.py:130-131) are not modelled: permissions, disk space and name-length limits. In the model these two calls fail only when a file or directory is in the way. The real calls can also raise for those reasons, which the route answers with a 500. `AfterSave`, `AfterMakeDirs` and `AfterStore` state exactly when the modelled calls succeed.
- The desktop window (ui/gui.py), which calls `set_shared_folder` with an absolute path, and the browser script (static/js/app.js) are not part of this model.
