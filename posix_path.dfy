/**
 * Lexical POSIX path operations with the semantics of Python's `posixpath`
 * module: `join`, `normpath`, `abspath`, `basename` and `dirname`.
 * A path is a string and the separator is '/'. Nothing here consults a
 * filesystem: `..` is cancelled against the previous component as text.
 */
module PosixPath {

  predicate StartsWith(s: string, prefix: string) {
    |prefix| <= |s| && s[..|prefix|] == prefix
  }

  predicate EndsWith(s: string, suffix: string) {
    |suffix| <= |s| && s[|s| - |suffix|..] == suffix
  }

  /** `os.path.isabs`: the path starts with the separator. */
  predicate IsAbs(p: string) {
    |p| > 0 && p[0] == '/'
  }

  // ---------------------------------------------------------------------
  // Splitting on '/' and joining with '/'
  // ---------------------------------------------------------------------

  /** `str.split('/')`: the pieces between separators, in order. */
  function Split(s: string): (parts: seq<string>)
    ensures |parts| >= 1
    ensures forall i :: 0 <= i < |parts| ==> '/' !in parts[i]
  {
    if s == [] then [""]
    else if s[0] == '/' then [""] + Split(s[1..])
    else
      var rest := Split(s[1..]);
      [[s[0]] + rest[0]] + rest[1..]
  }

  /** `'/'.join(parts)`. */
  function JoinSegments(parts: seq<string>): string {
    if |parts| == 0 then ""
    else if |parts| == 1 then parts[0]
    else parts[0] + "/" + JoinSegments(parts[1..])
  }

  /** Joining the pieces of a split gives back the string. */
  lemma {:induction false} JoinOfSplit(s: string)
    ensures JoinSegments(Split(s)) == s
  {
    if s == [] {
    } else if s[0] == '/' {
      JoinOfSplit(s[1..]);
      assert ([""] + Split(s[1..]))[1..] == Split(s[1..]);
    } else {
      var rest := Split(s[1..]);
      JoinOfSplit(s[1..]);
      var parts := [[s[0]] + rest[0]] + rest[1..];
      if |rest| == 1 {
        assert s == [s[0]] + s[1..];
      } else {
        assert parts[1..] == rest[1..];
        assert JoinSegments(rest) == rest[0] + "/" + JoinSegments(rest[1..]);
        assert s == [s[0]] + s[1..];
      }
    }
  }

  /** A separator splits a string into the pieces of either side. */
  lemma {:induction false} SplitAtSlash(a: string, b: string)
    ensures Split(a + "/" + b) == Split(a) + Split(b)
  {
    if a == [] {
      assert a + "/" + b == "/" + b;
      assert ("/" + b)[1..] == b;
    } else if a[0] == '/' {
      assert (a + "/" + b)[1..] == a[1..] + "/" + b;
      SplitAtSlash(a[1..], b);
    } else {
      assert (a + "/" + b)[1..] == a[1..] + "/" + b;
      SplitAtSlash(a[1..], b);
      var r := Split(a[1..]);
      assert (r + Split(b))[0] == r[0];
      assert (r + Split(b))[1..] == r[1..] + Split(b);
    }
  }

  /** A string without a separator is a single piece. */
  lemma {:induction false} SplitNoSlash(c: string)
    requires '/' !in c
    ensures Split(c) == [c]
  {
    if c != [] {
      assert c[0] in c;
      assert '/' !in c[1..];
      SplitNoSlash(c[1..]);
      assert c == [c[0]] + c[1..];
    }
  }

  /** Splitting a join of separator-free pieces gives back the pieces. */
  lemma {:induction false} SplitOfJoin(parts: seq<string>)
    requires |parts| >= 1
    requires forall i :: 0 <= i < |parts| ==> '/' !in parts[i]
    ensures Split(JoinSegments(parts)) == parts
  {
    if |parts| == 1 {
      SplitNoSlash(parts[0]);
    } else {
      SplitAtSlash(parts[0], JoinSegments(parts[1..]));
      SplitNoSlash(parts[0]);
      SplitOfJoin(parts[1..]);
      assert parts == [parts[0]] + parts[1..];
    }
  }

  /** Appending a piece to a non-empty list appends it after a separator. */
  lemma {:induction false} JoinSegmentsSnoc(parts: seq<string>, last: string)
    requires |parts| >= 1
    ensures JoinSegments(parts + [last]) == JoinSegments(parts) + "/" + last
  {
    if |parts| > 1 {
      assert (parts + [last])[1..] == parts[1..] + [last];
      JoinSegmentsSnoc(parts[1..], last);
    }
  }

  /** The join of pieces starts with the first piece. */
  lemma JoinSegmentsHead(parts: seq<string>)
    requires |parts| >= 1
    ensures StartsWith(JoinSegments(parts), parts[0])
  {
  }

  /** The join of clean pieces neither starts nor ends with a separator. */
  lemma JoinSegmentsEnds(segs: seq<string>)
    requires |segs| >= 1 && AllClean(segs)
    ensures var js := JoinSegments(segs); |js| > 0 && js[0] != '/' && js[|js| - 1] != '/'
  {
    var js := JoinSegments(segs);
    JoinSegmentsHead(segs);
    assert segs[0][0] in segs[0];
    if |segs| == 1 {
      assert js[|js| - 1] in segs[0];
    } else {
      JoinSegmentsSnoc(segs[..|segs| - 1], segs[|segs| - 1]);
      assert segs[..|segs| - 1] + [segs[|segs| - 1]] == segs;
      assert js[|js| - 1] in segs[|segs| - 1];
    }
  }

  /** The pieces of a canonical absolute path: an empty one, then its components. */
  lemma SplitAbsolute(segs: seq<string>)
    requires |segs| >= 1 && AllClean(segs)
    ensures Split(Absolute(segs)) == [""] + segs
  {
    assert Absolute(segs) == "" + "/" + JoinSegments(segs);
    SplitAtSlash("", JoinSegments(segs));
    SplitOfJoin(segs);
  }

  // ---------------------------------------------------------------------
  // os.path.join
  // ---------------------------------------------------------------------

  /**
   * `os.path.join(a, b)`: an absolute `b` discards `a`; otherwise exactly
   * one separator ends up between them (none is added after an empty `a`
   * or one that already ends with '/').
   */
  function Join(a: string, b: string): (r: string)
    ensures IsAbs(b) ==> r == b
    ensures !IsAbs(b) ==> StartsWith(r, a) && EndsWith(r, b) && |r| <= |a| + 1 + |b|
  {
    if IsAbs(b) then b
    else if a == "" || a[|a| - 1] == '/' then a + b
    else a + "/" + b
  }

  /**
   * What `join` promises for a relative `b`: exactly one separator between
   * the parts, added only when `a` is non-empty and does not already end
   * with one.
   */
  lemma JoinSeparator(a: string, b: string)
    requires !IsAbs(b)
    ensures var r := Join(a, b);
            || (a != "" && a[|a| - 1] != '/' && r == a + "/" + b && r[|a|] == '/')
            || ((a == "" || a[|a| - 1] == '/') && r == a + b)
  {
  }

  // ---------------------------------------------------------------------
  // os.path.normpath
  // ---------------------------------------------------------------------

  /**
   * How many leading separators normpath keeps: none for a relative path,
   * two for exactly two (POSIX leaves `//` implementation-defined), one
   * otherwise.
   */
  function InitialSlashes(p: string): nat {
    if !IsAbs(p) then 0
    else if |p| >= 2 && p[1] == '/' && (|p| == 2 || p[2] != '/') then 2
    else 1
  }

  /**
   * One turn of normpath's loop over the components: `""` and `"."` are
   * dropped; `".."` is kept at the start of a relative path or after
   * another kept `".."`, cancels the previous component otherwise, and is
   * dropped at the root.
   */
  function Step(acc: seq<string>, comp: string, initial: nat): seq<string> {
    if comp == "" || comp == "." then acc
    else if comp != ".." || (initial == 0 && acc == []) || (acc != [] && acc[|acc| - 1] == "..") then acc + [comp]
    else if acc != [] then acc[..|acc| - 1]
    else acc
  }

  /** normpath's loop over all components, left to right. */
  function Walk(comps: seq<string>, initial: nat, acc: seq<string>): seq<string>
    decreases |comps|
  {
    if comps == [] then acc else Walk(comps[1..], initial, Step(acc, comps[0], initial))
  }

  /** The components normpath keeps for `p`. */
  function NormSegments(p: string): seq<string> {
    Walk(Split(p), InitialSlashes(p), [])
  }

  /** `os.path.normpath(p)`; never the empty string (an empty result is `"."`). */
  function Normpath(p: string): (r: string)
    ensures r != ""
  {
    if p == "" then "."
    else
      var n := InitialSlashes(p);
      var r := (if n == 0 then "" else if n == 1 then "/" else "//") + JoinSegments(NormSegments(p));
      if r == "" then "." else r
  }

  /** `os.path.abspath(p)`, with `os.getcwd()` supplied as `cwd`. */
  function AbsPath(cwd: string, p: string): (r: string)
    ensures IsAbs(cwd) || IsAbs(p) ==> IsAbs(r)
  {
    var q := if IsAbs(p) then p else Join(cwd, p);
    assert IsAbs(cwd) || IsAbs(p) ==> IsAbs(q);
    Normpath(q)
  }

  /**
   * `abspath` normalises: resolved against the working directory, a path
   * with one leading separator becomes `/` followed by clean components.
   */
  lemma AbsPathNormal(cwd: string, p: string)
    ensures var q := if IsAbs(p) then p else Join(cwd, p);
            InitialSlashes(q) == 1 ==>
              AllClean(NormSegments(q)) && AbsPath(cwd, p) == Absolute(NormSegments(q))
  {
    var q := if IsAbs(p) then p else Join(cwd, p);
    if InitialSlashes(q) == 1 {
      NormpathAbsolute(q);
    }
  }

  /** A canonical absolute path is its own `abspath`, whatever the working directory. */
  lemma AbsPathOfCanonical(cwd: string, segs: seq<string>)
    requires AllClean(segs)
    ensures AbsPath(cwd, Absolute(segs)) == Absolute(segs)
  {
    NormpathOfCanonical(segs);
  }

  /** Resolving an already resolved path with one leading separator changes nothing. */
  lemma AbsPathIdempotent(cwd: string, p: string)
    requires InitialSlashes(if IsAbs(p) then p else Join(cwd, p)) == 1
    ensures AbsPath(cwd, AbsPath(cwd, p)) == AbsPath(cwd, p)
  {
    var q := if IsAbs(p) then p else Join(cwd, p);
    AbsPathNormal(cwd, p);
    AbsPathOfCanonical(cwd, NormSegments(q));
  }

  // ---------------------------------------------------------------------
  // Canonical absolute paths
  // ---------------------------------------------------------------------

  /** A component normpath can leave in an absolute path. */
  predicate CleanSegment(c: string) {
    c != "" && c != "." && c != ".." && '/' !in c
  }

  predicate AllClean(segs: seq<string>) {
    forall i :: 0 <= i < |segs| ==> CleanSegment(segs[i])
  }

  /** The absolute path with the given components: `/a/b`, or `/` for none. */
  function Absolute(segs: seq<string>): string {
    "/" + JoinSegments(segs)
  }

  lemma {:induction false} WalkAppend(a: seq<string>, b: seq<string>, initial: nat, acc: seq<string>)
    ensures Walk(a + b, initial, acc) == Walk(b, initial, Walk(a, initial, acc))
    decreases |a|
  {
    if a != [] {
      assert (a + b)[1..] == a[1..] + b;
      WalkAppend(a[1..], b, initial, Step(acc, a[0], initial));
    } else {
      assert a + b == b;
    }
  }

  /** Clean components are kept as they are. */
  lemma {:induction false} WalkClean(segs: seq<string>, initial: nat, acc: seq<string>)
    requires AllClean(segs)
    ensures Walk(segs, initial, acc) == acc + segs
    decreases |segs|
  {
    if segs != [] {
      WalkClean(segs[1..], initial, acc + [segs[0]]);
      assert acc + [segs[0]] + segs[1..] == acc + segs;
    }
  }

  /** Under a root, the walk never keeps `""`, `"."` or `".."`. */
  lemma {:induction false} WalkStaysClean(comps: seq<string>, initial: nat, acc: seq<string>)
    requires initial >= 1 && AllClean(acc)
    requires forall i :: 0 <= i < |comps| ==> '/' !in comps[i]
    ensures AllClean(Walk(comps, initial, acc))
    decreases |comps|
  {
    if comps != [] {
      WalkStaysClean(comps[1..], initial, Step(acc, comps[0], initial));
    }
  }

  /**
   * normpath of a path with one (or three or more) leading separators is the
   * canonical absolute path of its kept components, all of them clean: no
   * `.` or `..` component, no doubled or trailing separator.
   */
  lemma NormpathAbsolute(p: string)
    requires InitialSlashes(p) == 1
    ensures AllClean(NormSegments(p))
    ensures Normpath(p) == Absolute(NormSegments(p))
  {
    WalkStaysClean(Split(p), 1, []);
  }

  /** Canonical absolute paths are fixed points of normpath. */
  lemma NormpathOfCanonical(segs: seq<string>)
    requires AllClean(segs)
    ensures InitialSlashes(Absolute(segs)) == 1
    ensures NormSegments(Absolute(segs)) == segs
    ensures Normpath(Absolute(segs)) == Absolute(segs)
  {
    var a := Absolute(segs);
    if segs == [] {
      assert a == "/";
      assert Split(a) == [""] + Split("");
      assert Walk(["", ""], 1, []) == Walk([""], 1, []) == [];
    } else {
      JoinSegmentsEnds(segs);
      assert a[1] == JoinSegments(segs)[0];
      SplitAbsolute(segs);
      WalkAppend([""], segs, 1, []);
      WalkClean(segs, 1, []);
    }
  }

  /** normpath is idempotent on paths it makes absolute with one separator. */
  lemma NormpathIdempotent(p: string)
    requires InitialSlashes(p) == 1
    ensures Normpath(Normpath(p)) == Normpath(p)
  {
    NormpathAbsolute(p);
    NormpathOfCanonical(NormSegments(p));
  }

  /**
   * Joining a relative path onto a canonical absolute root and normalising
   * walks the relative path's components starting from the root's own.
   */
  lemma JoinOntoCanonical(rs: seq<string>, rel: string)
    requires AllClean(rs) && !IsAbs(rel)
    ensures InitialSlashes(Join(Absolute(rs), rel)) == 1
    ensures NormSegments(Join(Absolute(rs), rel)) == Walk(Split(rel), 1, rs)
  {
    if rs == [] {
      JoinOntoSlash(rel);
    } else {
      JoinOntoNonEmpty(rs, rel);
    }
  }

  lemma JoinOntoSlash(rel: string)
    requires !IsAbs(rel)
    ensures InitialSlashes(Join("/", rel)) == 1
    ensures Split(Join("/", rel)) == [""] + Split(rel)
    ensures NormSegments(Join("/", rel)) == Walk(Split(rel), 1, [])
  {
    var j := Join("/", rel);
    assert j == "" + "/" + rel;
    SplitAtSlash("", rel);
    WalkAppend([""], Split(rel), 1, []);
  }

  lemma JoinOntoNonEmpty(rs: seq<string>, rel: string)
    requires |rs| >= 1 && AllClean(rs) && !IsAbs(rel)
    ensures InitialSlashes(Join(Absolute(rs), rel)) == 1
    ensures NormSegments(Join(Absolute(rs), rel)) == Walk(Split(rel), 1, rs)
  {
    var j := Absolute(rs) + "/" + rel;
    JoinedShape(rs, rel);
    WalkFromRoot(rs, Split(rel));
    assert NormSegments(j) == Walk([""] + rs + Split(rel), 1, []);
  }

  lemma JoinedShape(rs: seq<string>, rel: string)
    requires |rs| >= 1 && AllClean(rs) && !IsAbs(rel)
    ensures Join(Absolute(rs), rel) == Absolute(rs) + "/" + rel
    ensures InitialSlashes(Absolute(rs) + "/" + rel) == 1
    ensures Split(Absolute(rs) + "/" + rel) == [""] + rs + Split(rel)
  {
    var root := Absolute(rs);
    JoinSegmentsEnds(rs);
    assert root[|root| - 1] == JoinSegments(rs)[|JoinSegments(rs)| - 1];
    var j := root + "/" + rel;
    assert j[1] == JoinSegments(rs)[0];
    SplitAtSlash(root, rel);
    SplitAbsolute(rs);
  }

  lemma WalkFromRoot(rs: seq<string>, tail: seq<string>)
    requires AllClean(rs)
    ensures Walk([""] + rs + tail, 1, []) == Walk(tail, 1, rs)
  {
    WalkAppend([""] + rs, tail, 1, []);
    WalkAppend([""], rs, 1, []);
    assert Walk([""], 1, []) == [];
    WalkClean(rs, 1, []);
    assert [] + rs == rs;
  }

  // ---------------------------------------------------------------------
  // os.path.basename / os.path.dirname
  // ---------------------------------------------------------------------

  /** Index of the last separator, or -1 when there is none. */
  function LastSlash(p: string): (i: int)
    ensures -1 <= i < |p|
    ensures i >= 0 ==> p[i] == '/'
    ensures forall k :: i < k < |p| ==> p[k] != '/'
  {
    if p == [] then -1
    else if p[|p| - 1] == '/' then |p| - 1
    else LastSlash(p[..|p| - 1])
  }

  /** `os.path.basename(p)`: everything after the last separator. */
  function Basename(p: string): (r: string)
    ensures '/' !in r && EndsWith(p, r)
    ensures |r| == |p| || p[|p| - |r| - 1] == '/'
  {
    p[LastSlash(p) + 1..]
  }

  predicate AllSlashes(h: string) {
    forall i :: 0 <= i < |h| ==> h[i] == '/'
  }

  /** `str.rstrip('/')`. */
  function RStripSlashes(h: string): (r: string)
    ensures StartsWith(h, r)
    ensures r == "" || r[|r| - 1] != '/'
  {
    if h != [] && h[|h| - 1] == '/' then RStripSlashes(h[..|h| - 1]) else h
  }

  /** `rstrip('/')` removes separators only, and leaves something unless it saw nothing else. */
  lemma {:induction false} RStripSlashesExact(h: string)
    ensures var r := RStripSlashes(h);
            AllSlashes(h[|r|..]) && (!AllSlashes(h) ==> r != "")
    decreases |h|
  {
    if h != [] && h[|h| - 1] == '/' {
      var r := RStripSlashes(h[..|h| - 1]);
      RStripSlashesExact(h[..|h| - 1]);
      assert h[|r|..] == h[..|h| - 1][|r|..] + [h[|h| - 1]];
      assert r == "" ==> h[|r|..] == h;
    } else {
      assert h[|h|..] == [];
    }
  }

  /**
   * `os.path.dirname(p)`: everything up to the last separator, with trailing
   * separators removed unless nothing but separators is left.
   */
  function Dirname(p: string): (r: string)
    ensures StartsWith(p, r)
  {
    var head := p[..LastSlash(p) + 1];
    if head != "" && !AllSlashes(head) then RStripSlashes(head) else head
  }

  /**
   * `dirname` and `basename` split every path exactly: `h`, the part before
   * the basename, is the dirname followed only by separators; it is kept
   * whole when it is nothing but separators, and otherwise the dirname is
   * non-empty and does not end with one.
   */
  lemma DirnameExact(p: string)
    ensures var h := p[..|p| - |Basename(p)|];
            var r := Dirname(p);
            && p == h + Basename(p)
            && StartsWith(h, r) && AllSlashes(h[|r|..])
            && (AllSlashes(h) ==> r == h)
            && (!AllSlashes(h) ==> r != "" && r[|r| - 1] != '/')
  {
    var h := p[..|p| - |Basename(p)|];
    assert h == p[..LastSlash(p) + 1];
    assert AllSlashes(h[|h|..]);
    RStripSlashesExact(h);
  }

  /** `os.path.dirname` never lengthens a path, and shortens any path it changes. */
  lemma DirnameShorter(k: string)
    ensures Dirname(k) == k || |Dirname(k)| < |k|
  {
    if |Dirname(k)| == |k| {
      assert k[..|k|] == k;
    }
  }

  /** The parent part of `Absolute(segs + [name])`, including its final separator. */
  function ParentHead(segs: seq<string>): string {
    if segs == [] then "/" else Absolute(segs) + "/"
  }

  lemma ParentHeadShape(segs: seq<string>, name: string)
    requires AllClean(segs) && CleanSegment(name)
    ensures Absolute(segs + [name]) == ParentHead(segs) + name
    ensures Join(Absolute(segs), name) == Absolute(segs + [name])
    ensures LastSlash(Absolute(segs + [name])) == |ParentHead(segs)| - 1
  {
    AbsoluteSnoc(segs, name);
    JoinCanonical(segs, name);
    LastSlashAfter(ParentHead(segs), name);
  }

  lemma AbsoluteSnoc(segs: seq<string>, name: string)
    ensures Absolute(segs + [name]) == ParentHead(segs) + name
  {
    if segs == [] {
      assert segs + [name] == [name];
    } else {
      JoinSegmentsSnoc(segs, name);
    }
  }

  lemma JoinCanonical(segs: seq<string>, name: string)
    requires AllClean(segs) && CleanSegment(name)
    ensures Join(Absolute(segs), name) == ParentHead(segs) + name
  {
    var a := Absolute(segs);
    assert !IsAbs(name);
    if segs != [] {
      JoinSegmentsEnds(segs);
      assert a[|a| - 1] == JoinSegments(segs)[|JoinSegments(segs)| - 1];
    }
  }

  /**
   * The last component of a canonical absolute path is its basename, the
   * rest is its dirname, and joining the two gives the path back.
   */
  lemma SplitLastComponent(segs: seq<string>, name: string)
    requires AllClean(segs) && CleanSegment(name)
    ensures Basename(Absolute(segs + [name])) == name
    ensures Dirname(Absolute(segs + [name])) == Absolute(segs)
    ensures Join(Absolute(segs), name) == Absolute(segs + [name])
  {
    var p := Absolute(segs + [name]);
    var head := ParentHead(segs);
    ParentHeadShape(segs, name);
    assert p[..LastSlash(p) + 1] == head;
    assert p[LastSlash(p) + 1..] == name;
    if segs != [] {
      DirnameOfHead(segs);
    }
  }

  lemma DirnameOfHead(segs: seq<string>)
    requires |segs| >= 1 && AllClean(segs)
    ensures !AllSlashes(ParentHead(segs))
    ensures RStripSlashes(ParentHead(segs)) == Absolute(segs)
  {
    var a := Absolute(segs);
    var head := ParentHead(segs);
    JoinSegmentsEnds(segs);
    assert head[1] == JoinSegments(segs)[0];
    assert head[..|head| - 1] == a;
    assert a[|a| - 1] == JoinSegments(segs)[|JoinSegments(segs)| - 1];
    assert RStripSlashes(head) == RStripSlashes(a) == a;
  }

  /** The last separator of `head + tail` is the end of `head` when `tail` has none. */
  lemma LastSlashAfter(head: string, tail: string)
    requires |head| > 0 && head[|head| - 1] == '/' && '/' !in tail
    ensures LastSlash(head + tail) == |head| - 1
    decreases |tail|
  {
    if tail != [] {
      var p := head + tail;
      assert p[|p| - 1] == tail[|tail| - 1];
      assert tail[|tail| - 1] in tail;
      assert p[..|p| - 1] == head + tail[..|tail| - 1];
      assert '/' !in tail[..|tail| - 1];
      LastSlashAfter(head, tail[..|tail| - 1]);
    } else {
      assert head + tail == head;
    }
  }

  // ---------------------------------------------------------------------
  // Appending a plain name
  // ---------------------------------------------------------------------

  /** Joining a plain name on in one step or in two gives the same path. */
  lemma {:induction false} JoinAssociative(a: string, d: string, n: string)
    requires CleanSegment(n)
    ensures Join(a, Join(d, n)) == Join(Join(a, d), n)
  {
    assert n[0] in n;
    if IsAbs(d) {
      assert Join(d, n)[0] == d[0];
    } else if d == "" {
      JoinOntoEmpty(a, n);
    } else {
      JoinOntoRelative(a, d, n);
    }
  }

  lemma {:induction false} JoinOntoEmpty(a: string, n: string)
    requires !IsAbs(n)
    ensures Join(a, Join("", n)) == Join(Join(a, ""), n)
  {
    JoinShape("", n);
    JoinShape(a, "");
    JoinShape(a, n);
    var a' := Join(a, "");
    JoinShape(a', n);
    assert a' == a + Sep(a);
    if Sep(a) == "" {
      assert a' == a;
    } else {
      assert a'[|a'| - 1] == '/';
      assert Sep(a') == "";
    }
  }

  lemma {:induction false} JoinOntoRelative(a: string, d: string, n: string)
    requires !IsAbs(n) && !IsAbs(d) && d != ""
    ensures Join(a, Join(d, n)) == Join(Join(a, d), n)
  {
    var x := a + Sep(a);
    var tail := Sep(d) + n;
    JoinShape(d, n);
    StringAssoc(d, Sep(d), n);
    var dn := d + tail;
    assert Join(d, n) == dn;
    assert dn[0] == d[0];
    JoinShape(a, dn);
    JoinShape(a, d);
    var ad := x + d;
    assert Join(a, d) == ad;
    assert ad[|ad| - 1] == d[|d| - 1];
    assert Sep(ad) == Sep(d);
    JoinShape(ad, n);
    StringAssoc(x, d, tail);
    StringAssoc(ad, Sep(d), n);
    assert Join(a, dn) == ad + tail;
    assert Join(ad, n) == ad + tail;
  }

  /** The separator `join` puts after `a`. */
  function Sep(a: string): string {
    if a == "" || a[|a| - 1] == '/' then "" else "/"
  }

  lemma StringAssoc(x: string, y: string, z: string)
    ensures x + (y + z) == (x + y) + z
  {
  }

  lemma JoinShape(a: string, b: string)
    requires !IsAbs(b)
    ensures Join(a, b) == a + Sep(a) + b
  {
  }

  /**
   * Appending a plain name to a path with one leading separator appends it
   * to the components normpath keeps.
   */
  lemma NormJoinName(j: string, n: string)
    requires InitialSlashes(j) == 1 && CleanSegment(n)
    ensures InitialSlashes(Join(j, n)) == 1
    ensures NormSegments(Join(j, n)) == NormSegments(j) + [n]
  {
    assert n[0] in n;
    SplitNoSlash(n);
    var p := Join(j, n);
    if |j| >= 3 {
      assert p[..3] == j[..3];
    } else {
      assert p[1] != '/';
    }
    if j[|j| - 1] == '/' {
      var h := j[..|j| - 1];
      assert j == h + "/" + "";
      assert p == h + "/" + n;
      SplitAtSlash(h, "");
      SplitAtSlash(h, n);
      assert Split("") == [""];
      WalkAppend(Split(h), [""], 1, []);
      WalkAppend(Split(h), [n], 1, []);
    } else {
      assert p == j + "/" + n;
      SplitAtSlash(j, n);
      WalkAppend(Split(j), [n], 1, []);
    }
  }

  /** A canonical path is a string prefix of the path one name below it. */
  lemma AbsoluteExtends(segs: seq<string>, n: string)
    ensures StartsWith(Absolute(segs + [n]), Absolute(segs))
  {
    AbsoluteSnoc(segs, n);
    if segs == [] {
      assert Absolute(segs) == "/";
    }
  }
}
