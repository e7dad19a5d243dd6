/**
 * The path gate shared by `/api/list`, `/download` and `/upload`: an
 * untrusted relative path is joined onto the shared folder, normalised, and
 * accepted when the result starts with `abspath(shared folder)` as a string.
 *
 * The lemmas pin down what that test guarantees in terms of path
 * components: for a canonical root `/r1/.../rn` an accepted target agrees
 * with the root on its first n-1 components and its n-th component merely
 * starts with `rn`. So every descendant of the root is accepted, and so is
 * a sibling such as `/shared-other` next to `/shared`.
 */
module PathGate {
  import opened PosixPath

  /** `os.path.normpath(os.path.join(root, rel))`. */
  function Target(root: string, rel: string): string {
    Normpath(Join(root, rel))
  }

  /** `target.startswith(os.path.abspath(root))`, with `os.getcwd()` as `cwd`. */
  predicate Accepts(cwd: string, root: string, rel: string) {
    StartsWith(Target(root, rel), AbsPath(cwd, root))
  }

  /** Component-wise containment: `ts` is the root `rs` or below it. */
  predicate Within(ts: seq<string>, rs: seq<string>) {
    |rs| <= |ts| && ts[..|rs|] == rs
  }

  /**
   * What a string-prefix test admits, component by component: all but the
   * last root component match, and the last one is a string prefix of the
   * target's component in that position.
   */
  predicate PrefixAdmits(ts: seq<string>, rs: seq<string>)
    requires |rs| >= 1
  {
    |rs| <= |ts| && ts[..|rs| - 1] == rs[..|rs| - 1] && StartsWith(ts[|rs| - 1], rs[|rs| - 1])
  }

  // ---------------------------------------------------------------------
  // String prefixes of joined components
  // ---------------------------------------------------------------------

  lemma HeadPrefix(t: string, x: string, r: string)
    requires '/' !in t && '/' !in r
    ensures StartsWith(t + "/" + x, r) <==> StartsWith(t, r)
  {
    var s := t + "/" + x;
    if |r| <= |t| {
      assert s[..|r|] == t[..|r|];
    } else {
      assert s[|t|] == '/';
      assert r[|t|] in r;
    }
  }

  lemma SlashPrefix(t: string, x: string, r: string, y: string)
    requires '/' !in t && '/' !in r
    ensures StartsWith(t + "/" + x, r + "/" + y) <==> t == r && StartsWith(x, y)
  {
    var s := t + "/" + x;
    var p := r + "/" + y;
    if |t| < |r| {
      assert s[|t|] == '/';
      assert r[|t|] in r;
      assert p[|t|] == r[|t|];
    } else if |t| > |r| {
      assert p[|r|] == '/';
      assert t[|r|] in t;
      assert s[|r|] == t[|r|];
    } else {
      if StartsWith(s, p) {
        assert s[..|t|] == t;
        assert p[..|r|] == r;
        assert s[..|p|][..|r|] == s[..|r|];
        assert t == r;
        assert s[|t| + 1..][..|y|] == y;
      }
      if t == r && StartsWith(x, y) {
        assert s[..|p|] == t + "/" + x[..|y|];
      }
    }
  }

  lemma NoSlashNotPrefix(t: string, r: string, y: string)
    requires '/' !in t
    ensures !StartsWith(t, r + "/" + y)
  {
    var p := r + "/" + y;
    assert p[|r|] == '/';
    if |r| < |t| {
      assert t[|r|] in t;
    }
  }

  lemma PrefixAdmitsCons(ts: seq<string>, rs: seq<string>)
    requires |rs| >= 2 && |ts| >= 1
    ensures PrefixAdmits(ts, rs) <==> ts[0] == rs[0] && PrefixAdmits(ts[1..], rs[1..])
  {
    if |rs| <= |ts| {
      assert ts[..|rs| - 1] == [ts[0]] + ts[1..][..|rs| - 2];
      assert rs[..|rs| - 1] == [rs[0]] + rs[1..][..|rs| - 2];
      assert ts[1..][|rs| - 2] == ts[|rs| - 1];
      assert rs[1..][|rs| - 2] == rs[|rs| - 1];
      if ts[..|rs| - 1] == rs[..|rs| - 1] {
        assert ts[0] == ts[..|rs| - 1][0] == rs[0];
        assert ts[1..][..|rs| - 2] == ts[..|rs| - 1][1..];
        assert rs[1..][..|rs| - 2] == rs[..|rs| - 1][1..];
      }
    }
  }

  /** A string prefix of joined components, read component by component. */
  lemma {:induction false} JoinPrefix(ts: seq<string>, rs: seq<string>)
    requires |rs| >= 1 && AllClean(rs) && AllClean(ts)
    ensures StartsWith(JoinSegments(ts), JoinSegments(rs)) <==> PrefixAdmits(ts, rs)
    decreases |rs|
  {
    if |rs| == 1 {
      if |ts| > 1 {
        HeadPrefix(ts[0], JoinSegments(ts[1..]), rs[0]);
      }
    } else {
      assert JoinSegments(rs) == rs[0] + "/" + JoinSegments(rs[1..]);
      if |ts| == 1 {
        NoSlashNotPrefix(ts[0], rs[0], JoinSegments(rs[1..]));
      } else if |ts| > 1 {
        SlashPrefix(ts[0], JoinSegments(ts[1..]), rs[0], JoinSegments(rs[1..]));
        JoinPrefix(ts[1..], rs[1..]);
        PrefixAdmitsCons(ts, rs);
      }
    }
  }

  /**
   * When one canonical absolute path starts with another, as strings: the
   * exact condition on their components.
   */
  lemma AbsolutePrefix(ts: seq<string>, rs: seq<string>)
    requires |rs| >= 1 && AllClean(rs) && AllClean(ts)
    ensures StartsWith(Absolute(ts), Absolute(rs)) <==> PrefixAdmits(ts, rs)
  {
    JoinPrefix(ts, rs);
    var a := Absolute(ts);
    var b := Absolute(rs);
    if StartsWith(a, b) {
      assert a[1..][..|b| - 1] == a[..|b|][1..];
    }
    if StartsWith(JoinSegments(ts), JoinSegments(rs)) {
      assert a[..|b|] == "/" + JoinSegments(ts)[..|b| - 1];
    }
  }

  // ---------------------------------------------------------------------
  // The gate
  // ---------------------------------------------------------------------

  /**
   * The gate for a canonical absolute root `/r1/.../rn` (n >= 1): the
   * target is always a canonical path when the joined path has one leading
   * separator, and the request is accepted exactly when that path's
   * components pass `PrefixAdmits`. A joined path with exactly two leading
   * separators (a `rel` starting with `//`) is always rejected.
   * Every descendant of the root is accepted; an accepted target that is
   * not a descendant differs from the root only in its last component,
   * which then extends the root's last component as a string.
   */
  lemma GateDecision(cwd: string, rs: seq<string>, rel: string)
    requires |rs| >= 1 && AllClean(rs)
    ensures var j := Join(Absolute(rs), rel);
            var ts := NormSegments(j);
            && (InitialSlashes(j) == 1 ==> AllClean(ts) && Target(Absolute(rs), rel) == Absolute(ts))
            && (Accepts(cwd, Absolute(rs), rel) <==> InitialSlashes(j) == 1 && PrefixAdmits(ts, rs))
            && (InitialSlashes(j) == 1 && Within(ts, rs) ==> Accepts(cwd, Absolute(rs), rel))
            && (Accepts(cwd, Absolute(rs), rel) && !Within(ts, rs) ==>
                  |rs| <= |ts| && ts[..|rs| - 1] == rs[..|rs| - 1] &&
                  ts[|rs| - 1] != rs[|rs| - 1] && StartsWith(ts[|rs| - 1], rs[|rs| - 1]))
  {
    var root := Absolute(rs);
    var j := Join(root, rel);
    var ts := NormSegments(j);
    NormpathOfCanonical(rs);
    AbsPathOfCanonical(cwd, rs);
    assert IsAbs(j);
    if InitialSlashes(j) == 1 {
      NormpathAbsolute(j);
      AbsolutePrefix(ts, rs);
      if Within(ts, rs) {
        assert ts[..|rs| - 1] == ts[..|rs|][..|rs| - 1];
        assert ts[|rs| - 1] == ts[..|rs|][|rs| - 1];
      }
      if PrefixAdmits(ts, rs) && ts[|rs| - 1] == rs[|rs| - 1] {
        assert ts[..|rs|] == ts[..|rs| - 1] + [ts[|rs| - 1]];
        assert rs == rs[..|rs| - 1] + [rs[|rs| - 1]];
      }
    } else {
      DoubleSlashRejected(j, root, rs);
    }
  }

  /** A normalised path starting with exactly `//` never starts with `/r1...`. */
  lemma DoubleSlashRejected(j: string, root: string, rs: seq<string>)
    requires |rs| >= 1 && AllClean(rs) && root == Absolute(rs)
    requires IsAbs(j) && InitialSlashes(j) != 1
    ensures !StartsWith(Normpath(j), root)
  {
    JoinSegmentsEnds(rs);
    var t := Normpath(j);
    assert t[1] == '/';
    assert root[1] == JoinSegments(rs)[0];
  }

  /**
   * A plain name below an accepted path: the accepted path resolves to a
   * canonical directory, the name below it resolves to that directory
   * extended by the name, and the gate accepts it too. This is what ties an
   * upload's destination to the path a later download asks for.
   */
  lemma NameBelowAccepted(cwd: string, rs: seq<string>, dest: string, n: string)
    requires |rs| >= 1 && AllClean(rs) && CleanSegment(n)
    requires Accepts(cwd, Absolute(rs), dest)
    ensures var ts := NormSegments(Join(Absolute(rs), dest));
            && AllClean(ts)
            && Target(Absolute(rs), dest) == Absolute(ts)
            && Target(Absolute(rs), Join(dest, n)) == Absolute(ts + [n])
            && Accepts(cwd, Absolute(rs), Join(dest, n))
  {
    var root := Absolute(rs);
    var j := Join(root, dest);
    var ts := NormSegments(j);
    GateDecision(cwd, rs, dest);
    JoinAssociative(root, dest, n);
    NormJoinName(j, n);
    NormpathAbsolute(Join(j, n));
    AbsoluteExtends(ts, n);
    NormpathOfCanonical(rs);
    AbsPathOfCanonical(cwd, rs);
  }

  /** An empty relative path resolves to the root itself, which is accepted. */
  lemma EmptyPathIsRoot(cwd: string, rs: seq<string>)
    requires AllClean(rs)
    ensures Target(Absolute(rs), "") == Absolute(rs)
    ensures Accepts(cwd, Absolute(rs), "")
  {
    JoinOntoCanonical(rs, "");
    assert Split("") == [""];
    assert Walk([""], 1, rs) == rs;
    NormpathAbsolute(Join(Absolute(rs), ""));
    NormpathOfCanonical(rs);
    assert Absolute(rs)[..|Absolute(rs)|] == Absolute(rs);
  }

  /** A relative path that starts with '/' discards the root altogether. */
  lemma AbsoluteRelReplacesRoot(root: string, rel: string)
    requires IsAbs(rel)
    ensures Target(root, rel) == Normpath(rel)
  {
  }

  /** Root `/` admits every request: every target is absolute. */
  lemma SlashRootAdmitsAll(cwd: string, rel: string)
    ensures Accepts(cwd, "/", rel)
  {
    var j := Join("/", rel);
    assert IsAbs(j);
    assert AbsPath(cwd, j) == Normpath(j);
    AbsPathOfCanonical(cwd, []);
    assert Absolute([]) == "/";
  }

  /**
   * The sibling-prefix case: with root `/shared`, the request path
   * `../shared-other` resolves to `/shared-other`, which is not inside the
   * root, and the gate accepts it.
   */
  lemma SiblingPrefixAccepted(cwd: string)
    ensures Target("/shared", "../shared-other") == "/shared-other"
    ensures Accepts(cwd, "/shared", "../shared-other")
    ensures !Within(NormSegments(Join("/shared", "../shared-other")), ["shared"])
  {
    var rs := ["shared"];
    var rel := "../shared-other";
    SiblingLiterals();
    SiblingWalk();
    JoinOntoCanonical(rs, rel);
    GateDecision(cwd, rs, rel);
  }

  lemma SiblingLiterals()
    ensures AllClean(["shared"])
    ensures Absolute(["shared"]) == "/shared"
    ensures Absolute(["shared-other"]) == "/shared-other"
    ensures StartsWith("/shared-other", "/shared")
  {
    var c := "shared";
    assert forall i :: 0 <= i < |c| ==> c[i] != '/';
    assert "/shared-other"[..|"/shared"|] == "/shared";
  }

  lemma SiblingWalk()
    ensures AllClean(["shared-other"])
    ensures Walk(Split("../shared-other"), 1, ["shared"]) == ["shared-other"]
  {
    SiblingSplit();
    SiblingSteps();
  }

  lemma SiblingSplit()
    ensures Split("../shared-other") == ["..", "shared-other"]
  {
    assert "../shared-other" == ".." + "/" + "shared-other";
    SplitAtSlash("..", "shared-other");
    SplitNoSlash("..");
    SiblingClean();
    SplitNoSlash("shared-other");
  }

  lemma SiblingClean()
    ensures CleanSegment("shared-other")
  {
    var c := "shared-other";
    assert forall i :: 0 <= i < |c| ==> c[i] != '/';
  }

  lemma SiblingSteps()
    ensures AllClean(["shared-other"])
    ensures Walk(["..", "shared-other"], 1, ["shared"]) == ["shared-other"]
  {
    SiblingClean();
    assert Step(["shared"], "..", 1) == [];
    assert Step([], "shared-other", 1) == ["shared-other"];
    assert ["..", "shared-other"][1..] == ["shared-other"];
  }
}
