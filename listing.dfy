/**
 * The listing pipeline of `/api/list`: keep the scanned entries whose
 * lower-cased name contains the lower-cased search term, sort them stably
 * by the key the `sort` argument names (reversed for a `_desc` suffix), then
 * sort stably once more on "is not a directory" so that directories come
 * first.
 *
 * Python's `list.sort` is a stable sort; here it is the stable insertion
 * sort `SortStable`, specified by `SortedBy`, a multiset equality and
 * `StableTies` (entries with equal keys keep their relative order).
 */
module Listing {
  import opened Wrappers
  import opened PosixPath

  /** One record of a listing: `{name, is_dir, size, modified}`. */
  datatype Entry = Entry(name: string, isDir: bool, size: int, modified: string)

  // ---------------------------------------------------------------------
  // Lower-casing and substring search
  // ---------------------------------------------------------------------

  function LowerChar(c: char): char {
    if 'A' <= c <= 'Z' then (c as int + 32) as char else c
  }

  /** `str.lower()`, restricted to ASCII letters. */
  function Lower(s: string): (r: string)
    ensures |r| == |s|
  {
    seq(|s|, i requires 0 <= i < |s| => LowerChar(s[i]))
  }

  predicate OccursAt(s: string, t: string, i: nat) {
    i + |t| <= |s| && s[i..i + |t|] == t
  }

  /** Python's `t in s` on strings. */
  predicate Contains(s: string, t: string) {
    exists i: nat :: i <= |s| && OccursAt(s, t, i)
  }

  /**
   * The search filter of the scan loop: an entry is skipped when the term
   * is non-empty and does not occur in its lower-cased name.
   */
  predicate Matches(term: string, e: Entry) {
    !(term != "" && !Contains(Lower(e.name), term))
  }

  // ---------------------------------------------------------------------
  // Sort keys
  // ---------------------------------------------------------------------

  /** The keys the listing sorts on; `IsFile` is `not x['is_dir']`. */
  datatype Field = Name | Size | Modified | IsFile

  /** A key value: a string (compared by code points) or a number. */
  datatype Key = Text(s: string) | Num(n: int)

  function KeyOf(f: Field, e: Entry): Key {
    match f
    case Name => Text(Lower(e.name))
    case Size => Num(e.size)
    case Modified => Text(e.modified)
    case IsFile => Num(if e.isDir then 0 else 1)
  }

  /** Python's `<` on strings: lexicographic, a proper prefix first. */
  predicate TextLt(a: string, b: string)
    decreases |a|
  {
    if a == [] then b != []
    else if b == [] then false
    else if a[0] != b[0] then a[0] < b[0]
    else TextLt(a[1..], b[1..])
  }

  /** Keys of one field are all of one kind; numbers are put first otherwise. */
  predicate KeyLt(a: Key, b: Key) {
    match a
    case Num(x) => (match b case Num(y) => x < y case Text(_) => true)
    case Text(x) => (match b case Text(y) => TextLt(x, y) case Num(_) => false)
  }

  lemma {:induction false} TextLtIrreflexive(a: string)
    ensures !TextLt(a, a)
    decreases |a|
  {
    if a != [] {
      TextLtIrreflexive(a[1..]);
    }
  }

  lemma {:induction false} TextLtTransitive(a: string, b: string, c: string)
    requires TextLt(a, b) && TextLt(b, c)
    ensures TextLt(a, c)
    decreases |a|
  {
    if a != [] && a[0] == b[0] && b[0] == c[0] {
      TextLtTransitive(a[1..], b[1..], c[1..]);
    }
  }

  lemma {:induction false} TextLtTotal(a: string, b: string)
    ensures a == b || TextLt(a, b) || TextLt(b, a)
    decreases |a|
  {
    if a != [] && b != [] && a[0] == b[0] {
      TextLtTotal(a[1..], b[1..]);
      if a[1..] == b[1..] {
        assert a == [a[0]] + a[1..] && b == [b[0]] + b[1..];
      }
    }
  }

  /** `KeyLt` is a strict total order on keys. */
  lemma {:induction false} KeyLtStrictTotal(a: Key, b: Key, c: Key)
    ensures !KeyLt(a, a)
    ensures KeyLt(a, b) && KeyLt(b, c) ==> KeyLt(a, c)
    ensures a == b || KeyLt(a, b) || KeyLt(b, a)
  {
    if a.Text? {
      TextLtIrreflexive(a.s);
      if b.Text? {
        TextLtTotal(a.s, b.s);
        if c.Text? && KeyLt(a, b) && KeyLt(b, c) {
          TextLtTransitive(a.s, b.s, c.s);
        }
      }
    }
  }

  // ---------------------------------------------------------------------
  // Orders
  // ---------------------------------------------------------------------

  /** A sort request: the key and whether `reverse=True`. */
  datatype Order = Order(field: Field, descending: bool)

  /** The order of the final grouping sort: `key=lambda x: not x['is_dir']`. */
  const DirsFirst := Order(IsFile, false)

  /** `a` must come before `b` under `o` (their keys differ in the right way). */
  predicate Before(o: Order, a: Entry, b: Entry) {
    var ka, kb := KeyOf(o.field, a), KeyOf(o.field, b);
    if o.descending then KeyLt(kb, ka) else KeyLt(ka, kb)
  }

  lemma {:induction false} BeforeAsymmetric(o: Order, a: Entry, b: Entry)
    ensures Before(o, a, b) ==> !Before(o, b, a)
  {
    KeyLtStrictTotal(KeyOf(o.field, a), KeyOf(o.field, b), KeyOf(o.field, a));
  }

  /** "Need not come before" is transitive: `Before` is a strict weak order. */
  lemma {:induction false} NotBeforeTransitive(o: Order, a: Entry, b: Entry, c: Entry)
    requires !Before(o, a, b) && !Before(o, b, c)
    ensures !Before(o, a, c)
  {
    var ka, kb, kc := KeyOf(o.field, a), KeyOf(o.field, b), KeyOf(o.field, c);
    KeyLtStrictTotal(ka, kb, kc);
    KeyLtStrictTotal(kc, kb, ka);
    KeyLtStrictTotal(kb, ka, kc);
    KeyLtStrictTotal(kb, kc, ka);
    KeyLtStrictTotal(ka, kc, kb);
    KeyLtStrictTotal(kc, ka, kb);
  }

  lemma {:induction false} EqualKeysNotBefore(o: Order, a: Entry, b: Entry)
    requires KeyOf(o.field, a) == KeyOf(o.field, b)
    ensures !Before(o, a, b)
  {
    KeyLtStrictTotal(KeyOf(o.field, a), KeyOf(o.field, a), KeyOf(o.field, a));
  }

  /** Non-decreasing keys (non-increasing when descending). */
  predicate SortedBy(o: Order, s: seq<Entry>) {
    forall i, j :: 0 <= i < j < |s| ==> !Before(o, s[j], s[i])
  }

  // ---------------------------------------------------------------------
  // Filtering
  // ---------------------------------------------------------------------

  /** The conditions the pipeline filters on. */
  datatype Selector = Searched(term: string) | DirKind(isDir: bool) | KeyIs(field: Field, key: Key)

  predicate Holds(sel: Selector, e: Entry) {
    match sel
    case Searched(term) => Matches(term, e)
    case DirKind(d) => e.isDir == d
    case KeyIs(f, k) => KeyOf(f, e) == k
  }

  /** The entries satisfying `sel`, in their original order. */
  function Filter(s: seq<Entry>, sel: Selector): (r: seq<Entry>)
    ensures forall i :: 0 <= i < |r| ==> Holds(sel, r[i])
    ensures multiset(r) <= multiset(s)
  {
    if s == [] then []
    else
      assert s == [s[0]] + s[1..];
      (if Holds(sel, s[0]) then [s[0]] else []) + Filter(s[1..], sel)
  }

  /** Every occurrence of a selected entry is kept, and nothing else. */
  lemma {:induction false} FilterCount(s: seq<Entry>, sel: Selector, e: Entry)
    ensures multiset(Filter(s, sel))[e] == if Holds(sel, e) then multiset(s)[e] else 0
    decreases |s|
  {
    if s != [] {
      FilterCount(s[1..], sel, e);
      FilterUnfold(s, sel);
      MultisetCons(s);
    }
  }

  lemma {:induction false} MultisetCons(s: seq<Entry>)
    requires s != []
    ensures multiset(s) == multiset{s[0]} + multiset(s[1..])
  {
    assert s == [s[0]] + s[1..];
  }

  lemma {:induction false} FilterConcat(a: seq<Entry>, b: seq<Entry>, sel: Selector)
    ensures Filter(a + b, sel) == Filter(a, sel) + Filter(b, sel)
    decreases |a|
  {
    if a == [] {
      assert a + b == b;
    } else {
      assert (a + b)[0] == a[0];
      assert (a + b)[1..] == a[1..] + b;
      FilterConcat(a[1..], b, sel);
    }
  }

  lemma {:induction false} FilterAll(s: seq<Entry>, sel: Selector)
    requires forall i :: 0 <= i < |s| ==> Holds(sel, s[i])
    ensures Filter(s, sel) == s
    decreases |s|
  {
    if s != [] {
      FilterAll(s[1..], sel);
    }
  }

  lemma {:induction false} FilterNone(s: seq<Entry>, sel: Selector)
    requires forall i :: 0 <= i < |s| ==> !Holds(sel, s[i])
    ensures Filter(s, sel) == []
    decreases |s|
  {
    if s != [] {
      FilterNone(s[1..], sel);
    }
  }

  /** An element of a filtered sequence sits at some index of the original. */
  lemma {:induction false} FilteredFrom(s: seq<Entry>, sel: Selector, y: Entry) returns (k: nat)
    requires y in Filter(s, sel)
    ensures k < |s| && s[k] == y
  {
    assert multiset(Filter(s, sel))[y] > 0;
    assert y in multiset(s);
    k :| 0 <= k < |s| && s[k] == y;
  }

  /** A filter of a sorted sequence is sorted. */
  lemma {:induction false} FilterSorted(o: Order, s: seq<Entry>, sel: Selector)
    requires SortedBy(o, s)
    ensures SortedBy(o, Filter(s, sel))
    decreases |s|
  {
    if s != [] {
      FilterSorted(o, s[1..], sel);
      var rest := Filter(s[1..], sel);
      if Holds(sel, s[0]) {
        var r := [s[0]] + rest;
        forall i, j | 0 <= i < j < |r| ensures !Before(o, r[j], r[i]) {
          if i == 0 {
            assert r[j] in rest;
            var k := FilteredFrom(s[1..], sel, r[j]);
            assert s[k + 1] == r[j];
          } else {
            assert r[i] == rest[i - 1] && r[j] == rest[j - 1];
          }
        }
      }
    }
  }

  // ---------------------------------------------------------------------
  // Stable sort
  // ---------------------------------------------------------------------

  /** Inserts `x` after every element it need not precede. */
  function Insert(o: Order, x: Entry, s: seq<Entry>): (r: seq<Entry>)
    ensures multiset(r) == multiset(s) + multiset{x}
  {
    if s == [] || !Before(o, s[0], x) then [x] + s
    else
      assert s == [s[0]] + s[1..];
      [s[0]] + Insert(o, x, s[1..])
  }

  lemma {:induction false} InsertSorted(o: Order, x: Entry, s: seq<Entry>)
    requires SortedBy(o, s)
    ensures SortedBy(o, Insert(o, x, s))
    decreases |s|
  {
    if s == [] {
    } else if !Before(o, s[0], x) {
      var r := [x] + s;
      forall i, j | 0 <= i < j < |r| ensures !Before(o, r[j], r[i]) {
        if i == 0 && j > 1 {
          NotBeforeTransitive(o, s[j - 1], s[0], x);
        }
      }
    } else {
      InsertSorted(o, x, s[1..]);
      var t := Insert(o, x, s[1..]);
      var r := [s[0]] + t;
      forall i, j | 0 <= i < j < |r| ensures !Before(o, r[j], r[i]) {
        if i == 0 {
          var y := t[j - 1];
          assert y in multiset(t);
          if y == x {
            BeforeAsymmetric(o, s[0], x);
          } else {
            assert y in multiset(s[1..]);
            var k :| 0 <= k < |s[1..]| && s[1..][k] == y;
            assert s[k + 1] == y;
          }
        } else {
          assert r[i] == t[i - 1] && r[j] == t[j - 1];
        }
      }
    }
  }

  /** `list.sort`: a stable sort of `s` under `o`. */
  function SortStable(o: Order, s: seq<Entry>): (r: seq<Entry>)
    ensures SortedBy(o, r)
    ensures multiset(r) == multiset(s)
  {
    if s == [] then []
    else
      var t := SortStable(o, s[1..]);
      InsertSorted(o, s[0], t);
      assert s == [s[0]] + s[1..];
      Insert(o, s[0], t)
  }

  lemma {:induction false} FilterCons(y: Entry, s: seq<Entry>, sel: Selector)
    ensures Filter([y] + s, sel) == (if Holds(sel, y) then [y] else []) + Filter(s, sel)
  {
    assert ([y] + s)[0] == y;
    assert ([y] + s)[1..] == s;
  }

  lemma {:induction false} FilterUnfold(s: seq<Entry>, sel: Selector)
    requires s != []
    ensures Filter(s, sel) == (if Holds(sel, s[0]) then [s[0]] else []) + Filter(s[1..], sel)
  {
  }

  lemma {:induction false} EmptyAppend(s: seq<Entry>)
    ensures [] + s == s
  {
  }

  /** The statement of `FilterInsert`. */
  predicate FilterInsertCommutes(o: Order, sel: Selector, x: Entry, t: seq<Entry>) {
    Filter(Insert(o, x, t), sel) == if Holds(sel, x) then Insert(o, x, Filter(t, sel)) else Filter(t, sel)
  }

  lemma {:induction false} FilterInsertFront(o: Order, sel: Selector, x: Entry, t: seq<Entry>)
    requires SortedBy(o, t) && (t == [] || !Before(o, t[0], x))
    ensures FilterInsertCommutes(o, sel, x, t)
  {
    var ft := Filter(t, sel);
    assert Insert(o, x, t) == [x] + t;
    FilterCons(x, t, sel);
    if Holds(sel, x) && ft != [] {
      var k := FilteredFrom(t, sel, ft[0]);
      if k > 0 {
        NotBeforeTransitive(o, t[k], t[0], x);
      }
      assert Insert(o, x, ft) == [x] + ft;
    }
  }

  lemma {:induction false} FilterInsertBehind(o: Order, sel: Selector, x: Entry, t: seq<Entry>)
    requires t != [] && Before(o, t[0], x)
    requires FilterInsertCommutes(o, sel, x, t[1..])
    ensures FilterInsertCommutes(o, sel, x, t)
  {
    var u := Insert(o, x, t[1..]);
    assert Insert(o, x, t) == [t[0]] + u;
    FilterCons(t[0], u, sel);
    FilterUnfold(t, sel);
    if Holds(sel, t[0]) {
      FilterInsertBehindHeld(o, sel, x, t[0], t[1..]);
    } else {
      EmptyAppend(Filter(t[1..], sel));
      EmptyAppend(Filter(u, sel));
    }
  }

  lemma {:induction false} FilterInsertBehindHeld(o: Order, sel: Selector, x: Entry, y: Entry, t: seq<Entry>)
    requires Before(o, y, x) && Holds(sel, y)
    requires FilterInsertCommutes(o, sel, x, t)
    ensures Holds(sel, x) ==> [y] + Filter(Insert(o, x, t), sel) == Insert(o, x, [y] + Filter(t, sel))
    ensures !Holds(sel, x) ==> [y] + Filter(Insert(o, x, t), sel) == [y] + Filter(t, sel)
  {
    if Holds(sel, x) {
      InsertBehind(o, x, y, Filter(t, sel));
    }
  }

  lemma {:induction false} InsertBehind(o: Order, x: Entry, y: Entry, s: seq<Entry>)
    requires Before(o, y, x)
    ensures Insert(o, x, [y] + s) == [y] + Insert(o, x, s)
  {
    assert ([y] + s)[0] == y;
    assert ([y] + s)[1..] == s;
  }

  /** Filtering commutes with inserting into a sorted sequence. */
  lemma {:induction false} FilterInsert(o: Order, sel: Selector, x: Entry, t: seq<Entry>)
    requires SortedBy(o, t)
    ensures Filter(Insert(o, x, t), sel) ==
            if Holds(sel, x) then Insert(o, x, Filter(t, sel)) else Filter(t, sel)
    decreases |t|
  {
    if t == [] || !Before(o, t[0], x) {
      FilterInsertFront(o, sel, x, t);
    } else {
      FilterInsert(o, sel, x, t[1..]);
      FilterInsertBehind(o, sel, x, t);
    }
  }

  /** Filtering commutes with the stable sort. */
  lemma {:induction false} FilterSort(o: Order, sel: Selector, s: seq<Entry>)
    ensures Filter(SortStable(o, s), sel) == SortStable(o, Filter(s, sel))
    decreases |s|
  {
    if s != [] {
      var t := SortStable(o, s[1..]);
      var f1 := Filter(s[1..], sel);
      assert SortStable(o, s) == Insert(o, s[0], t);
      FilterSort(o, sel, s[1..]);
      FilterInsert(o, sel, s[0], t);
      FilterUnfold(s, sel);
      if Holds(sel, s[0]) {
        SortCons(o, s[0], f1);
      } else {
        EmptyAppend(f1);
      }
    }
  }

  lemma {:induction false} SortCons(o: Order, y: Entry, s: seq<Entry>)
    ensures SortStable(o, [y] + s) == Insert(o, y, SortStable(o, s))
  {
    assert ([y] + s)[0] == y;
    assert ([y] + s)[1..] == s;
  }

  /** Sorting entries whose keys are all equal changes nothing. */
  lemma {:induction false} SortEqualKeys(o: Order, s: seq<Entry>, k: Key)
    requires forall i :: 0 <= i < |s| ==> KeyOf(o.field, s[i]) == k
    ensures SortStable(o, s) == s
    decreases |s|
  {
    if s != [] {
      SortEqualKeys(o, s[1..], k);
      if |s| > 1 {
        EqualKeysNotBefore(o, s[1], s[0]);
      }
      assert s == [s[0]] + s[1..];
    }
  }

  /** Stability: the entries with any one key keep their relative order. */
  lemma {:induction false} StableTies(o: Order, s: seq<Entry>, k: Key)
    ensures Filter(SortStable(o, s), KeyIs(o.field, k)) == Filter(s, KeyIs(o.field, k))
  {
    FilterSort(o, KeyIs(o.field, k), s);
    SortEqualKeys(o, Filter(s, KeyIs(o.field, k)), k);
  }

  // ---------------------------------------------------------------------
  // Directories first
  // ---------------------------------------------------------------------

  /** Under the grouping order only a directory precedes a file. */
  lemma {:induction false} DirsFirstBefore(a: Entry, b: Entry)
    ensures Before(DirsFirst, a, b) <==> a.isDir && !b.isDir
  {
    assert KeyOf(IsFile, a) == Num(if a.isDir then 0 else 1);
    assert KeyOf(IsFile, b) == Num(if b.isDir then 0 else 1);
  }

  lemma {:induction false} ConcatAssoc(a: seq<Entry>, b: seq<Entry>, c: seq<Entry>)
    ensures a + (b + c) == (a + b) + c
  {
  }

  /** Every entry of `s` is a directory (`isDir`) or every one is a file. */
  predicate AllOfKind(s: seq<Entry>, isDir: bool) {
    forall i :: 0 <= i < |s| ==> s[i].isDir == isDir
  }

  lemma {:induction false} InsertFileAfterDirs(x: Entry, d: seq<Entry>, f: seq<Entry>)
    requires !x.isDir && AllOfKind(d, true) && AllOfKind(f, false)
    ensures Insert(DirsFirst, x, d + f) == d + ([x] + f)
    decreases |d|
  {
    if d == [] {
      assert d + f == f;
      if f != [] {
        DirsFirstBefore(f[0], x);
      }
    } else {
      assert (d + f)[0] == d[0];
      assert (d + f)[1..] == d[1..] + f;
      InsertFileAfterDirs(x, d[1..], f);
      assert d + ([x] + f) == [d[0]] + (d[1..] + ([x] + f));
    }
  }

  /** The statement of `DirsFirstGroups`. */
  predicate GroupedByKind(s: seq<Entry>) {
    SortStable(DirsFirst, s) == Filter(s, DirKind(true)) + Filter(s, DirKind(false))
  }

  /** The grouping sort puts the directories, in order, before the files, in order. */
  lemma {:induction false} DirsFirstGroups(s: seq<Entry>)
    ensures SortStable(DirsFirst, s) == Filter(s, DirKind(true)) + Filter(s, DirKind(false))
    decreases |s|
  {
    if s != [] {
      DirsFirstGroups(s[1..]);
      DirsFirstStep(s);
    }
  }

  lemma {:induction false} DirsFirstStep(s: seq<Entry>)
    requires s != [] && GroupedByKind(s[1..])
    ensures GroupedByKind(s)
  {
    var d := Filter(s[1..], DirKind(true));
    var f := Filter(s[1..], DirKind(false));
    assert SortStable(DirsFirst, s) == Insert(DirsFirst, s[0], d + f);
    FilterUnfold(s, DirKind(true));
    FilterUnfold(s, DirKind(false));
    if s[0].isDir {
      InsertDirFront(s[0], d + f);
      EmptyAppend(f);
      ConcatAssoc([s[0]], d, f);
    } else {
      InsertFileAfterDirs(s[0], d, f);
      EmptyAppend(d);
    }
  }

  lemma {:induction false} InsertDirFront(x: Entry, s: seq<Entry>)
    requires x.isDir
    ensures Insert(DirsFirst, x, s) == [x] + s
  {
    if s != [] {
      DirsFirstBefore(s[0], x);
    }
  }

  // ---------------------------------------------------------------------
  // The `sort` argument
  // ---------------------------------------------------------------------

  function FieldNamed(key: string): Option<Field> {
    if key == "name" then Some(Name)
    else if key == "size" then Some(Size)
    else if key == "modified" then Some(Modified)
    else None
  }

  /**
   * `reverse_order = sort_by.endswith('_desc')`,
   * `sort_key = sort_by.removesuffix('_desc')`, and the key it names, if any.
   */
  function ParseSort(sortBy: string): Option<Order> {
    var descending := EndsWith(sortBy, "_desc");
    var key := if descending then sortBy[..|sortBy| - 5] else sortBy;
    match FieldNamed(key)
    case None => None
    case Some(f) => Some(Order(f, descending))
  }

  /** The argument spelling of a request order. */
  function SortArgument(o: Order): string
    requires o.field != IsFile
  {
    (match o.field case Name => "name" case Size => "size" case _ => "modified")
    + (if o.descending then "_desc" else "")
  }

  /**
   * The six accepted `sort` values and nothing else: `name`, `size` and
   * `modified`, each optionally followed by `_desc`, which means descending.
   */
  lemma {:induction false} ParseSortExact(sortBy: string, o: Order)
    ensures ParseSort(sortBy) == Some(o) <==> o.field != IsFile && sortBy == SortArgument(o)
  {
    var descending := EndsWith(sortBy, "_desc");
    var key := if descending then sortBy[..|sortBy| - 5] else sortBy;
    if ParseSort(sortBy) == Some(o) {
      if descending {
        assert sortBy == key + "_desc";
      }
    }
    if o.field != IsFile && sortBy == SortArgument(o) {
      ParseSortOf(o);
    }
  }

  lemma {:induction false} ParseSortOf(o: Order)
    requires o.field != IsFile
    ensures ParseSort(SortArgument(o)) == Some(o)
  {
    var s := SortArgument(o);
    var key := if o.field == Name then "name" else if o.field == Size then "size" else "modified";
    assert FieldNamed(key) == Some(o.field);
    if o.descending {
      assert s == key + "_desc";
      assert EndsWith(s, "_desc");
      assert s[..|s| - 5] == key;
    } else {
      assert s == key;
      assert s[|s| - 1] != 'c';
      assert !EndsWith(s, "_desc");
    }
  }

  // ---------------------------------------------------------------------
  // The whole pipeline
  // ---------------------------------------------------------------------

  /** The primary sort, when the `sort` argument names a key. */
  function Primary(po: Option<Order>, s: seq<Entry>): seq<Entry> {
    match po
    case None => s
    case Some(o) => SortStable(o, s)
  }

  /** The primary sort followed by the grouping sort. */
  function Arrange(s: seq<Entry>, po: Option<Order>): seq<Entry> {
    SortStable(DirsFirst, Primary(po, s))
  }

  /** The `items` that `/api/list` returns for a successful scan. */
  function ListItems(scan: seq<Entry>, search: string, sortBy: string): seq<Entry> {
    Arrange(Filter(scan, Searched(Lower(search))), ParseSort(sortBy))
  }

  /**
   * The final order is exactly the directories sorted by the primary key
   * followed by the files sorted by the primary key: the grouping sort
   * overrides the primary order only between a directory and a file.
   */
  lemma {:induction false} ArrangeGroups(s: seq<Entry>, po: Option<Order>)
    ensures Arrange(s, po) == Primary(po, Filter(s, DirKind(true))) + Primary(po, Filter(s, DirKind(false)))
  {
    DirsFirstGroups(Primary(po, s));
    if po.Some? {
      FilterSort(po.value, DirKind(true), s);
      FilterSort(po.value, DirKind(false), s);
    }
  }

  lemma {:induction false} PrimaryKinds(po: Option<Order>, s: seq<Entry>, isDir: bool)
    requires AllOfKind(s, isDir)
    ensures AllOfKind(Primary(po, s), isDir)
  {
    var p := Primary(po, s);
    forall i | 0 <= i < |p| ensures p[i].isDir == isDir {
      assert p[i] in multiset(p);
      assert p[i] in multiset(s);
    }
  }

  /** The two groups of the final order, each of one kind. */
  lemma {:induction false} ArrangeKinds(s: seq<Entry>, po: Option<Order>)
    ensures AllOfKind(Primary(po, Filter(s, DirKind(true))), true)
    ensures AllOfKind(Primary(po, Filter(s, DirKind(false))), false)
  {
    PrimaryKinds(po, Filter(s, DirKind(true)), true);
    PrimaryKinds(po, Filter(s, DirKind(false)), false);
  }

  lemma {:induction false} GroupedKinds(d: seq<Entry>, f: seq<Entry>)
    requires AllOfKind(d, true) && AllOfKind(f, false)
    ensures forall i, j :: 0 <= i < j < |d + f| && !(d + f)[i].isDir ==> !(d + f)[j].isDir
  {
  }

  lemma {:induction false} GroupedSorted(o: Order, d: seq<Entry>, f: seq<Entry>)
    requires AllOfKind(d, true) && AllOfKind(f, false)
    requires SortedBy(o, d) && SortedBy(o, f)
    ensures var r := d + f;
            forall i, j :: 0 <= i < j < |r| && r[i].isDir == r[j].isDir ==> !Before(o, r[j], r[i])
  {
    var r := d + f;
    forall i, j | 0 <= i < j < |r| && r[i].isDir == r[j].isDir ensures !Before(o, r[j], r[i]) {
      if j < |d| {
        assert r[i] == d[i] && r[j] == d[j];
      } else if i >= |d| {
        assert r[i] == f[i - |d|] && r[j] == f[j - |d|];
      }
    }
  }

  /** Elements drawn from a sequence whose entries all satisfy `sel` satisfy it. */
  lemma {:induction false} SameElementsHold(a: seq<Entry>, b: seq<Entry>, sel: Selector)
    requires multiset(a) == multiset(b)
    requires forall i :: 0 <= i < |b| ==> Holds(sel, b[i])
    ensures forall i :: 0 <= i < |a| ==> Holds(sel, a[i])
  {
    forall i | 0 <= i < |a| ensures Holds(sel, a[i]) {
      assert a[i] in multiset(b);
    }
  }

  lemma {:induction false} MatchesContain(r: seq<Entry>, term: string)
    requires forall i :: 0 <= i < |r| ==> Holds(Searched(term), r[i])
    ensures forall i :: 0 <= i < |r| ==> Contains(Lower(r[i].name), term)
  {
    forall i | 0 <= i < |r| ensures Contains(Lower(r[i].name), term) {
      assert Holds(Searched(term), r[i]);
      if term == "" {
        assert OccursAt(Lower(r[i].name), "", 0);
      }
    }
  }

  /**
   * What a listing contains: every item matches the search, the items are
   * a permutation of the matching scanned entries, and no directory follows
   * a file.
   */
  lemma {:induction false} ListingContents(scan: seq<Entry>, search: string, sortBy: string)
    ensures var r := ListItems(scan, search, sortBy);
            && (forall i :: 0 <= i < |r| ==> Contains(Lower(r[i].name), Lower(search)))
            && multiset(r) == multiset(Filter(scan, Searched(Lower(search))))
            && (forall i, j :: 0 <= i < j < |r| && !r[i].isDir ==> !r[j].isDir)
  {
    var kept := Filter(scan, Searched(Lower(search)));
    var po := ParseSort(sortBy);
    var r := ListItems(scan, search, sortBy);
    assert multiset(Primary(po, kept)) == multiset(kept);
    SameElementsHold(r, kept, Searched(Lower(search)));
    MatchesContain(r, Lower(search));
    ArrangeGroups(kept, po);
    ArrangeKinds(kept, po);
    GroupedKinds(Primary(po, Filter(kept, DirKind(true))), Primary(po, Filter(kept, DirKind(false))));
  }

  /**
   * Within the directories and within the files, the items are in the
   * order the `sort` argument asks for (non-decreasing keys, non-increasing
   * with `_desc`).
   */
  lemma {:induction false} ListingOrder(s: seq<Entry>, o: Order)
    ensures var r := Arrange(s, Some(o));
            forall i, j :: 0 <= i < j < |r| && r[i].isDir == r[j].isDir ==> !Before(o, r[j], r[i])
  {
    ArrangeGroups(s, Some(o));
    ArrangeKinds(s, Some(o));
    GroupedSorted(o, SortStable(o, Filter(s, DirKind(true))), SortStable(o, Filter(s, DirKind(false))));
  }

  /**
   * Ties keep scan order: among the directories (or the files), the items
   * with any one key value appear in the order they were scanned, whether
   * the sort is ascending or descending.
   */
  lemma {:induction false} ListingTies(s: seq<Entry>, o: Order, isDir: bool, k: Key)
    ensures Filter(Filter(Arrange(s, Some(o)), DirKind(isDir)), KeyIs(o.field, k)) ==
            Filter(Filter(s, DirKind(isDir)), KeyIs(o.field, k))
  {
    ArrangeGroups(s, Some(o));
    ArrangeKinds(s, Some(o));
    var d := SortStable(o, Filter(s, DirKind(true)));
    var f := SortStable(o, Filter(s, DirKind(false)));
    SelectGroup(d, f, isDir);
    StableTies(o, Filter(s, DirKind(isDir)), k);
  }

  /** Keeping one kind of a directories-then-files list gives back that group. */
  lemma {:induction false} SelectGroup(d: seq<Entry>, f: seq<Entry>, isDir: bool)
    requires AllOfKind(d, true) && AllOfKind(f, false)
    ensures Filter(d + f, DirKind(isDir)) == if isDir then d else f
  {
    FilterConcat(d, f, DirKind(isDir));
    if isDir {
      FilterAll(d, DirKind(true));
      FilterNone(f, DirKind(true));
      assert Filter(d, DirKind(true)) + Filter(f, DirKind(true)) == d;
    } else {
      FilterNone(d, DirKind(false));
      FilterAll(f, DirKind(false));
      EmptyAppend(f);
    }
  }

  /** An unrecognised sort key leaves scan order within each group. */
  lemma {:induction false} UnknownSortKeepsScanOrder(s: seq<Entry>)
    ensures Arrange(s, None) == Filter(s, DirKind(true)) + Filter(s, DirKind(false))
  {
    ArrangeGroups(s, None);
  }

  /** An empty search term keeps every scanned entry, in scan order. */
  lemma {:induction false} EmptySearchKeepsAll(scan: seq<Entry>)
    ensures Filter(scan, Searched(Lower(""))) == scan
  {
    assert Lower("") == "";
    FilterAll(scan, Searched(""));
  }

  /** Adding one scanned entry extends the filtered list by it or by nothing. */
  lemma {:induction false} FilterSnoc(s: seq<Entry>, x: Entry, sel: Selector)
    ensures Filter(s + [x], sel) == Filter(s, sel) + (if Holds(sel, x) then [x] else [])
  {
    FilterConcat(s, [x], sel);
    assert Filter([x], sel) == (if Holds(sel, x) then [x] else []) + Filter([], sel);
  }
}
