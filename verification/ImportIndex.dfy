/**
  The dead-module detector: an inverted index from referenced ids to files, and the split of modules into
  dead and live ones. What each file refers to is taken as given.
 */
module ImportIndex {

  /** A scanned source file and the set of ids its import statements refer to. */
  datatype File = File(path: string, refs: set<string>)

  /** A feature module: its path, its dotted path, and whether it is an `__init__` file. */
  datatype Module = Module(path: string, dotted: string, isInit: bool)

  // ----- Python's order on texts -----

  predicate Leq(a: string, b: string) {
    a == [] || (b != [] && (a[0] < b[0] || (a[0] == b[0] && Leq(a[1..], b[1..]))))
  }

  /** A common beginning, after which `a` ends or has the smaller character. */
  ghost predicate SmallerFrom(a: string, b: string, k: nat) {
    && k <= |a| && k <= |b| && a[..k] == b[..k]
    && (k == |a| || (k < |a| && k < |b| && a[k] < b[k]))
  }

  /** It is the order of texts that starts where they first differ. */
  lemma {:induction false} LeqIs(a: string, b: string)
    ensures Leq(a, b) <==> exists k: nat :: SmallerFrom(a, b, k)
  {
    if a == [] || b == [] || a[0] != b[0] {
      assert Leq(a, b) ==> SmallerFrom(a, b, 0);
      forall k: nat | SmallerFrom(a, b, k) ensures Leq(a, b) {
        if a != [] && k > 0 {
          assert a[..k][0] == b[..k][0];
        }
      }
    } else {
      LeqIs(a[1..], b[1..]);
      if k: nat :| SmallerFrom(a[1..], b[1..], k) {
        assert a[..k + 1] == [a[0]] + a[1..][..k] && b[..k + 1] == [b[0]] + b[1..][..k];
        assert SmallerFrom(a, b, k + 1);
      }
      if k: nat :| SmallerFrom(a, b, k) {
        assert k > 0;
        assert a[1..][..k - 1] == a[..k][1..] && b[1..][..k - 1] == b[..k][1..];
        assert SmallerFrom(a[1..], b[1..], k - 1);
      }
    }
  }

  lemma {:induction false} LeqTotal(a: string, b: string)
    ensures Leq(a, b) || Leq(b, a)
  {
    if a != [] && b != [] && a[0] == b[0] {
      LeqTotal(a[1..], b[1..]);
    }
  }

  lemma {:induction false} LeqAntisymmetric(a: string, b: string)
    requires Leq(a, b) && Leq(b, a)
    ensures a == b
  {
    if a != [] {
      LeqAntisymmetric(a[1..], b[1..]);
      assert a == [a[0]] + a[1..] && b == [b[0]] + b[1..];
    }
  }

  lemma {:induction false} LeqTransitive(a: string, b: string, c: string)
    requires Leq(a, b) && Leq(b, c)
    ensures Leq(a, c)
  {
    if a != [] && a[0] == b[0] == c[0] {
      LeqTransitive(a[1..], b[1..], c[1..]);
    }
  }

  predicate IsLeast(m: string, s: set<string>) {
    m in s && forall x | x in s :: Leq(m, x)
  }

  lemma {:induction false} LeastExists(s: set<string>)
    requires s != {}
    ensures exists m :: IsLeast(m, s)
  {
    if forall x :: x !in s {}
    var x :| x in s;
    var rest := s - {x};
    if rest == {} {
      LeqTotal(x, x);
      forall y | y in s ensures Leq(x, y) {
        assert y == x || y in rest;
      }
      assert IsLeast(x, s);
    } else {
      LeastExists(rest);
      var m :| IsLeast(m, rest);
      var least := if Leq(x, m) then x else m;
      LeqTotal(x, m);
      LeqTotal(x, x);
      forall y | y in s ensures Leq(least, y) {
        if y in rest && Leq(x, m) {
          LeqTransitive(x, m, y);
        }
      }
      assert IsLeast(least, s);
    }
  }

  lemma {:induction false} LeastUnique(s: set<string>)
    ensures forall m, n | IsLeast(m, s) && IsLeast(n, s) :: m == n
  {
    forall m, n | IsLeast(m, s) && IsLeast(n, s) ensures m == n {
      LeqAntisymmetric(m, n);
    }
  }

  function Least(s: set<string>): (m: string)
    requires s != {}
    ensures IsLeast(m, s)
  {
    LeastExists(s);
    LeastUnique(s);
    var m :| m in s && IsLeast(m, s);
    m
  }

  /** `sorted(s)` */
  function Sorted(s: set<string>): seq<string> {
    if s == {} then []
    else
      var m := Least(s);
      [m] + Sorted(s - {m})
  }

  /** Every member once, in order. */
  ghost predicate Ordered(r: seq<string>) {
    forall i, j | 0 <= i < j < |r| :: Leq(r[i], r[j]) && r[i] != r[j]
  }

  lemma {:induction false} SortedMembers(s: set<string>)
    ensures forall x :: x in Sorted(s) <==> x in s
  {
    if s != {} {
      var m := Least(s);
      SortedMembers(s - {m});
      assert forall x :: x in [m] + Sorted(s - {m}) <==> x == m || x in Sorted(s - {m});
    }
  }

  lemma {:induction false} SortedOrdered(s: set<string>)
    ensures Ordered(Sorted(s))
  {
    if s != {} {
      var m := Least(s);
      var rest := Sorted(s - {m});
      SortedMembers(s - {m});
      SortedOrdered(s - {m});
      forall j | 0 <= j < |rest| ensures Leq(m, rest[j]) && m != rest[j] {
        assert rest[j] in rest;
      }
    }
  }

  // ----- The index -----

  /** The paths of the files that refer to `id`, in file order. */
  function Referrers(files: seq<File>, id: string): seq<string> {
    if files == [] then []
    else
      var last := files[|files| - 1];
      Referrers(files[..|files| - 1], id) + if id in last.refs then [last.path] else []
  }

  function Lookup(index: map<string, seq<string>>, id: string): seq<string> {
    if id in index then index[id] else []
  }

  /** `index` answers like a scan of `files`. */
  ghost predicate Indexes(index: map<string, seq<string>>, files: seq<File>) {
    forall id :: Lookup(index, id) == Referrers(files, id)
  }

  lemma {:induction false} ReferrersSnoc(files: seq<File>, f: File, id: string)
    ensures Referrers(files + [f], id) == Referrers(files, id) + if id in f.refs then [f.path] else []
  {
    assert (files + [f])[..|files|] == files;
  }

  /** The inner loop: the file's path is appended to the list of every id it refers to. */
  method AddFile(before: map<string, seq<string>>, ghost files: seq<File>, f: File) returns (index: map<string, seq<string>>)
    requires Indexes(before, files)
    ensures Indexes(index, files + [f])
  {
    index := before;
    var left := f.refs;
    while left != {}
      invariant left <= f.refs
      invariant forall id :: Lookup(index, id) ==
                             Lookup(before, id) + if id in f.refs && id !in left then [f.path] else []
      decreases left
    {
      if forall x :: x !in left {}
      var id :| id in left;
      index := index[id := Lookup(index, id) + [f.path]];
      left := left - {id};
    }
    forall id ensures Lookup(index, id) == Referrers(files + [f], id) {
      ReferrersSnoc(files, f, id);
    }
  }

  method BuildIndex(files: seq<File>) returns (index: map<string, seq<string>>)
    ensures Indexes(index, files)
  {
    index := map[];
    for i := 0 to |files|
      invariant Indexes(index, files[..i])
    {
      assert files[..i + 1][..i] == files[..i];
      index := AddFile(index, files[..i], files[i]);
      assert files[..i + 1] == files[..i] + [files[i]];
    }
    assert files[..|files|] == files;
  }

  lemma {:induction false} ReferrersAre(files: seq<File>, id: string, path: string)
    ensures path in Referrers(files, id) <==> exists k :: 0 <= k < |files| && files[k].path == path && id in files[k].refs
  {
    if files != [] {
      var n := |files| - 1;
      var front := files[..n];
      ReferrersAre(front, id, path);
      if path in Referrers(front, id) {
        var k :| 0 <= k < |front| && front[k].path == path && id in front[k].refs;
        assert files[k].path == path;
      }
      if exists k :: 0 <= k < |files| && files[k].path == path && id in files[k].refs {
        var k :| 0 <= k < |files| && files[k].path == path && id in files[k].refs;
        assert k < n ==> front[k] == files[k];
      }
    }
  }

  // ----- Importers -----

  /** File `k` imports the module known by `ids`, and is not the module's own file. */
  ghost predicate Imports(files: seq<File>, k: int, ids: seq<string>, self: string) {
    0 <= k < |files| && files[k].path != self && exists i :: 0 <= i < |ids| && ids[i] in files[k].refs
  }

  /** The loops that fill the set of importers. */
  method CollectImporters(ids: seq<string>, index: map<string, seq<string>>, self: string, ghost files: seq<File>)
    returns (found: set<string>)
    requires Indexes(index, files)
    ensures forall path :: path in found <==> path != self && exists j :: 0 <= j < |ids| && path in Referrers(files, ids[j])
  {
    found := {};
    for i := 0 to |ids|
      invariant forall path :: path in found <==> path != self && exists j :: 0 <= j < i && path in Referrers(files, ids[j])
    {
      var paths := Lookup(index, ids[i]);
      found := found + (set path | path in paths && path != self);
    }
  }

  lemma {:induction false} ImportersAre(files: seq<File>, ids: seq<string>, self: string, path: string)
    ensures (path != self && exists j :: 0 <= j < |ids| && path in Referrers(files, ids[j])) <==>
            exists k :: Imports(files, k, ids, self) && files[k].path == path
  {
    if path != self && exists j :: 0 <= j < |ids| && path in Referrers(files, ids[j]) {
      var j :| 0 <= j < |ids| && path in Referrers(files, ids[j]);
      ReferrersAre(files, ids[j], path);
      var k :| 0 <= k < |files| && files[k].path == path && ids[j] in files[k].refs;
      assert Imports(files, k, ids, self);
    }
    if exists k :: Imports(files, k, ids, self) && files[k].path == path {
      var k :| Imports(files, k, ids, self) && files[k].path == path;
      var j :| 0 <= j < |ids| && ids[j] in files[k].refs;
      ReferrersAre(files, ids[j], path);
    }
  }

  method FindImporters(ids: seq<string>, index: map<string, seq<string>>, self: string, ghost files: seq<File>)
    returns (importers: seq<string>)
    requires Indexes(index, files)
    ensures Ordered(importers)
    ensures forall path :: path in importers <==> exists k :: Imports(files, k, ids, self) && files[k].path == path
  {
    var found := CollectImporters(ids, index, self, files);
    importers := Sorted(found);
    SortedOrdered(found);
    SortedMembers(found);
    forall path
      ensures path in importers <==> exists k :: Imports(files, k, ids, self) && files[k].path == path
    {
      ImportersAre(files, ids, self, path);
    }
  }

  // ----- The ids of a module -----

  const INIT := ".__init__"

  function StripInit(variant: string): seq<string> {
    if |variant| >= 9 && variant[|variant| - 9..] == INIT then [variant, variant[..|variant| - 9]] else [variant]
  }

  /** The dotted path without its leading `src`. */
  function Short(full: string): string {
    if full == "src" then [] else if |full| >= 4 && full[..4] == "src." then full[4..] else full
  }

  function Variants(full: string): seq<string> { StripInit(full) + StripInit(Short(full)) }

  /** The path is `rest` inside the source directory. */
  ghost predicate InSrc(full: string, rest: string) {
    full == "src." + rest || (full == "src" && rest == "")
  }

  /** `x` names the module with this dotted path: fully or within the source directory, with or without the suffix. */
  ghost predicate NamedBy(full: string, x: string) {
    || x == full || full == x + ".__init__"
    || exists rest :: InSrc(full, rest) && (x == rest || rest == x + ".__init__")
  }

  lemma {:induction false} StripInitIs(variant: string, x: string)
    ensures x in StripInit(variant) <==> x == variant || variant == x + ".__init__"
    ensures StripInit(variant)[0] == variant
  {
    var n := |variant| - 9;
    if n >= 0 {
      assert variant == variant[..n] + variant[n..];
    }
    if variant == x + ".__init__" {
      assert variant[..n] == x && variant[n..] == ".__init__";
    }
  }

  lemma {:induction false} ShortIs(full: string)
    ensures InSrc(full, Short(full)) || (Short(full) == full && forall rest :: !InSrc(full, rest))
    ensures forall rest | InSrc(full, rest) :: rest == Short(full)
  {
    if |full| >= 4 {
      assert full == full[..4] + full[4..];
    }
    forall rest | InSrc(full, rest) ensures rest == Short(full) {
      if full == "src." + rest {
        assert full[..4] == "src." && full[4..] == rest;
      }
    }
  }

  /** The ids of a module are exactly its names, the full path first. */
  lemma {:induction false} VariantsAre(full: string)
    ensures forall x :: x in Variants(full) <==> NamedBy(full, x)
    ensures Variants(full)[0] == full
  {
    ShortIs(full);
    StripInitIs(full, full);
    forall x ensures x in Variants(full) <==> NamedBy(full, x) {
      StripInitIs(full, x);
      StripInitIs(Short(full), x);
    }
  }

  function Deduped(ids: seq<string>): seq<string> {
    if ids == [] then []
    else
      var front, last := Deduped(ids[..|ids| - 1]), ids[|ids| - 1];
      if last in front then front else front + [last]
  }

  lemma {:induction false} DedupedIs(ids: seq<string>)
    ensures forall x :: x in Deduped(ids) <==> x in ids
    ensures forall i, j | 0 <= i < j < |Deduped(ids)| :: Deduped(ids)[i] != Deduped(ids)[j]
  {
    if ids != [] {
      var front, last := ids[..|ids| - 1], ids[|ids| - 1];
      DedupedIs(front);
      assert ids == front + [last];
    }
  }

  /** The loop over `seen` and `result`. */
  method Dedupe(all: seq<string>) returns (ids: seq<string>)
    ensures ids == Deduped(all)
  {
    var seen: set<string> := {};
    ids := [];
    for i := 0 to |all|
      invariant ids == Deduped(all[..i])
      invariant forall x :: x in seen <==> x in ids
    {
      assert all[..i + 1][..i] == all[..i];
      if all[i] !in seen {
        seen := seen + {all[i]};
        ids := ids + [all[i]];
      }
    }
    assert all[..|all|] == all;
  }

  method MakeImportIds(full: string) returns (ids: seq<string>)
    ensures ids == Deduped(Variants(full))
    ensures forall x :: x in ids <==> NamedBy(full, x)
    ensures forall i, j | 0 <= i < j < |ids| :: ids[i] != ids[j]
  {
    ids := Dedupe(Variants(full));
    DedupedIs(Variants(full));
    VariantsAre(full);
  }

  // ----- Dead and live -----

  /** Brute force: some other file refers to the module by one of its ids. */
  ghost predicate Live(files: seq<File>, m: Module) {
    exists k :: Imports(files, k, Deduped(Variants(m.dotted)), m.path)
  }

  ghost function Kept(files: seq<File>, modules: seq<Module>, includeInit: bool, live: bool): seq<Module> {
    if modules == [] then []
    else
      var m := modules[|modules| - 1];
      Kept(files, modules[..|modules| - 1], includeInit, live) +
      if (includeInit || !m.isInit) && Live(files, m) == live then [m] else []
  }

  lemma {:induction false} SomeImporter(files: seq<File>, ids: seq<string>, self: string, importers: seq<string>)
    requires forall path :: path in importers <==> exists k :: Imports(files, k, ids, self) && files[k].path == path
    ensures importers != [] <==> exists k :: Imports(files, k, ids, self)
  {
    if importers != [] {
      assert importers[0] in importers;
    }
    if exists k :: Imports(files, k, ids, self) {
      var k :| Imports(files, k, ids, self);
      assert files[k].path in importers;
    }
  }

  /** The split by index is the split by brute force, in module order. */
  method Classify(files: seq<File>, modules: seq<Module>, includeInit: bool) returns (dead: seq<Module>, live: seq<Module>)
    ensures dead == Kept(files, modules, includeInit, false) && live == Kept(files, modules, includeInit, true)
  {
    var index := BuildIndex(files);
    dead, live := [], [];
    for i := 0 to |modules|
      invariant dead == Kept(files, modules[..i], includeInit, false)
      invariant live == Kept(files, modules[..i], includeInit, true)
    {
      var m := modules[i];
      assert modules[..i + 1][..i] == modules[..i];
      if includeInit || !m.isInit {
        var ids := MakeImportIds(m.dotted);
        var importers := FindImporters(ids, index, m.path, files);
        SomeImporter(files, ids, m.path, importers);
        if importers != [] {
          live := live + [m];
        } else {
          dead := dead + [m];
        }
      }
    }
    assert modules[..|modules|] == modules;
  }

  /** A module is live if and only if a file other than its own refers to one of its names. */
  lemma {:induction false} LiveIff(files: seq<File>, m: Module)
    ensures Live(files, m) <==>
            exists k, x :: 0 <= k < |files| && files[k].path != m.path && x in files[k].refs && NamedBy(m.dotted, x)
  {
    var ids := Deduped(Variants(m.dotted));
    DedupedIs(Variants(m.dotted));
    VariantsAre(m.dotted);
    if Live(files, m) {
      var k :| Imports(files, k, ids, m.path);
      var i :| 0 <= i < |ids| && ids[i] in files[k].refs;
      assert ids[i] in ids;
      assert NamedBy(m.dotted, ids[i]);
    }
    if k, x :| 0 <= k < |files| && files[k].path != m.path && x in files[k].refs && NamedBy(m.dotted, x) {
      assert x in ids;
      var i :| 0 <= i < |ids| && ids[i] == x;
      assert Imports(files, k, ids, m.path);
    }
  }

  /** Each considered module is in exactly one of the two lists. */
  lemma {:induction false} KeptAre(files: seq<File>, modules: seq<Module>, includeInit: bool, live: bool, m: Module)
    ensures m in Kept(files, modules, includeInit, live) <==>
            m in modules && (includeInit || !m.isInit) && Live(files, m) == live
  {
    if modules != [] {
      var front, last := modules[..|modules| - 1], modules[|modules| - 1];
      KeptAre(files, front, includeInit, live, m);
      assert modules == front + [last];
    }
  }

  /** Scanning more files never turns a live module dead. */
  lemma {:induction false} MoreFilesKeepLive(files: seq<File>, more: seq<File>, m: Module)
    requires Live(files, m)
    ensures Live(files + more, m)
  {
    var ids := Deduped(Variants(m.dotted));
    var k :| Imports(files, k, ids, m.path);
    assert (files + more)[k] == files[k];
    assert Imports(files + more, k, ids, m.path);
  }
}
