/** The collector as it runs: dictionaries and lists grown in loops, metas and segment files
    rewritten in place. Each method is tied to the function that specifies it. */
module SegmentCollector {
  import opened Prelude
  import opened SegmentStore
  import opened SegmentGc
  import opened SegmentDeletions

  // ---------------------------------------------------------------- live objects

  /** A decoded JSON value; `ref` is what `maybe_data_ref` finds in a dictionary. */
  datatype Value = Dict(ref: Option<string>, fields: seq<Value>) | List(items: seq<Value>) | Scalar

  /** The ids a value refers to: those of its data refs that are not inside another one. */
  function RefIds(v: Value): set<string> {
    match v
    case Scalar => {}
    case List(items) => RefIdsOfAll(items)
    case Dict(None, fields) => RefIdsOfAll(fields)
    case Dict(Some(id), _) => if Normalize(id).Some? then {Normalize(id).value} else {}
  }

  function RefIdsOfAll(vs: seq<Value>): set<string> {
    if vs == [] then {} else RefIds(vs[0]) + RefIdsOfAll(vs[1..])
  }

  function Children(v: Value): seq<Value> {
    match v
    case Scalar => []
    case List(items) => items
    case Dict(ref, fields) => if ref.Some? then [] else fields
  }

  /** The data ref at the end of a path that passes through no other one. */
  function RefAt(v: Value, path: seq<nat>): Option<string>
    decreases path
  {
    if path == [] then if v.Dict? then v.ref else None
    else if path[0] >= |Children(v)| then None
    else RefAt(Children(v)[path[0]], path[1..])
  }

  /** Path by path: an id is collected exactly when a data ref that is not inside another one
      names it. */
  ghost predicate RefersTo(v: Value, id: string) {
    exists path :: RefAt(v, path).Some? && Names(RefAt(v, path).value, id)
  }

  function Weight(v: Value): nat
    ensures Weight(v) > 0
  {
    match v
    case Scalar => 1
    case List(items) => 1 + WeightOfAll(items)
    case Dict(_, fields) => 1 + WeightOfAll(fields)
  }

  function WeightOfAll(vs: seq<Value>): nat {
    if vs == [] then 0 else Weight(vs[0]) + WeightOfAll(vs[1..])
  }

  lemma {:induction false} OfAppended(a: seq<Value>, b: seq<Value>)
    ensures RefIdsOfAll(a + b) == RefIdsOfAll(a) + RefIdsOfAll(b)
    ensures WeightOfAll(a + b) == WeightOfAll(a) + WeightOfAll(b)
  {
    if a == [] {
      assert a + b == b;
    } else {
      OfAppended(a[1..], b);
      assert (a + b)[1..] == a[1..] + b;
    }
  }

  lemma OfLast(vs: seq<Value>)
    requires vs != []
    ensures RefIdsOfAll(vs) == RefIdsOfAll(vs[..|vs| - 1]) + RefIds(vs[|vs| - 1])
    ensures WeightOfAll(vs) == WeightOfAll(vs[..|vs| - 1]) + Weight(vs[|vs| - 1])
  {
    var last := vs[|vs| - 1];
    OfAppended(vs[..|vs| - 1], [last]);
    assert vs == vs[..|vs| - 1] + [last];
    assert [last][1..] == [];
  }

  lemma {:induction false} InOneOf(vs: seq<Value>, id: string)
    ensures id in RefIdsOfAll(vs) <==> exists i :: 0 <= i < |vs| && id in RefIds(vs[i])
  {
    if vs != [] {
      InOneOf(vs[1..], id);
      assert forall i :: 0 < i < |vs| ==> vs[i] == vs[1..][i - 1];
      assert forall i :: 0 <= i < |vs[1..]| ==> vs[1..][i] == vs[i + 1];
    }
  }

  lemma {:induction false} RefIdsByPath(v: Value, id: string)
    ensures id in RefIds(v) <==> RefersTo(v, id)
    decreases v
  {
    hide Normalize, Names;
    if v.Dict? && v.ref.Some? {
      NormalizeFindsTheDigest(v.ref.value);
      assert RefAt(v, []) == v.ref;
      assert forall path :: RefAt(v, path).Some? ==> path == [];
    } else {
      var vs := Children(v);
      InOneOf(vs, id);
      forall i | 0 <= i < |vs|
        ensures id in RefIds(vs[i]) <==> RefersTo(vs[i], id)
      {
        RefIdsByPath(vs[i], id);
      }
      if i: nat :| i < |vs| && id in RefIds(vs[i]) {
        var path :| RefAt(vs[i], path).Some? && Names(RefAt(vs[i], path).value, id);
        assert ([i] + path)[1..] == path;
        assert RefAt(v, [i] + path) == RefAt(vs[i], path);
      }
      if RefersTo(v, id) {
        var path :| RefAt(v, path).Some? && Names(RefAt(v, path).value, id);
        assert path != [] && RefAt(v, path) == RefAt(vs[path[0]], path[1..]);
      }
    }
  }

  /** The explicit stack finds the same ids as the recursion. */
  method CollectRefIds(v: Value) returns (live: set<string>)
    ensures live == RefIds(v)
    ensures forall id :: id in live <==> RefersTo(v, id)
  {
    forall id {
      RefIdsByPath(v, id);
    }
    live := {};
    var stack := [v];
    assert [v][1..] == [];
    while stack != []
      invariant live + RefIdsOfAll(stack) == RefIds(v)
      decreases WeightOfAll(stack)
    {
      OfLast(stack);
      var value := stack[|stack| - 1];
      stack := stack[..|stack| - 1];
      match value
      case Scalar =>
      case List(items) =>
        OfAppended(stack, items);
        stack := stack + items;
      case Dict(None, fields) =>
        OfAppended(stack, fields);
        stack := stack + fields;
      case Dict(Some(id), _) =>
        var normal := Normalize(id);
        if normal.Some? {
          live := live + {normal.value};
        }
    }
  }

  // ---------------------------------------------------------------- planning

  lemma TotalOfPrefix(rows: seq<Row>, i: nat)
    requires i < |rows|
    ensures Total(rows[..i + 1]) == Total(rows[..i]) + rows[i].length
  {
    assert rows[..i + 1][..i] == rows[..i];
  }

  method LiveBytes(rows: seq<Row>) returns (live: nat)
    ensures live == Total(rows)
  {
    live := 0;
    for i := 0 to |rows|
      invariant live == Total(rows[..i])
    {
      TotalOfPrefix(rows, i);
      live := live + rows[i].length;
    }
    assert rows[..|rows|] == rows;
  }

  method AlreadyCompact(rows: seq<Row>) returns (compact: bool)
    ensures compact == Packed(rows)
  {
    var current := 0;
    for i := 0 to |rows|
      invariant current == Total(rows[..i])
      invariant forall j :: 0 <= j < i ==> rows[j].offset == Total(rows[..j])
    {
      if rows[i].offset != current {
        return false;
      }
      TotalOfPrefix(rows, i);
      current := current + rows[i].length;
    }
    compact := true;
  }

  method CompactionPlan(size: nat, rows: seq<Row>) returns (live: nat, wasted: nat, needs: bool)
    ensures live == Total(rows) && wasted == Max0(size - live)
    ensures needs == NeedsCompaction(size, rows)
    ensures needs <==> rows != [] && (live != size || exists i :: 0 <= i < |rows| && rows[i].offset != Total(rows[..i]))
  {
    live := LiveBytes(rows);
    wasted := if size > live then size - live else 0;
    var compact := live == size;
    if compact {
      compact := AlreadyCompact(rows);
    }
    needs := rows != [] && !compact;
  }

  /** The collector's dictionary of rows per relative path. */
  function Grouped(rows: map<string, seq<Row>>, p: string): seq<Row> {
    if p in rows then rows[p] else []
  }

  lemma {:induction false} RowsOfSnoc(metas: map<string, Meta>, names: seq<string>, n: string, p: string)
    ensures RowsOf(metas, names + [n], p) == RowsOf(metas, names, p) +
      (if n in metas && Refers(metas[n], p) then [RowOf(n, metas[n])] else [])
  {
    if names == [] {
      assert [n][1..] == [];
    } else {
      RowsOfSnoc(metas, names[1..], n, p);
      assert (names + [n])[1..] == names[1..] + [n];
    }
  }

  method GroupRows(metas: map<string, Meta>, names: seq<string>) returns (out: map<string, seq<Row>>)
    ensures forall p :: Grouped(out, p) == Refs(metas, names, p)
  {
    var groups: map<string, seq<Row>> := map[];
    for i := 0 to |names|
      invariant forall p :: Grouped(groups, p) == RowsOf(metas, names[..i], p)
    {
      var n := names[i];
      forall p {
        RowsOfSnoc(metas, names[..i], n, p);
      }
      assert names[..i + 1] == names[..i] + [n];
      if n in metas && metas[n].backend.Segment? && metas[n].objectId != "" && metas[n].backend.relpath != "" {
        var relpath := metas[n].backend.relpath;
        groups := groups[relpath := Grouped(groups, relpath) + [RowOf(n, metas[n])]];
      }
    }
    assert names[..|names|] == names;
    out := map p | p in groups :: Sort(groups[p]);
    assert Sort([]) == [];
  }

  // ---------------------------------------------------------------- the object

  class ObjectDirectory {
    var metas: map<string, Meta>
    var files: map<string, Bytes>

    ghost function Abs(): Store
      reads this
    {
      Store(metas, files)
    }

    method CompactSegmentFile(path: string, rows: seq<Row>) returns (ok: bool)
      requires path in files
      modifies this
      ensures Result(Abs(), ok) == Compact(old(Abs()), path, rows)
    {
      var live, wasted, needs := CompactionPlan(|files[path]|, rows);
      if !needs {
        return true;
      }
      var src := files[path];
      var out: Bytes := [];
      var i := 0;
      while i < |rows|
        invariant i <= |rows| && files == old(files)
        invariant CopyRows(metas, src, rows[i..], out) == CopyRows(old(metas), src, rows, [])
      {
        var blob := Slice(src, rows[i].offset, rows[i].length);
        if |blob| != rows[i].length {
          files := files[Tmp(path) := out];
          return false;
        }
        metas := MoveRow(metas, rows[i], |out|);
        out := out + blob;
        assert rows[i..][1..] == rows[i + 1..];
        i := i + 1;
      }
      files := files[path := out] - {Tmp(path)};
      ok := true;
    }

    method DeleteExpired(names: seq<string>, resolve: string -> string, p: Policy)
      modifies this
      ensures Abs() == DeleteMetas(old(Abs()), names, resolve, p)
      ensures p.cutoff <= p.now && Distinct(names) ==> forall n :: n in old(metas) && n in names ==>
        && (n !in metas <==> Expired(old(Abs()), metas.Keys, names, resolve, p, n))
        && (n in metas ==> metas[n] == old(metas)[n])
      ensures p.cutoff <= p.now && Distinct(names) ==> forall n, id ::
        n in old(metas) && n in names && Names(old(metas)[n].objectId, id) && old(metas)[n].lastAt.Some? ==>
          (n in metas <==> id in p.live || id in p.active || old(metas)[n].lastAt.value >= p.cutoff)
    {
      ghost var s := old(Abs());
      if p.cutoff <= p.now && Distinct(names) {
        WhoIsDeleted(s, names, resolve, p);
      }
      var i := 0;
      while i < |names|
        invariant i <= |names|
        invariant DeleteMetas(Abs(), names[i..], resolve, p) == DeleteMetas(old(Abs()), names, resolve, p)
      {
        var n := names[i];
        assert names[i..][1..] == names[i + 1..];
        i := i + 1;
        if n !in metas {
          continue;
        }
        var m := metas[n];
        var id := Normalize(m.objectId);
        if id.None? {
          continue;
        }
        var home := Home(m, resolve);
        var last := p.now;
        if m.lastAt.Some? {
          last := m.lastAt.value;
        } else if home in files && !(m.backend.Segment? && m.backend.relpath == "") {
          last := p.mtime(home);
        }
        if id.value in p.live || id.value in p.active || last >= p.cutoff {
          continue;
        }
        metas := metas - {n};
        if m.backend.File? {
          files := files - {m.backend.path};
        }
      }
    }

    method SweepSegments(names: seq<string>, paths: seq<string>) returns (ok: bool)
      modifies this
      ensures Result(Abs(), ok) == Sweep(old(Abs()), old(metas), names, paths)
    {
      var refs := GroupRows(metas, names);
      ok := true;
      var i := 0;
      while i < |paths|
        invariant i <= |paths| && ok
        invariant Sweep(Abs(), old(metas), names, paths[i..]) == Sweep(old(Abs()), old(metas), names, paths)
      {
        var path := paths[i];
        var rows := Grouped(refs, path);
        assert paths[i..][1..] == paths[i + 1..];
        i := i + 1;
        if path !in files {
          return false;
        }
        if rows == [] {
          files := files - {path};
          continue;
        }
        var live, wasted, needs := CompactionPlan(|files[path]|, rows);
        if needs {
          ok := CompactSegmentFile(path, rows);
          if !ok {
            return;
          }
        }
      }
    }

    /** The object part of `pycloudctl gc`: which metas go, and which objects keep their bytes. */
    method CollectGarbage(names: seq<string>, paths: seq<string>, resolve: string -> string, p: Policy) returns (ok: bool)
      requires Lists(names, metas) && ListsSegments(paths, DeleteMetas(Abs(), names, resolve, p).files)
      requires p.cutoff <= p.now
      modifies this
      ensures Result(Abs(), ok) == Collect(old(Abs()), names, paths, resolve, p)
      ensures ok ==> metas.Keys <= old(metas).Keys
      ensures forall n :: n in old(metas) ==>
        && (n !in metas <==> Expired(old(Abs()), metas.Keys, names, resolve, p, n))
        && (n in metas ==> OnlyMoved(metas[n], old(metas)[n]))
      ensures forall n, id ::
        n in old(metas) && Names(old(metas)[n].objectId, id) && old(metas)[n].lastAt.Some? ==>
          (n in metas <==> id in p.live || id in p.active || old(metas)[n].lastAt.value >= p.cutoff)
      ensures ok ==> forall n :: n in old(metas) ==> (n !in metas <==> Goes(old(Abs()), names, resolve, p, n))
      ensures ok ==> forall n :: n in metas && n in old(metas) ==>
        var kept := Read(Abs(), resolve, n) == Read(old(Abs()), resolve, n);
        Preservable(old(metas)[n], resolve) ==> (kept <==> Spared(old(Abs()), resolve, p, Home(old(metas)[n], resolve)))
    {
      hide Goes, Preservable, Spared, Expired, OnlyMoved, Sweep, DeleteMetas, Read, Home, ListsSegments, Normalize;
      DeleteExpired(names, resolve, p);
      ok := SweepSegments(names, paths);
      ghost var s := old(Abs());
      if ok {
        WhoSurvives(s, names, paths, resolve, p);
      }
      WhoIsCollected(s, names, paths, resolve, p);
      forall n, id | n in old(metas) && Names(old(metas)[n].objectId, id) && old(metas)[n].lastAt.Some?
        ensures n in metas <==> id in p.live || id in p.active || old(metas)[n].lastAt.value >= p.cutoff
      {
        DatedIsCollected(s, names, paths, resolve, p, n, id);
      }
    }
  }

  lemma WhoSurvives(s: Store, names: seq<string>, paths: seq<string>, resolve: string -> string, p: Policy)
    requires Lists(names, s.metas) && ListsSegments(paths, DeleteMetas(s, names, resolve, p).files)
    requires p.cutoff <= p.now && Collect(s, names, paths, resolve, p).ok
    ensures var t := Collect(s, names, paths, resolve, p).store;
      && t.metas.Keys <= s.metas.Keys
      && (forall n :: n in s.metas ==> (n !in t.metas <==> Goes(s, names, resolve, p, n)))
      && (forall n :: n in t.metas && n in s.metas ==>
            var kept := Read(t, resolve, n) == Read(s, resolve, n);
            Preservable(s.metas[n], resolve) ==> (kept <==> Spared(s, resolve, p, Home(s.metas[n], resolve))))
  {
    hide Goes, Preservable, Spared, Sweep, DeleteMetas, Collect, Read, Lists, ListsSegments;
    var t := Collect(s, names, paths, resolve, p).store;
    KeysOnlyShrink(s, names, paths, resolve, p);
    forall n | n in s.metas
      ensures n !in t.metas <==> Goes(s, names, resolve, p, n)
      ensures n in t.metas ==>
        var kept := Read(t, resolve, n) == Read(s, resolve, n);
        Preservable(s.metas[n], resolve) ==> (kept <==> Spared(s, resolve, p, Home(s.metas[n], resolve)))
    {
      CollectionPreservesSurvivors(s, names, paths, resolve, p, n);
    }
  }

  lemma WhoIsDeleted(s: Store, names: seq<string>, resolve: string -> string, p: Policy)
    requires Distinct(names) && p.cutoff <= p.now
    ensures var t := DeleteMetas(s, names, resolve, p).metas;
      forall n :: n in s.metas && n in names ==>
        && (n !in t <==> Expired(s, t.Keys, names, resolve, p, n))
        && (n in t ==> t[n] == s.metas[n])
    ensures var t := DeleteMetas(s, names, resolve, p).metas;
      forall n, id :: n in s.metas && n in names && Names(s.metas[n].objectId, id) && s.metas[n].lastAt.Some? ==>
        (n in t <==> id in p.live || id in p.active || s.metas[n].lastAt.value >= p.cutoff)
  {
    hide DeleteMetas, Expired, Names;
    var t := DeleteMetas(s, names, resolve, p).metas;
    forall n | n in s.metas && n in names
      ensures n !in t <==> Expired(s, t.Keys, names, resolve, p, n)
      ensures n in t ==> t[n] == s.metas[n]
    {
      ExactlyTheExpiredGo(s, names, resolve, p, n);
    }
    forall n, id | n in s.metas && n in names && Names(s.metas[n].objectId, id) && s.metas[n].lastAt.Some?
      ensures n in t <==> id in p.live || id in p.active || s.metas[n].lastAt.value >= p.cutoff
    {
      DatedObjects(s, names, resolve, p, n, id);
    }
  }

  lemma WhoIsCollected(s: Store, names: seq<string>, paths: seq<string>, resolve: string -> string, p: Policy)
    requires Lists(names, s.metas) && p.cutoff <= p.now
    ensures var t := Collect(s, names, paths, resolve, p).store.metas;
      forall n :: n in s.metas ==>
        && (n !in t <==> Expired(s, t.Keys, names, resolve, p, n))
        && (n in t ==> OnlyMoved(t[n], s.metas[n]))
  {
    hide Collect, Expired, OnlyMoved;
    var t := Collect(s, names, paths, resolve, p).store.metas;
    forall n | n in s.metas
      ensures n !in t <==> Expired(s, t.Keys, names, resolve, p, n)
      ensures n in t ==> OnlyMoved(t[n], s.metas[n])
    {
      CollectionTakesTheExpired(s, names, paths, resolve, p, n);
    }
  }

  lemma DatedIsCollected(
    s: Store, names: seq<string>, paths: seq<string>, resolve: string -> string, p: Policy, n: string, id: string)
    requires Lists(names, s.metas) && p.cutoff <= p.now
    requires n in s.metas && Names(s.metas[n].objectId, id) && s.metas[n].lastAt.Some?
    ensures n in Collect(s, names, paths, resolve, p).store.metas
      <==> id in p.live || id in p.active || s.metas[n].lastAt.value >= p.cutoff
  {
    hide Sweep, DeleteMetas, Names;
    var d := DeleteMetas(s, names, resolve, p);
    DatedObjects(s, names, resolve, p, n, id);
    SweepKeepsTheMetaSet(d, d.metas, names, paths);
  }

  lemma KeysOnlyShrink(s: Store, names: seq<string>, paths: seq<string>, resolve: string -> string, p: Policy)
    ensures Collect(s, names, paths, resolve, p).store.metas.Keys <= s.metas.Keys
  {
    DeletionsOnlyShrink(s, names, resolve, p);
    SweepKeepsTheMetaSet(DeleteMetas(s, names, resolve, p), DeleteMetas(s, names, resolve, p).metas, names, paths);
  }
}
