/** Exactly which objects every collection keeps: an object keeps its bytes in every store and
    under every policy that leaves its meta if and only if its meta is preservable. For each
    meta that is not, there is a store in which a collection takes or exchanges its bytes. */
module SegmentSurvival {
  import opened Prelude
  import opened SegmentStore
  import opened SegmentGc

  /** A collection that ends well, leaves the meta `m` of the name n and spares its file. */
  ghost predicate Applies(
    s: Store, names: seq<string>, paths: seq<string>, resolve: string -> string, p: Policy, n: string, m: Meta)
  {
    && n in s.metas && s.metas[n] == m && Lists(names, s.metas) && p.cutoff <= p.now
    && ListsSegments(paths, DeleteMetas(s, names, resolve, p).files)
    && !Goes(s, names, resolve, p, n) && Spared(s, resolve, p, Home(m, resolve))
    && Collect(s, names, paths, resolve, p).ok
  }

  ghost predicate Kept(
    s: Store, names: seq<string>, paths: seq<string>, resolve: string -> string, p: Policy, n: string)
    requires n in s.metas
  {
    var t := Collect(s, names, paths, resolve, p).store;
    n in t.metas && Read(t, resolve, n) == Read(s, resolve, n)
  }

  /** Whatever else is in the store, whatever the policy: the object keeps its bytes. */
  ghost predicate AlwaysKept(m: Meta, n: string, resolve: string -> string) {
    forall s: Store, names: seq<string>, paths: seq<string>, p: Policy ::
      Applies(s, names, paths, resolve, p, n, m) ==> Kept(s, names, paths, resolve, p, n)
  }

  /** An object is kept by every collection that leaves its meta if and only if its meta is
      preservable. */
  lemma KeptIffPreservable(m: Meta, n: string, resolve: string -> string)
    ensures AlwaysKept(m, n, resolve) <==> Preservable(m, resolve)
  {
    hide Applies, Kept;
    if Preservable(m, resolve) {
      forall s: Store, names: seq<string>, paths: seq<string>, p: Policy | Applies(s, names, paths, resolve, p, n, m)
        ensures n in s.metas && Kept(s, names, paths, resolve, p, n)
      {
        PreservableIsKept(s, names, paths, resolve, p, n, m);
      }
    } else {
      hide AlwaysKept;
      var home := Home(m, resolve);
      if !InSegments(home) {
        ObjectOutsideIsExchanged(m, n, resolve);
      } else if Refers(m, home) {
        UnrecordedLengthLosesTheObject(m, n, resolve);
      } else {
        OrphanIsLost(m, n, resolve);
      }
    }
  }

  lemma PreservableIsKept(
    s: Store, names: seq<string>, paths: seq<string>, resolve: string -> string, p: Policy, n: string, m: Meta)
    requires Preservable(m, resolve) && Applies(s, names, paths, resolve, p, n, m)
    ensures n in s.metas && Kept(s, names, paths, resolve, p, n)
  {
    hide Preservable, Goes, Spared;
    CollectionPreservesSurvivors(s, names, paths, resolve, p, n);
  }

  // ---------------------------------------------------------------- what can be lost

  /** A policy under which nothing is older than the cutoff. */
  function Lenient(m: Meta): Policy {
    var at := if m.lastAt.Some? then m.lastAt.value else 0;
    Policy({}, {}, at, at, _ => at)
  }

  lemma {:induction false} NobodyGoes(s: Store, names: seq<string>, resolve: string -> string, m: Meta)
    requires forall k :: k in s.metas ==> s.metas[k].lastAt == m.lastAt
    ensures DeleteMetas(s, names, resolve, Lenient(m)) == s
    ensures forall k :: k in s.metas ==> !Doomed(s.metas[k], s.files, resolve, Lenient(m))
    decreases names
  {
    if names != [] {
      assert DeleteOne(s, names[0], resolve, Lenient(m)) == s;
      NobodyGoes(s, names[1..], resolve, m);
    }
  }

  /** A store whose sweep takes or exchanges the bytes of n shows that m is not always kept. */
  lemma OneLossIsEnough(s: Store, names: seq<string>, paths: seq<string>, resolve: string -> string, n: string, m: Meta)
    requires n in s.metas && s.metas[n] == m && forall k :: k in s.metas ==> s.metas[k].lastAt == m.lastAt
    requires Lists(names, s.metas) && ListsSegments(paths, s.files) && Sweep(s, s.metas, names, paths).ok
    requires var t := Sweep(s, s.metas, names, paths).store; !(n in t.metas && Read(t, resolve, n) == Read(s, resolve, n))
    ensures !AlwaysKept(m, n, resolve)
  {
    hide Sweep, Doomed, DeleteMetas, ListsSegments, Lists;
    NobodyGoes(s, names, resolve, m);
    assert Applies(s, names, paths, resolve, Lenient(m), n, m);
    assert !Kept(s, names, paths, resolve, Lenient(m), n);
  }

  /** A segment that no row names is deleted: an object that lives there without naming it as
      the file system resolves it, without an id, or as a file of its own, is lost. */
  lemma OrphanIsLost(m: Meta, n: string, resolve: string -> string)
    requires InSegments(Home(m, resolve)) && !Refers(m, Home(m, resolve))
    ensures !AlwaysKept(m, n, resolve)
  {
    var home := Home(m, resolve);
    var s := Store(map[n := m], map[home := [1]]);
    assert [n][1..] == [];
    assert RowsOf(s.metas, [n], home) == [];
    assert SweepOne(s, home, []) == Result(Store(s.metas, map[]), true);
    OnePath(s, [n], home);
    OneLossIsEnough(s, [n], [home], resolve, n, m);
  }

  lemma OnePath(s: Store, names: seq<string>, path: string)
    ensures SweepOne(s, path, Refs(s.metas, names, path)).ok ==>
      Sweep(s, s.metas, names, [path]) == SweepOne(s, path, Refs(s.metas, names, path))
  {
    assert [path][1..] == [];
  }

  function Ones(n: nat): Bytes {
    seq(n, _ => 1)
  }

  /** A segment that holds one object. */
  function Alone(m: Meta, n: string, home: string): Store
    requires m.backend.Segment?
  {
    Store(map[n := m], map[home := Ones(Max0(m.backend.offset) + ReaderLength(m))])
  }

  /** The reader and the collector disagree about a length only where one is recorded that is
      not positive although the size is. The collector then copies nothing. */
  lemma UnrecordedLengthLosesTheObject(m: Meta, n: string, resolve: string -> string)
    requires m.backend.Segment? && RowLength(m) != ReaderLength(m)
    requires InSegments(Home(m, resolve)) && Refers(m, Home(m, resolve))
    ensures m.backend.length.Some? && m.backend.length.value <= 0 < m.size
    ensures var s := Alone(m, n, Home(m, resolve));
      var t := Collect(s, [n], [Home(m, resolve)], resolve, Lenient(m));
      && t.ok && n in t.store.metas
      && Read(s, resolve, n) == Some(Ones(m.size)) && Read(t.store, resolve, n) == Some([])
    ensures !AlwaysKept(m, n, resolve)
  {
    var s, home := Alone(m, n, Home(m, resolve)), Home(m, resolve);
    UnrecordedLengthInTheSweep(m, n, resolve);
    NobodyGoes(s, [n], resolve, m);
    hide Sweep, DeleteMetas, AlwaysKept, Read;
    OneLossIsEnough(s, [n], [home], resolve, n, m);
  }

  lemma UnrecordedLengthInTheSweep(m: Meta, n: string, resolve: string -> string)
    requires m.backend.Segment? && RowLength(m) != ReaderLength(m)
    requires InSegments(Home(m, resolve)) && Refers(m, Home(m, resolve))
    ensures var s := Alone(m, n, Home(m, resolve));
      var t := Sweep(s, s.metas, [n], [Home(m, resolve)]);
      && t.ok && n in t.store.metas
      && Read(s, resolve, n) == Some(Ones(m.size)) && Read(t.store, resolve, n) == Some([])
  {
    EmptyRowIsCompactedAway(Alone(m, n, Home(m, resolve)), n, Home(m, resolve));
    SliceOfOnes(Max0(m.backend.offset), m.size);
    assert Ones(m.size) != [];
  }

  lemma SliceOfOnes(offset: nat, length: nat)
    requires length > 0
    ensures Slice(Ones(offset + length), offset, length) == Ones(length)
  {
  }

  lemma OneRow(s: Store, n: string, path: string)
    requires n in s.metas && Refers(s.metas[n], path)
    ensures Refs(s.metas, [n], path) == [RowOf(n, s.metas[n])]
  {
    assert [n][1..] == [];
    var row := RowOf(n, s.metas[n]);
    assert RowsOf(s.metas, [n], path) == [row];
    assert [row][1..] == [];
    assert Sort([row]) == [row];
  }

  /** A segment whose only row is empty becomes empty. */
  lemma EmptyRowIsCompactedAway(s: Store, n: string, path: string)
    requires path in s.files && s.files[path] != []
    requires n in s.metas && Refers(s.metas[n], path) && RowLength(s.metas[n]) == 0
    ensures Sweep(s, s.metas, [n], [path])
      == Result(Store(s.metas[n := Moved(s.metas[n], 0, 0)], s.files[path := []] - {Tmp(path)}), true)
  {
    var src, row := s.files[path], RowOf(n, s.metas[n]);
    OneRow(s, n, path);
    assert [row][..0] == [];
    assert Total([row]) == 0;
    assert Slice(src, row.offset, 0) == [];
    assert [row][1..] == [];
    assert CopyRows(s.metas, src, [row], []) == CopyRows(MoveRow(s.metas, row, 0), src, [], []);
    OnePath(s, [n], path);
  }

  // ---------------------------------------------------------------- a path that leads elsewhere

  /** A meta whose path reads like that of a segment, but leads elsewhere, is moved with that
      segment: its offset changes, its bytes stay where they are. */
  lemma ObjectOutsideIsExchanged(m: Meta, n: string, resolve: string -> string)
    requires m.backend.Segment? && !InSegments(Home(m, resolve)) && InSegments(m.backend.relpath)
    requires m.objectId != "" && ReaderLength(m) > 0
    ensures !AlwaysKept(m, n, resolve)
  {
    var home, path, o := Home(m, resolve), m.backend.relpath, Max0(m.backend.offset);
    var k := n + "+";
    var first := m.(backend := Segment(path, 0, Some(o + 1)));
    var s := Store(map[n := m, k := first], map[home := Ones(o + 1), path := Ones(o + 1 + RowLength(m))]);
    assert |k| == |n| + 1;
    var rows := [RowOf(k, first), RowOf(n, m)];
    TextLeIsAnOrder(m.objectId, m.objectId, "");
    TwoRows(s, k, n, path);
    TwoRowsMove(s, path, rows);
    OnePath(s, [k, n], path);
    OneLossIsEnough(s, [k, n], [path], resolve, n, m);
  }

  lemma TwoRows(s: Store, k: string, n: string, path: string)
    requires k in s.metas && n in s.metas && Refers(s.metas[k], path) && Refers(s.metas[n], path)
    requires RowLe(RowOf(k, s.metas[k]), RowOf(n, s.metas[n]))
    ensures Refs(s.metas, [k, n], path) == [RowOf(k, s.metas[k]), RowOf(n, s.metas[n])]
  {
    OneRow(s, n, path);
    assert [k, n][1..] == [n];
    var a, b := RowOf(k, s.metas[k]), RowOf(n, s.metas[n]);
    assert RowsOf(s.metas, [n], path) == [b];
    assert RowsOf(s.metas, [k, n], path) == [a, b];
    assert [a, b][1..] == [b];
    assert Sort([b]) == [b];
  }

  /** The second row of a segment that is compacted lands behind the first. */
  lemma TwoRowsMove(s: Store, path: string, rows: seq<Row>)
    requires |rows| == 2 && DistinctRows(rows) && path in s.files && Present(s.metas, rows)
    requires AllInRange(s.files[path], rows) && rows[1].offset != rows[0].length
    ensures var t := SweepOne(s, path, rows);
      && t.ok && rows[1].name in t.store.metas
      && t.store.metas[rows[1].name] == Moved(s.metas[rows[1].name], rows[0].length, rows[1].length)
  {
    assert rows[..1] == [rows[0]];
    assert [rows[0]][..0] == [];
    assert Total(rows[..1]) == rows[0].length;
    assert !Packed(rows);
    CompactionLaysOut(s, path, rows, 1);
  }
}
