/** Collections keep what survives: every object whose meta is left reads the bytes it read
    before, and the copying loop lays a segment out without gaps. */
module SegmentGc {
  import opened Prelude
  import opened SegmentStore

  // ---------------------------------------------------------------- rows

  /** The rows of a segment are those of the listed metas that name it, once each. */
  lemma {:induction false} RowsAreTheReferringMetas(metas: map<string, Meta>, names: seq<string>, p: string)
    requires Distinct(names)
    ensures forall r :: r in RowsOf(metas, names, p) <==>
      (r.name in names && r.name in metas && Refers(metas[r.name], p) && r == RowOf(r.name, metas[r.name]))
    ensures DistinctRows(RowsOf(metas, names, p))
  {
    if names != [] {
      RowsAreTheReferringMetas(metas, names[1..], p);
      forall n | n in names ensures n == names[0] || n in names[1..] {}
      assert names[0] !in names[1..];
    }
  }

  predicate DistinctRows(rows: seq<Row>) {
    forall i, j :: 0 <= i < j < |rows| ==> rows[i].name != rows[j].name
  }

  lemma {:induction false} InsertKeeps(r: Row, rows: seq<Row>)
    ensures multiset(Insert(r, rows)) == multiset([r] + rows)
    ensures |Insert(r, rows)| == 1 + |rows|
  {
    if rows == [] || RowLe(r, rows[0]) {
    } else {
      InsertKeeps(r, rows[1..]);
      assert rows == [rows[0]] + rows[1..];
    }
  }

  lemma {:induction false} SortKeeps(rows: seq<Row>)
    ensures multiset(Sort(rows)) == multiset(rows) && |Sort(rows)| == |rows|
  {
    if rows != [] {
      SortKeeps(rows[1..]);
      InsertKeeps(rows[0], Sort(rows[1..]));
      assert rows == [rows[0]] + rows[1..];
    }
  }

  /** Distinctness of names only depends on the multiset of rows. */
  lemma DistinctByCount(rows: seq<Row>, sorted: seq<Row>)
    requires DistinctRows(rows) && multiset(rows) == multiset(sorted)
    ensures DistinctRows(sorted)
  {
    forall i, j | 0 <= i < j < |sorted| ensures sorted[i].name != sorted[j].name {
      if sorted[i].name == sorted[j].name {
        assert sorted[i] in multiset(rows) && sorted[j] in multiset(rows);
        var a, b := sorted[i], sorted[j];
        assert a in rows && b in rows;
        var x: nat :| x < |rows| && rows[x] == a;
        var y: nat :| y < |rows| && rows[y] == b;
        assert x == y;
        CountTwice(sorted, i, j);
        CountOnce(rows, x);
      }
    }
  }

  lemma CountTwice(s: seq<Row>, i: nat, j: nat)
    requires i < j < |s| && s[i] == s[j]
    ensures multiset(s)[s[i]] >= 2
  {
    assert s == s[..i] + [s[i]] + s[i + 1..j] + [s[j]] + s[j + 1..];
  }

  lemma CountOnce(s: seq<Row>, i: nat)
    requires i < |s| && DistinctRows(s)
    ensures multiset(s)[s[i]] == 1
  {
    assert s == s[..i] + [s[i]] + s[i + 1..];
    assert s[i] !in s[..i] && s[i] !in s[i + 1..];
  }

  /** What the sweep knows about the rows of a segment. */
  lemma RefsAreTheReferringMetas(metas: map<string, Meta>, names: seq<string>, p: string)
    requires Distinct(names)
    ensures forall r :: r in Refs(metas, names, p) <==>
      (r.name in names && r.name in metas && Refers(metas[r.name], p) && r == RowOf(r.name, metas[r.name]))
    ensures DistinctRows(Refs(metas, names, p))
  {
    var rows := RowsOf(metas, names, p);
    RowsAreTheReferringMetas(metas, names, p);
    SortKeeps(rows);
    DistinctByCount(rows, Sort(rows));
    forall r ensures r in rows <==> r in Sort(rows) {
      assert r in rows <==> r in multiset(rows);
      assert r in Sort(rows) <==> r in multiset(Sort(rows));
    }
  }

  // ---------------------------------------------------------------- the copying loop

  lemma {:induction false} TotalOfCons(r: Row, rows: seq<Row>)
    ensures Total([r] + rows) == r.length + Total(rows)
  {
    if rows != [] {
      TotalOfCons(r, rows[..|rows| - 1]);
      assert ([r] + rows)[..|rows|] == [r] + rows[..|rows| - 1];
    } else {
      assert ([r] + rows)[..0] == rows;
    }
  }

  /** Where row `i` lands. */
  function Landing(rows: seq<Row>, i: nat): nat
    requires i <= |rows|
  {
    Total(rows[..i])
  }

  lemma LandingOfTail(rows: seq<Row>, i: nat)
    requires i < |rows|
    ensures Landing(rows, i + 1) == rows[0].length + Landing(rows[1..], i)
  {
    TotalOfCons(rows[0], rows[1..][..i]);
    assert rows[..i + 1] == [rows[0]] + rows[1..][..i];
  }

  predicate AllInRange(b: Bytes, rows: seq<Row>) {
    forall r <- rows :: InRange(b, r)
  }

  predicate Present(metas: map<string, Meta>, rows: seq<Row>) {
    forall r <- rows :: r.name in metas && metas[r.name].backend.Segment?
  }

  /** The copying loop succeeds exactly when every row is in range. */
  lemma {:induction false} CopyEndsWell(metas: map<string, Meta>, src: Bytes, rows: seq<Row>, out: Bytes)
    ensures CopyRows(metas, src, rows, out).ok <==> AllInRange(src, rows)
    decreases rows
  {
    if rows != [] {
      forall r | r in rows ensures r == rows[0] || r in rows[1..] {}
      if InRange(src, rows[0]) {
        CopyEndsWell(MoveRow(metas, rows[0], |out|), src, rows[1..], out + Slice(src, rows[0].offset, rows[0].length));
      }
    }
  }

  /** It changes nothing but the place of the rows' metas. */
  lemma {:induction false} CopyTouchesOnlyItsRows(metas: map<string, Meta>, src: Bytes, rows: seq<Row>, out: Bytes)
    ensures var c := CopyRows(metas, src, rows, out);
      && c.metas.Keys == metas.Keys
      && (forall n :: n in metas && (forall r <- rows :: r.name != n) ==> c.metas[n] == metas[n])
      && out <= c.out
    decreases rows
  {
    if rows != [] && InRange(src, rows[0]) {
      CopyTouchesOnlyItsRows(
        MoveRow(metas, rows[0], |out|), src, rows[1..], out + Slice(src, rows[0].offset, rows[0].length));
    }
  }

  lemma {:induction false} CopyLength(metas: map<string, Meta>, src: Bytes, rows: seq<Row>, out: Bytes)
    requires AllInRange(src, rows)
    ensures |CopyRows(metas, src, rows, out).out| == |out| + Total(rows)
    decreases rows
  {
    if rows != [] {
      var rest := rows[1..];
      assert rows[0] in rows;
      assert forall r <- rest :: r in rows;
      TotalOfCons(rows[0], rest);
      assert rows == [rows[0]] + rest;
      CopyLength(MoveRow(metas, rows[0], |out|), src, rest, out + Slice(src, rows[0].offset, rows[0].length));
    }
  }

  /** The first row lands at the end of what was there. */
  lemma CopyLandsTheFirst(metas: map<string, Meta>, src: Bytes, rows: seq<Row>, out: Bytes)
    requires DistinctRows(rows) && Present(metas, rows) && rows != [] && InRange(src, rows[0])
    ensures var c := CopyRows(metas, src, rows, out);
      && rows[0].name in c.metas
      && c.metas[rows[0].name] == Moved(metas[rows[0].name], |out|, rows[0].length)
      && Slice(c.out, |out|, rows[0].length) == Slice(src, rows[0].offset, rows[0].length)
  {
    var blob := Slice(src, rows[0].offset, rows[0].length);
    var metas1 := MoveRow(metas, rows[0], |out|);
    assert rows[0] in rows;
    CopyTouchesOnlyItsRows(metas1, src, rows[1..], out + blob);
    assert forall r <- rows[1..] :: r.name != rows[0].name;
    SliceOfPrefix(out, blob, CopyRows(metas, src, rows, out).out);
  }

  /** A row with the meta `m` has landed at `at`. */
  predicate Landed(c: Copy, m: Meta, src: Bytes, row: Row, at: nat)
    requires m.backend.Segment?
  {
    && row.name in c.metas && c.metas[row.name] == Moved(m, at, row.length)
    && Slice(c.out, at, row.length) == Slice(src, row.offset, row.length)
  }

  lemma FirstHasLanded(metas: map<string, Meta>, src: Bytes, rows: seq<Row>, out: Bytes)
    requires DistinctRows(rows) && Present(metas, rows) && AllInRange(src, rows) && rows != []
    ensures rows[0].name in metas && metas[rows[0].name].backend.Segment?
    ensures Landed(CopyRows(metas, src, rows, out), metas[rows[0].name], src, rows[0], |out| + Landing(rows, 0))
  {
    assert rows[0] in rows;
    assert rows[..0] == [];
    CopyLandsTheFirst(metas, src, rows, out);
  }

  lemma CopyStep(metas: map<string, Meta>, src: Bytes, rows: seq<Row>, out: Bytes)
    requires rows != [] && InRange(src, rows[0])
    ensures CopyRows(metas, src, rows, out)
      == CopyRows(MoveRow(metas, rows[0], |out|), src, rows[1..], out + Slice(src, rows[0].offset, rows[0].length))
  {
  }

  /** Row `i` lands behind the rows before it, its meta says so, and its bytes are there. */
  lemma {:induction false} CopyLandsEveryRow(metas: map<string, Meta>, src: Bytes, rows: seq<Row>, out: Bytes, i: nat)
    requires DistinctRows(rows) && Present(metas, rows) && AllInRange(src, rows) && i < |rows|
    ensures rows[i] in rows
    ensures Landed(CopyRows(metas, src, rows, out), metas[rows[i].name], src, rows[i], |out| + Landing(rows, i))
    decreases i
  {
    hide CopyRows, MoveRow, Landed, Landing, DistinctRows, AllInRange, Slice;
    assert rows[i] in rows;
    if i == 0 {
      FirstHasLanded(metas, src, rows, out);
    } else {
      hide Present;
      var blob, rest := Slice(src, rows[0].offset, rows[0].length), rows[1..];
      RestIsReady(metas, src, rows, |out|);
      CopyStep(metas, src, rows, out);
      OthersStay(metas, rows, |out|, i);
      LandingOfTail(rows, i - 1);
      assert rest[i - 1] == rows[i];
      assert |out + blob| + Landing(rest, i - 1) == |out| + Landing(rows, i);
      CopyLandsEveryRow(MoveRow(metas, rows[0], |out|), src, rest, out + blob, i - 1);
    }
  }

  lemma OthersStay(metas: map<string, Meta>, rows: seq<Row>, offset: nat, i: nat)
    requires DistinctRows(rows) && Present(metas, rows) && 0 < i < |rows|
    ensures rows[i] in rows && rows[i].name in metas && metas[rows[i].name].backend.Segment?
    ensures var later := MoveRow(metas, rows[0], offset);
      rows[i].name in later && later[rows[i].name] == metas[rows[i].name]
  {
    assert rows[0].name != rows[i].name;
  }

  lemma RestIsReady(metas: map<string, Meta>, src: Bytes, rows: seq<Row>, offset: nat)
    requires rows != [] && DistinctRows(rows) && Present(metas, rows) && AllInRange(src, rows)
    ensures InRange(src, rows[0])
    ensures DistinctRows(rows[1..]) && Present(MoveRow(metas, rows[0], offset), rows[1..]) && AllInRange(src, rows[1..])
  {
    assert rows[0] in rows;
    assert forall r <- rows[1..] :: r in rows;
  }

  lemma SliceOfPrefix(out: Bytes, blob: Bytes, whole: Bytes)
    requires out + blob <= whole
    ensures Slice(whole, |out|, |blob|) == blob
  {
    assert whole[..|out + blob|] == out + blob;
    if |out| < |whole| && |out| + |blob| < |whole| {
      assert whole[|out|..|out| + |blob|] == whole[..|out + blob|][|out|..];
    }
  }

  /** The layout: offsets are the prefix sums of the lengths in row order, and the new file
      is exactly as long as its live bytes, even when rows overlapped. */
  lemma CompactionLaysOut(s: Store, path: string, rows: seq<Row>, i: nat)
    requires path in s.files && NeedsCompaction(|s.files[path]|, rows)
    requires DistinctRows(rows) && Present(s.metas, rows) && AllInRange(s.files[path], rows) && i < |rows|
    ensures var t := Compact(s, path, rows);
      && t.ok && path in t.store.files && |t.store.files[path]| == Total(rows)
      && rows[i].name in t.store.metas
      && t.store.metas[rows[i].name] == Moved(s.metas[rows[i].name], Total(rows[..i]), rows[i].length)
      && Slice(t.store.files[path], Total(rows[..i]), rows[i].length)
         == Slice(s.files[path], rows[i].offset, rows[i].length)
  {
    CopyEndsWell(s.metas, s.files[path], rows, []);
    CopyLength(s.metas, s.files[path], rows, []);
    CopyLandsEveryRow(s.metas, s.files[path], rows, [], i);
  }

  // ---------------------------------------------------------------- one segment of the sweep

  /** Away from its own file and its temporary file a step changes no file, and away from its
      rows no meta. */
  lemma SweepOneElsewhere(s: Store, p: string, rows: seq<Row>)
    ensures var r := SweepOne(s, p, rows);
      && r.store.metas.Keys == s.metas.Keys
      && (forall n :: n in s.metas && (forall x <- rows :: x.name != n) ==> r.store.metas[n] == s.metas[n])
      && (forall q :: q != p && q != Tmp(p) ==>
            ((q in r.store.files <==> q in s.files) && (q in s.files ==> r.store.files[q] == s.files[q])))
      && (r.ok && Tmp(p) in r.store.files ==> Tmp(p) in s.files && r.store.files[Tmp(p)] == s.files[Tmp(p)])
  {
    if p in s.files && NeedsCompaction(|s.files[p]|, rows) {
      CopyTouchesOnlyItsRows(s.metas, s.files[p], rows, []);
    }
  }

  /** Compaction uses up the temporary file. */
  lemma SweepOneTmp(s: Store, p: string, rows: seq<Row>)
    ensures var r := SweepOne(s, p, rows);
      r.ok ==> (Tmp(p) in r.store.files
        <==> (Tmp(p) in s.files && !(p in s.files && NeedsCompaction(|s.files[p]|, rows))))
  {
  }

  /** A step fails exactly on a missing file or on a row that it must copy and cannot. */
  lemma SweepOneEndsWell(s: Store, p: string, rows: seq<Row>)
    ensures SweepOne(s, p, rows).ok <==>
      (p in s.files && (NeedsCompaction(|s.files[p]|, rows) ==> AllInRange(s.files[p], rows)))
  {
    if p in s.files {
      CopyEndsWell(s.metas, s.files[p], rows, []);
    }
  }

  /** Until its segment is swept, a meta is as it was when the rows were read. */
  predicate Untouched(s: Store, metas: map<string, Meta>, n: string) {
    n in metas && n in s.metas && s.metas[n] == metas[n]
  }

  predicate AllUntouched(s: Store, metas: map<string, Meta>, rows: seq<Row>) {
    forall r <- rows :: Untouched(s, metas, r.name)
  }

  /** The segment an object lives in is swept: it still reads the same bytes. */
  lemma SweepOneKeepsItsObjects(s: Store, metas: map<string, Meta>, names: seq<string>, p: string, n: string)
    requires Distinct(names) && n in names && n in metas && Refers(metas[n], p)
    requires RowLength(metas[n]) == ReaderLength(metas[n])
    requires AllUntouched(s, metas, Refs(metas, names, p))
    requires SweepOne(s, p, Refs(metas, names, p)).ok
    ensures var r := SweepOne(s, p, Refs(metas, names, p)).store;
      && p in s.files && p in r.files && n in r.metas && r.metas[n].backend.Segment?
      && r.metas[n].backend.relpath == p
      && Slice(r.files[p], Max0(r.metas[n].backend.offset), ReaderLength(r.metas[n]))
         == Slice(s.files[p], Max0(metas[n].backend.offset), ReaderLength(metas[n]))
  {
    var rows := Refs(metas, names, p);
    RefsAreTheReferringMetas(metas, names, p);
    var row := RowOf(n, metas[n]);
    assert row in rows;
    SweepOneEndsWell(s, p, rows);
    if NeedsCompaction(|s.files[p]|, rows) {
      var i: nat :| i < |rows| && rows[i] == row;
      assert Present(s.metas, rows);
      CompactionLaysOut(s, p, rows, i);
    }
  }

  // ---------------------------------------------------------------- the whole sweep

  lemma {:induction false} MissingFileFails(
    s: Store, metas: map<string, Meta>, names: seq<string>, paths: seq<string>, q: string)
    requires q in paths && q !in s.files
    ensures !Sweep(s, metas, names, paths).ok
    decreases paths
  {
    var rows := Refs(metas, names, paths[0]);
    SweepOneElsewhere(s, paths[0], rows);
    if q != paths[0] && SweepOne(s, paths[0], rows).ok {
      MissingFileFails(SweepOne(s, paths[0], rows).store, metas, names, paths[1..], q);
    }
  }

  lemma {:induction false} SweepLeavesOtherFiles(
    s: Store, metas: map<string, Meta>, names: seq<string>, paths: seq<string>, q: string)
    requires forall p <- paths :: q != p && q != Tmp(p)
    ensures var t := Sweep(s, metas, names, paths).store;
      (q in t.files <==> q in s.files) && (q in s.files ==> t.files[q] == s.files[q])
    decreases paths
  {
    if paths != [] {
      var r := SweepOne(s, paths[0], Refs(metas, names, paths[0]));
      assert paths[0] in paths;
      SweepOneElsewhere(s, paths[0], Refs(metas, names, paths[0]));
      if r.ok {
        assert forall p <- paths[1..] :: p in paths;
        SweepLeavesOtherFiles(r.store, metas, names, paths[1..], q);
      }
    }
  }

  lemma {:induction false} SweepLeavesOtherMetas(
    s: Store, metas: map<string, Meta>, names: seq<string>, paths: seq<string>, n: string)
    requires Distinct(names) && n in s.metas
    requires forall p <- paths :: !(n in metas && Refers(metas[n], p))
    ensures var t := Sweep(s, metas, names, paths).store; n in t.metas && t.metas[n] == s.metas[n]
    decreases paths
  {
    if paths != [] {
      var rows := Refs(metas, names, paths[0]);
      var r := SweepOne(s, paths[0], rows);
      SweepOneElsewhere(s, paths[0], rows);
      RefsAreTheReferringMetas(metas, names, paths[0]);
      assert paths[0] in paths;
      assert forall x <- rows :: x.name != n;
      if r.ok {
        assert forall p <- paths[1..] :: p in paths;
        SweepLeavesOtherMetas(r.store, metas, names, paths[1..], n);
      }
    }
  }

  lemma {:induction false} SweepKeepsTheMetaSet(
    s: Store, metas: map<string, Meta>, names: seq<string>, paths: seq<string>)
    ensures Sweep(s, metas, names, paths).store.metas.Keys == s.metas.Keys
    decreases paths
  {
    if paths != [] {
      var r := SweepOne(s, paths[0], Refs(metas, names, paths[0]));
      SweepOneElsewhere(s, paths[0], Refs(metas, names, paths[0]));
      if r.ok {
        SweepKeepsTheMetaSet(r.store, metas, names, paths[1..]);
      }
    }
  }

  lemma {:induction false} SweepKeepsRelpaths(
    s: Store, metas: map<string, Meta>, names: seq<string>, paths: seq<string>, n: string)
    requires n in s.metas && s.metas[n].backend.Segment?
    ensures var t := Sweep(s, metas, names, paths).store;
      && n in t.metas && t.metas[n].backend.Segment?
      && t.metas[n].backend.relpath == s.metas[n].backend.relpath
    decreases paths
  {
    if paths != [] {
      var rows := Refs(metas, names, paths[0]);
      var r := SweepOne(s, paths[0], rows);
      if paths[0] in s.files {
        CopyKeepsRelpaths(s.metas, s.files[paths[0]], rows, [], n);
      }
      if r.ok {
        SweepKeepsRelpaths(r.store, metas, names, paths[1..], n);
      }
    }
  }

  lemma {:induction false} CopyKeepsRelpaths(metas: map<string, Meta>, src: Bytes, rows: seq<Row>, out: Bytes, n: string)
    requires n in metas && metas[n].backend.Segment?
    ensures var c := CopyRows(metas, src, rows, out).metas;
      n in c && c[n].backend.Segment? && c[n].backend.relpath == metas[n].backend.relpath
    decreases rows
  {
    if rows != [] && InRange(src, rows[0]) {
      CopyKeepsRelpaths(
        MoveRow(metas, rows[0], |out|), src, rows[1..], out + Slice(src, rows[0].offset, rows[0].length), n);
    }
  }

  /** The metas of the segments still to come are as they were. */
  ghost predicate Ahead(s: Store, metas: map<string, Meta>, names: seq<string>, paths: seq<string>) {
    forall p, n :: p in paths && n in metas && Refers(metas[n], p) ==> Untouched(s, metas, n)
  }

  lemma AheadStep(s: Store, metas: map<string, Meta>, names: seq<string>, paths: seq<string>)
    requires Distinct(names) && Distinct(paths) && paths != [] && Ahead(s, metas, names, paths)
    ensures Ahead(SweepOne(s, paths[0], Refs(metas, names, paths[0])).store, metas, names, paths[1..])
    ensures AllUntouched(s, metas, Refs(metas, names, paths[0]))
  {
    var rows := Refs(metas, names, paths[0]);
    RefsAreTheReferringMetas(metas, names, paths[0]);
    SweepOneElsewhere(s, paths[0], rows);
    assert paths[0] in paths;
    forall p, n | p in paths[1..] && n in metas && Refers(metas[n], p)
      ensures Untouched(SweepOne(s, paths[0], rows).store, metas, n)
    {
      assert p in paths && Untouched(s, metas, n);
      assert forall x <- rows :: x.name != n;
    }
  }

  /** A finished sweep keeps the bytes of every object whose segment it visits. */
  lemma {:induction false} SweepKeepsObjects(
    s: Store, metas: map<string, Meta>, names: seq<string>, paths: seq<string>, p: string, n: string)
    requires Distinct(names) && Distinct(paths) && TmpLast(paths) && Ahead(s, metas, names, paths)
    requires n in names && n in metas && Refers(metas[n], p) && p in paths
    requires RowLength(metas[n]) == ReaderLength(metas[n])
    requires Sweep(s, metas, names, paths).ok
    ensures var t := Sweep(s, metas, names, paths).store;
      && p in s.files && p in t.files && n in t.metas
      && t.metas[n].backend.Segment? && t.metas[n].backend.relpath == p
      && Slice(t.files[p], Max0(t.metas[n].backend.offset), ReaderLength(t.metas[n]))
         == Slice(s.files[p], Max0(metas[n].backend.offset), ReaderLength(metas[n]))
    decreases paths
  {
    var rows := Refs(metas, names, paths[0]);
    var r := SweepOne(s, paths[0], rows).store;
    AheadStep(s, metas, names, paths);
    SweepOneElsewhere(s, paths[0], rows);
    if p == paths[0] {
      SweepOneKeepsItsObjects(s, metas, names, p, n);
      forall q | q in paths[1..] ensures q != p && p != Tmp(q) {
        var i: nat :| i < |paths[1..]| && paths[1..][i] == q;
        assert paths[i + 1] == q;
      }
      SweepLeavesOtherFiles(r, metas, names, paths[1..], p);
      SweepLeavesOtherMetas(r, metas, names, paths[1..], n);
    } else {
      SweepKeepsObjects(r, metas, names, paths[1..], p, n);
    }
  }

  // ---------------------------------------------------------------- the deletions

  /** Losing its file never makes an object older: the cutoff lies in the past. */
  lemma AgeOnlyFalls(m: Meta, fewer: map<string, Bytes>, files: map<string, Bytes>, resolve: string -> string, p: Policy)
    requires p.cutoff <= p.now && fewer.Keys <= files.Keys
    ensures Doomed(m, fewer, resolve, p) ==> Doomed(m, files, resolve, p)
  {
  }

  /** Deleting takes away only doomed metas and their files; every other meta is kept. */
  lemma {:induction false} DeletionsAreDoomed(
    s: Store, names: seq<string>, resolve: string -> string, p: Policy, n: string)
    requires n in s.metas && p.cutoff <= p.now
    ensures var t := DeleteMetas(s, names, resolve, p);
      && (n in t.metas ==> t.metas[n] == s.metas[n])
      && (n !in t.metas ==> Doomed(s.metas[n], s.files, resolve, p))
      && t.metas.Keys <= s.metas.Keys
      && (forall q :: q in t.files ==> q in s.files && t.files[q] == s.files[q])
    decreases names
  {
    if names != [] {
      var d := DeleteOne(s, names[0], resolve, p);
      if n in d.metas {
        DeletionsAreDoomed(d, names[1..], resolve, p, n);
        AgeOnlyFalls(s.metas[n], d.files, s.files, resolve, p);
      } else {
        DeletionsOnlyShrink(d, names[1..], resolve, p);
      }
    }
  }

  lemma {:induction false} DeletionsOnlyShrink(s: Store, names: seq<string>, resolve: string -> string, p: Policy)
    ensures var t := DeleteMetas(s, names, resolve, p);
      && t.metas.Keys <= s.metas.Keys
      && (forall q :: q in t.files ==> q in s.files && t.files[q] == s.files[q])
    decreases names
  {
    if names != [] {
      DeletionsOnlyShrink(DeleteOne(s, names[0], resolve, p), names[1..], resolve, p);
    }
  }

  /** A file goes only with a deleted meta that it backs. */
  lemma {:induction false} FilesGoWithTheirMetas(
    s: Store, names: seq<string>, resolve: string -> string, p: Policy, q: string)
    requires q in s.files
    ensures var t := DeleteMetas(s, names, resolve, p);
      q !in t.files ==> exists k :: k in s.metas && k !in t.metas && s.metas[k].backend == File(q)
    decreases names
  {
    if names != [] {
      var d := DeleteOne(s, names[0], resolve, p);
      DeletionsOnlyShrink(d, names[1..], resolve, p);
      if q in d.files {
        FilesGoWithTheirMetas(d, names[1..], resolve, p, q);
      } else {
        assert s.metas[names[0]].backend == File(q);
      }
    }
  }

  predicate Earlier(names: seq<string>, k: string, n: string) {
    exists i, j :: 0 <= i < j < |names| && names[i] == k && names[j] == n
  }

  /** A doomed meta that comes before n in the listing and is backed by n's file. */
  ghost predicate Robs(s: Store, names: seq<string>, resolve: string -> string, p: Policy, k: string, n: string, home: string) {
    k in s.metas && Earlier(names, k, n) && s.metas[k].backend == File(home) && Doomed(s.metas[k], s.files, resolve, p)
  }

  ghost predicate Robbed(s: Store, names: seq<string>, resolve: string -> string, p: Policy, n: string)
    requires n in s.metas
  {
    exists k :: Robs(s, names, resolve, p, k, n, Home(s.metas[n], resolve))
  }

  /** What decides about a meta before the collection starts: it is doomed, and its age does
      not depend on a file that is gone by the time it is looked at. */
  ghost predicate Goes(s: Store, names: seq<string>, resolve: string -> string, p: Policy, n: string)
    requires n in s.metas
  {
    Doomed(s.metas[n], s.files, resolve, p) && (s.metas[n].lastAt.Some? || !Robbed(s, names, resolve, p, n))
  }

  lemma {:induction false} UnlistedStays(s: Store, names: seq<string>, resolve: string -> string, p: Policy, n: string)
    requires n in s.metas && n !in names
    ensures n in DeleteMetas(s, names, resolve, p).metas
    decreases names
  {
    if names != [] {
      UnlistedStays(DeleteOne(s, names[0], resolve, p), names[1..], resolve, p, n);
    }
  }

  lemma EarlierInTail(names: seq<string>, k: string, n: string)
    requires Distinct(names) && names != [] && names[0] != n
    ensures Earlier(names, k, n) <==> (k == names[0] && n in names) || Earlier(names[1..], k, n)
    ensures !Earlier(names[1..], names[0], n)
  {
    if Earlier(names, k, n) {
      var i, j :| 0 <= i < j < |names| && names[i] == k && names[j] == n;
      if i > 0 {
        assert names[1..][i - 1] == k && names[1..][j - 1] == n;
      }
    }
    if n in names {
      var j: nat :| j < |names| && names[j] == n;
      assert names[0] == names[0] && 0 < j;
    }
    if Earlier(names[1..], k, n) {
      var i, j :| 0 <= i < j < |names[1..]| && names[1..][i] == k && names[1..][j] == n;
      assert names[i + 1] == k && names[j + 1] == n;
    }
  }

  /** Deleting the first listed meta decides nothing about n that was not decided before. */
  lemma GoesAfterOne(s: Store, names: seq<string>, resolve: string -> string, p: Policy, n: string)
    requires n in s.metas && n in names && Distinct(names) && names[0] != n && p.cutoff <= p.now
    ensures var d := DeleteOne(s, names[0], resolve, p);
      n in d.metas && d.metas[n] == s.metas[n] && (Goes(s, names, resolve, p, n) <==> Goes(d, names[1..], resolve, p, n))
  {
    var x, d, m := names[0], DeleteOne(s, names[0], resolve, p), s.metas[n];
    var home := Home(m, resolve);
    if m.lastAt.None? {
      if x in s.metas && s.metas[x].backend == File(home) && Doomed(s.metas[x], s.files, resolve, p) {
        EarlierInTail(names, x, n);
        assert Robs(s, names, resolve, p, x, n, home);
        assert Robbed(s, names, resolve, p, n);
        assert home !in d.files;
      } else {
        assert home in d.files <==> home in s.files;
        assert Robbed(s, names, resolve, p, n) <==> Robbed(d, names[1..], resolve, p, n) by {
          RobbedAfterOne(s, names, resolve, p, n);
        }
      }
    }
  }

  /** Deleting another meta does not change what makes k doomed, when k is backed by a file that stays. */
  lemma RobsAfterOne(
    s: Store, names: seq<string>, resolve: string -> string, p: Policy, k: string, n: string, home: string)
    requires n in names && Distinct(names) && names[0] != n
    requires var x := names[0];
      !(x in s.metas && s.metas[x].backend == File(home) && Doomed(s.metas[x], s.files, resolve, p))
    ensures Robs(s, names, resolve, p, k, n, home)
      <==> Robs(DeleteOne(s, names[0], resolve, p), names[1..], resolve, p, k, n, home)
  {
    hide Earlier;
    EarlierInTail(names, k, n);
  }

  lemma RobbedAfterOne(s: Store, names: seq<string>, resolve: string -> string, p: Policy, n: string)
    requires n in s.metas && n in names && Distinct(names) && names[0] != n
    requires var x := names[0];
      !(x in s.metas && s.metas[x].backend == File(Home(s.metas[n], resolve)) && Doomed(s.metas[x], s.files, resolve, p))
    requires var d := DeleteOne(s, names[0], resolve, p); n in d.metas && d.metas[n] == s.metas[n]
    ensures Robbed(s, names, resolve, p, n) <==> Robbed(DeleteOne(s, names[0], resolve, p), names[1..], resolve, p, n)
  {
    hide Earlier, Doomed, DeleteOne;
    var home := Home(s.metas[n], resolve);
    forall k
      ensures Robs(s, names, resolve, p, k, n, home)
        <==> Robs(DeleteOne(s, names[0], resolve, p), names[1..], resolve, p, k, n, home)
    {
      RobsAfterOne(s, names, resolve, p, k, n, home);
    }
  }

  /** Exactly these metas are deleted. */
  lemma {:induction false} TheDoomedAreDeleted(
    s: Store, names: seq<string>, resolve: string -> string, p: Policy, n: string)
    requires n in s.metas && n in names && Distinct(names) && p.cutoff <= p.now
    ensures n !in DeleteMetas(s, names, resolve, p).metas <==> Goes(s, names, resolve, p, n)
    decreases names
  {
    var d := DeleteOne(s, names[0], resolve, p);
    if n == names[0] {
      assert !Robbed(s, names, resolve, p, n) by {
        assert forall k :: !Earlier(names, k, n);
      }
      if n in d.metas {
        UnlistedStays(d, names[1..], resolve, p, n);
      } else {
        DeletionsOnlyShrink(d, names[1..], resolve, p);
      }
    } else {
      GoesAfterOne(s, names, resolve, p, n);
      TheDoomedAreDeleted(d, names[1..], resolve, p, n);
    }
  }

  // ---------------------------------------------------------------- the collection

  /** What a meta needs for its object to be kept whole:
      - a file of its own must not lie among the segments;
      - in a segment, its path must be written as the file system resolves it, it must have
        an id, and the collector and the reader must agree on its length;
      - where its path leads out of the segments, it must not read like the path of a segment,
        or there must be nothing to read. */
  predicate Preservable(m: Meta, resolve: string -> string) {
    var home := Home(m, resolve);
    if m.backend.File? then !InSegments(home)
    else if InSegments(home) then
      resolve(m.backend.relpath) == m.backend.relpath && m.objectId != "" && RowLength(m) == ReaderLength(m)
    else !(InSegments(m.backend.relpath) && m.objectId != "") || ReaderLength(m) == 0
  }

  /** The file at `home`, if there is one, does not go with a doomed meta. */
  ghost predicate Spared(s: Store, resolve: string -> string, p: Policy, home: string) {
    home in s.files ==>
      forall k :: k in s.metas && Doomed(s.metas[k], s.files, resolve, p) ==> s.metas[k].backend != File(home)
  }

  /** The main result: a finished collection deletes exactly the metas that go and creates
      none, and a preservable object whose meta stays reads what it read before exactly when
      its file does not go with another meta. */
  lemma CollectionPreservesSurvivors(
    s: Store, names: seq<string>, paths: seq<string>, resolve: string -> string, p: Policy, n: string)
    requires Lists(names, s.metas)
    requires ListsSegments(paths, DeleteMetas(s, names, resolve, p).files)
    requires Collect(s, names, paths, resolve, p).ok
    requires n in s.metas && p.cutoff <= p.now
    ensures var t := Collect(s, names, paths, resolve, p).store;
      && t.metas.Keys <= s.metas.Keys
      && (n !in t.metas <==> Goes(s, names, resolve, p, n))
      && (n in t.metas && Preservable(s.metas[n], resolve) ==>
            (Read(t, resolve, n) == Read(s, resolve, n) <==> Spared(s, resolve, p, Home(s.metas[n], resolve))))
  {
    hide Goes, Preservable, Spared, ListsSegments;
    var d := DeleteMetas(s, names, resolve, p);
    DeletionsOnlyShrink(s, names, resolve, p);
    TheDoomedAreDeleted(s, names, resolve, p, n);
    SweepKeepsTheMetaSet(d, d.metas, names, paths);
    if n in d.metas && Preservable(s.metas[n], resolve) {
      if Spared(s, resolve, p, Home(s.metas[n], resolve)) {
        SurvivorReadsTheSame(s, names, paths, resolve, p, n);
      } else {
        SurvivorWithoutItsFile(s, names, paths, resolve, p, n);
      }
    }
  }

  lemma SurvivorReadsTheSame(
    s: Store, names: seq<string>, paths: seq<string>, resolve: string -> string, p: Policy, n: string)
    requires Lists(names, s.metas)
    requires ListsSegments(paths, DeleteMetas(s, names, resolve, p).files)
    requires Collect(s, names, paths, resolve, p).ok && n in s.metas && p.cutoff <= p.now
    requires n in DeleteMetas(s, names, resolve, p).metas
    requires Preservable(s.metas[n], resolve) && Spared(s, resolve, p, Home(s.metas[n], resolve))
    ensures n in Collect(s, names, paths, resolve, p).store.metas
    ensures Read(Collect(s, names, paths, resolve, p).store, resolve, n) == Read(s, resolve, n)
  {
    hide Preservable, Spared, ListsSegments, DeleteMetas, Sweep;
    var d := DeleteMetas(s, names, resolve, p);
    DeletionsAreDoomed(s, names, resolve, p, n);
    HomeOutlivesTheDeletions(s, names, resolve, p, n, Home(s.metas[n], resolve));
    SweepKeepsThePreservable(d, names, paths, resolve, n);
  }

  lemma SurvivorWithoutItsFile(
    s: Store, names: seq<string>, paths: seq<string>, resolve: string -> string, p: Policy, n: string)
    requires Lists(names, s.metas) && Collect(s, names, paths, resolve, p).ok && n in s.metas && p.cutoff <= p.now
    requires n in DeleteMetas(s, names, resolve, p).metas && !Spared(s, resolve, p, Home(s.metas[n], resolve))
    ensures n in Collect(s, names, paths, resolve, p).store.metas
    ensures Read(s, resolve, n).Some? && Read(Collect(s, names, paths, resolve, p).store, resolve, n).None?
  {
    hide Sweep, DeleteMetas, Doomed;
    var d, home := DeleteMetas(s, names, resolve, p), Home(s.metas[n], resolve);
    var k :| k in s.metas && Doomed(s.metas[k], s.files, resolve, p) && s.metas[k].backend == File(home);
    FileOfTheDoomedGoes(s, names, resolve, p, k, home);
    DeletionsAreDoomed(s, names, resolve, p, n);
    NothingAppears(d, d.metas, names, paths, home);
    if s.metas[n].backend.Segment? {
      SweepKeepsRelpaths(d, d.metas, names, paths, n);
    } else {
      SweepLeavesOtherMetas(d, d.metas, names, paths, n);
    }
  }

  /** The file of a doomed meta is deleted, with that meta or with one before it. */
  lemma {:induction false} FileOfTheDoomedGoes(
    s: Store, names: seq<string>, resolve: string -> string, p: Policy, k: string, home: string)
    requires k in names && k in s.metas && s.metas[k].backend == File(home) && Doomed(s.metas[k], s.files, resolve, p)
    ensures home !in DeleteMetas(s, names, resolve, p).files
    decreases names
  {
    var d := DeleteOne(s, names[0], resolve, p);
    if home in d.files {
      FileOfTheDoomedGoes(d, names[1..], resolve, p, k, home);
    } else {
      DeletionsOnlyShrink(d, names[1..], resolve, p);
    }
  }

  /** The sweep alone: it keeps every preservable object. */
  lemma SweepKeepsThePreservable(d: Store, names: seq<string>, paths: seq<string>, resolve: string -> string, n: string)
    requires Distinct(names) && n in names && n in d.metas && Preservable(d.metas[n], resolve)
    requires ListsSegments(paths, d.files) && Sweep(d, d.metas, names, paths).ok
    ensures var t := Sweep(d, d.metas, names, paths).store; n in t.metas && Read(t, resolve, n) == Read(d, resolve, n)
  {
    hide Sweep;
    SweepKeepsTheMetaSet(d, d.metas, names, paths);
    var m := d.metas[n];
    var home := Home(m, resolve);
    if m.backend.Segment? && home in paths {
      assert Ahead(d, d.metas, names, paths);
      SweepKeepsObjects(d, d.metas, names, paths, home, n);
    } else {
      hide ListsSegments;
      SweepLeavesTheHome(d, names, paths, home);
      if m.backend.Segment? && ReaderLength(m) == 0 {
        SweepKeepsEmptyReads(d, d.metas, names, paths, n);
        if home in d.files {
          EmptySlice(d.files[home]);
        }
      } else {
        NobodyReadsTheRows(d, names, paths, resolve, n);
        SweepLeavesOtherMetas(d, d.metas, names, paths, n);
      }
    }
  }

  /** An object that is not in a listed segment and has something to read has no row. */
  lemma NobodyReadsTheRows(d: Store, names: seq<string>, paths: seq<string>, resolve: string -> string, n: string)
    requires n in d.metas && Preservable(d.metas[n], resolve) && ListsSegments(paths, d.files)
    requires var m := d.metas[n]; !(m.backend.Segment? && (Home(m, resolve) in paths || ReaderLength(m) == 0))
    ensures forall p <- paths :: !(n in d.metas && Refers(d.metas[n], p))
  {
    forall p | p in paths ensures !Refers(d.metas[n], p) {
      assert InSegments(p);
    }
  }

  /** A file that is not a segment is as it was. */
  lemma SweepLeavesTheHome(d: Store, names: seq<string>, paths: seq<string>, home: string)
    requires ListsSegments(paths, d.files) && home !in paths && Sweep(d, d.metas, names, paths).ok
    ensures var t := Sweep(d, d.metas, names, paths).store;
      (home in t.files <==> home in d.files) && (home in d.files ==> t.files[home] == d.files[home])
  {
    if home in d.files {
      HomeOutsideTheSegments(paths, d.files, home);
      SweepLeavesOtherFiles(d, d.metas, names, paths, home);
    } else {
      NothingAppears(d, d.metas, names, paths, home);
    }
  }

  lemma EmptySlice(b: Bytes)
    ensures forall offset: nat :: Slice(b, offset, 0) == []
  {
  }

  /** A segment meta with nothing to read. */
  predicate ReadsNothing(m: Meta, relpath: string) {
    m.backend.Segment? && m.backend.relpath == relpath && ReaderLength(m) == 0
  }

  lemma {:induction false} CopyKeepsEmptyReads(
    metas: map<string, Meta>, src: Bytes, rows: seq<Row>, out: Bytes, n: string, relpath: string)
    requires n in metas && ReadsNothing(metas[n], relpath) && forall r <- rows :: r.name == n ==> r.length == 0
    ensures var c := CopyRows(metas, src, rows, out).metas; n in c && ReadsNothing(c[n], relpath)
    decreases rows
  {
    if rows != [] && InRange(src, rows[0]) {
      assert rows[0] in rows;
      assert forall r <- rows[1..] :: r in rows;
      CopyKeepsEmptyReads(MoveRow(metas, rows[0], |out|), src, rows[1..],
                          out + Slice(src, rows[0].offset, rows[0].length), n, relpath);
    }
  }

  /** However its meta moves, an object without bytes stays one. */
  lemma {:induction false} SweepKeepsEmptyReads(
    s: Store, metas: map<string, Meta>, names: seq<string>, paths: seq<string>, n: string)
    requires Distinct(names) && n in metas && n in s.metas && metas[n].backend.Segment?
    requires ReadsNothing(metas[n], metas[n].backend.relpath) && ReadsNothing(s.metas[n], metas[n].backend.relpath)
    ensures var t := Sweep(s, metas, names, paths).store; n in t.metas && ReadsNothing(t.metas[n], metas[n].backend.relpath)
    decreases paths
  {
    if paths != [] {
      var rows := Refs(metas, names, paths[0]);
      RefsAreTheReferringMetas(metas, names, paths[0]);
      var r := SweepOne(s, paths[0], rows);
      if paths[0] in s.files {
        CopyKeepsEmptyReads(s.metas, s.files[paths[0]], rows, [], n, metas[n].backend.relpath);
      }
      if r.ok {
        SweepKeepsEmptyReads(r.store, metas, names, paths[1..], n);
      }
    }
  }

  lemma HomeOutlivesTheDeletions(
    s: Store, names: seq<string>, resolve: string -> string, p: Policy, n: string, home: string)
    requires n in s.metas && home == Home(s.metas[n], resolve) && Spared(s, resolve, p, home) && p.cutoff <= p.now
    ensures var t := DeleteMetas(s, names, resolve, p);
      (home in s.files <==> home in t.files) && (home in s.files ==> t.files[home] == s.files[home])
  {
    DeletionsOnlyShrink(s, names, resolve, p);
    if home in s.files {
      FilesGoWithTheirMetas(s, names, resolve, p, home);
      forall k | k in s.metas && k !in DeleteMetas(s, names, resolve, p).metas ensures s.metas[k].backend != File(home) {
        DeletionsAreDoomed(s, names, resolve, p, k);
      }
    }
  }

  lemma HomeOutsideTheSegments(paths: seq<string>, files: map<string, Bytes>, home: string)
    requires ListsSegments(paths, files) && home in files && home !in paths
    ensures forall q <- paths :: home != q && home != Tmp(q)
  {
    forall q | q in paths ensures home != Tmp(q) {
      assert InSegments(q);
      assert InSegments(Tmp(q));
    }
  }

  lemma {:induction false} NothingAppears(
    s: Store, metas: map<string, Meta>, names: seq<string>, paths: seq<string>, q: string)
    requires q !in s.files && Sweep(s, metas, names, paths).ok
    ensures q !in Sweep(s, metas, names, paths).store.files
    decreases paths
  {
    if paths != [] {
      var rows := Refs(metas, names, paths[0]);
      SweepOneElsewhere(s, paths[0], rows);
      NothingAppears(SweepOne(s, paths[0], rows).store, metas, names, paths[1..], q);
    }
  }
}
