/** When a collection ends well, which segments it keeps, and when a second plan finds nothing
    to do. */
module SegmentLayout {
  import opened Prelude
  import opened SegmentStore
  import opened SegmentGc

  // ---------------------------------------------------------------- when it ends well

  predicate Clear(files: map<string, Bytes>, metas: map<string, Meta>, names: seq<string>, paths: seq<string>, p: string)
    requires p in files
  {
    var rows := Refs(metas, names, p);
    NeedsCompaction(|files[p]|, rows) ==> AllInRange(files[p], rows) && Tmp(p) !in paths
  }

  /** A sweep ends well exactly when every segment it must compact has its rows in range and
      no other segment file carries the name of its temporary file. */
  lemma {:induction false} SweepEndsWell(s: Store, metas: map<string, Meta>, names: seq<string>, paths: seq<string>)
    requires Distinct(paths) && TmpLast(paths)
    requires forall p <- paths :: p in s.files
    ensures Sweep(s, metas, names, paths).ok <==> forall p <- paths :: Clear(s.files, metas, names, paths, p)
    decreases paths
  {
    if paths != [] {
      var p0, rest := paths[0], paths[1..];
      assert p0 in paths;
      assert forall p <- paths :: p == p0 || p in rest;
      assert forall p <- rest :: p in paths && p != p0;
      var rows := Refs(metas, names, p0);
      var r := SweepOne(s, p0, rows);
      SweepOneEndsWell(s, p0, rows);
      SweepOneElsewhere(s, p0, rows);
      SweepOneTmp(s, p0, rows);
      if r.ok && NeedsCompaction(|s.files[p0]|, rows) && Tmp(p0) in paths {
        MissingFileFails(r.store, metas, names, rest, Tmp(p0));
      } else if r.ok {
        SweepEndsWell(r.store, metas, names, rest);
        forall p | p in rest
          ensures Clear(r.store.files, metas, names, rest, p) <==> Clear(s.files, metas, names, paths, p)
        {
          TmpIsNotFirst(paths, p);
        }
      }
    }
  }

  lemma TmpIsNotFirst(paths: seq<string>, p: string)
    requires TmpLast(paths) && paths != [] && p in paths[1..]
    ensures Tmp(p) in paths[1..] <==> Tmp(p) in paths
  {
    var i: nat :| i < |paths[1..]| && paths[1..][i] == p;
    assert paths[i + 1] == p;
  }

  // ---------------------------------------------------------------- which segments stay

  /** A finished sweep keeps exactly the segment files whose path some meta spells out. */
  lemma {:induction false} SweepKeepsTheNamedSegments(
    s: Store, metas: map<string, Meta>, names: seq<string>, paths: seq<string>, p: string)
    requires Distinct(names) && Distinct(paths) && TmpLast(paths)
    requires p in paths && Sweep(s, metas, names, paths).ok
    ensures p in Sweep(s, metas, names, paths).store.files
      <==> exists n :: n in names && n in metas && Refers(metas[n], p)
    decreases paths
  {
    var rows := Refs(metas, names, paths[0]);
    var r := SweepOne(s, paths[0], rows).store;
    if p == paths[0] {
      RefsAreTheReferringMetas(metas, names, p);
      assert rows != [] <==> exists n :: n in names && n in metas && Refers(metas[n], p) by {
        if rows != [] {
          assert rows[0] in rows;
        }
        if n :| n in names && n in metas && Refers(metas[n], p) {
          assert RowOf(n, metas[n]) in rows;
        }
      }
      SweptSegmentStays(s, p, rows);
      forall q | q in paths[1..] ensures q != p && p != Tmp(q) {
        var i: nat :| i < |paths[1..]| && paths[1..][i] == q;
        assert paths[i + 1] == q;
      }
      SweepLeavesOtherFiles(r, metas, names, paths[1..], p);
    } else {
      SweepKeepsTheNamedSegments(r, metas, names, paths[1..], p);
    }
  }

  lemma SweptSegmentStays(s: Store, p: string, rows: seq<Row>)
    requires SweepOne(s, p, rows).ok
    ensures p in SweepOne(s, p, rows).store.files <==> rows != []
  {
    assert p != Tmp(p) by { assert |Tmp(p)| > |p|; }
  }

  /** So an object in a segment that stays can still be read exactly when some meta that stays
      spells its segment the way the file system resolves it. */
  lemma ReadableIffItsSegmentIsNamed(
    s: Store, names: seq<string>, paths: seq<string>, resolve: string -> string, p: Policy, n: string)
    requires Lists(names, s.metas)
    requires ListsSegments(paths, DeleteMetas(s, names, resolve, p).files)
    requires Collect(s, names, paths, resolve, p).ok && p.cutoff <= p.now
    requires n in s.metas && !Goes(s, names, resolve, p, n)
    requires s.metas[n].backend.Segment? && Home(s.metas[n], resolve) in paths
    ensures var t := Collect(s, names, paths, resolve, p).store;
      && n in t.metas && t.metas[n].backend.Segment?
      && (Read(t, resolve, n).Some?
          <==> exists k :: k in s.metas && !Goes(s, names, resolve, p, k) && Refers(s.metas[k], Home(s.metas[n], resolve)))
  {
    hide Goes, ListsSegments, Sweep, DeleteMetas;
    var d := DeleteMetas(s, names, resolve, p);
    var home := Home(s.metas[n], resolve);
    WhatStays(s, names, resolve, p);
    SweepKeepsTheMetaSet(d, d.metas, names, paths);
    SweepKeepsRelpaths(d, d.metas, names, paths, n);
    HomeIsNamed(d, names, paths, home);
    if k :| k in names && k in d.metas && Refers(d.metas[k], home) {
      assert k in s.metas && !Goes(s, names, resolve, p, k) && Refers(s.metas[k], home);
    }
    if k :| k in s.metas && !Goes(s, names, resolve, p, k) && Refers(s.metas[k], home) {
      assert k in names && k in d.metas && Refers(d.metas[k], home);
    }
  }

  lemma HomeIsNamed(d: Store, names: seq<string>, paths: seq<string>, home: string)
    requires Distinct(names) && ListsSegments(paths, d.files) && home in paths && Sweep(d, d.metas, names, paths).ok
    ensures home in Sweep(d, d.metas, names, paths).store.files
      <==> exists k :: k in names && k in d.metas && Refers(d.metas[k], home)
  {
    SweepKeepsTheNamedSegments(d, d.metas, names, paths, home);
  }

  /** The deletions leave the metas that do not go, as they were. */
  lemma WhatStays(s: Store, names: seq<string>, resolve: string -> string, p: Policy)
    requires Lists(names, s.metas) && p.cutoff <= p.now
    ensures var d := DeleteMetas(s, names, resolve, p);
      forall k :: k in d.metas <==> k in s.metas && !Goes(s, names, resolve, p, k)
    ensures var d := DeleteMetas(s, names, resolve, p);
      forall k :: k in d.metas ==> k in s.metas && d.metas[k] == s.metas[k]
  {
    hide Goes, DeleteMetas;
    DeletionsOnlyShrink(s, names, resolve, p);
    forall k | k in s.metas
      ensures var d := DeleteMetas(s, names, resolve, p);
        && (k !in d.metas <==> Goes(s, names, resolve, p, k))
        && (k in d.metas ==> d.metas[k] == s.metas[k])
    {
      TheDoomedAreDeleted(s, names, resolve, p, k);
      DeletionsAreDoomed(s, names, resolve, p, k);
    }
  }

  // ---------------------------------------------------------------- planning again

  predicate SortedRows(rows: seq<Row>) {
    forall i, j :: 0 <= i < j < |rows| ==> RowLe(rows[i], rows[j])
  }

  lemma {:induction false} InsertSorts(r: Row, rows: seq<Row>)
    requires SortedRows(rows)
    ensures SortedRows(Insert(r, rows))
    ensures forall x :: x in Insert(r, rows) <==> x == r || x in rows
  {
    if rows == [] {
    } else if RowLe(r, rows[0]) {
      forall i | 0 <= i < |rows| ensures RowLe(r, rows[i]) {
        TextLeIsAnOrder(r.id, rows[0].id, rows[i].id);
      }
    } else {
      TextLeIsAnOrder(r.id, rows[0].id, "");
      InsertSorts(r, rows[1..]);
      var t := Insert(r, rows[1..]);
      forall j | 0 <= j < |t| ensures RowLe(rows[0], t[j]) {
        assert t[j] in t;
        assert t[j] == r || t[j] in rows[1..];
      }
      assert forall x :: x in rows <==> x == rows[0] || x in rows[1..];
    }
  }

  /** The rows of a segment come in (offset, id) order, and they are all there. */
  lemma {:induction false} SortSorts(rows: seq<Row>)
    ensures SortedRows(Sort(rows)) && multiset(Sort(rows)) == multiset(rows)
  {
    SortKeeps(rows);
    if rows != [] {
      SortSorts(rows[1..]);
      InsertSorts(rows[0], Sort(rows[1..]));
    }
  }

  /** The rows of a segment: one for each listed meta that is a segment's, has an id and spells
      this path; negative numbers count as zero, a missing length as the size. */
  lemma RowsOfASegment(metas: map<string, Meta>, names: seq<string>, p: string, r: Row)
    requires Distinct(names) && p != ""
    ensures r in Refs(metas, names, p) <==>
      (&& r.name in names && r.name in metas && metas[r.name].backend.Segment?
       && metas[r.name].objectId != "" && metas[r.name].backend.relpath == p
       && r.id == metas[r.name].objectId
       && r.offset == (if metas[r.name].backend.offset < 0 then 0 else metas[r.name].backend.offset)
       && (match metas[r.name].backend.length
           case Some(length) => r.length == if length < 0 then 0 else length
           case None => r.length == if metas[r.name].size < 0 then 0 else metas[r.name].size))
    ensures var rows := Refs(metas, names, p);
      forall i, j :: 0 <= i < j < |rows| ==>
        rows[i].name != rows[j].name
        && (rows[i].offset < rows[j].offset || (rows[i].offset == rows[j].offset && TextLe(rows[i].id, rows[j].id)))
  {
    RefsAreTheReferringMetas(metas, names, p);
    SortSorts(RowsOf(metas, names, p));
  }

  /** What the reader returns for an object of a segment: the bytes from its offset on, as many
      as are recorded or else as its size says, fewer where the file ends. */
  lemma BytesOfAnObject(s: Store, resolve: string -> string, n: string)
    requires n in s.metas && s.metas[n].backend.Segment?
    ensures var m := s.metas[n]; var home := resolve(m.backend.relpath);
      var at := if m.backend.offset < 0 then 0 else m.backend.offset;
      var asked := if m.backend.length.Some? && m.backend.length.value > 0 then m.backend.length.value
                   else if m.size < 0 then 0 else m.size;
      match Read(s, resolve, n)
      case None => home !in s.files
      case Some(bytes) =>
        && home in s.files
        && |bytes| == (if at >= |s.files[home]| then 0 else if at + asked <= |s.files[home]| then asked else |s.files[home]| - at)
        && forall i :: 0 <= i < |bytes| ==> bytes[i] == s.files[home][at + i]
  {
  }

  /** A segment file that is swept stays exactly while some listed meta names it. */
  lemma SegmentStaysIffNamed(
    s: Store, metas: map<string, Meta>, names: seq<string>, paths: seq<string>, p: string)
    requires Distinct(names) && Distinct(paths) && TmpLast(paths)
    requires p in paths && p != "" && Sweep(s, metas, names, paths).ok
    ensures p in Sweep(s, metas, names, paths).store.files
      <==> exists n :: (&& n in names && n in metas && metas[n].backend.Segment?
                        && metas[n].backend.relpath == p && metas[n].objectId != "")
  {
    SweepKeepsTheNamedSegments(s, metas, names, paths, p);
    if n :| (&& n in names && n in metas && metas[n].backend.Segment?
             && metas[n].backend.relpath == p && metas[n].objectId != "")
    {
      assert Refers(metas[n], p);
    }
  }

  predicate StrictOffsets(rows: seq<Row>) {
    forall i, j :: 0 <= i < j < |rows| ==> rows[i].offset < rows[j].offset
  }

  lemma WithoutOne(b: seq<Row>, i: nat)
    requires i < |b|
    ensures multiset(b[..i] + b[i + 1..]) == multiset(b) - multiset{b[i]}
  {
    assert b == b[..i] + [b[i]] + b[i + 1..];
  }

  lemma WithoutFirst(b: seq<Row>)
    requires b != []
    ensures multiset(b[1..]) == multiset(b) - multiset{b[0]}
  {
    assert b == [b[0]] + b[1..];
  }

  /** Sorted rows start with the strictly smallest one. */
  lemma SameFirst(a: seq<Row>, b: seq<Row>)
    requires SortedRows(a) && StrictOffsets(b) && multiset(a) == multiset(b) && b != []
    ensures a != [] && a[0] == b[0]
  {
    SameLength(a, b);
    SameMembers(a, b, a[0]);
    SameMembers(a, b, b[0]);
    var i: nat :| i < |b| && b[i] == a[0];
    var j: nat :| j < |a| && a[j] == b[0];
  }

  lemma SameMembers(a: seq<Row>, b: seq<Row>, r: Row)
    requires multiset(a) == multiset(b)
    ensures r in a <==> r in b
  {
    assert r in a <==> r in multiset(a);
    assert r in b <==> r in multiset(b);
  }

  /** There is only one way to sort rows with different offsets. */
  lemma {:induction false} SortingIsUnique(a: seq<Row>, b: seq<Row>)
    requires SortedRows(a) && StrictOffsets(b) && multiset(a) == multiset(b)
    ensures a == b
  {
    SameLength(a, b);
    if b != [] {
      SameFirst(a, b);
      WithoutFirst(a);
      WithoutFirst(b);
      SortingIsUnique(a[1..], b[1..]);
      assert a == [a[0]] + a[1..] && b == [b[0]] + b[1..];
    }
  }

  lemma SameLength(a: seq<Row>, b: seq<Row>)
    requires multiset(a) == multiset(b)
    ensures |a| == |b|
  {
    assert |multiset(a)| == |a| && |multiset(b)| == |b|;
  }

  /** A row as it is read again from the rewritten metas. */
  function Again(metas: map<string, Meta>, r: Row): Row {
    if r.name in metas && metas[r.name].backend.Segment? then RowOf(r.name, metas[r.name]) else r
  }

  function AllAgain(metas: map<string, Meta>, rows: seq<Row>): seq<Row> {
    seq(|rows|, i requires 0 <= i < |rows| => Again(metas, rows[i]))
  }

  lemma AgainWithoutOne(metas: map<string, Meta>, b: seq<Row>, i: nat)
    requires i < |b|
    ensures multiset(AllAgain(metas, b)) == multiset(AllAgain(metas, b[..i] + b[i + 1..])) + multiset{Again(metas, b[i])}
  {
    var x, y := AllAgain(metas, b[..i]), AllAgain(metas, b[i + 1..]);
    assert AllAgain(metas, b) == x + [Again(metas, b[i])] + y;
    assert AllAgain(metas, b[..i] + b[i + 1..]) == x + y;
  }

  lemma AgainWithoutFirst(metas: map<string, Meta>, a: seq<Row>)
    requires a != []
    ensures multiset(AllAgain(metas, a)) == multiset(AllAgain(metas, a[1..])) + multiset{Again(metas, a[0])}
  {
    assert AllAgain(metas, a) == [Again(metas, a[0])] + AllAgain(metas, a[1..]);
  }

  lemma {:induction false} AllAgainCounts(metas: map<string, Meta>, a: seq<Row>, b: seq<Row>)
    requires multiset(a) == multiset(b)
    ensures multiset(AllAgain(metas, a)) == multiset(AllAgain(metas, b))
    decreases |a|
  {
    SameLength(a, b);
    if a != [] {
      SameMembers(a, b, a[0]);
      var i: nat :| i < |b| && b[i] == a[0];
      var rest := b[..i] + b[i + 1..];
      assert multiset(a[1..]) == multiset(rest) by {
        WithoutFirst(a);
        WithoutOne(b, i);
      }
      AllAgainCounts(metas, a[1..], rest);
      AgainWithoutFirst(metas, a);
      AgainWithoutOne(metas, b, i);
    }
  }

  lemma {:induction false} RowsReadAgain(metas: map<string, Meta>, later: map<string, Meta>, names: seq<string>, p: string)
    requires forall n <- names :: n in metas <==> n in later
    requires forall n <- names :: n in metas ==> metas[n].objectId == later[n].objectId
    requires forall n <- names :: n in metas ==> (metas[n].backend.Segment? <==> later[n].backend.Segment?)
    requires forall n <- names :: n in metas && metas[n].backend.Segment? ==>
      metas[n].backend.relpath == later[n].backend.relpath
    ensures RowsOf(later, names, p) == AllAgain(later, RowsOf(metas, names, p))
  {
    if names != [] {
      assert names[0] in names;
      assert forall n <- names[1..] :: n in names;
      RowsReadAgain(metas, later, names[1..], p);
      var rows, rest := RowsOf(metas, names, p), RowsOf(metas, names[1..], p);
      if rows != rest {
        assert rows == [rows[0]] + rest;
        assert AllAgain(later, rows) == [Again(later, rows[0])] + AllAgain(later, rest);
      }
    }
  }

  lemma {:induction false} TotalsAgree(a: seq<Row>, b: seq<Row>)
    requires |a| == |b| && forall i :: 0 <= i < |a| ==> a[i].length == b[i].length
    ensures Total(a) == Total(b)
  {
    if a != [] {
      TotalsAgree(a[..|a| - 1], b[..|b| - 1]);
    }
  }

  lemma {:induction false} TotalsGrow(rows: seq<Row>, i: nat, j: nat)
    requires i < j <= |rows| && forall r <- rows :: r.length > 0
    ensures Total(rows[..i]) < Total(rows[..j])
  {
    assert rows[..j][..j - 1] == rows[..j - 1];
    assert rows[j - 1] in rows;
    if i < j - 1 {
      TotalsGrow(rows, i, j - 1);
    }
  }

  /** The rows of a compacted segment, read again: in the same order, packed. */
  lemma RowsOfTheLayout(s: Store, p: string, rows: seq<Row>, i: nat)
    requires p in s.files && NeedsCompaction(|s.files[p]|, rows) && Compact(s, p, rows).ok
    requires DistinctRows(rows) && i < |rows|
    requires forall r <- rows :: r.name in s.metas && s.metas[r.name].backend.Segment? && r == RowOf(r.name, s.metas[r.name])
    ensures Again(Compact(s, p, rows).store.metas, rows[i])
      == Row(rows[i].name, rows[i].id, Total(rows[..i]), rows[i].length)
  {
    assert rows[i] in rows;
    CopyEndsWell(s.metas, s.files[p], rows, []);
    CompactionLaysOut(s, p, rows, i);
  }

  /** After compacting a segment whose objects are not empty, a new plan over the metas as
      they are read and sorted again finds nothing to do. */
  lemma CompactionIsDoneOnce(s: Store, names: seq<string>, p: string)
    requires Distinct(names) && p in s.files
    requires forall r <- Refs(s.metas, names, p) :: r.length > 0
    requires NeedsCompaction(|s.files[p]|, Refs(s.metas, names, p))
    requires Compact(s, p, Refs(s.metas, names, p)).ok
    ensures var t := Compact(s, p, Refs(s.metas, names, p)).store;
      p in t.files && !NeedsCompaction(|t.files[p]|, Refs(t.metas, names, p))
  {
    var rows := Refs(s.metas, names, p);
    var t := Compact(s, p, rows).store;
    CompactedSize(s, p, rows);
    RefsAreTheReferringMetas(s.metas, names, p);
    var again := AllAgain(t.metas, rows);
    forall i | 0 <= i < |rows| ensures again[i] == Row(rows[i].name, rows[i].id, Total(rows[..i]), rows[i].length) {
      RowsOfTheLayout(s, p, rows, i);
    }
    LayoutIsPacked(rows, again);
    RereadRows(s, names, p);
    PermutedRows(t.metas, RowsOf(s.metas, names, p), RowsOf(t.metas, names, p), again);
  }

  lemma CompactedSize(s: Store, p: string, rows: seq<Row>)
    requires p in s.files && NeedsCompaction(|s.files[p]|, rows) && Compact(s, p, rows).ok
    ensures var t := Compact(s, p, rows).store; p in t.files && |t.files[p]| == Total(rows)
  {
    assert p != Tmp(p) by { assert |Tmp(p)| > |p|; }
    CopyEndsWell(s.metas, s.files[p], rows, []);
    CopyLength(s.metas, s.files[p], rows, []);
  }

  lemma PermutedRows(metas: map<string, Meta>, before: seq<Row>, after: seq<Row>, again: seq<Row>)
    requires after == AllAgain(metas, before) && again == AllAgain(metas, Sort(before))
    requires StrictOffsets(again)
    ensures Sort(after) == again
  {
    SortKeeps(before);
    SortSorts(after);
    AllAgainCounts(metas, before, Sort(before));
    SortingIsUnique(Sort(after), again);
  }

  lemma LayoutIsPacked(rows: seq<Row>, again: seq<Row>)
    requires |again| == |rows| && forall r <- rows :: r.length > 0
    requires forall i :: 0 <= i < |rows| ==>
      again[i] == Row(rows[i].name, rows[i].id, Total(rows[..i]), rows[i].length)
    ensures Packed(again) && Total(again) == Total(rows) && StrictOffsets(again)
  {
    TotalsAgree(again, rows);
    forall i | 0 <= i < |again| ensures again[i].offset == Total(again[..i]) {
      TotalsAgree(again[..i], rows[..i]);
    }
    forall i, j | 0 <= i < j < |again| ensures again[i].offset < again[j].offset {
      TotalsGrow(rows, i, j);
    }
  }

  lemma RereadMeta(s: Store, names: seq<string>, p: string, n: string)
    requires Distinct(names) && p in s.files && NeedsCompaction(|s.files[p]|, Refs(s.metas, names, p))
    requires Compact(s, p, Refs(s.metas, names, p)).ok && n in s.metas
    ensures var t := Compact(s, p, Refs(s.metas, names, p)).store;
      && n in t.metas && t.metas[n].objectId == s.metas[n].objectId
      && (s.metas[n].backend.Segment? <==> t.metas[n].backend.Segment?)
      && (s.metas[n].backend.Segment? ==> t.metas[n].backend.relpath == s.metas[n].backend.relpath)
  {
    var rows := Refs(s.metas, names, p);
    CopyTouchesOnlyItsRows(s.metas, s.files[p], rows, []);
    if r :| r in rows && r.name == n {
      CopyEndsWell(s.metas, s.files[p], rows, []);
      RefsAreTheReferringMetas(s.metas, names, p);
      var i: nat :| i < |rows| && rows[i] == r;
      CompactionLaysOut(s, p, rows, i);
    }
  }

  lemma RereadRows(s: Store, names: seq<string>, p: string)
    requires Distinct(names) && p in s.files && NeedsCompaction(|s.files[p]|, Refs(s.metas, names, p))
    requires Compact(s, p, Refs(s.metas, names, p)).ok
    ensures var t := Compact(s, p, Refs(s.metas, names, p)).store;
      RowsOf(t.metas, names, p) == AllAgain(t.metas, RowsOf(s.metas, names, p))
  {
    var t := Compact(s, p, Refs(s.metas, names, p)).store;
    CopyTouchesOnlyItsRows(s.metas, s.files[p], Refs(s.metas, names, p), []);
    forall n | n in s.metas
      ensures n in t.metas && t.metas[n].objectId == s.metas[n].objectId
      ensures s.metas[n].backend.Segment? <==> t.metas[n].backend.Segment?
      ensures s.metas[n].backend.Segment? ==> t.metas[n].backend.relpath == s.metas[n].backend.relpath
    {
      RereadMeta(s, names, p, n);
    }
    RowsReadAgain(s.metas, t.metas, names, p);
  }
}
