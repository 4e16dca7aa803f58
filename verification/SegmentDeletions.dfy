/** Which object metas a collection deletes, with every condition spelled out: the form of an
    id, the two sets of ids in use, the recorded date, and the dates that stand in for it. */
module SegmentDeletions {
  import opened Prelude
  import opened SegmentStore
  import opened SegmentGc

  // ---------------------------------------------------------------- ids

  /** The normal form of an id: the algorithm and 64 digits in lower case. */
  predicate Digest(t: string) {
    |t| == 71 && "sha256:" == t[..7] && forall i :: 7 <= i < 71 ==> '0' <= t[i] <= '9' || 'a' <= t[i] <= 'f'
  }

  /** The lower-case form of a letter. */
  predicate Lowered(c: char, d: char) {
    if 'A' <= c <= 'Z' then d as int == c as int + 32 else d == c
  }

  /** `t` is `id` in lower case. */
  predicate InLowerCase(id: string, t: string) {
    |id| == |t| && forall i :: 0 <= i < |t| ==> Lowered(id[i], t[i])
  }

  lemma LowerIs(id: string, t: string)
    ensures InLowerCase(id, t) <==> t == Lower(id)
  {
    if t == Lower(id) {
      assert forall i :: 0 <= i < |t| ==> t[i] == Lower(id)[i];
    }
    if InLowerCase(id, t) {
      forall i | 0 <= i < |t| ensures t[i] == Lower(id)[i] {
        assert Lowered(id[i], t[i]);
      }
    }
  }

  /** `id` is the digest `t`, in either case, between white space. */
  ghost predicate Names(id: string, t: string) {
    Digest(t) && exists a, mid, b :: Spells(id, t, a, mid, b)
  }

  ghost predicate Spells(id: string, t: string, a: string, mid: string, b: string) {
    id == a + mid + b && AllSpace(a) && AllSpace(b) && InLowerCase(mid, t)
  }

  /** Exactly the ids that name a digest are accepted, and the digest is the result. */
  lemma NormalizeFindsTheDigest(id: string)
    ensures forall t :: Normalize(id) == Some(t) <==> Names(id, t)
  {
    hide Strip, AllSpace, Lower, InLowerCase;
    forall t ensures Normalize(id) == Some(t) <==> Names(id, t) {
      if Normalize(id) == Some(t) {
        var a, b := StripCuts(id);
        LowerIs(Strip(id), t);
        assert forall i :: 7 <= i < 71 ==> HexLower(t[i]);
        assert Spells(id, t, a, Strip(id), b);
      }
      if Names(id, t) {
        var a, mid, b :| Spells(id, t, a, mid, b);
        DigestIsFound(a, mid, b, t);
      }
    }
  }

  lemma DigestIsFound(a: string, mid: string, b: string, t: string)
    requires Digest(t) && AllSpace(a) && AllSpace(b) && InLowerCase(mid, t)
    ensures Normalize(a + mid + b) == Some(t)
  {
    hide Strip, AllSpace, Lower;
    DigestIsTrimmed(mid, t);
    StripFindsTheMiddle(a, mid, b);
    LowerIs(mid, t);
    assert forall i :: 7 <= i < 71 ==> HexLower(t[i]);
  }

  lemma DigestIsTrimmed(mid: string, t: string)
    requires Digest(t) && InLowerCase(mid, t)
    ensures Trimmed(mid)
  {
    assert Lowered(mid[0], t[0]) && Lowered(mid[70], t[70]);
    assert t[0] == t[..7][0] == 's';
  }

  // ---------------------------------------------------------------- who goes

  /** What decides about the meta n of s, where `left` are the metas that stay: its id names
      an object that nothing refers to, and either its date lies before the cutoff, or it
      has none and its file does, which no meta that was deleted earlier has taken along. */
  ghost predicate Expired(
    s: Store, left: set<string>, names: seq<string>, resolve: string -> string, p: Policy, n: string)
    requires n in s.metas
  {
    var m := s.metas[n];
    && (exists id :: Names(m.objectId, id) && id !in p.live && id !in p.active)
    && (match m.lastAt
        case Some(at) => at < p.cutoff
        case None =>
          var home := Home(m, resolve);
          && home in s.files && (m.backend.Segment? ==> m.backend.relpath != "") && p.mtime(home) < p.cutoff
          && (forall k :: Earlier(names, k, n) && k in s.metas && s.metas[k].backend == File(home) ==> k in left))
  }

  /** Exactly these metas are deleted; the others are as they were. */
  lemma ExactlyTheExpiredGo(s: Store, names: seq<string>, resolve: string -> string, p: Policy, n: string)
    requires n in s.metas && n in names && Distinct(names) && p.cutoff <= p.now
    ensures var t := DeleteMetas(s, names, resolve, p).metas;
      && (n !in t <==> Expired(s, t.Keys, names, resolve, p, n))
      && (n in t ==> t[n] == s.metas[n])
  {
    hide DeleteMetas, Earlier, Names, Normalize;
    DeletionsAreDoomed(s, names, resolve, p, n);
    TheDoomedAreDeleted(s, names, resolve, p, n);
    NormalizeFindsTheDigest(s.metas[n].objectId);
    if s.metas[n].lastAt.None? {
      RobbedByADeletedOne(s, names, resolve, p, n);
    }
  }

  /** Where a doomed meta comes before n in the listing and is backed by n's file, a deleted
      one does. */
  lemma RobbedByADeletedOne(s: Store, names: seq<string>, resolve: string -> string, p: Policy, n: string)
    requires n in s.metas && Distinct(names) && p.cutoff <= p.now
    ensures var t := DeleteMetas(s, names, resolve, p).metas; var home := Home(s.metas[n], resolve);
      Robbed(s, names, resolve, p, n)
      <==> exists k :: Earlier(names, k, n) && k in s.metas && s.metas[k].backend == File(home) && k !in t
  {
    hide DeleteMetas, Earlier, Doomed;
    var t, home := DeleteMetas(s, names, resolve, p).metas, Home(s.metas[n], resolve);
    if Robbed(s, names, resolve, p, n) {
      var k :| Robs(s, names, resolve, p, k, n, home);
      var i, j := Places(names, k, n);
      var first := FirstRobber(s, names, resolve, p, n, i);
      assert Earlier(names, first, n);
    }
    if k :| Earlier(names, k, n) && k in s.metas && s.metas[k].backend == File(home) && k !in t {
      DeletionsAreDoomed(s, names, resolve, p, k);
      assert Robs(s, names, resolve, p, k, n, home);
    }
  }

  lemma Places(names: seq<string>, k: string, n: string) returns (i: nat, j: nat)
    requires Earlier(names, k, n)
    ensures i < j < |names| && names[i] == k && names[j] == n && n in names && k in names
  {
    i, j :| i < j < |names| && names[i] == k && names[j] == n;
  }

  /** Of the doomed metas that are backed by one file, the first is deleted. */
  lemma {:induction false} FirstRobber(
    s: Store, names: seq<string>, resolve: string -> string, p: Policy, n: string, i: nat) returns (first: string)
    requires n in s.metas && i < |names| && Distinct(names) && p.cutoff <= p.now
    requires Robs(s, names, resolve, p, names[i], n, Home(s.metas[n], resolve))
    ensures Robs(s, names, resolve, p, first, n, Home(s.metas[n], resolve))
    ensures first !in DeleteMetas(s, names, resolve, p).metas
    decreases i
  {
    hide DeleteMetas, Earlier, Doomed;
    first := names[i];
    var home := Home(s.metas[n], resolve);
    TheDoomedAreDeleted(s, names, resolve, p, first);
    if s.metas[first].lastAt.None? && Robbed(s, names, resolve, p, first) {
      var k :| Robs(s, names, resolve, p, k, first, home);
      var a, b := Places(names, k, first);
      assert b == i;
      EarlierIsTransitive(names, k, first, n);
      assert Robs(s, names, resolve, p, k, n, home);
      first := FirstRobber(s, names, resolve, p, n, a);
    }
  }

  lemma EarlierIsTransitive(names: seq<string>, a: string, b: string, c: string)
    requires Distinct(names) && Earlier(names, a, b) && Earlier(names, b, c)
    ensures Earlier(names, a, c)
  {
    var i, j := Places(names, a, b);
    var k, l := Places(names, b, c);
    assert j == k;
  }

  /** Objects with a date: what refers to them and the cutoff decide alone. */
  lemma DatedObjects(s: Store, names: seq<string>, resolve: string -> string, p: Policy, n: string, id: string)
    requires n in s.metas && n in names && Distinct(names) && p.cutoff <= p.now
    requires Names(s.metas[n].objectId, id) && s.metas[n].lastAt.Some?
    ensures n in DeleteMetas(s, names, resolve, p).metas
      <==> id in p.live || id in p.active || s.metas[n].lastAt.value >= p.cutoff
  {
    hide DeleteMetas, Names, Normalize;
    ExactlyTheExpiredGo(s, names, resolve, p, n);
    NormalizeFindsTheDigest(s.metas[n].objectId);
  }

  /** Objects without a date: those with no file to date them stay, the others go by the age
      of a file that is theirs alone. */
  lemma UndatedObjects(s: Store, names: seq<string>, resolve: string -> string, p: Policy, n: string, id: string)
    requires n in s.metas && n in names && Distinct(names) && p.cutoff <= p.now
    requires Names(s.metas[n].objectId, id) && s.metas[n].lastAt.None?
    ensures var m := s.metas[n]; var home := Home(m, resolve); var stays := n in DeleteMetas(s, names, resolve, p).metas;
      && (home !in s.files || (m.backend.Segment? && m.backend.relpath == "") ==> stays)
      && (id in p.live || id in p.active || p.mtime(home) >= p.cutoff ==> stays)
      && (home in s.files && !(m.backend.Segment? && m.backend.relpath == "")
          && (forall k :: k in s.metas && s.metas[k].backend == File(home) ==> k == n) ==>
            (stays <==> id in p.live || id in p.active || p.mtime(home) >= p.cutoff))
  {
    hide DeleteMetas, Names, Normalize;
    ExactlyTheExpiredGo(s, names, resolve, p, n);
    NormalizeFindsTheDigest(s.metas[n].objectId);
    forall k | Earlier(names, k, n) ensures k != n {
      var i, j := Places(names, k, n);
    }
  }

  /** An id that names no digest keeps its meta. */
  lemma UnreadableIdStays(s: Store, names: seq<string>, resolve: string -> string, p: Policy, n: string)
    requires n in s.metas && p.cutoff <= p.now && forall id :: !Names(s.metas[n].objectId, id)
    ensures n in DeleteMetas(s, names, resolve, p).metas
  {
    hide DeleteMetas, Names, Normalize;
    DeletionsAreDoomed(s, names, resolve, p, n);
    NormalizeFindsTheDigest(s.metas[n].objectId);
  }

  /** A file goes exactly when a meta that it backs is deleted. */
  lemma FilesGoWithTheExpired(s: Store, names: seq<string>, resolve: string -> string, p: Policy, q: string)
    requires Lists(names, s.metas) && p.cutoff <= p.now && q in s.files
    ensures var t := DeleteMetas(s, names, resolve, p);
      && (q !in t.files <==> exists k :: k in s.metas && k !in t.metas && s.metas[k].backend == File(q))
      && (q in t.files ==> t.files[q] == s.files[q])
  {
    hide DeleteMetas, Doomed;
    var t := DeleteMetas(s, names, resolve, p);
    DeletionsOnlyShrink(s, names, resolve, p);
    if q !in t.files {
      FilesGoWithTheirMetas(s, names, resolve, p, q);
    }
    if k :| k in s.metas && k !in t.metas && s.metas[k].backend == File(q) {
      DeletionsAreDoomed(s, names, resolve, p, k);
      FileOfTheDoomedGoes(s, names, resolve, p, k, q);
    }
  }

  // ---------------------------------------------------------------- what is left of the others

  /** The sweep moves objects and changes nothing else of a meta. */
  predicate OnlyMoved(m: Meta, was: Meta) {
    if was.backend.Segment? then
      m.backend.Segment? && m == was.(backend := was.backend.(offset := m.backend.offset, length := m.backend.length))
    else m == was
  }

  lemma {:induction false} CopyOnlyMoves(metas: map<string, Meta>, src: Bytes, rows: seq<Row>, out: Bytes, n: string, was: Meta)
    requires n in metas && OnlyMoved(metas[n], was)
    ensures var c := CopyRows(metas, src, rows, out).metas; n in c && OnlyMoved(c[n], was)
    decreases rows
  {
    if rows != [] && InRange(src, rows[0]) {
      CopyOnlyMoves(
        MoveRow(metas, rows[0], |out|), src, rows[1..], out + Slice(src, rows[0].offset, rows[0].length), n, was);
    }
  }

  lemma {:induction false} SweepOnlyMoves(
    s: Store, metas: map<string, Meta>, names: seq<string>, paths: seq<string>, n: string, was: Meta)
    requires n in s.metas && OnlyMoved(s.metas[n], was)
    ensures var t := Sweep(s, metas, names, paths).store.metas; n in t && OnlyMoved(t[n], was)
    decreases paths
  {
    if paths != [] {
      var rows := Refs(metas, names, paths[0]);
      var r := SweepOne(s, paths[0], rows);
      if paths[0] in s.files {
        CopyOnlyMoves(s.metas, s.files[paths[0]], rows, [], n, was);
      }
      if r.ok {
        SweepOnlyMoves(r.store, metas, names, paths[1..], n, was);
      }
    }
  }

  /** The whole collection: the expired metas are gone, every other is there, moved at most. */
  lemma CollectionTakesTheExpired(
    s: Store, names: seq<string>, paths: seq<string>, resolve: string -> string, p: Policy, n: string)
    requires n in s.metas && Lists(names, s.metas) && p.cutoff <= p.now
    ensures var t := Collect(s, names, paths, resolve, p).store.metas;
      && t.Keys <= s.metas.Keys
      && (n !in t <==> Expired(s, t.Keys, names, resolve, p, n))
      && (n in t ==> OnlyMoved(t[n], s.metas[n]))
  {
    hide DeleteMetas, Expired, Sweep;
    var d := DeleteMetas(s, names, resolve, p);
    DeletionsOnlyShrink(s, names, resolve, p);
    ExactlyTheExpiredGo(s, names, resolve, p, n);
    SweepKeepsTheMetaSet(d, d.metas, names, paths);
    if n in d.metas {
      SweepOnlyMoves(d, d.metas, names, paths, n, s.metas[n]);
    }
  }
}
