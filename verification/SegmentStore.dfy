/** The object store of the node as `pycloudctl gc` sees it: metas that describe byte ranges
    of segment files, and the collection that deletes metas, deletes orphan segments and
    rewrites segments while moving offsets. */
module SegmentStore {
  import opened Prelude

  type Bytes = seq<bv8>

  /** Ids and relative paths are stripped; `length` is the optional `segment_length`. */
  datatype Backend = Segment(relpath: string, offset: int, length: Option<int>) | File(path: string)

  datatype Meta = Meta(objectId: string, backend: Backend, size: int, lastAt: Option<int>)

  /** Metas by the name of their json file; files by their resolved path relative to the
      object directory. */
  datatype Store = Store(metas: map<string, Meta>, files: map<string, Bytes>)

  datatype Result = Result(store: Store, ok: bool)

  function Max0(n: int): nat {
    if n < 0 then 0 else n
  }

  /** `seek` and `read`: a read past the end of the file is short. */
  function Slice(b: Bytes, offset: nat, length: nat): Bytes {
    if offset >= |b| then []
    else if offset + length >= |b| then b[offset..]
    else b[offset..offset + length]
  }

  predicate InSegments(path: string) {
    "segments/" <= path
  }

  // ---------------------------------------------------------------- the reader

  /** How many bytes the reader asks for. */
  function ReaderLength(m: Meta): nat
    requires m.backend.Segment?
  {
    if m.backend.length.Some? && m.backend.length.value > 0 then m.backend.length.value else Max0(m.size)
  }

  /** The file an object lives in; `resolve` is what the file system makes of a path. */
  function Home(m: Meta, resolve: string -> string): string {
    if m.backend.Segment? then resolve(m.backend.relpath) else m.backend.path
  }

  function Read(s: Store, resolve: string -> string, name: string): Option<Bytes>
    requires name in s.metas
  {
    var m := s.metas[name];
    var home := Home(m, resolve);
    if home !in s.files then None
    else if m.backend.File? then Some(s.files[home])
    else Some(Slice(s.files[home], Max0(m.backend.offset), ReaderLength(m)))
  }

  // ---------------------------------------------------------------- rows

  datatype Row = Row(name: string, id: string, offset: nat, length: nat)

  /** How many bytes the collector attributes to an object. */
  function RowLength(m: Meta): nat
    requires m.backend.Segment?
  {
    Max0(if m.backend.length.Some? then m.backend.length.value else m.size)
  }

  function RowOf(name: string, m: Meta): Row
    requires m.backend.Segment?
  {
    Row(name, m.objectId, Max0(m.backend.offset), RowLength(m))
  }

  /** The collector compares relative paths as text. */
  predicate Refers(m: Meta, relpath: string) {
    m.backend.Segment? && m.objectId != "" && m.backend.relpath == relpath && relpath != ""
  }

  function RowsOf(metas: map<string, Meta>, names: seq<string>, relpath: string): seq<Row> {
    if names == [] then []
    else if names[0] in metas && Refers(metas[names[0]], relpath) then
      [RowOf(names[0], metas[names[0]])] + RowsOf(metas, names[1..], relpath)
    else RowsOf(metas, names[1..], relpath)
  }

  predicate RowLe(a: Row, b: Row) {
    a.offset < b.offset || (a.offset == b.offset && TextLe(a.id, b.id))
  }

  function Insert(r: Row, rows: seq<Row>): seq<Row> {
    if rows == [] || RowLe(r, rows[0]) then [r] + rows else [rows[0]] + Insert(r, rows[1..])
  }

  /** A stable sort by (offset, id). */
  function Sort(rows: seq<Row>): seq<Row> {
    if rows == [] then [] else Insert(rows[0], Sort(rows[1..]))
  }

  /** The rows of one segment, as `_segment_ref_rows_from_meta` returns them. */
  function Refs(metas: map<string, Meta>, names: seq<string>, relpath: string): seq<Row> {
    Sort(RowsOf(metas, names, relpath))
  }

  // ---------------------------------------------------------------- compaction

  function Total(rows: seq<Row>): nat {
    if rows == [] then 0 else Total(rows[..|rows| - 1]) + rows[|rows| - 1].length
  }

  /** Every row starts where the rows before it end. */
  predicate Packed(rows: seq<Row>) {
    forall i :: 0 <= i < |rows| ==> rows[i].offset == Total(rows[..i])
  }

  predicate NeedsCompaction(size: nat, rows: seq<Row>) {
    rows != [] && !(Total(rows) == size && Packed(rows))
  }

  predicate InRange(b: Bytes, r: Row) {
    |Slice(b, r.offset, r.length)| == r.length
  }

  function Moved(m: Meta, offset: nat, length: nat): Meta
    requires m.backend.Segment?
  {
    m.(backend := Segment(m.backend.relpath, offset, Some(length)))
  }

  /** Rewrites the meta of a row that still exists. */
  function MoveRow(metas: map<string, Meta>, r: Row, offset: nat): map<string, Meta> {
    if r.name in metas && metas[r.name].backend.Segment?
    then metas[r.name := Moved(metas[r.name], offset, r.length)] else metas
  }

  datatype Copy = Copy(metas: map<string, Meta>, out: Bytes, ok: bool)

  /** The copying loop: bytes to the new file, offsets to the metas. */
  function CopyRows(metas: map<string, Meta>, src: Bytes, rows: seq<Row>, out: Bytes): Copy {
    if rows == [] then Copy(metas, out, true)
    else if !InRange(src, rows[0]) then Copy(metas, out, false)
    else CopyRows(MoveRow(metas, rows[0], |out|), src, rows[1..], out + Slice(src, rows[0].offset, rows[0].length))
  }

  function Tmp(path: string): string {
    path + ".tmp"
  }

  /** `_compact_segment_file`: a failure leaves the rewritten metas and the temporary file. */
  function Compact(s: Store, path: string, rows: seq<Row>): Result
    requires path in s.files
  {
    if !NeedsCompaction(|s.files[path]|, rows) then Result(s, true) else
    var c := CopyRows(s.metas, s.files[path], rows, []);
    if c.ok then Result(Store(c.metas, s.files[path := c.out] - {Tmp(path)}), true)
    else Result(Store(c.metas, s.files[Tmp(path) := c.out]), false)
  }

  /** One segment of the listing, with the rows `rows` that were read before the sweep. */
  function SweepOne(s: Store, path: string, rows: seq<Row>): Result {
    if path !in s.files then Result(s, false)
    else if rows == [] then Result(s.(files := s.files - {path}), true)
    else Compact(s, path, rows)
  }

  function Sweep(s: Store, metas: map<string, Meta>, names: seq<string>, paths: seq<string>): Result
    decreases paths
  {
    if paths == [] then Result(s, true) else
    var r := SweepOne(s, paths[0], Refs(metas, names, paths[0]));
    if r.ok then Sweep(r.store, metas, names, paths[1..]) else r
  }

  // ---------------------------------------------------------------- deleting metas

  predicate HexLower(c: char) {
    '0' <= c <= '9' || 'a' <= c <= 'f'
  }

  /** `normalize_object_id`: None where it raises. */
  function Normalize(id: string): Option<string> {
    var t := Lower(Strip(id));
    if |t| == 71 && t[..7] == "sha256:" && (forall i :: 7 <= i < 71 ==> HexLower(t[i])) then Some(t) else None
  }

  /** What a collection is given: the ids that current globals or the registry refer to, the
      cutoff, the time, and the modification times of files. */
  datatype Policy = Policy(live: set<string>, active: set<string>, cutoff: int, now: int, mtime: string -> int)

  function LastAt(m: Meta, files: map<string, Bytes>, resolve: string -> string, p: Policy): int {
    if m.lastAt.Some? then m.lastAt.value
    else if Home(m, resolve) in files && !(m.backend.Segment? && m.backend.relpath == "") then p.mtime(Home(m, resolve))
    else p.now
  }

  predicate Doomed(m: Meta, files: map<string, Bytes>, resolve: string -> string, p: Policy) {
    var id := Normalize(m.objectId);
    && id.Some? && id.value !in p.live && id.value !in p.active
    && LastAt(m, files, resolve, p) < p.cutoff
  }

  function DeleteOne(s: Store, name: string, resolve: string -> string, p: Policy): Store {
    if name !in s.metas || !Doomed(s.metas[name], s.files, resolve, p) then s
    else if s.metas[name].backend.File? then Store(s.metas - {name}, s.files - {s.metas[name].backend.path})
    else Store(s.metas - {name}, s.files)
  }

  function DeleteMetas(s: Store, names: seq<string>, resolve: string -> string, p: Policy): Store
    decreases names
  {
    if names == [] then s else DeleteMetas(DeleteOne(s, names[0], resolve, p), names[1..], resolve, p)
  }

  /** The object part of a collection; `names` and `paths` list the metas and, after the
      deletions, the segment files. */
  function Collect(s: Store, names: seq<string>, paths: seq<string>, resolve: string -> string, p: Policy): Result {
    var t := DeleteMetas(s, names, resolve, p);
    Sweep(t, t.metas, names, paths)
  }

  // ---------------------------------------------------------------- listings

  predicate Distinct(names: seq<string>) {
    forall i, j :: 0 <= i < j < |names| ==> names[i] != names[j]
  }

  /** What sorting a listing gives: a file comes before its temporary file. */
  predicate TmpLast(paths: seq<string>) {
    forall i, j :: 0 <= i < j < |paths| ==> paths[i] != Tmp(paths[j])
  }

  /** A listing of the metas and of the segment files of a store. */
  ghost predicate Lists(names: seq<string>, metas: map<string, Meta>) {
    Distinct(names) && forall n :: n in metas <==> n in names
  }

  ghost predicate ListsSegments(paths: seq<string>, files: map<string, Bytes>) {
    && Distinct(paths) && TmpLast(paths)
    && forall p :: p in paths <==> p in files && InSegments(p)
  }
}
