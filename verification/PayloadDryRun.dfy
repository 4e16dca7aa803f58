/** The dry run predicts the real rewrite: both fill the same skeleton, exactly as long as no
    `file_map` path runs through a position where something was put before. */
module PayloadDryRun {
  import opened Prelude
  import opened PayloadRewrite

  // ---------------------------------------------------------------- skeletons

  /** A payload with a hole at every placeholder. */
  function Skeleton(v: Value, show: Value -> string): Value {
    match SlotAt(v, show)
    case Some(slot) => Hole(slot)
    case None =>
      match v
      case Dict(entries) =>
        Dict(seq(|entries|, i requires 0 <= i < |entries| => Entry(entries[i].key, Skeleton(entries[i].value, show))))
      case List(items) => List(seq(|items|, i requires 0 <= i < |items| => Skeleton(items[i], show)))
      case Tuple(items) => Tuple(seq(|items|, i requires 0 <= i < |items| => Skeleton(items[i], show)))
      case _ => v
  }

  /** Puts the refs into the holes. */
  function Fill(v: Value, refs: Refs): Value {
    match v
    case Hole(slot) => if slot in refs then refs[slot] else v
    case Dict(entries) => Dict(FillEntries(entries, refs))
    case List(items) => List(FillItems(items, refs))
    case Tuple(items) => Tuple(FillItems(items, refs))
    case _ => v
  }

  function FillItems(items: seq<Value>, refs: Refs): (r: seq<Value>)
    ensures |r| == |items|
  {
    seq(|items|, i requires 0 <= i < |items| => Fill(items[i], refs))
  }

  function FillEntries(entries: seq<Entry>, refs: Refs): (r: seq<Entry>)
    ensures |r| == |entries|
  {
    seq(|entries|, i requires 0 <= i < |entries| => Entry(entries[i].key, Fill(entries[i].value, refs)))
  }

  /** The slots that a payload names in placeholders. */
  function Slots(v: Value, show: Value -> string): set<string> {
    match SlotAt(v, show)
    case Some(slot) => {slot}
    case None =>
      match v
      case Dict(entries) => SlotsOfEntries(entries, show)
      case List(items) => SlotsOfItems(items, show)
      case Tuple(items) => SlotsOfItems(items, show)
      case _ => {}
  }

  function SlotsOfItems(items: seq<Value>, show: Value -> string): set<string> {
    if items == [] then {} else Slots(items[0], show) + SlotsOfItems(items[1..], show)
  }

  function SlotsOfEntries(entries: seq<Entry>, show: Value -> string): set<string> {
    if entries == [] then {} else Slots(entries[0].value, show) + SlotsOfEntries(entries[1..], show)
  }

  /** Payloads hold no holes. */
  predicate HoleFree(v: Value) {
    match v
    case Hole(_) => false
    case Dict(entries) => forall i :: 0 <= i < |entries| ==> HoleFree(entries[i].value)
    case List(items) => forall i :: 0 <= i < |items| ==> HoleFree(items[i])
    case Tuple(items) => forall i :: 0 <= i < |items| ==> HoleFree(items[i])
    case _ => true
  }

  function SkeletonItems(items: seq<Value>, show: Value -> string): seq<Value> {
    seq(|items|, i requires 0 <= i < |items| => Skeleton(items[i], show))
  }

  function SkeletonEntries(entries: seq<Entry>, show: Value -> string): seq<Entry> {
    seq(|entries|, i requires 0 <= i < |entries| => Entry(entries[i].key, Skeleton(entries[i].value, show)))
  }

  // ---------------------------------------------------------------- rewriting fills

  /** Rewriting succeeds exactly when every named slot has a ref; then it fills the skeleton
      and reports exactly the named slots. */
  lemma {:induction false} RewriteFills(v: Value, refs: Refs, show: Value -> string)
    requires HoleFree(v)
    ensures Rewrite(v, refs, show) ==
      if Slots(v, show) <= refs.Keys then Done(Fill(Skeleton(v, show), refs), Slots(v, show)) else Failed
    decreases v, 1
  {
    if SlotAt(v, show).None? {
      match v
      case Dict(entries) =>
        EntriesFill(entries, refs, show, v);
        assert Skeleton(v, show) == Dict(SkeletonEntries(entries, show));
      case List(items) =>
        ItemsFill(items, refs, show, v);
        assert Skeleton(v, show) == List(SkeletonItems(items, show));
      case Tuple(items) =>
        ItemsFill(items, refs, show, v);
        assert Skeleton(v, show) == Tuple(SkeletonItems(items, show));
      case _ =>
    }
  }

  lemma {:induction false} ItemsFill(items: seq<Value>, refs: Refs, show: Value -> string, parent: Value)
    requires forall i :: 0 <= i < |items| ==> HoleFree(items[i]) && items[i] < parent
    ensures RewriteItems(items, refs, show) ==
      if SlotsOfItems(items, show) <= refs.Keys
      then Some((FillItems(SkeletonItems(items, show), refs), SlotsOfItems(items, show))) else None
    decreases parent, 0, |items|
  {
    if items == [] {
      assert FillItems(SkeletonItems(items, show), refs) == [];
    } else {
      RewriteFills(items[0], refs, show);
      ItemsFill(items[1..], refs, show, parent);
      assert FillItems(SkeletonItems(items, show), refs)
        == [Fill(Skeleton(items[0], show), refs)] + FillItems(SkeletonItems(items[1..], show), refs);
    }
  }

  lemma {:induction false} EntriesFill(entries: seq<Entry>, refs: Refs, show: Value -> string, parent: Value)
    requires forall i :: 0 <= i < |entries| ==> HoleFree(entries[i].value) && entries[i].value < parent
    ensures RewriteEntries(entries, refs, show) ==
      if SlotsOfEntries(entries, show) <= refs.Keys
      then Some((FillEntries(SkeletonEntries(entries, show), refs), SlotsOfEntries(entries, show))) else None
    decreases parent, 0, |entries|
  {
    if entries == [] {
      assert FillEntries(SkeletonEntries(entries, show), refs) == [];
    } else {
      RewriteFills(entries[0].value, refs, show);
      EntriesFill(entries[1..], refs, show, parent);
      assert FillEntries(SkeletonEntries(entries, show), refs)
        == [Entry(entries[0].key, Fill(Skeleton(entries[0].value, show), refs))]
           + FillEntries(SkeletonEntries(entries[1..], show), refs);
    }
  }

  // ---------------------------------------------------------------- paths on skeletons

  lemma {:induction false} IndexByKeys(a: seq<Entry>, b: seq<Entry>, key: string)
    requires |a| == |b| && forall i :: 0 <= i < |a| ==> a[i].key == b[i].key
    ensures IndexOf(a, key) == IndexOf(b, key)
  {
    if a != [] {
      IndexByKeys(a[1..], b[1..], key);
    }
  }

  function FillSome(v: Option<Value>, refs: Refs): Option<Value> {
    if v.None? then None else Some(Fill(v.value, refs))
  }

  lemma ChildFills(v: Value, t: Token, refs: Refs)
    requires !v.Hole?
    ensures Child(Fill(v, refs), t) == FillSome(Child(v, t), refs)
  {
    if v.Dict? && t.Key? {
      IndexByKeys(v.entries, FillEntries(v.entries, refs), t.key);
    }
  }

  lemma WithChildFills(v: Value, t: Token, x: Value, refs: Refs)
    requires !v.Hole?
    ensures WithChild(Fill(v, refs), t, Fill(x, refs)) == FillSome(WithChild(v, t, x), refs)
  {
    if v.List? && t.Index? && t.index < |v.items| {
      assert FillItems(v.items[t.index := x], refs) == FillItems(v.items, refs)[t.index := Fill(x, refs)];
    } else if v.Dict? && t.Key? {
      IndexByKeys(v.entries, FillEntries(v.entries, refs), t.key);
      var i := IndexOf(v.entries, t.key);
      if i < |v.entries| {
        assert FillEntries(v.entries[i := Entry(t.key, x)], refs)
          == FillEntries(v.entries, refs)[i := Entry(t.key, Fill(x, refs))];
      } else {
        assert FillEntries(v.entries + [Entry(t.key, x)], refs)
          == FillEntries(v.entries, refs) + [Entry(t.key, Fill(x, refs))];
      }
    }
  }

  /** A path that looks for a child inside a hole. */
  predicate Crosses(v: Value, path: seq<Token>)
    decreases |path|
  {
    path != [] && (v.Hole? || (|path| > 1 && Child(v, path[0]).Some? && Crosses(Child(v, path[0]).value, path[1..])))
  }

  /** Setting a path that crosses no hole fills what setting it on the skeleton gives. */
  lemma {:induction false} SetPathFills(v: Value, path: seq<Token>, slot: string, refs: Refs)
    requires !Crosses(v, path) && slot in refs
    ensures SetPath(Fill(v, refs), path, refs[slot]) == FillSome(SetPath(v, path, Hole(slot)), refs)
    decreases |path|
  {
    if path != [] {
      assert Fill(Hole(slot), refs) == refs[slot];
      if |path| == 1 {
        WithChildFills(v, path[0], Hole(slot), refs);
      } else {
        ChildFills(v, path[0], refs);
        if Child(v, path[0]).Some? {
          var child := Child(v, path[0]).value;
          SetPathFills(child, path[1..], slot, refs);
          var changed := SetPath(child, path[1..], Hole(slot));
          if changed.Some? {
            WithChildFills(v, path[0], changed.value, refs);
          }
        }
      }
    }
  }

  /** Refs to uploaded objects are no containers. */
  predicate Opaque(refs: Refs) {
    forall s <- refs :: refs[s].Ref?
  }

  /** A path that does cross a hole finds nothing when the hole holds such a ref. */
  lemma {:induction false} CrossingFails(v: Value, path: seq<Token>, x: Value, refs: Refs)
    requires Crosses(v, path) && Opaque(refs)
    ensures SetPath(Fill(v, refs), path, x).None?
    decreases |path|
  {
    if !v.Hole? {
      ChildFills(v, path[0], refs);
      CrossingFails(Child(v, path[0]).value, path[1..], x, refs);
    }
  }

  // ---------------------------------------------------------------- the file map

  function MapSlots(fileMap: seq<Mapping>): set<string> {
    if fileMap == [] then {} else {MappedSlot(fileMap[0])} + MapSlots(fileMap[1..])
  }

  /** The file map applied to a skeleton. */
  function SkeletonMap(v: Value, fileMap: seq<Mapping>): Option<Value>
    decreases fileMap
  {
    if fileMap == [] then Some(v) else
    match SetPath(v, PathOf(fileMap[0]), Hole(MappedSlot(fileMap[0])))
    case None => None
    case Some(w) => SkeletonMap(w, fileMap[1..])
  }

  /** Some path of the file map runs through a position that was substituted before. */
  predicate PathsCross(v: Value, fileMap: seq<Mapping>)
    decreases fileMap
  {
    fileMap != [] &&
    (Crosses(v, PathOf(fileMap[0])) ||
     (var w := SetPath(v, PathOf(fileMap[0]), Hole(MappedSlot(fileMap[0])));
      w.Some? && PathsCross(w.value, fileMap[1..])))
  }

  lemma {:induction false} MapFills(v: Value, used: set<string>, fileMap: seq<Mapping>, refs: Refs)
    requires !PathsCross(v, fileMap)
    ensures ApplyMap(Done(Fill(v, refs), used), fileMap, refs) ==
      if MapSlots(fileMap) <= refs.Keys && SkeletonMap(v, fileMap).Some?
      then Done(Fill(SkeletonMap(v, fileMap).value, refs), used + MapSlots(fileMap)) else Failed
    decreases fileMap
  {
    if fileMap != [] {
      var slot := MappedSlot(fileMap[0]);
      if slot in refs {
        SetPathFills(v, PathOf(fileMap[0]), slot, refs);
        var w := SetPath(v, PathOf(fileMap[0]), Hole(slot));
        if w.Some? {
          MapFills(w.value, used + {slot}, fileMap[1..], refs);
          assert used + {slot} + MapSlots(fileMap[1..]) == used + MapSlots(fileMap);
        }
      }
    } else {
      assert used + {} == used;
    }
  }

  lemma {:induction false} CrossingMapFails(v: Value, used: set<string>, fileMap: seq<Mapping>, refs: Refs)
    requires PathsCross(v, fileMap) && Opaque(refs)
    ensures ApplyMap(Done(Fill(v, refs), used), fileMap, refs).Failed?
    decreases fileMap
  {
    var slot := MappedSlot(fileMap[0]);
    if slot in refs {
      if Crosses(v, PathOf(fileMap[0])) {
        CrossingFails(v, PathOf(fileMap[0]), refs[slot], refs);
      } else {
        SetPathFills(v, PathOf(fileMap[0]), slot, refs);
        var w := SetPath(v, PathOf(fileMap[0]), Hole(slot));
        CrossingMapFails(w.value, used + {slot}, fileMap[1..], refs);
      }
    }
  }

  // ---------------------------------------------------------------- the two runs

  /** The slots that a call refers to. */
  function UsedSlots(payload: Value, fileMap: seq<Mapping>, show: Value -> string): set<string> {
    Slots(payload, show) + MapSlots(fileMap)
  }

  /** A run whose paths cross no hole: when it succeeds, and with what. */
  lemma RunFills(payload: Value, fileMap: seq<Mapping>, refs: Refs, show: Value -> string)
    requires HoleFree(payload) && !PathsCross(Skeleton(payload, show), fileMap)
    ensures var used, t := UsedSlots(payload, fileMap, show), SkeletonMap(Skeleton(payload, show), fileMap);
      RewritePayload(payload, fileMap, refs, show) ==
        if used != {} && used <= refs.Keys && t.Some? then Done(Fill(t.value, refs), used) else Failed
  {
    RewriteFills(payload, refs, show);
    if Slots(payload, show) <= refs.Keys {
      MapFills(Skeleton(payload, show), Slots(payload, show), fileMap, refs);
    }
  }

  /** The main result. After a successful dry run, the rewrite with refs for the used slots
      succeeds if and only if no path runs through a substituted position; and then both are
      the same skeleton filled, and both report the same slots. */
  lemma DryRunPredictsTheRewrite(
    payload: Value, fileMap: seq<Mapping>, slots: seq<string>, refs: Refs, show: Value -> string)
    requires HoleFree(payload) && Opaque(refs)
    requires DryRun(payload, fileMap, slots, show).Done?
    requires DryRun(payload, fileMap, slots, show).used <= refs.Keys
    ensures RewritePayload(payload, fileMap, refs, show).Done? <==> !PathsCross(Skeleton(payload, show), fileMap)
    ensures var t := SkeletonMap(Skeleton(payload, show), fileMap);
      var dry := DryRun(payload, fileMap, slots, show);
      !PathsCross(Skeleton(payload, show), fileMap) ==>
        (&& t.Some? && dry == Done(Fill(t.value, Markers(slots)), UsedSlots(payload, fileMap, show))
         && RewritePayload(payload, fileMap, refs, show) == Done(Fill(t.value, refs), dry.used))
  {
    RewriteFills(payload, refs, show);
    if PathsCross(Skeleton(payload, show), fileMap) {
      CrossingMapFails(Skeleton(payload, show), Slots(payload, show), fileMap, refs);
    } else {
      RunFills(payload, fileMap, refs, show);
      RunFills(payload, fileMap, Markers(slots), show);
    }
  }

  /** And the dry run refuses nothing that a rewrite with refs for uploaded files accepts. */
  lemma DryRunMissesNothing(
    payload: Value, fileMap: seq<Mapping>, slots: seq<string>, refs: Refs, show: Value -> string)
    requires HoleFree(payload) && Opaque(refs) && refs.Keys <= Markers(slots).Keys
    requires RewritePayload(payload, fileMap, refs, show).Done?
    ensures DryRun(payload, fileMap, slots, show).Done?
    ensures DryRun(payload, fileMap, slots, show).used == RewritePayload(payload, fileMap, refs, show).used
  {
    RewriteFills(payload, refs, show);
    if PathsCross(Skeleton(payload, show), fileMap) {
      CrossingMapFails(Skeleton(payload, show), Slots(payload, show), fileMap, refs);
    } else {
      RunFills(payload, fileMap, refs, show);
      RunFills(payload, fileMap, Markers(slots), show);
    }
  }

  /** A path into a marker: the dry run accepts it, and the rewrite cannot follow. */
  lemma CrossingPathPassesTheDryRun(slot: string, ref: string, show: Value -> string)
    requires slot != "" && Strip(slot) == slot && !(SENTINEL <= slot)
    ensures
      var payload := Dict([Entry("a", Scalar(0))]);
      var fileMap := [Mapping("a", slot), Mapping("a.b", slot)];
      && DryRun(payload, fileMap, [slot], show).Done?
      && RewritePayload(payload, fileMap, map[slot := Ref(ref)], show).Failed?
  {
    var payload := Dict([Entry("a", Scalar(0))]);
    var fileMap := [Mapping("a", slot), Mapping("a.b", slot)];
    PathsOfTheExample();
    ExampleIsUnchanged(Markers([slot]), show);
    ExampleIsUnchanged(map[slot := Ref(ref)], show);
    ExampleMap(slot, Markers([slot]), fileMap);
    ExampleMap(slot, map[slot := Ref(ref)], fileMap);
  }

  lemma PathsOfTheExample()
    ensures Tokens(Strip("a")) == [Key("a")] && Tokens(Strip("a.b")) == [Key("a"), Key("b")]
  {
    assert Trimmed("a") && Trimmed("a.b");
    StripFixesExactlyTrimmed("a");
    StripFixesExactlyTrimmed("a.b");
    OneKey("a");
    OneKey("b");
    assert "a.b"[1..] == ".b" && ".b"[1..] == "b" && "a.b"[..1] == "a";
    assert Run(".b", KeyChar) == 0 && Run("a.b", KeyChar) == 1;
    assert Tokens(".b") == Tokens("b");
  }

  lemma OneKey(s: string)
    requires |s| == 1 && KeyChar(s[0])
    ensures Tokens(s) == [Key(s)]
  {
    assert s[1..] == "" && s[..1] == s;
    assert Run(s[1..], KeyChar) == 0;
  }

  lemma ExampleIsUnchanged(refs: Refs, show: Value -> string)
    ensures Rewrite(Dict([Entry("a", Scalar(0))]), refs, show) == Done(Dict([Entry("a", Scalar(0))]), {})
  {
    var entries := [Entry("a", Scalar(0))];
    assert entries[1..] == [];
    assert IndexOf(entries, "kind") == 1;
    assert Lower("") == "";
    assert SlotAt(Dict(entries), show).None?;
    assert RewriteEntries([], refs, show) == Some(([], {}));
    assert Rewrite(Scalar(0), refs, show) == Done(Scalar(0), {});
  }

  lemma ExampleMap(slot: string, refs: Refs, fileMap: seq<Mapping>)
    requires slot in refs && Strip(slot) == slot && !(SENTINEL <= slot)
    requires fileMap == [Mapping("a", slot), Mapping("a.b", slot)]
    requires refs[slot] == Marker(slot) || refs[slot].Ref?
    ensures ApplyMap(Done(Dict([Entry("a", Scalar(0))]), {}), fileMap, refs).Done? <==> refs[slot] == Marker(slot)
    ensures var o := ApplyMap(Done(Dict([Entry("a", Scalar(0))]), {}), fileMap, refs); o.Done? ==> o.used == {slot}
  {
    PathsOfTheExample();
    var before, after := [Entry("a", Scalar(0))], [Entry("a", refs[slot])];
    assert before[0 := Entry("a", refs[slot])] == after;
    assert SetPath(Dict(before), [Key("a")], refs[slot]) == Some(Dict(after));
    assert [Key("a"), Key("b")][1..] == [Key("b")];
    assert Child(Dict(after), Key("a")) == Some(refs[slot]);
    assert SetPath(refs[slot], [Key("b")], refs[slot]) == WithChild(refs[slot], Key("b"), refs[slot]);
    var inner := WithChild(refs[slot], Key("b"), refs[slot]);
    assert inner.Some? <==> refs[slot] == Marker(slot);
    var outer := SetPath(Dict(after), [Key("a"), Key("b")], refs[slot]);
    assert outer.Some? <==> inner.Some?;
    var rest := [Mapping("a.b", slot)];
    assert fileMap[1..] == rest && rest[1..] == [];
    assert MappedSlot(rest[0]) == slot && MappedSlot(fileMap[0]) == slot;
    var none: set<string> := {};
    assert none + {slot} == {slot};
    assert ApplyMap(Done(Dict(before), none), fileMap, refs) == ApplyMap(Done(Dict(after), {slot}), rest, refs);
    assert ApplyMap(Done(Dict(after), {slot}), rest, refs)
      == if outer.None? then Failed else ApplyMap(Done(outer.value, {slot} + {slot}), [], refs);
  }
}
