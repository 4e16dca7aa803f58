/** The upload call's payload rewriter: placeholders and `file_map` paths are replaced by what
    `refs` holds for their slots. It runs first as a dry run, with a marker dictionary for
    every file of the upload, and then with the refs of the files that the dry run used. */
module PayloadRewrite {
  import opened Prelude

  /** A payload tree. `Ref` is an uploaded reference, an object of its own class; `Hole` does
      not occur in payloads and stands for whatever is put at a slot. */
  datatype Value =
    | Dict(entries: seq<Entry>)
    | List(items: seq<Value>)
    | Tuple(items: seq<Value>)
    | Text(text: string)
    | Scalar(value: int)
    | Ref(id: string)
    | Hole(slot: string)

  datatype Entry = Entry(key: string, value: Value)

  /** One step of a `file_map` path. */
  datatype Token = Key(key: string) | Index(index: nat)

  type Refs = map<string, Value>

  datatype Outcome = Done(value: Value, used: set<string>) | Failed

  // ---------------------------------------------------------------- placeholders

  const SENTINEL := "__file__:"

  function IndexOf(entries: seq<Entry>, key: string): (i: nat)
    ensures i <= |entries| && (i < |entries| ==> entries[i].key == key)
  {
    if entries == [] || entries[0].key == key then 0 else 1 + IndexOf(entries[1..], key)
  }

  /** `str(value.get(key, "") or "").strip()`; `show` is `str` of what is not a text. */
  function Field(entries: seq<Entry>, key: string, show: Value -> string): string {
    var i := IndexOf(entries, key);
    if i == |entries| then ""
    else Strip(if entries[i].value.Text? then entries[i].value.text else show(entries[i].value))
  }

  /** The slot that a node is a placeholder for. */
  function SlotAt(v: Value, show: Value -> string): Option<string> {
    match v
    case Dict(entries) =>
      if Lower(Field(entries, "kind", show)) == "uploaded_file" && Field(entries, "slot", show) != ""
      then Some(Field(entries, "slot", show)) else None
    case Text(text) => if SENTINEL <= text then Some(Strip(text[|SENTINEL|..])) else None
    case _ => None
  }

  /** `_rewrite` */
  function Rewrite(v: Value, refs: Refs, show: Value -> string): Outcome {
    match SlotAt(v, show)
    case Some(slot) => if slot in refs then Done(refs[slot], {slot}) else Failed
    case None =>
      match v
      case Dict(entries) =>
        var r := RewriteEntries(entries, refs, show);
        if r.None? then Failed else Done(Dict(r.value.0), r.value.1)
      case List(items) =>
        var r := RewriteItems(items, refs, show);
        if r.None? then Failed else Done(List(r.value.0), r.value.1)
      case Tuple(items) =>
        var r := RewriteItems(items, refs, show);
        if r.None? then Failed else Done(Tuple(r.value.0), r.value.1)
      case _ => Done(v, {})
  }

  function RewriteItems(items: seq<Value>, refs: Refs, show: Value -> string): Option<(seq<Value>, set<string>)> {
    if items == [] then Some(([], {})) else
    var first := Rewrite(items[0], refs, show);
    var rest := RewriteItems(items[1..], refs, show);
    if first.Failed? || rest.None? then None
    else Some(([first.value] + rest.value.0, first.used + rest.value.1))
  }

  function RewriteEntries(entries: seq<Entry>, refs: Refs, show: Value -> string): Option<(seq<Entry>, set<string>)> {
    if entries == [] then Some(([], {})) else
    var first := Rewrite(entries[0].value, refs, show);
    var rest := RewriteEntries(entries[1..], refs, show);
    if first.Failed? || rest.None? then None
    else Some(([Entry(entries[0].key, first.value)] + rest.value.0, first.used + rest.value.1))
  }

  // ---------------------------------------------------------------- paths

  predicate Digit(c: char) {
    '0' <= c <= '9'
  }

  predicate KeyChar(c: char) {
    c != '[' && c != '.' && c != ']'
  }

  function Run(s: string, p: char -> bool): (n: nat)
    ensures n <= |s|
  {
    if s == "" || !p(s[0]) then 0 else 1 + Run(s[1..], p)
  }

  function DigitValue(c: char): nat
    requires Digit(c)
  {
    c as int - '0' as int
  }

  function Decimal(s: string): nat
    requires forall c <- s :: Digit(c)
  {
    if s == "" then 0 else Decimal(s[..|s| - 1]) * 10 + DigitValue(s[|s| - 1])
  }

  lemma {:induction false} RunHolds(s: string, p: char -> bool)
    ensures forall c <- s[..Run(s, p)] :: p(c)
  {
    if s != "" && p(s[0]) {
      RunHolds(s[1..], p);
      assert s[..Run(s, p)] == [s[0]] + s[1..][..Run(s[1..], p)];
    }
  }

  /** The steps of a path: names between dots and brackets, and numbers in brackets. */
  function Tokens(s: string): seq<Token>
    decreases |s|
  {
    if s == "" then []
    else if KeyChar(s[0]) then
      var n := Run(s, KeyChar);
      [Key(s[..n])] + Tokens(s[n..])
    else
      var n := Run(s[1..], Digit);
      RunHolds(s[1..], Digit);
      if s[0] == '[' && n > 0 && n + 1 < |s| && s[n + 1] == ']'
      then [Index(Decimal(s[1..][..n]))] + Tokens(s[n + 2..])
      else Tokens(s[1..])
  }

  /** The child of a container at a step, if there is one. */
  function Child(v: Value, t: Token): Option<Value> {
    match t
    case Index(i) => if v.List? && i < |v.items| then Some(v.items[i]) else None
    case Key(k) =>
      if v.Dict? && IndexOf(v.entries, k) < |v.entries| then Some(v.entries[IndexOf(v.entries, k)].value) else None
  }

  /** A container with `x` at a step: a new key is appended, a new index is refused. */
  function WithChild(v: Value, t: Token, x: Value): Option<Value> {
    match t
    case Index(i) => if v.List? && i < |v.items| then Some(List(v.items[i := x])) else None
    case Key(k) =>
      if !v.Dict? then None
      else if IndexOf(v.entries, k) < |v.entries| then Some(Dict(v.entries[IndexOf(v.entries, k) := Entry(k, x)]))
      else Some(Dict(v.entries + [Entry(k, x)]))
  }

  /** `_set_path_value`: None where it raises. */
  function SetPath(v: Value, path: seq<Token>, x: Value): Option<Value>
    decreases |path|
  {
    if path == [] then None
    else if |path| == 1 then WithChild(v, path[0], x)
    else match Child(v, path[0])
      case None => None
      case Some(child) =>
        match SetPath(child, path[1..], x)
        case None => None
        case Some(changed) => WithChild(v, path[0], changed)
  }

  // ---------------------------------------------------------------- the whole run

  /** An item of the file map. */
  datatype Mapping = Mapping(path: string, slot: string)

  function MappedSlot(m: Mapping): string {
    var slot := Strip(m.slot);
    if SENTINEL <= slot then Strip(slot[|SENTINEL|..]) else slot
  }

  function PathOf(m: Mapping): seq<Token> {
    Tokens(Strip(m.path))
  }

  function ApplyMap(o: Outcome, fileMap: seq<Mapping>, refs: Refs): Outcome
    decreases fileMap
  {
    if o.Failed? || fileMap == [] then o else
    var slot := MappedSlot(fileMap[0]);
    if slot !in refs then Failed else
    match SetPath(o.value, PathOf(fileMap[0]), refs[slot])
    case None => Failed
    case Some(v) => ApplyMap(Done(v, o.used + {slot}), fileMap[1..], refs)
  }

  function Checked(o: Outcome): Outcome {
    if o.Done? && o.used == {} then Failed else o
  }

  /** `rewrite_payload_with_uploaded_refs` */
  function RewritePayload(payload: Value, fileMap: seq<Mapping>, refs: Refs, show: Value -> string): Outcome {
    Checked(ApplyMap(Rewrite(payload, refs, show), fileMap, refs))
  }

  /** The loop over the file map. */
  method RewriteWithRefs(payload: Value, fileMap: seq<Mapping>, refs: Refs, show: Value -> string) returns (o: Outcome)
    ensures o == RewritePayload(payload, fileMap, refs, show)
  {
    o := Rewrite(payload, refs, show);
    if o.Failed? {
      return;
    }
    var i := 0;
    while i < |fileMap|
      invariant i <= |fileMap| && o.Done?
      invariant ApplyMap(o, fileMap[i..], refs) == ApplyMap(Rewrite(payload, refs, show), fileMap, refs)
    {
      var slot := MappedSlot(fileMap[i]);
      assert fileMap[i..][1..] == fileMap[i + 1..];
      if slot !in refs {
        return Failed;
      }
      var changed := SetPath(o.value, PathOf(fileMap[i]), refs[slot]);
      if changed.None? {
        return Failed;
      }
      o := Done(changed.value, o.used + {slot});
      i := i + 1;
    }
    if o.used == {} {
      o := Failed;
    }
  }

  /** The marker dictionary that the dry run puts at a slot. */
  function Marker(slot: string): Value {
    Dict([Entry("__gateway_upload_slot__", Text(slot))])
  }

  function Markers(slots: seq<string>): Refs {
    map s | s in slots && s != "" :: Marker(s)
  }

  /** `collect_used_upload_slots`; the slots of parsed files are stripped. */
  function DryRun(payload: Value, fileMap: seq<Mapping>, slots: seq<string>, show: Value -> string): Outcome {
    RewritePayload(payload, fileMap, Markers(slots), show)
  }
}
