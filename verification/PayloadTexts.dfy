/** What the rewriter reads out of texts, and what it writes: which nodes are placeholders,
    which slot a file map names, that paths are read back, and that setting a path sets that
    position and no other. */
module PayloadTexts {
  import opened Prelude
  import opened PayloadRewrite

  // ---------------------------------------------------------------- placeholders

  predicate FirstAt(entries: seq<Entry>, key: string, i: nat) {
    i < |entries| && entries[i].key == key && forall j :: 0 <= j < i ==> entries[j].key != key
  }

  /** The dictionary has the text under the key, up to white space around it. */
  ghost predicate Says(entries: seq<Entry>, key: string, text: string, show: Value -> string) {
    exists i: nat :: FirstAt(entries, key, i)
      && text == Strip(if entries[i].value.Text? then entries[i].value.text else show(entries[i].value))
  }

  /** A text that begins with the sentinel names the slot behind it; a dictionary of the kind
      of uploaded files names its slot, unless that is empty. */
  ghost predicate Placeholder(v: Value, slot: string, show: Value -> string) {
    match v
    case Text(text) => |text| >= 9 && text[..9] == "__file__:" && slot == Strip(text[9..])
    case Dict(entries) =>
      && slot != "" && Says(entries, "slot", slot, show)
      && exists kind :: Says(entries, "kind", kind, show) && Lower(kind) == "uploaded_file"
    case _ => false
  }

  lemma {:induction false} IndexIsTheFirst(entries: seq<Entry>, key: string)
    ensures var i := IndexOf(entries, key);
      if i < |entries| then FirstAt(entries, key, i) else forall j :: 0 <= j < |entries| ==> entries[j].key != key
  {
    if entries != [] && entries[0].key != key {
      IndexIsTheFirst(entries[1..], key);
      assert forall j :: 0 < j < |entries| ==> entries[j] == entries[1..][j - 1];
    }
  }

  lemma FieldIsSaid(entries: seq<Entry>, key: string, text: string, show: Value -> string)
    ensures text != "" ==> (Field(entries, key, show) == text <==> Says(entries, key, text, show))
    ensures Says(entries, key, text, show) ==> Field(entries, key, show) == text
  {
    IndexIsTheFirst(entries, key);
    if Says(entries, key, text, show) {
      var i: nat :| FirstAt(entries, key, i)
        && text == Strip(if entries[i].value.Text? then entries[i].value.text else show(entries[i].value));
      assert i == IndexOf(entries, key);
    }
  }

  /** Exactly these nodes are replaced. */
  lemma PlaceholdersAreFound(v: Value, slot: string, show: Value -> string)
    ensures SlotAt(v, show) == Some(slot) <==> Placeholder(v, slot, show)
  {
    match v
    case Dict(entries) =>
      hide Field, Says, Lower;
      FieldIsSaid(entries, "slot", slot, show);
      EmptyIsNoKind();
      forall kind ensures kind != "" ==> (Field(entries, "kind", show) == kind <==> Says(entries, "kind", kind, show)) {
        FieldIsSaid(entries, "kind", kind, show);
      }
    case _ =>
  }

  lemma EmptyIsNoKind()
    ensures Lower("") == ""
  {
  }

  // ---------------------------------------------------------------- slots of the file map

  /** The slot of a mapping stands between white space, with the sentinel before it or not. */
  lemma MappedSlotIs(path: string, before: string, slot: string, between: string, after: string)
    requires AllSpace(before) && AllSpace(between) && AllSpace(after) && Trimmed(slot) && slot != ""
    ensures MappedSlot(Mapping(path, before + "__file__:" + between + slot + after)) == slot
    ensures !("__file__:" <= slot) ==> MappedSlot(Mapping(path, before + slot + after)) == slot
  {
    hide Strip;
    var text := "__file__:" + between + slot;
    assert text[0] == '_' && text[|text| - 1] == slot[|slot| - 1];
    assert before + "__file__:" + between + slot + after == before + text + after;
    StripFindsTheMiddle(before, text, after);
    assert text[9..] == between + slot + "";
    StripFindsTheMiddle(between, slot, "");
    StripFindsTheMiddle(before, slot, after);
  }

  // ---------------------------------------------------------------- paths as texts

  function DigitOf(n: nat): char
    requires n < 10
  {
    ('0' as int + n) as char
  }

  /** A number in decimal. */
  function Show(n: nat): string {
    if n < 10 then [DigitOf(n)] else Show(n / 10) + [DigitOf(n % 10)]
  }

  lemma {:induction false} ShowIsRead(n: nat)
    ensures Show(n) != "" && (forall c <- Show(n) :: Digit(c)) && Decimal(Show(n)) == n
  {
    if n >= 10 {
      ShowIsRead(n / 10);
      var s := Show(n / 10);
      assert (s + [DigitOf(n % 10)])[..|s|] == s;
    } else {
      assert Show(n)[..0] == "";
    }
  }

  /** How a path is written: keys with dots between them, indices in brackets. */
  function PathText(tokens: seq<Token>, first: bool): string {
    if tokens == [] then "" else
    (match tokens[0]
     case Key(k) => (if first then "" else ".") + k
     case Index(i) => "[" + Show(i) + "]")
    + PathText(tokens[1..], false)
  }

  predicate Writable(tokens: seq<Token>) {
    forall i :: 0 <= i < |tokens| && tokens[i].Key? ==> tokens[i].key != "" && forall c <- tokens[i].key :: KeyChar(c)
  }

  lemma {:induction false} RunIs(a: string, b: string, p: char -> bool)
    requires (forall c <- a :: p(c)) && (b == "" || !p(b[0]))
    ensures Run(a + b, p) == |a|
  {
    if a == "" {
      assert a + b == b;
    } else {
      assert a[0] in a && forall c <- a[1..] :: c in a;
      RunIs(a[1..], b, p);
      assert (a + b)[1..] == a[1..] + b;
    }
  }

  lemma RestBegins(tokens: seq<Token>)
    ensures var t := PathText(tokens, false); t == "" || !KeyChar(t[0])
  {
  }

  lemma KeyIsRead(key: string, rest: string)
    requires key != "" && (forall c <- key :: KeyChar(c)) && (rest == "" || !KeyChar(rest[0]))
    ensures Tokens(key + rest) == [Key(key)] + Tokens(rest)
    ensures Tokens("." + (key + rest)) == [Key(key)] + Tokens(rest)
  {
    RunIs(key, rest, KeyChar);
    assert key[0] in key;
    assert ("." + (key + rest))[1..] == key + rest;
  }

  lemma IndexIsRead(i: nat, rest: string)
    ensures Tokens("[" + Show(i) + "]" + rest) == [Index(i)] + Tokens(rest)
  {
    hide Show, Decimal;
    ShowIsRead(i);
    var digits := Show(i);
    var s := "[" + digits + "]" + rest;
    assert s[1..] == digits + ("]" + rest);
    RunIs(digits, "]" + rest, Digit);
    assert s[1..][..|digits|] == digits && s[|digits| + 2..] == rest;
  }

  lemma FirstStepIsRead(tokens: seq<Token>, first: bool)
    requires Writable(tokens) && tokens != []
    ensures Tokens(PathText(tokens, first)) == [tokens[0]] + Tokens(PathText(tokens[1..], false))
  {
    hide Tokens, Show, KeyChar;
    var rest := PathText(tokens[1..], false);
    RestBegins(tokens[1..]);
    match tokens[0]
    case Key(k) =>
      KeyIsRead(k, rest);
      assert "" + k + rest == k + rest && "." + k + rest == "." + (k + rest);
    case Index(i) => IndexIsRead(i, rest);
  }

  /** A path is read back from its text. */
  lemma {:induction false} PathIsReadBack(tokens: seq<Token>, first: bool)
    requires Writable(tokens)
    ensures Tokens(PathText(tokens, first)) == tokens
    decreases |tokens|
  {
    if tokens == [] {
      assert Tokens("") == [];
    } else {
      hide Tokens, PathText;
      assert forall i :: 0 <= i < |tokens[1..]| ==> tokens[1..][i] == tokens[i + 1];
      FirstStepIsRead(tokens, first);
      PathIsReadBack(tokens[1..], false);
    }
  }

  /** The path of a mapping may stand between white space. */
  lemma MappedPathIsReadBack(before: string, tokens: seq<Token>, after: string, slot: string)
    requires Writable(tokens) && Trimmed(PathText(tokens, true)) && AllSpace(before) && AllSpace(after)
    ensures PathOf(Mapping(before + PathText(tokens, true) + after, slot)) == tokens
  {
    hide Strip, Tokens, PathText;
    StripFindsTheMiddle(before, PathText(tokens, true), after);
    PathIsReadBack(tokens, true);
  }

  // ---------------------------------------------------------------- setting a path

  /** What a path leads to. */
  function Reached(v: Value, path: seq<Token>): Option<Value>
    decreases |path|
  {
    if path == [] then Some(v)
    else match Child(v, path[0])
      case None => None
      case Some(child) => Reached(child, path[1..])
  }

  /** The last step of a path may name a new key of a dictionary, but only an old index of a
      list. */
  predicate Accepts(v: Value, t: Token) {
    match t
    case Key(_) => v.Dict?
    case Index(i) => v.List? && i < |v.items|
  }

  lemma FirstIsUnique(entries: seq<Entry>, key: string, i: nat)
    requires FirstAt(entries, key, i)
    ensures IndexOf(entries, key) == i
  {
    IndexIsTheFirst(entries, key);
  }

  /** The other keys of a dictionary, when one is set or added. */
  lemma OtherKeysStay(before: seq<Entry>, after: seq<Entry>, key: string, k: string)
    requires k != key && |before| <= |after| <= |before| + 1
    requires forall i :: 0 <= i < |before| ==> after[i] == before[i] || (before[i].key == key && after[i].key == key)
    requires |after| > |before| ==> after[|before|].key == key
    ensures Child(Dict(after), Key(k)) == Child(Dict(before), Key(k))
  {
    IndexIsTheFirst(before, k);
    IndexIsTheFirst(after, k);
    var i := IndexOf(before, k);
    if i < |before| {
      FirstIsUnique(after, k, i);
    }
  }

  lemma KeyIsSet(entries: seq<Entry>, key: string, x: Value)
    ensures var w := WithChild(Dict(entries), Key(key), x); w.Some? && Child(w.value, Key(key)) == Some(x)
  {
    var i := IndexOf(entries, key);
    IndexIsTheFirst(entries, key);
    FirstIsUnique(if i < |entries| then entries[i := Entry(key, x)] else entries + [Entry(key, x)], key, i);
  }

  lemma WithChildSets(v: Value, t: Token, x: Value)
    ensures WithChild(v, t, x).Some? <==> Accepts(v, t)
    ensures WithChild(v, t, x).Some? ==> Child(WithChild(v, t, x).value, t) == Some(x)
    ensures forall u :: WithChild(v, t, x).Some? && u != t ==> Child(WithChild(v, t, x).value, u) == Child(v, u)
  {
    if v.Dict? && t.Key? {
      KeyIsSet(v.entries, t.key, x);
      var i := IndexOf(v.entries, t.key);
      var entries := if i < |v.entries| then v.entries[i := Entry(t.key, x)] else v.entries + [Entry(t.key, x)];
      forall k: string | k != t.key ensures Child(Dict(entries), Key(k)) == Child(v, Key(k)) {
        OtherKeysStay(v.entries, entries, t.key, k);
      }
    }
  }

  /** Setting a path succeeds exactly when the path is not empty and leads, but for its last
      step, to a container that accepts that step; then the path leads to what was set. */
  lemma {:induction false} SetPathSets(v: Value, path: seq<Token>, x: Value)
    ensures SetPath(v, path, x).Some? <==>
      (path != [] && (var home := Reached(v, path[..|path| - 1]); home.Some? && Accepts(home.value, path[|path| - 1])))
    ensures SetPath(v, path, x).Some? ==> Reached(SetPath(v, path, x).value, path) == Some(x)
    decreases |path|
  {
    if path != [] {
      WithChildSets(v, path[0], x);
      if |path| == 1 {
        assert path[1..] == [];
      } else if Child(v, path[0]).Some? {
        var child := Child(v, path[0]).value;
        SetPathSets(child, path[1..], x);
        assert path[..|path| - 1][1..] == path[1..][..|path| - 2];
        var changed := SetPath(child, path[1..], x);
        if changed.Some? {
          WithChildSets(v, path[0], changed.value);
        }
      }
    }
  }

  /** Two paths that part: neither leads through the end of the other. */
  predicate Part(p: seq<Token>, q: seq<Token>) {
    exists i :: 0 <= i < |p| && i < |q| && p[i] != q[i]
  }

  /** Every path that parts from it leads to what it led to before. */
  lemma {:induction false} SetPathSetsNothingElse(v: Value, path: seq<Token>, x: Value, other: seq<Token>)
    requires SetPath(v, path, x).Some? && Part(path, other)
    ensures Reached(SetPath(v, path, x).value, other) == Reached(v, other)
    decreases |path|
  {
    if |path| == 1 {
      WithChildSets(v, path[0], x);
    } else {
      var child := Child(v, path[0]).value;
      var changed := SetPath(child, path[1..], x).value;
      WithChildSets(v, path[0], changed);
      if path[0] == other[0] {
        var i :| 0 <= i < |path| && i < |other| && path[i] != other[i];
        assert path[1..][i - 1] != other[1..][i - 1];
        SetPathSetsNothingElse(child, path[1..], x, other[1..]);
      }
    }
  }
}
