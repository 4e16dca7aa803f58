/** The parser reads the header lines that the client writes. */
module MultipartHeaders {
  import opened Prelude
  import opened MultipartReader
  import opened MultipartUpload

  /** The characters of names that need no quoting. */
  predicate PlainChar(c: char) {
    'a' <= c <= 'z' || 'A' <= c <= 'Z' || '0' <= c <= '9' || c == '.' || c == '_' || c == '-'
  }

  predicate Plain(s: string) {
    s != "" && forall c <- s :: PlainChar(c)
  }

  /** A field name: plain, or plain in brackets. */
  predicate PlainField(s: string) {
    s != "" && forall c <- s :: PlainChar(c) || c == '[' || c == ']'
  }

  // ---------------------------------------------------------------- text

  lemma StripSpaceFirst(s: string)
    ensures Strip(" " + s) == Strip(s)
  {
    assert (" " + s)[1..] == s;
  }

  /** The white space at the end of a line goes. */
  lemma StripEol(s: string)
    requires Trimmed(s) && s != ""
    ensures Strip(s + "\r\n") == s
  {
    var t := s + "\r\n";
    assert t[0] == s[0];
    assert StripLeft(t) == t;
    assert t[..|t| - 1] == s + "\r" && (s + "\r")[..|s|] == s;
    assert StripRight(t) == StripRight(s + "\r") == StripRight(s) == s;
  }

  lemma StripTrimmed(s: string)
    requires Trimmed(s)
    ensures Strip(s) == s
  {
    StripFixesExactlyTrimmed(s);
  }

  lemma FindChar(a: string, c: char, b: string)
    requires c !in a
    ensures Find(a + [c] + b, [c]) == Some(|a|)
  {
    var t := a + [c] + b;
    forall j | 0 <= j < |a| ensures !At(t, [c], j) {
      assert t[j..j + 1] == [a[j]];
    }
    assert t[|a|..|a| + 1] == [c];
    FindIs(t, [c], |a|);
  }

  lemma {:induction false} SplitNone(s: string, c: char)
    requires c !in s
    ensures SplitOn(s, c) == [s]
  {
    if s != "" {
      SplitNone(s[1..], c);
      assert s == [s[0]] + s[1..];
    }
  }

  lemma {:induction false} SplitOnce(a: string, c: char, b: string)
    requires c !in a
    ensures SplitOn(a + [c] + b, c) == [a] + SplitOn(b, c)
  {
    var t := a + [c] + b;
    if a == "" {
      assert t[1..] == b;
    } else {
      SplitOnce(a[1..], c, b);
      assert t[1..] == a[1..] + [c] + b;
      assert a == [a[0]] + a[1..];
    }
  }

  lemma UnquoteQuoted(s: string)
    requires s != "" && '"' !in s
    ensures Unquote("\"" + s + "\"") == s
  {
    var t := "\"" + s + "\"";
    assert t[1..] == s + "\"";
    assert (s + "\"")[0] in s;
    assert DropLeft(t, '"') == s + "\"";
    assert (s + "\"")[..|s|] == s && s[|s| - 1] in s;
    assert DropRight(s + "\"", '"') == DropRight(s, '"') == s;
  }

  // ---------------------------------------------------------------- dispositions

  predicate PlainKey(key: string) {
    Trimmed(key) && Lower(key) == key && '=' !in key && ';' !in key && key != ""
  }

  function Item(key: string, value: string): string {
    key + "=\"" + value + "\""
  }

  lemma ItemSplits(key: string, value: string)
    requires '=' !in key
    ensures var item := Item(key, value);
      && Find(item, "=") == Some(|key|) && item[..|key|] == key && item[|key| + 1..] == "\"" + value + "\""
  {
    assert Item(key, value) == key + ['='] + ("\"" + value + "\"");
    FindChar(key, '=', "\"" + value + "\"");
  }

  lemma QuotedIsRead(value: string)
    requires PlainField(value)
    ensures Unquote(Strip("\"" + value + "\"")) == value
  {
    var quoted := "\"" + value + "\"";
    assert '"' !in value;
    assert quoted[0] == '"' && quoted[|quoted| - 1] == '"';
    StripTrimmed(quoted);
    UnquoteQuoted(value);
  }

  /** One parameter of the disposition. */
  lemma OneParam(key: string, value: string, items: seq<string>, params: map<string, string>)
    requires PlainKey(key) && PlainField(value)
    ensures Params([Item(key, value)] + items, params) == Params(items, params[key := value])
  {
    ItemSplits(key, value);
    StripTrimmed(key);
    QuotedIsRead(value);
    assert ([Item(key, value)] + items)[1..] == items;
  }

  lemma ItemIsTrimmed(key: string, value: string)
    requires PlainKey(key) && PlainField(value)
    ensures Trimmed(Item(key, value)) && Item(key, value) != "" && ';' !in Item(key, value)
  {
    var item := Item(key, value);
    assert item[0] == key[0] && item[|item| - 1] == '"';
  }

  lemma KeysArePlain()
    ensures PlainKey("name") && PlainKey("filename")
    ensures Trimmed("form-data") && Lower("form-data") == "form-data" && ';' !in "form-data"
  {
    assert Lower("name") == "name";
    assert Lower("filename") == "filename";
    assert Lower("form-data") == "form-data";
  }

  lemma StrippedPair(a: string, b: string)
    requires Trimmed(a) && a != "" && Trimmed(b) && b != ""
    ensures Stripped([a, " " + b]) == [a, b]
  {
    StripTrimmed(a);
    StripTrimmed(b);
    StripSpaceFirst(b);
    assert [a, " " + b][1..] == [" " + b];
    assert Stripped([" " + b]) == [b] by { assert [" " + b][1..] == []; }
  }

  lemma StrippedTriple(a: string, b: string, c: string)
    requires Trimmed(a) && a != "" && Trimmed(b) && b != "" && Trimmed(c) && c != ""
    ensures Stripped([a, " " + b, " " + c]) == [a, b, c]
  {
    StripTrimmed(a);
    StripTrimmed(b);
    StripSpaceFirst(b);
    StrippedPair(b, c);
    assert [a, " " + b, " " + c][1..] == [" " + b, " " + c];
    assert [" " + b, " " + c][1..] == [b, " " + c][1..];
    assert Stripped([" " + b, " " + c]) == [b] + Stripped([b, " " + c][1..]);
    assert Stripped([b, " " + c]) == [b] + Stripped([b, " " + c][1..]);
  }

  /** The disposition of a part without a file name. */
  lemma TextDisposition(name: string)
    requires PlainField(name)
    ensures Disposition(DispositionText(name, "")) == Some(("form-data", map["name" := name]))
  {
    KeysArePlain();
    var item := Item("name", name);
    ItemIsTrimmed("name", name);
    assert DispositionText(name, "") == "form-data" + [';'] + (" " + item);
    SplitOnce("form-data", ';', " " + item);
    SplitNone(" " + item, ';');
    StrippedPair("form-data", item);
    assert ["form-data", item][1..] == [item] + [];
    OneParam("name", name, [], map[]);
  }

  lemma SplitDisposition(a: string, b: string)
    requires ';' !in a && ';' !in b
    ensures SplitOn("form-data" + [';'] + (" " + a + [';'] + (" " + b)), ';') == ["form-data", " " + a, " " + b]
  {
    KeysArePlain();
    SplitOnce("form-data", ';', " " + a + [';'] + (" " + b));
    SplitOnce(" " + a, ';', " " + b);
    SplitNone(" " + b, ';');
  }

  lemma TwoParams(name: string, filename: string)
    requires PlainField(name) && Plain(filename)
    ensures Params([Item("name", name), Item("filename", filename)], map[])
      == map["name" := name, "filename" := filename]
  {
    KeysArePlain();
    var a, b := Item("name", name), Item("filename", filename);
    assert [a, b] == [a] + [b];
    OneParam("name", name, [b], map[]);
    assert [b] == [b] + [];
    OneParam("filename", filename, [], map["name" := name]);
  }

  lemma FileDispositionText(name: string, filename: string)
    requires filename != ""
    ensures DispositionText(name, filename)
      == "form-data" + [';'] + (" " + Item("name", name) + [';'] + (" " + Item("filename", filename)))
  {
  }

  lemma DispositionOfThree(value: string, kind: string, a: string, b: string)
    requires SplitOn(value, ';') == [kind, " " + a, " " + b]
    requires Trimmed(kind) && kind != "" && Trimmed(a) && a != "" && Trimmed(b) && b != ""
    ensures Disposition(value) == Some((Lower(kind), Params([a, b], map[])))
  {
    hide Trimmed, Strip, SplitOn, Stripped, Params, Lower;
    StrippedTriple(kind, a, b);
    assert [kind, a, b][1..] == [a, b];
  }

  /** The disposition of a part with a file name. */
  lemma FileDisposition(name: string, filename: string)
    requires PlainField(name) && Plain(filename)
    ensures Disposition(DispositionText(name, filename))
      == Some(("form-data", map["name" := name, "filename" := filename]))
  {
    hide Trimmed, PlainChar, Strip, SplitOn, Stripped, Params, Lower, Disposition, DispositionText, Item;
    KeysArePlain();
    var a, b := Item("name", name), Item("filename", filename);
    ItemIsTrimmed("name", name);
    ItemIsTrimmed("filename", filename);
    FileDispositionText(name, filename);
    SplitDisposition(a, b);
    DispositionOfThree(DispositionText(name, filename), "form-data", a, b);
    TwoParams(name, filename);
  }

  /** The slot of a bracketed field. */
  lemma SlotOfField(slot: string)
    requires Plain(slot)
    ensures SlotOf("files[" + slot + "]") == slot
  {
    var name := "files[" + slot + "]";
    assert name[0] == 'f' && name[|name| - 1] == ']';
    StripTrimmed(name);
    assert name[..6] == "files[";
    assert name[6..] == slot + "]" && (slot + "]")[..|slot|] == slot;
    assert slot[0] in slot && slot[|slot| - 1] in slot;
    StripTrimmed(slot);
  }

  /** The other spelling of a bracketed field, and a field without brackets. */
  lemma SlotOfOtherFields(slot: string)
    requires Plain(slot)
    ensures SlotOf("file[" + slot + "]") == slot && SlotOf(slot) == slot
  {
    hide Strip;
    var name := "file[" + slot + "]";
    assert slot[0] in slot && slot[|slot| - 1] in slot;
    StripTrimmed(slot);
    assert name[0] == 'f' && name[|name| - 1] == ']';
    StripTrimmed(name);
    assert Bracketed(name) == slot + "]" by {
      assert name[4] != "files["[4];
      assert name[..5] == "file[" && name[5..] == slot + "]";
    }
    assert (slot + "]")[..|slot|] == slot;
    NotBracketed(slot);
  }

  lemma NotBracketed(slot: string)
    requires Plain(slot)
    ensures Bracketed(slot) == ""
  {
    forall i | 0 <= i < |slot| ensures slot[i] != '[' {
      assert PlainChar(slot[i]) by { assert slot[i] in slot; }
    }
    assert "files["[5] == '[' && "file["[4] == '[';
  }

  // ---------------------------------------------------------------- header lines

  predicate OneLine(s: string) {
    Trimmed(s) && s != "" && '\n' !in s
  }

  function HeaderLine(name: string, value: string): string {
    name + ": " + value + "\r\n"
  }

  /** A header line is read as its name and its value. */
  lemma HeaderIsRead(name: string, value: string)
    requires OneLine(name) && ':' !in name && OneLine(value)
    ensures HeaderOf(HeaderLine(name, value)) == Some((Lower(name), value))
  {
    var text := name + ": " + value;
    assert text[0] == name[0] && text[|text| - 1] == value[|value| - 1];
    StripEol(text);
    assert text == name + [':'] + (" " + value);
    FindChar(name, ':', " " + value);
    assert text[..|name|] == name && text[|name| + 1..] == " " + value;
    StripTrimmed(name);
    StripTrimmed(value);
    StripSpaceFirst(value);
  }

  lemma FirstLineIs(line: string, rest: string)
    requires '\n' !in line
    ensures FirstLine(line + "\n" + rest) == line + "\n"
    ensures (line + "\n" + rest)[|line| + 1..] == rest
  {
    var t := line + "\n" + rest;
    assert t == line + ['\n'] + rest;
    FindChar(line, '\n', rest);
    assert t[..|line| + 1] == line + "\n";
  }

  /** One header line, and then the others. */
  lemma HeadStep(name: string, value: string, rest: string, fields: map<string, string>)
    requires OneLine(name) && ':' !in name && OneLine(value)
    ensures HeadOf(HeaderLine(name, value) + rest, fields) == HeadOf(rest, fields[Lower(name) := value])
  {
    var line := name + ": " + value + "\r";
    assert '\n' !in line;
    assert HeaderLine(name, value) == line + "\n";
    FirstLineIs(line, rest);
    assert !Blank(line + "\n") by { assert |line| > 1; }
    HeaderIsRead(name, value);
  }

  lemma HeadEnd(rest: string, fields: map<string, string>)
    ensures HeadOf("\r\n" + rest, fields) == Head(fields, rest)
  {
    assert "\r\n" + rest == "\r" + "\n" + rest;
    FirstLineIs("\r", rest);
  }

  function FieldsOf(s: Sent): map<string, string> {
    map["content-disposition" := DispositionText(s.name, s.filename), "content-type" := s.contentType]
  }

  /** A part as the client names its parts. */
  predicate PlainPart(s: Sent) {
    && PlainField(s.name) && (s.filename == "" || Plain(s.filename))
    && (s.contentType == "application/json" || s.contentType == "application/octet-stream")
  }

  lemma DispositionIsOneLine(name: string, filename: string)
    requires PlainField(name) && (filename == "" || Plain(filename))
    ensures OneLine(DispositionText(name, filename))
  {
    var t := DispositionText(name, filename);
    assert t[0] == 'f' && t[|t| - 1] == '"';
  }

  lemma DispositionName()
    ensures OneLine("Content-Disposition") && ':' !in "Content-Disposition"
    ensures Lower("Content-Disposition") == "content-disposition"
  {
    assert Lower("Content-Disposition") == "content-disposition";
  }

  lemma TypeName()
    ensures OneLine("Content-Type") && ':' !in "Content-Type"
    ensures Lower("Content-Type") == "content-type"
  {
    assert Lower("Content-Type") == "content-type";
  }

  lemma TypesAreOneLine(t: string)
    requires t == "application/json" || t == "application/octet-stream"
    ensures OneLine(t)
  {
  }

  /** The head of a part is read back, and the content is what is behind it. */
  lemma HeadIsRead(s: Sent, rest: string)
    requires PlainPart(s)
    ensures HeadOf(HeadLines(s) + rest, map[]) == Head(FieldsOf(s), rest)
  {
    DispositionName();
    TypeName();
    TypesAreOneLine(s.contentType);
    DispositionIsOneLine(s.name, s.filename);
    var value := DispositionText(s.name, s.filename);
    var a, b := HeaderLine("Content-Disposition", value), HeaderLine("Content-Type", s.contentType);
    HeadLinesSplit(s, rest);
    HeadStep("Content-Disposition", value, b + ("\r\n" + rest), map[]);
    HeadStep("Content-Type", s.contentType, "\r\n" + rest, map["content-disposition" := value]);
    HeadEnd(rest, FieldsOf(s));
  }

  lemma HeadLinesSplit(s: Sent, rest: string)
    requires s.contentType != ""
    ensures HeadLines(s) + rest ==
      HeaderLine("Content-Disposition", DispositionText(s.name, s.filename))
      + (HeaderLine("Content-Type", s.contentType) + ("\r\n" + rest))
  {
    var a := HeaderLine("Content-Disposition", DispositionText(s.name, s.filename));
    var b := HeaderLine("Content-Type", s.contentType);
    assert "Content-Disposition: " == "Content-Disposition" + ": ";
    assert "Content-Type: " == "Content-Type" + ": ";
    assert HeadLines(s) == a + b + "\r\n";
    assert (a + b + "\r\n") + rest == a + (b + ("\r\n" + rest));
  }

  /** The names of a part are read back. */
  lemma NamesAreRead(s: Sent)
    requires PlainPart(s)
    ensures NamesOf(FieldsOf(s)) == Some((s.name, s.filename)) && ContentType(FieldsOf(s)) == s.contentType
  {
    PlainIsTrimmed(s.name);
    TypesAreOneLine(s.contentType);
    StripTrimmed(s.contentType);
    if s.filename == "" {
      TextDisposition(s.name);
    } else {
      FileDisposition(s.name, s.filename);
      PlainIsTrimmed(s.filename);
    }
  }

  lemma PlainIsTrimmed(s: string)
    requires PlainField(s)
    ensures Strip(s) == s
  {
    assert s[0] in s && s[|s| - 1] in s;
    StripTrimmed(s);
  }
}
