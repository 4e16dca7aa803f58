/** What the client prints, the parser reads back: the parts, in order, for a last part of any
    length and under any fragmentation, as long as the delimiter before the last part arrives
    with the first read. */
module MultipartRoundTrip {
  import opened Prelude
  import opened MultipartReader
  import opened MultipartParts
  import opened MultipartUpload
  import opened MultipartHeaders

  // ---------------------------------------------------------------- the printed text

  /** What follows a boundary. */
  function Tail(parts: seq<Sent>, boundary: string): string {
    if parts == [] then "--\r\n"
    else "\r\n" + (HeadLines(parts[0]) + (parts[0].content + (Delimiter(boundary) + Tail(parts[1..], boundary))))
  }

  /** The text from the header lines of the first part on. */
  function InPart(parts: seq<Sent>, boundary: string): string
    requires parts != []
  {
    HeadLines(parts[0]) + (parts[0].content + (Delimiter(boundary) + Tail(parts[1..], boundary)))
  }

  lemma Regroup(dashes: string, eol: string, h: string, c: string, t: string)
    ensures dashes + eol + h + c + eol + (dashes + t) == dashes + (eol + (h + (c + ((eol + dashes) + t))))
  {
    var a := eol + (dashes + t);
    assert a == (eol + dashes) + t;
    Assoc(dashes + eol + h, c, a);
    Assoc(dashes + eol, h, c + a);
    Assoc(dashes, eol, h + (c + a));
    Assoc(dashes + eol + h + c, eol, dashes + t);
  }

  /** The printed text, read as the parser reads it: delimiters with what follows them. */
  lemma {:induction false} PrintIsTail(parts: seq<Sent>, boundary: string)
    ensures Print(parts, boundary) == ("--" + boundary) + Tail(parts, boundary)
  {
    var dashes := "--" + boundary;
    if parts == [] {
      assert "--" + boundary + "--\r\n" == dashes + "--\r\n";
    } else {
      PrintIsTail(parts[1..], boundary);
      var h, c, t := HeadLines(parts[0]), parts[0].content, Tail(parts[1..], boundary);
      assert PartHeader(boundary, parts[0]) == dashes + "\r\n" + h;
      assert Delimiter(boundary) == "\r\n" + dashes;
      Regroup(dashes, "\r\n", h, c, t);
    }
  }

  // ---------------------------------------------------------------- the first delimiter

  predicate BoundaryOk(boundary: string) {
    '\r' !in boundary && '\n' !in boundary
  }

  predicate Absent(content: string, boundary: string) {
    Find(content, Delimiter(boundary)).None?
  }

  /** A content without the delimiter ends at the delimiter: a delimiter starts with the only
      carriage return in it, so none can begin inside the content. */
  lemma FirstDelimiter(content: string, boundary: string, t: string)
    requires BoundaryOk(boundary) && Absent(content, boundary)
    ensures Find(content + (Delimiter(boundary) + t), Delimiter(boundary)) == Some(|content|)
  {
    var d := Delimiter(boundary);
    var text := content + (d + t);
    forall j | 0 <= j < |content| ensures !At(text, d, j) {
      NoneInside(content, boundary, t, j);
    }
    assert text[|content|..|content| + |d|] == d;
    FindIs(text, d, |content|);
  }

  lemma NoneInside(content: string, boundary: string, t: string, j: nat)
    requires BoundaryOk(boundary) && Absent(content, boundary) && j < |content|
    ensures !At(content + (Delimiter(boundary) + t), Delimiter(boundary), j)
  {
    var d := Delimiter(boundary);
    var text := content + (d + t);
    if At(text, d, j) {
      if j + |d| <= |content| {
        assert content[j..j + |d|] == text[j..j + |d|];
        FindMeans(content, d);
        assert At(content, d, j);
      } else {
        var i := |content| - j;
        assert text[j..j + |d|][i] == text[|content|] == '\r';
        assert d[i] == '\r' && 0 < i < |d|;
        OneReturn(boundary, i);
      }
    }
  }

  lemma OneReturn(boundary: string, i: nat)
    requires BoundaryOk(boundary) && 0 < i < |Delimiter(boundary)|
    ensures Delimiter(boundary)[i] != '\r'
  {
    if i >= 4 {
      assert Delimiter(boundary)[i] == boundary[i - 4];
      assert boundary[i - 4] in boundary;
    }
  }

  // ---------------------------------------------------------------- one part

  function Last(parts: seq<Sent>): Sent
    requires parts != []
  {
    parts[|parts| - 1]
  }

  /** How much may still be unread: what is behind the delimiter before the last part. */
  function Unread(parts: seq<Sent>, boundary: string): nat
    requires parts != []
  {
    |Tail([Last(parts)], boundary)|
  }

  lemma {:induction false} TailIsLong(parts: seq<Sent>, boundary: string)
    requires parts != []
    ensures |Tail(parts, boundary)| >= Unread(parts, boundary)
  {
    if |parts| > 1 {
      TailIsLong(parts[1..], boundary);
      assert Last(parts[1..]) == Last(parts);
    } else {
      assert parts == [Last(parts)];
    }
  }

  /** What the rest of the text may be once `text` has been read as far as its headers. */
  predicate Buffered(buffer: string, input: Input, parts: seq<Sent>, boundary: string)
    requires parts != []
  {
    buffer + Rest(input) == InPart(parts, boundary) && |Rest(input)| <= Unread(parts, boundary)
  }

  /** The body of the first part is safe to read. */
  lemma BodyIsSafe(buffer: string, input: Input, parts: seq<Sent>, boundary: string)
    requires parts != [] && BoundaryOk(boundary) && Absent(parts[0].content, boundary)
    requires buffer + Rest(input) == parts[0].content + (Delimiter(boundary) + Tail(parts[1..], boundary))
    requires |Rest(input)| <= Unread(parts, boundary)
    ensures Find(buffer + Rest(input), Delimiter(boundary)) == Some(|parts[0].content|)
    ensures Safe(buffer, Rest(input), Delimiter(boundary))
  {
    var d, c, t := Delimiter(boundary), parts[0].content, Tail(parts[1..], boundary);
    FirstDelimiter(c, boundary, t);
    if |parts| > 1 {
      TailIsLong(parts[1..], boundary);
      assert Last(parts[1..]) == Last(parts);
      assert |buffer| >= |c| + |d|;
      var text := buffer + Rest(input);
      assert buffer[|c|..|c| + |d|] == text[|c|..|c| + |d|];
      FindMeans(text, d);
      FindMeans(buffer, d);
      assert At(buffer, d, |c|);
    } else {
      assert t == "--\r\n";
    }
  }

  lemma EndOfTail(parts: seq<Sent>, boundary: string)
    ensures EndOf(Tail(parts, boundary)) == Ended(parts == [])
  {
    var t := Tail(parts, boundary);
    if parts == [] {
      assert t[2..4] == "\r\n";
    } else {
      assert t[0] == '\r';
      assert t[..2] == "\r\n";
    }
  }

  lemma BodyBehind(c: string, d: string, t: string)
    ensures (c + (d + t))[..|c|] == c && (c + (d + t))[|c| + |d|..] == t
  {
  }

  /** Where the body of the first part stops, the next part begins. */
  lemma BodyEnds(p: Part, parts: seq<Sent>, boundary: string, d: string, c: string, t: string)
    requires parts != [] && d == Delimiter(boundary) && c == parts[0].content && t == Tail(parts[1..], boundary)
    requires StoppedAt(p, "", c + (d + t), d, |c|)
    ensures p.sunk == c && p.outcome == Ended(|parts| == 1)
    ensures |parts| > 1 ==> p.buffer + Rest(p.input) == InPart(parts[1..], boundary)
  {
    BodyBehind(c, d, t);
    EndOfTail(parts[1..], boundary);
    if |parts| > 1 {
      assert t == "\r\n" + InPart(parts[1..], boundary);
      assert t[2..] == InPart(parts[1..], boundary);
      assert t[2..] == p.buffer + Rest(p.input);
    }
  }

  lemma BodyStops(buffer: string, input: Input, c: string, d: string, t: string, limit: nat)
    requires buffer + Rest(input) == c + (d + t) && |c| <= limit
    requires Find(c + (d + t), d) == Some(|c|) && Safe(buffer, Rest(input), d)
    ensures var p := StreamPart(buffer, input, d, limit, "");
      StoppedAt(p, "", c + (d + t), d, |c|) && |Rest(p.input)| <= |Rest(input)|
  {
    SafePartsStop(buffer, input, d, limit, "", |c|);
    PartsConserveBytes(buffer, input, d, limit, "");
  }

  /** The first part is read to its end, and the next one is in the same position. */
  lemma BodyIsRead(buffer: string, input: Input, parts: seq<Sent>, boundary: string, limit: nat)
    requires parts != [] && BoundaryOk(boundary) && Absent(parts[0].content, boundary)
    requires buffer + Rest(input) == parts[0].content + (Delimiter(boundary) + Tail(parts[1..], boundary))
    requires |Rest(input)| <= Unread(parts, boundary) && |parts[0].content| <= limit
    ensures var p := StreamPart(buffer, input, Delimiter(boundary), limit, "");
      && p.sunk == parts[0].content && p.outcome == Ended(|parts| == 1)
      && (|parts| > 1 ==> Buffered(p.buffer, p.input, parts[1..], boundary))
  {
    hide Tail, InPart, Absent, StreamPart, Delimiter;
    var d, c, t := Delimiter(boundary), parts[0].content, Tail(parts[1..], boundary);
    BodyIsSafe(buffer, input, parts, boundary);
    BodyStops(buffer, input, c, d, t, limit);
    BodyEnds(StreamPart(buffer, input, d, limit, ""), parts, boundary, d, c, t);
    if |parts| > 1 {
      assert Last(parts[1..]) == Last(parts);
    }
  }

  // ---------------------------------------------------------------- the parts

  /** What the parser keeps of a part. */
  function Took(seen: Seen, s: Sent): Seen {
    if s.filename != "" then
      seen.(files := seen.files + [Staged(SlotOf(s.name), s.name, s.filename, s.contentType, s.content)])
    else if s.name == "payload" then seen.(payload := Some(s.content))
    else if s.name == "file_map" then seen.(fileMap := Some(s.content))
    else seen
  }

  /** Which parts the parser accepts when it has `seen` others. */
  predicate Welcome(seen: Seen, s: Sent, l: Limits, codec: Codec) {
    if s.filename != "" then
      && SlotOf(s.name) != "" && (forall f <- seen.files :: f.slot != SlotOf(s.name))
      && |s.content| <= l.file
    else
      && |s.content| <= TextLimit(l) && codec.text(s.content)
      && (s.name == "payload" ==> codec.payload(s.content))
      && (s.name == "file_map" ==> s.content == "" || codec.fileMap(s.content))
  }

  /** A step went as it should for the first of `parts`. */
  predicate StepRead(s: Step, seen: Seen, parts: seq<Sent>, boundary: string)
    requires parts != []
  {
    && s.Went? && s.seen == Took(seen, parts[0]) && s.final == (|parts| == 1)
    && (|parts| > 1 ==> Buffered(s.buffer, s.input, parts[1..], boundary))
  }

  lemma FilePartIsRead(seen: Seen, h: Headers, parts: seq<Sent>, boundary: string, l: Limits, codec: Codec)
    requires parts != [] && BoundaryOk(boundary) && Absent(parts[0].content, boundary)
    requires parts[0].filename != "" && Welcome(seen, parts[0], l, codec)
    requires h.Headers? && |Rest(h.input)| <= Unread(parts, boundary)
    requires h.buffer + Rest(h.input) == parts[0].content + (Delimiter(boundary) + Tail(parts[1..], boundary))
    ensures var s := parts[0];
      StepRead(FilePart(seen, s.name, s.filename, s.contentType, h, Delimiter(boundary), l), seen, parts, boundary)
  {
    BodyIsRead(h.buffer, h.input, parts, boundary, l.file);
  }

  lemma TextPartIsRead(seen: Seen, h: Headers, parts: seq<Sent>, boundary: string, l: Limits, codec: Codec)
    requires parts != [] && BoundaryOk(boundary) && Absent(parts[0].content, boundary)
    requires parts[0].filename == "" && Welcome(seen, parts[0], l, codec)
    requires h.Headers? && |Rest(h.input)| <= Unread(parts, boundary)
    requires h.buffer + Rest(h.input) == parts[0].content + (Delimiter(boundary) + Tail(parts[1..], boundary))
    ensures StepRead(TextPart(seen, parts[0].name, h, Delimiter(boundary), l, codec), seen, parts, boundary)
  {
    BodyIsRead(h.buffer, h.input, parts, boundary, TextLimit(l));
  }

  lemma HeadersOfPart(buffer: string, input: Input, parts: seq<Sent>, boundary: string)
    requires parts != [] && PlainPart(parts[0]) && buffer + Rest(input) == InPart(parts, boundary)
    ensures var h := ReadHeaders(buffer, input, map[]);
      && h.Headers? && h.fields == FieldsOf(parts[0]) && |Rest(h.input)| <= |Rest(input)|
      && h.buffer + Rest(h.input) == parts[0].content + (Delimiter(boundary) + Tail(parts[1..], boundary))
  {
    HeadersAreExact(buffer, input, map[]);
    HeadIsRead(parts[0], parts[0].content + (Delimiter(boundary) + Tail(parts[1..], boundary)));
  }

  /** The headers of a plain part send the round where they should. */
  lemma HeadersDecide(seen: Seen, buffer: string, input: Input, s: Sent, delimiter: string, l: Limits, codec: Codec)
    requires PlainPart(s)
    requires var h := ReadHeaders(buffer, input, map[]); h.Headers? && h.fields == FieldsOf(s)
    ensures ReadPart(seen, buffer, input, delimiter, l, codec)
      == var h := ReadHeaders(buffer, input, map[]);
         if s.filename != "" then FilePart(seen, s.name, s.filename, s.contentType, h, delimiter, l)
         else TextPart(seen, s.name, h, delimiter, l, codec)
  {
    hide FilePart, TextPart, ReadHeaders;
    NamesAreRead(s);
  }

  /** One round of the parser reads one part. */
  lemma PartIsRead(seen: Seen, buffer: string, input: Input, parts: seq<Sent>, boundary: string, l: Limits, codec: Codec)
    requires parts != [] && BoundaryOk(boundary) && Absent(parts[0].content, boundary)
    requires PlainPart(parts[0]) && Welcome(seen, parts[0], l, codec)
    requires Buffered(buffer, input, parts, boundary)
    ensures StepRead(ReadPart(seen, buffer, input, Delimiter(boundary), l, codec), seen, parts, boundary)
  {
    hide ReadPart, FilePart, TextPart, ReadHeaders, StepRead, Welcome, Absent, InPart;
    var h := ReadHeaders(buffer, input, map[]);
    HeadersOfPart(buffer, input, parts, boundary);
    HeadersDecide(seen, buffer, input, parts[0], Delimiter(boundary), l, codec);
    if parts[0].filename != "" {
      FilePartIsRead(seen, h, parts, boundary, l, codec);
    } else {
      TextPartIsRead(seen, h, parts, boundary, l, codec);
    }
  }

  /** What the parser has seen after some parts. */
  function TookAll(seen: Seen, parts: seq<Sent>): Seen
    decreases parts
  {
    if parts == [] then seen else TookAll(Took(seen, parts[0]), parts[1..])
  }

  predicate AllWelcome(seen: Seen, parts: seq<Sent>, l: Limits, codec: Codec)
    decreases parts
  {
    parts == [] || (Welcome(seen, parts[0], l, codec) && AllWelcome(Took(seen, parts[0]), parts[1..], l, codec))
  }

  predicate AllPrintable(parts: seq<Sent>, boundary: string) {
    forall s <- parts :: PlainPart(s) && Absent(s.content, boundary)
  }

  lemma TookStep(seen: Seen, parts: seq<Sent>, l: Limits, codec: Codec)
    requires parts != []
    ensures TookAll(seen, parts) == TookAll(Took(seen, parts[0]), parts[1..])
    ensures AllWelcome(seen, parts, l, codec)
      <==> Welcome(seen, parts[0], l, codec) && AllWelcome(Took(seen, parts[0]), parts[1..], l, codec)
  {
  }

  lemma TookNone(seen: Seen, parts: seq<Sent>, l: Limits, codec: Codec)
    requires parts == []
    ensures TookAll(seen, parts) == seen && AllWelcome(seen, parts, l, codec)
  {
  }

  lemma PrintableStep(parts: seq<Sent>, boundary: string)
    requires parts != [] && AllPrintable(parts, boundary)
    ensures PlainPart(parts[0]) && Absent(parts[0].content, boundary) && AllPrintable(parts[1..], boundary)
  {
    assert parts[0] in parts;
    assert forall x <- parts[1..] :: x in parts;
  }

  lemma {:induction false} PartsAreRead(
    seen: Seen, buffer: string, input: Input, parts: seq<Sent>, boundary: string, l: Limits, codec: Codec, count: nat)
    requires parts != [] && BoundaryOk(boundary) && AllPrintable(parts, boundary)
    requires AllWelcome(seen, parts, l, codec) && count + |parts| <= MAX_FIELDS
    requires Buffered(buffer, input, parts, boundary)
    ensures ReadParts(seen, buffer, input, Delimiter(boundary), l, codec, count) == Finish(TookAll(seen, parts))
    decreases parts, 1
  {
    PrintableStep(parts, boundary);
    TookStep(seen, parts, l, codec);
    PartIsRead(seen, buffer, input, parts, boundary, l, codec);
    var s := ReadPart(seen, buffer, input, Delimiter(boundary), l, codec);
    ReadPartsStep(seen, buffer, input, Delimiter(boundary), l, codec, count, s);
    OtherPartsAreRead(s, seen, parts, boundary, l, codec, count);
  }

  lemma {:induction false} OtherPartsAreRead(
    s: Step, seen: Seen, parts: seq<Sent>, boundary: string, l: Limits, codec: Codec, count: nat)
    requires parts != [] && StepRead(s, seen, parts, boundary)
    requires BoundaryOk(boundary) && AllPrintable(parts[1..], boundary)
    requires AllWelcome(s.seen, parts[1..], l, codec) && count + |parts| <= MAX_FIELDS
    ensures (if s.final then Finish(s.seen) else ReadParts(s.seen, s.buffer, s.input, Delimiter(boundary), l, codec, count + 1))
      == Finish(TookAll(s.seen, parts[1..]))
    decreases parts, 0
  {
    if s.final {
      TookNone(s.seen, parts[1..], l, codec);
    } else {
      PartsAreRead(s.seen, s.buffer, s.input, parts[1..], boundary, l, codec, count + 1);
    }
  }

  lemma ReadPartsStep(seen: Seen, buffer: string, input: Input, d: string, l: Limits, codec: Codec, count: nat, s: Step)
    requires count < MAX_FIELDS && s == ReadPart(seen, buffer, input, d, l, codec) && s.Went?
    ensures ReadParts(seen, buffer, input, d, l, codec, count)
      == if s.final then Finish(s.seen) else ReadParts(s.seen, s.buffer, s.input, d, l, codec, count + 1)
  {
  }

  // ---------------------------------------------------------------- the preamble

  lemma LineEnds(line: string, rest: string)
    ensures line + ("\r\n" + rest) == (line + "\r") + "\n" + rest
  {
    assert "\r\n" == "\r" + "\n";
    Assoc("\r", "\n", rest);
    Assoc(line, "\r", "\n" + rest);
    Assoc(line + "\r", "\n", rest);
  }

  lemma PrintStarts(parts: seq<Sent>, boundary: string)
    requires parts != [] && BoundaryOk(boundary)
    ensures var line, text := "--" + boundary + "\r", Print(parts, boundary);
      && FirstLine(text) == line + "\n" && text == line + "\n" + InPart(parts, boundary)
      && text[|line| + 1..] == InPart(parts, boundary)
  {
    hide Print, HeadLines;
    PrintIsTail(parts, boundary);
    assert Tail(parts, boundary) == "\r\n" + InPart(parts, boundary);
    LineEnds("--" + boundary, InPart(parts, boundary));
    FirstLineIs("--" + boundary + "\r", InPart(parts, boundary));
  }

  /** The first line is the boundary, and the first part is behind it. */
  lemma PreambleIsRead(input: Input, parts: seq<Sent>, boundary: string)
    requires parts != [] && BoundaryOk(boundary) && Rest(input) == Print(parts, boundary)
    ensures var first := FirstRealLine("", input);
      && first == ReadLine("", input) && DropEol(first.text) == "--" + boundary
      && first.buffer + Rest(first.input) == InPart(parts, boundary)
      && |Rest(first.input)| <= |Rest(After(input, CHUNK))|
  {
    hide Print, InPart;
    PrintStarts(parts, boundary);
    var first := ReadLine("", input);
    LinesAreExact("", input);
    assert "" + Rest(input) == Rest(input);
    assert first.text == "--" + boundary + "\r" + "\n";
    assert !Blank(first.text) by { assert |first.text| > 3; }
    assert first.buffer + Rest(first.input) == Rest(input)[|first.text|..];
    DropsEol(boundary);
    assert "--" + boundary + "\r" + "\n" == "--" + boundary + "\r\n";
    FirstReadIsPast(input);
  }

  /** With an empty buffer a line takes at least one read. */
  lemma FirstReadIsPast(input: Input)
    requires Rest(input) != ""
    ensures |Rest(ReadLine("", input).input)| <= |Rest(After(input, CHUNK))|
  {
    LineConsumes("" + Chunk(input, CHUNK), After(input, CHUNK));
  }

  lemma DropsEol(boundary: string)
    requires BoundaryOk(boundary)
    ensures DropEol("--" + boundary + "\r\n") == "--" + boundary
  {
    var s := "--" + boundary;
    assert (s + "\r\n")[..|s| + 1] == s + "\r" && (s + "\r")[..|s|] == s;
    assert DropEol(s + "\r\n") == DropEol(s + "\r") == DropEol(s);
    if boundary != "" {
      assert s[|s| - 1] == boundary[|boundary| - 1] && boundary[|boundary| - 1] in boundary;
    }
  }

  // ---------------------------------------------------------------- the round trip

  /** What the parser makes of a file. */
  function StagedOf(f: File): Staged {
    Staged(f.slot, "files[" + f.slot + "]", f.filename, "application/octet-stream", f.content)
  }

  function AllStaged(files: seq<File>): seq<Staged> {
    if files == [] then [] else [StagedOf(files[0])] + AllStaged(files[1..])
  }

  predicate DistinctSlots(files: seq<File>) {
    forall i, j :: 0 <= i < j < |files| ==> files[i].slot != files[j].slot
  }

  /** What the client promises about an upload: plain names, distinct slots, at most 64 parts,
      nothing that looks like the boundary, contents within the limits, texts that decode. */
  predicate Sendable(u: Upload, boundary: string, l: Limits, codec: Codec) {
    && BoundaryOk(boundary) && u.files != [] && DistinctSlots(u.files)
    && |SentParts(u)| <= MAX_FIELDS
    && (forall f <- u.files :: Plain(f.slot) && Plain(f.filename) && |f.content| <= l.file && Absent(f.content, boundary))
    && Absent(u.payload, boundary) && Absent(u.fileMap, boundary)
    && codec.text(u.payload) && codec.payload(u.payload)
    && (u.fileMap != "" ==> codec.text(u.fileMap) && codec.fileMap(u.fileMap))
    && |u.payload| <= TextLimit(l) && |u.fileMap| <= TextLimit(l)
  }

  lemma {:induction false} FilesArePrintable(files: seq<File>, boundary: string)
    requires forall f <- files :: Plain(f.slot) && Plain(f.filename) && Absent(f.content, boundary)
    ensures AllPrintable(SentFiles(files), boundary)
  {
    if files != [] {
      var f := files[0];
      assert f in files;
      assert forall x <- files[1..] :: x in files;
      FilesArePrintable(files[1..], boundary);
      FieldIsPlain(f.slot);
      forall s | s in SentFiles(files) ensures PlainPart(s) && Absent(s.content, boundary) {
        if s !in SentFiles(files[1..]) {
          assert s == SentFiles(files)[0];
        }
      }
    }
  }

  lemma FieldIsPlain(slot: string)
    requires Plain(slot)
    ensures PlainField("files[" + slot + "]")
  {
    var name := "files[" + slot + "]";
    forall c | c in name ensures PlainChar(c) || c == '[' || c == ']' {
      if c in slot {
        assert PlainChar(c);
      } else {
        assert c in "files[" || c == ']';
      }
    }
  }

  /** No file has a slot that was seen. */
  predicate NewSlots(seen: Seen, files: seq<File>) {
    forall f <- files, s <- seen.files :: f.slot != s.slot
  }

  predicate GoodFiles(files: seq<File>, l: Limits) {
    forall f <- files :: Plain(f.slot) && Plain(f.filename) && |f.content| <= l.file
  }

  lemma FileIsWelcome(seen: Seen, files: seq<File>, l: Limits, codec: Codec)
    requires files != [] && DistinctSlots(files) && GoodFiles(files, l) && NewSlots(seen, files)
    ensures var s := SentFiles(files)[0];
      && Welcome(seen, s, l, codec) && Took(seen, s) == seen.(files := seen.files + [StagedOf(files[0])])
      && NewSlots(Took(seen, s), files[1..]) && GoodFiles(files[1..], l) && DistinctSlots(files[1..])
  {
    assert files[0] in files;
    assert forall g <- files[1..] :: g in files;
    SlotOfField(files[0].slot);
    SlotsStayNew(seen, files);
  }

  /** The slots of the files to come are new beside that of the first one, too. */
  lemma SlotsStayNew(seen: Seen, files: seq<File>)
    requires files != [] && DistinctSlots(files) && NewSlots(seen, files)
    ensures NewSlots(seen.(files := seen.files + [StagedOf(files[0])]), files[1..]) && DistinctSlots(files[1..])
  {
    var f, rest := files[0], files[1..];
    forall g, x | g in rest && x in seen.files + [StagedOf(f)] ensures g.slot != x.slot {
      assert g in files;
      if x !in seen.files {
        assert x == StagedOf(f);
        var i: nat :| i < |rest| && rest[i] == g;
        assert files[i + 1] == g;
      }
    }
  }

  lemma SentStep(files: seq<File>)
    requires files != []
    ensures SentFiles(files) != [] && SentFiles(files)[1..] == SentFiles(files[1..])
    ensures forall before: seq<Staged> ::
      before + [StagedOf(files[0])] + AllStaged(files[1..]) == before + AllStaged(files)
  {
  }

  lemma {:induction false} FilesAreWelcome(seen: Seen, files: seq<File>, l: Limits, codec: Codec)
    requires DistinctSlots(files) && GoodFiles(files, l) && NewSlots(seen, files)
    ensures AllWelcome(seen, SentFiles(files), l, codec)
    ensures TookAll(seen, SentFiles(files)) == seen.(files := seen.files + AllStaged(files))
    decreases files
  {
    if files != [] {
      FileIsWelcome(seen, files, l, codec);
      SentStep(files);
      var sent := SentFiles(files);
      TookStep(seen, sent, l, codec);
      FilesAreWelcome(Took(seen, sent[0]), files[1..], l, codec);
    } else {
      TookNone(seen, SentFiles(files), l, codec);
      assert seen.files + AllStaged(files) == seen.files;
    }
  }

  lemma TextsArePlain()
    ensures PlainField("payload") && PlainField("file_map")
  {
  }

  lemma PartsArePrintable(u: Upload, boundary: string, l: Limits, codec: Codec)
    requires Sendable(u, boundary, l, codec)
    ensures AllPrintable(SentParts(u), boundary)
  {
    TextsArePlain();
    FilesArePrintable(u.files, boundary);
  }

  /** The texts come first, then the files. */
  lemma PartsAreTaken(u: Upload, boundary: string, l: Limits, codec: Codec)
    requires Sendable(u, boundary, l, codec)
    ensures var seen := Seen(None, None, []); var parts := SentParts(u);
      && AllWelcome(seen, parts, l, codec)
      && TookAll(seen, parts)
         == Seen(Some(u.payload), if u.fileMap == "" then None else Some(u.fileMap), AllStaged(u.files))
  {
    var seen := Seen(None, None, []);
    var payload := Sent("payload", "", "application/json", u.payload);
    var fileMap := Sent("file_map", "", "application/json", u.fileMap);
    var files := SentFiles(u.files);
    var one := Took(seen, payload);
    var two := Took(one, fileMap);
    assert [] + AllStaged(u.files) == AllStaged(u.files);
    if u.fileMap == "" {
      assert SentParts(u) == [payload] + files && ([payload] + files)[1..] == files;
      FilesAreWelcome(one, u.files, l, codec);
    } else {
      assert SentParts(u) == [payload] + ([fileMap] + files);
      assert ([payload] + ([fileMap] + files))[1..] == [fileMap] + files && ([fileMap] + files)[1..] == files;
      FilesAreWelcome(two, u.files, l, codec);
    }
  }

  /** There is a part before the last one, which is a file. */
  lemma LastIsAFile(u: Upload)
    requires u.files != []
    ensures var parts := SentParts(u); |parts| >= 2 && Last(parts).filename == u.files[|u.files| - 1].filename
  {
    LastSentFile(u.files);
    assert Last(SentParts(u)) == Last(SentFiles(u.files));
  }

  lemma {:induction false} LastSentFile(files: seq<File>)
    requires files != []
    ensures SentFiles(files) != [] && Last(SentFiles(files)).filename == files[|files| - 1].filename
  {
    if |files| > 1 {
      LastSentFile(files[1..]);
    } else {
      assert files[1..] == [];
    }
  }

  /** The upload as it is handed on. */
  function Received(u: Upload): Parsed {
    Accepted(u.payload, if u.fileMap == "" then None else Some(u.fileMap), AllStaged(u.files))
  }

  /** What the client printed, read back. The only demand on the reads is that the first one
      delivers the delimiter before the last file. */
  lemma RoundTrip(u: Upload, boundary: string, l: Limits, codec: Codec, unread: string, cuts: seq<nat>)
    requires Sendable(u, boundary, l, codec)
    requires Print(SentParts(u), boundary) <= unread && |Print(SentParts(u), boundary)| <= TotalLimit(l)
    requires var input := Input(unread, |Print(SentParts(u), boundary)|, cuts);
      |Rest(After(input, CHUNK))| <= Unread(SentParts(u), boundary)
    ensures Parse(|Print(SentParts(u), boundary)|, unread, cuts, boundary, l, codec) == Received(u)
  {
    hide Print, SentParts, Unread, InPart, FirstRealLine, ReadParts, AllPrintable, AllWelcome, TookAll, Delimiter;
    var parts := SentParts(u);
    var input := Input(unread, |Print(parts, boundary)|, cuts);
    assert Rest(input) == Print(parts, boundary);
    LastIsAFile(u);
    PartsArePrintable(u, boundary, l, codec);
    PartsAreTaken(u, boundary, l, codec);
    PreambleIsRead(input, parts, boundary);
    var first := FirstRealLine("", input);
    PartsAreRead(Seen(None, None, []), first.buffer, first.input, parts, boundary, l, codec, 0);
  }
}
