/** Which upload calls are accepted: what holds of every accepted one, whatever was sent, and
    exactly which lists of printed parts are refused. */
module MultipartVerdicts {
  import opened Prelude
  import opened MultipartReader
  import opened MultipartParts
  import opened MultipartUpload
  import opened MultipartHeaders
  import opened MultipartRoundTrip

  // ---------------------------------------------------------------- what is accepted

  /** A text that was collected in memory: as long as the total limit allows, or 64 KiB. */
  predicate Decodes(text: string, l: Limits, codec: Codec) {
    codec.text(text) && (|text| <= 65536 || |text| <= l.total)
  }

  /** What is kept of the first `count` parts. */
  predicate Sound(seen: Seen, l: Limits, codec: Codec, count: nat) {
    && |seen.files| + (if seen.payload.Some? then 1 else 0) <= count
    && (forall i :: 0 <= i < |seen.files| ==>
          seen.files[i].slot != "" && seen.files[i].filename != "" && |seen.files[i].content| <= l.file)
    && (forall i, j :: 0 <= i < j < |seen.files| ==> seen.files[i].slot != seen.files[j].slot)
    && (seen.payload.Some? ==> Decodes(seen.payload.value, l, codec) && codec.payload(seen.payload.value))
    && (seen.fileMap.Some? ==>
          Decodes(seen.fileMap.value, l, codec) && (seen.fileMap.value == "" || codec.fileMap(seen.fileMap.value)))
  }

  lemma FilePartIsSound(
    seen: Seen, name: string, filename: string, contentType: string, h: Headers, d: string, l: Limits, codec: Codec, count: nat)
    requires h.Headers? && Sound(seen, l, codec, count) && filename != ""
    ensures var s := FilePart(seen, name, filename, contentType, h, d, l); s.Went? ==> Sound(s.seen, l, codec, count + 1)
  {
    PartsAreBounded(h.buffer, h.input, d, l.file);
  }

  lemma TextPartIsSound(seen: Seen, name: string, h: Headers, d: string, l: Limits, codec: Codec, count: nat)
    requires h.Headers? && Sound(seen, l, codec, count)
    ensures var s := TextPart(seen, name, h, d, l, codec); s.Went? ==> Sound(s.seen, l, codec, count + 1)
  {
    PartsAreBounded(h.buffer, h.input, d, TextLimit(l));
  }

  lemma RoundIsSound(seen: Seen, buffer: string, input: Input, d: string, l: Limits, codec: Codec, count: nat)
    requires Sound(seen, l, codec, count)
    ensures var s := ReadPart(seen, buffer, input, d, l, codec); s.Went? ==> Sound(s.seen, l, codec, count + 1)
  {
    hide Sound, FilePart, TextPart, ReadHeaders, NamesOf, ContentType;
    var h := ReadHeaders(buffer, input, map[]);
    if h.Headers? && NamesOf(h.fields).Some? {
      var n := NamesOf(h.fields).value;
      if n.1 != "" {
        FilePartIsSound(seen, n.0, n.1, ContentType(h.fields), h, d, l, codec, count);
      } else {
        TextPartIsSound(seen, n.0, h, d, l, codec, count);
      }
    }
  }

  /** What holds of everything that is accepted. */
  predicate Acceptable(r: Parsed, l: Limits, codec: Codec) {
    r.Accepted? ==>
      && 1 <= |r.files| <= 63
      && (forall i :: 0 <= i < |r.files| ==>
            r.files[i].slot != "" && r.files[i].filename != "" && |r.files[i].content| <= l.file)
      && (forall i, j :: 0 <= i < j < |r.files| ==> r.files[i].slot != r.files[j].slot)
      && Decodes(r.payload, l, codec) && codec.payload(r.payload)
      && (r.fileMap.Some? ==>
            Decodes(r.fileMap.value, l, codec) && (r.fileMap.value == "" || codec.fileMap(r.fileMap.value)))
  }

  lemma {:induction false} PartsAreAcceptable(
    seen: Seen, buffer: string, input: Input, d: string, l: Limits, codec: Codec, count: nat)
    requires Sound(seen, l, codec, count)
    ensures Acceptable(ReadParts(seen, buffer, input, d, l, codec, count), l, codec)
    decreases MAX_FIELDS - count
  {
    hide Acceptable, Sound, ReadPart, Finish;
    NothingIsAcceptable(l, codec);
    if count < MAX_FIELDS {
      var s := ReadPart(seen, buffer, input, d, l, codec);
      RoundIsSound(seen, buffer, input, d, l, codec, count);
      if s.Went? {
        if s.final {
          FinishIsAcceptable(s.seen, l, codec, count + 1);
        } else {
          PartsAreAcceptable(s.seen, s.buffer, s.input, d, l, codec, count + 1);
        }
      }
    }
  }

  lemma FinishIsAcceptable(seen: Seen, l: Limits, codec: Codec, count: nat)
    requires Sound(seen, l, codec, count) && count <= MAX_FIELDS
    ensures Acceptable(Finish(seen), l, codec)
  {
  }

  /** Whatever a connection holds and however it arrives: what is accepted was announced within
      the total limit, has between 1 and 63 files with names and slots of their own, each
      within its limit, and texts that decode. */
  lemma AcceptedIsSound(contentLength: int, unread: string, cuts: seq<nat>, boundary: string, l: Limits, codec: Codec)
    ensures Acceptable(Parse(contentLength, unread, cuts, boundary, l, codec), l, codec)
    ensures contentLength > l.total && contentLength > 1 ==> Parse(contentLength, unread, cuts, boundary, l, codec) == Refused
  {
    hide ReadParts, FirstRealLine, Acceptable;
    var first := FirstRealLine("", Input(unread, if contentLength < 0 then 0 else contentLength, cuts));
    PartsAreAcceptable(Seen(None, None, []), first.buffer, first.input, Delimiter(boundary), l, codec, 0);
    NothingIsAcceptable(l, codec);
  }

  lemma NothingIsAcceptable(l: Limits, codec: Codec)
    ensures Acceptable(Refused, l, codec)
  {
  }

  // ---------------------------------------------------------------- which parts are refused

  /** Part i is accepted behind the parts before it and what was seen before them: a file has a
      slot of its own and is within the limit, a text is within its limit and decodes. */
  ghost predicate Fits(seen: Seen, parts: seq<Sent>, i: nat, l: Limits, codec: Codec)
    requires i < |parts|
  {
    var s := parts[i];
    if s.filename != "" then
      && SlotOf(s.name) != "" && |s.content| <= l.file
      && Untaken(seen, parts, i, SlotOf(s.name))
    else
      && Decodes(s.content, l, codec)
      && (s.name == "payload" ==> codec.payload(s.content))
      && (s.name == "file_map" ==> s.content == "" || codec.fileMap(s.content))
  }

  lemma FirstFits(seen: Seen, parts: seq<Sent>, l: Limits, codec: Codec)
    requires parts != []
    ensures Fits(seen, parts, 0, l, codec) <==> Welcome(seen, parts[0], l, codec)
  {
  }

  /** No file that was seen, and none of the first i parts, has the slot. */
  ghost predicate Untaken(seen: Seen, parts: seq<Sent>, i: nat, slot: string)
    requires i <= |parts|
  {
    && (forall k :: 0 <= k < |seen.files| ==> seen.files[k].slot != slot)
    && (forall j :: 0 <= j < i && parts[j].filename != "" ==> SlotOf(parts[j].name) != slot)
  }

  lemma UntakenBehindTheFirst(seen: Seen, parts: seq<Sent>, i: nat, slot: string)
    requires i + 1 <= |parts|
    ensures Untaken(seen, parts, i + 1, slot) <==> Untaken(Took(seen, parts[0]), parts[1..], i, slot)
  {
    hide SlotOf;
    var later, rest := Took(seen, parts[0]), parts[1..];
    assert forall j :: 0 <= j < i ==> rest[j] == parts[j + 1];
    if Untaken(later, rest, i, slot) {
      assert forall k :: 0 <= k < |seen.files| ==> seen.files[k] == later.files[k];
      assert parts[0].filename != "" ==> later.files[|seen.files|].slot == SlotOf(parts[0].name);
      forall j | 0 <= j < i + 1 && parts[j].filename != "" ensures SlotOf(parts[j].name) != slot {
        if j > 0 {
          assert rest[j - 1] == parts[j];
        }
      }
    }
  }

  lemma FitsBehindTheFirst(seen: Seen, parts: seq<Sent>, i: nat, l: Limits, codec: Codec)
    requires i + 1 < |parts|
    ensures Fits(seen, parts, i + 1, l, codec) <==> Fits(Took(seen, parts[0]), parts[1..], i, l, codec)
  {
    hide SlotOf, Took;
    UntakenBehindTheFirst(seen, parts, i, SlotOf(parts[i + 1].name));
  }

  lemma {:induction false} AllFit(seen: Seen, parts: seq<Sent>, l: Limits, codec: Codec)
    ensures AllWelcome(seen, parts, l, codec) <==> forall i :: 0 <= i < |parts| ==> Fits(seen, parts, i, l, codec)
    decreases |parts|
  {
    hide Fits, Welcome, Took;
    if parts != [] {
      FirstFits(seen, parts, l, codec);
      AllFit(Took(seen, parts[0]), parts[1..], l, codec);
      forall i | 0 < i < |parts|
        ensures Fits(seen, parts, i, l, codec) <==> Fits(Took(seen, parts[0]), parts[1..], i - 1, l, codec)
      {
        FitsBehindTheFirst(seen, parts, i - 1, l, codec);
      }
      if forall i :: 0 <= i < |parts| ==> Fits(seen, parts, i, l, codec) {
        forall i | 0 <= i < |parts[1..]| ensures Fits(Took(seen, parts[0]), parts[1..], i, l, codec) {
          FitsBehindTheFirst(seen, parts, i, l, codec);
        }
      }
    }
  }

  /** The last text with a name, if there is one. */
  function LastText(parts: seq<Sent>, name: string): Option<string> {
    if parts == [] then None
    else if LastText(parts[1..], name).Some? then LastText(parts[1..], name)
    else if parts[0].filename == "" && parts[0].name == name then Some(parts[0].content)
    else None
  }

  function FileOf(s: Sent): seq<Staged> {
    if s.filename == "" then [] else [Staged(SlotOf(s.name), s.name, s.filename, s.contentType, s.content)]
  }

  /** The files in order. */
  function FilesOf(parts: seq<Sent>): seq<Staged> {
    if parts == [] then [] else FileOf(parts[0]) + FilesOf(parts[1..])
  }

  function Or<T>(a: Option<T>, b: Option<T>): Option<T> {
    if a.Some? then a else b
  }

  lemma {:induction false} TakenIsSpelledOut(seen: Seen, parts: seq<Sent>)
    ensures TookAll(seen, parts)
      == Seen(Or(LastText(parts, "payload"), seen.payload), Or(LastText(parts, "file_map"), seen.fileMap),
              seen.files + FilesOf(parts))
    decreases |parts|
  {
    hide SlotOf;
    if parts == [] {
      assert seen.files + [] == seen.files;
    } else {
      TakenIsSpelledOut(Took(seen, parts[0]), parts[1..]);
      FilesJoin(seen.files, FileOf(parts[0]), FilesOf(parts[1..]));
      assert seen.files + [] == seen.files;
    }
  }

  lemma FilesJoin(a: seq<Staged>, b: seq<Staged>, c: seq<Staged>)
    ensures (a + b) + c == a + (b + c)
  {
  }

  /** A part that is not welcome ends the parsing. */
  lemma UnwelcomePartFails(
    seen: Seen, buffer: string, input: Input, parts: seq<Sent>, boundary: string, l: Limits, codec: Codec)
    requires parts != [] && BoundaryOk(boundary) && Absent(parts[0].content, boundary) && PlainPart(parts[0])
    requires !Welcome(seen, parts[0], l, codec) && Buffered(buffer, input, parts, boundary)
    ensures ReadPart(seen, buffer, input, Delimiter(boundary), l, codec) == Failed
  {
    hide ReadPart, FilePart, TextPart, ReadHeaders, Welcome, Absent, InPart;
    var h := ReadHeaders(buffer, input, map[]);
    HeadersOfPart(buffer, input, parts, boundary);
    HeadersDecide(seen, buffer, input, parts[0], Delimiter(boundary), l, codec);
    if parts[0].filename != "" {
      UnwelcomeFileFails(seen, h, parts, boundary, l, codec);
    } else {
      UnwelcomeTextFails(seen, h, parts, boundary, l, codec);
    }
  }

  lemma LargeBodyFails(buffer: string, input: Input, parts: seq<Sent>, boundary: string, limit: nat)
    requires parts != [] && BoundaryOk(boundary) && Absent(parts[0].content, boundary) && |parts[0].content| > limit
    requires buffer + Rest(input) == parts[0].content + (Delimiter(boundary) + Tail(parts[1..], boundary))
    ensures StreamPart(buffer, input, Delimiter(boundary), limit, "").outcome == TooLarge
  {
    hide StreamPart, Tail, Absent;
    FirstDelimiter(parts[0].content, boundary, Tail(parts[1..], boundary));
    LargePartsAreRefused(buffer, input, Delimiter(boundary), limit, "", |parts[0].content|);
  }

  lemma UnwelcomeFileFails(seen: Seen, h: Headers, parts: seq<Sent>, boundary: string, l: Limits, codec: Codec)
    requires parts != [] && BoundaryOk(boundary) && Absent(parts[0].content, boundary)
    requires parts[0].filename != "" && !Welcome(seen, parts[0], l, codec)
    requires h.Headers? && h.buffer + Rest(h.input) == parts[0].content + (Delimiter(boundary) + Tail(parts[1..], boundary))
    ensures var s := parts[0]; FilePart(seen, s.name, s.filename, s.contentType, h, Delimiter(boundary), l) == Failed
  {
    hide StreamPart, Tail, Absent;
    if |parts[0].content| > l.file {
      LargeBodyFails(h.buffer, h.input, parts, boundary, l.file);
    }
  }

  lemma UnwelcomeTextFails(seen: Seen, h: Headers, parts: seq<Sent>, boundary: string, l: Limits, codec: Codec)
    requires parts != [] && BoundaryOk(boundary) && Absent(parts[0].content, boundary)
    requires parts[0].filename == "" && !Welcome(seen, parts[0], l, codec)
    requires h.Headers? && |Rest(h.input)| <= Unread(parts, boundary)
    requires h.buffer + Rest(h.input) == parts[0].content + (Delimiter(boundary) + Tail(parts[1..], boundary))
    ensures TextPart(seen, parts[0].name, h, Delimiter(boundary), l, codec) == Failed
  {
    hide StreamPart, Tail, Absent, Unread;
    if |parts[0].content| > TextLimit(l) {
      LargeBodyFails(h.buffer, h.input, parts, boundary, TextLimit(l));
    } else {
      BodyIsRead(h.buffer, h.input, parts, boundary, TextLimit(l));
    }
  }

  /** The parts are read back if they are all welcome and not too many, and refused otherwise. */
  lemma {:induction false} PartsAreDecided(
    seen: Seen, buffer: string, input: Input, parts: seq<Sent>, boundary: string, l: Limits, codec: Codec, count: nat)
    requires parts != [] && BoundaryOk(boundary) && AllPrintable(parts, boundary)
    requires Buffered(buffer, input, parts, boundary) && count <= MAX_FIELDS
    ensures ReadParts(seen, buffer, input, Delimiter(boundary), l, codec, count)
      == if AllWelcome(seen, parts, l, codec) && count + |parts| <= MAX_FIELDS then Finish(TookAll(seen, parts)) else Refused
    decreases |parts|
  {
    hide ReadPart, Welcome, AllWelcome, TookAll, Took, Finish, AllPrintable, Buffered, PlainPart, Absent;
    PrintableStep(parts, boundary);
    TookStep(seen, parts, l, codec);
    if count < MAX_FIELDS {
      var s := ReadPart(seen, buffer, input, Delimiter(boundary), l, codec);
      if Welcome(seen, parts[0], l, codec) {
        PartIsRead(seen, buffer, input, parts, boundary, l, codec);
        ReadPartsStep(seen, buffer, input, Delimiter(boundary), l, codec, count, s);
        if |parts| == 1 {
          TookNone(s.seen, parts[1..], l, codec);
        } else {
          PartsAreDecided(s.seen, s.buffer, s.input, parts[1..], boundary, l, codec, count + 1);
        }
      } else {
        UnwelcomePartFails(seen, buffer, input, parts, boundary, l, codec);
      }
    }
  }

  /** The outcome for every list of printed parts, for a last part of any length and every
      fragmentation whose first read reaches the delimiter before it. It is accepted exactly
      when it is within the total limit, has at most 64 parts, every part fits, and there are
      a payload and a file; then the last payload, the last file map and all files are what
      is received. */
  lemma PrintedPartsAreDecided(
    parts: seq<Sent>, boundary: string, l: Limits, codec: Codec, unread: string, cuts: seq<nat>)
    requires parts != [] && BoundaryOk(boundary) && AllPrintable(parts, boundary) && Print(parts, boundary) <= unread
    requires var input := Input(unread, |Print(parts, boundary)|, cuts);
      |Rest(After(input, CHUNK))| <= Unread(parts, boundary)
    ensures Parse(|Print(parts, boundary)|, unread, cuts, boundary, l, codec)
      == if && (|Print(parts, boundary)| <= l.total || |Print(parts, boundary)| <= 1) && |parts| <= 64
            && (forall i :: 0 <= i < |parts| ==> Fits(Seen(None, None, []), parts, i, l, codec))
            && LastText(parts, "payload").Some? && FilesOf(parts) != []
         then Accepted(LastText(parts, "payload").value, LastText(parts, "file_map"), FilesOf(parts))
         else Refused
  {
    hide Print, Unread, InPart, FirstRealLine, ReadParts, AllPrintable, AllWelcome, TookAll, Delimiter, Fits, LastText, FilesOf;
    var none := Seen(None, None, []);
    var input := Input(unread, |Print(parts, boundary)|, cuts);
    assert Rest(input) == Print(parts, boundary);
    PreambleIsRead(input, parts, boundary);
    var first := FirstRealLine("", input);
    PartsAreDecided(none, first.buffer, first.input, parts, boundary, l, codec, 0);
    AllFit(none, parts, l, codec);
    TakenIsSpelledOut(none, parts);
    assert [] + FilesOf(parts) == FilesOf(parts);
  }

  // ---------------------------------------------------------------- heads that are refused

  /** The header lines of a part, without the blank one. */
  function Lines(headers: seq<(string, string)>): string {
    if headers == [] then "" else HeaderLine(headers[0].0, headers[0].1) + Lines(headers[1..])
  }

  /** Headers in one line each, none of which is a Content-Disposition. */
  predicate OtherHeaders(headers: seq<(string, string)>) {
    forall i :: 0 <= i < |headers| ==>
      OneLine(headers[i].0) && ':' !in headers[i].0 && OneLine(headers[i].1)
      && Lower(headers[i].0) != "content-disposition"
  }

  lemma {:induction false} OtherLinesAreRead(headers: seq<(string, string)>, rest: string, fields: map<string, string>)
    requires OtherHeaders(headers)
    ensures var h := HeadOf(Lines(headers) + ("\r\n" + rest), fields);
      h.Head? && h.behind == rest && Get(h.fields, "content-disposition") == Get(fields, "content-disposition")
    decreases |headers|
  {
    hide OneLine, HeadOf, HeaderLine;
    var t := "\r\n" + rest;
    if headers == [] {
      HeadEnd(rest, fields);
      assert "" + t == t;
    } else {
      var h := headers[0];
      Assoc(HeaderLine(h.0, h.1), Lines(headers[1..]), t);
      HeadStep(h.0, h.1, Lines(headers[1..]) + t, fields);
      OtherLinesAreRead(headers[1..], rest, fields[Lower(h.0) := h.1]);
    }
  }

  predicate Undisposed(d: Option<(string, map<string, string>)>) {
    d.None? || d.value.0 != "form-data" || Strip(Get(d.value.1, "name")) == ""
  }

  /** A part whose disposition is not form-data, or has no name, ends the parsing. */
  lemma UndisposedPartIsRefused(
    seen: Seen, buffer: string, input: Input, d: string, l: Limits, codec: Codec, count: nat,
    value: string, others: seq<(string, string)>, rest: string)
    requires OneLine(value) && OtherHeaders(others) && Undisposed(Disposition(value))
    requires buffer + Rest(input) == HeaderLine("Content-Disposition", value) + (Lines(others) + ("\r\n" + rest))
    ensures ReadParts(seen, buffer, input, d, l, codec, count) == Refused
  {
    hide OneLine, HeadOf, HeaderLine, Disposition, ReadHeaders, Lines;
    DispositionName();
    HeadersAreExact(buffer, input, map[]);
    HeadStep("Content-Disposition", value, Lines(others) + ("\r\n" + rest), map[]);
    OtherLinesAreRead(others, rest, map["content-disposition" := value]);
  }

  /** Every kind of disposition but form-data, with parameters or without, is refused. */
  lemma OtherDispositionIsRefused(
    seen: Seen, buffer: string, input: Input, d: string, l: Limits, codec: Codec, count: nat,
    kind: string, params: string, others: seq<(string, string)>, rest: string)
    requires OneLine(kind + params) && Trimmed(kind) && kind != "" && ';' !in kind && (params == "" || params[0] == ';')
    requires OtherHeaders(others) && Lower(kind) != "form-data"
    requires buffer + Rest(input)
      == HeaderLine("Content-Disposition", kind + params) + (Lines(others) + ("\r\n" + rest))
    ensures ReadParts(seen, buffer, input, d, l, codec, count) == Refused
  {
    hide OneLine, HeaderLine, Lines, ReadParts, Params, Lower;
    KindIsRead(kind, params);
    UndisposedPartIsRefused(seen, buffer, input, d, l, codec, count, kind + params, others, rest);
  }

  lemma KindIsRead(kind: string, params: string)
    requires Trimmed(kind) && kind != "" && ';' !in kind && (params == "" || params[0] == ';')
    ensures Disposition(kind + params).Some? && Disposition(kind + params).value.0 == Lower(kind)
  {
    hide Params, Lower;
    StripTrimmed(kind);
    if params == "" {
      assert kind + params == kind;
      SplitNone(kind, ';');
    } else {
      assert kind + params == kind + [';'] + params[1..];
      SplitOnce(kind, ';', params[1..]);
    }
  }

  /** Headers in one line each, of any kind. */
  predicate GoodHeaders(headers: seq<(string, string)>) {
    forall i :: 0 <= i < |headers| ==> OneLine(headers[i].0) && ':' !in headers[i].0 && OneLine(headers[i].1)
  }

  lemma {:induction false} GoodLinesArePassed(headers: seq<(string, string)>, rest: string, fields: map<string, string>)
    requires GoodHeaders(headers) && forall fs :: HeadOf(rest, fs) == NoHead
    ensures HeadOf(Lines(headers) + rest, fields) == NoHead
    decreases |headers|
  {
    hide OneLine, HeadOf, HeaderLine;
    if headers == [] {
      assert "" + rest == rest;
    } else {
      var h := headers[0];
      Assoc(HeaderLine(h.0, h.1), Lines(headers[1..]), rest);
      HeadStep(h.0, h.1, Lines(headers[1..]) + rest, fields);
      GoodLinesArePassed(headers[1..], rest, fields[Lower(h.0) := h.1]);
    }
  }

  lemma NoColonNoHeader(line: string)
    requires ':' !in line
    ensures HeaderOf(line) == None
  {
    var a, b := StripCuts(line);
    var text := Strip(line);
    FindMeans(text, ":");
    assert forall c :: c in text ==> c in line;
  }

  /** A line without a colon among the headers ends the parsing, and so does the end of the
      body before the empty line. */
  lemma BadHeadersAreRefused(
    seen: Seen, buffer: string, input: Input, d: string, l: Limits, codec: Codec, count: nat,
    headers: seq<(string, string)>, line: string, rest: string)
    requires GoodHeaders(headers) && '\n' !in line && ':' !in line && line != "" && line != "\r"
    requires buffer + Rest(input) == Lines(headers) + (line + "\n" + rest) || buffer + Rest(input) == Lines(headers)
    ensures ReadParts(seen, buffer, input, d, l, codec, count) == Refused
  {
    hide HeaderOf, ReadHeaders, Lines, GoodHeaders;
    HeadersAreExact(buffer, input, map[]);
    if buffer + Rest(input) == Lines(headers) {
      assert Lines(headers) == Lines(headers) + "";
      GoodLinesArePassed(headers, "", map[]);
    } else {
      FirstLineIs(line, rest);
      assert !Blank(line + "\n") by { assert (line + "\n")[..|line|] == line; }
      NoColonNoHeader(line + "\n");
      GoodLinesArePassed(headers, line + "\n" + rest, map[]);
    }
  }

  // ---------------------------------------------------------------- the preamble

  /** A text without the empty lines that it begins with. */
  function Begun(text: string): string {
    if "\r\n" <= text then Begun(text[2..]) else if "\n" <= text then Begun(text[1..]) else text
  }

  lemma FirstLineIsBlank(text: string)
    ensures Blank(FirstLine(text)) <==> "\r\n" <= text || "\n" <= text
    ensures "\r\n" <= text ==> FirstLine(text) == "\r\n"
    ensures !("\r\n" <= text) && "\n" <= text ==> FirstLine(text) == "\n"
  {
    if "\r\n" <= text {
      assert text == "\r" + ['\n'] + text[2..];
      FindChar("\r", '\n', text[2..]);
    } else if "\n" <= text {
      assert text == "" + ['\n'] + text[1..];
      FindChar("", '\n', text[1..]);
    } else {
      assert Blank(FirstLine(text)) ==> FirstLine(text) <= text;
    }
  }

  /** Empty lines are skipped, however the reads fall, and the line behind them is taken. */
  lemma {:induction false} PreambleIsExact(buffer: string, input: Input)
    ensures var line := FirstRealLine(buffer, input);
      && line.text == FirstLine(Begun(buffer + Rest(input)))
      && Begun(buffer + Rest(input)) == line.text + (line.buffer + Rest(line.input))
    decreases |buffer| + |Rest(input)|
  {
    hide FirstLine, ReadLine;
    var line := ReadLine(buffer, input);
    var text := buffer + Rest(input);
    LineConsumes(buffer, input);
    LinesAreExact(buffer, input);
    FirstLineIsBlank(text);
    if Blank(line.text) {
      assert text[|line.text|..] == line.buffer + Rest(line.input);
      PreambleIsExact(line.buffer, line.input);
    }
  }

  /** What is not the boundary with its line end is refused before any part is read. */
  lemma OtherPreambleIsRefused(contentLength: int, unread: string, cuts: seq<nat>, boundary: string, l: Limits, codec: Codec)
    requires var body := Rest(Input(unread, if contentLength < 0 then 0 else contentLength, cuts));
      var start := Begun(body);
      !("--" + boundary <= start)
      || (|start| > |boundary| + 2 && start[|boundary| + 2] != '\r' && start[|boundary| + 2] != '\n')
    ensures Parse(contentLength, unread, cuts, boundary, l, codec) == Refused
  {
    hide FirstRealLine, ReadParts, Rest, Begun;
    var input := Input(unread, if contentLength < 0 then 0 else contentLength, cuts);
    var first := FirstRealLine("", input);
    PreambleIsExact("", input);
    assert "" + Rest(input) == Rest(input);
    DropEolIsAPrefix(first.text);
    if DropEol(first.text) == "--" + boundary {
      var start := Begun(Rest(input));
      assert "--" + boundary <= first.text;
      assert start[..|first.text|] == first.text;
      assert |"--" + boundary| == |boundary| + 2;
      LineIsWholeOrEnds(start);
    }
  }

  lemma LineIsWholeOrEnds(text: string)
    ensures FirstLine(text) == text || (FirstLine(text) != "" && FirstLine(text)[|FirstLine(text)| - 1] == '\n')
  {
    FindMeans(text, "\n");
    if Find(text, "\n").Some? {
      assert At(text, "\n", Find(text, "\n").value);
    }
  }

  lemma {:induction false} DropEolIsAPrefix(s: string)
    ensures DropEol(s) == "" || (DropEol(s)[|DropEol(s)| - 1] != '\r' && DropEol(s)[|DropEol(s)| - 1] != '\n')
    ensures DropEol(s) <= s && forall i :: |DropEol(s)| <= i < |s| ==> s[i] == '\r' || s[i] == '\n'
  {
    if s != "" && (s[|s| - 1] == '\r' || s[|s| - 1] == '\n') {
      DropEolIsAPrefix(s[..|s| - 1]);
    }
  }

  lemma NothingToSkip(text: string)
    requires text != "" && text[0] == '-'
    ensures Begun(text) == text
  {
    assert text[0] != "\r\n"[0] && text[0] != "\n"[0];
  }

  lemma BoundaryLineIsRead(input: Input, boundary: string, rest: string)
    requires BoundaryOk(boundary) && Rest(input) == "--" + boundary + "\r\n" + rest
    ensures var first := FirstRealLine("", input);
      DropEol(first.text) == "--" + boundary && first.buffer + Rest(first.input) == rest
  {
    hide FirstRealLine, DropEol;
    var line := "--" + boundary + "\r";
    assert "--" + boundary + "\r\n" + rest == line + "\n" + rest;
    assert (line + "\n" + rest)[0] == '-';
    PreambleIsExact("", input);
    assert "" + Rest(input) == Rest(input);
    NothingToSkip(Rest(input));
    FirstLineIs(line, rest);
    assert line + "\n" == "--" + boundary + "\r\n";
    DropsEol(boundary);
    var first := FirstRealLine("", input);
    assert Rest(input)[|line| + 1..] == rest;
  }

  /** An upload whose first part has another disposition is refused, whatever follows. */
  lemma OtherDispositionIsRefusedAtOnce(
    contentLength: int, unread: string, cuts: seq<nat>, boundary: string, l: Limits, codec: Codec,
    kind: string, params: string, others: seq<(string, string)>, rest: string)
    requires BoundaryOk(boundary) && OneLine(kind + params) && OtherHeaders(others)
    requires Trimmed(kind) && kind != "" && ';' !in kind && (params == "" || params[0] == ';') && Lower(kind) != "form-data"
    requires Rest(Input(unread, if contentLength < 0 then 0 else contentLength, cuts))
      == "--" + boundary + "\r\n" + (HeaderLine("Content-Disposition", kind + params) + (Lines(others) + ("\r\n" + rest)))
    ensures Parse(contentLength, unread, cuts, boundary, l, codec) == Refused
  {
    hide FirstRealLine, ReadParts, Rest, OneLine, HeaderLine, Lines, Lower, Trimmed;
    var input := Input(unread, if contentLength < 0 then 0 else contentLength, cuts);
    var head := HeaderLine("Content-Disposition", kind + params) + (Lines(others) + ("\r\n" + rest));
    BoundaryLineIsRead(input, boundary, head);
    var first := FirstRealLine("", input);
    OtherDispositionIsRefused(
      Seen(None, None, []), first.buffer, first.input, Delimiter(boundary), l, codec, 0, kind, params, others, rest);
  }
}
