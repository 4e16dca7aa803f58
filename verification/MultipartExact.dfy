/** Exactly when an upload is read back under every fragmentation that begins with a given
    first read: when that read reaches the delimiter before the last part. Otherwise single
    bytes up to the last byte of that delimiter, and then ten at once, push it out, and the
    last file is not received. */
module MultipartExact {
  import opened Prelude
  import opened MultipartReader
  import opened MultipartParts
  import opened MultipartUpload
  import opened MultipartHeaders
  import opened MultipartRoundTrip

  // ---------------------------------------------------------------- reading a trickle

  /** Single bytes come until `left` bytes and one more are unread, and then ten at once. */
  predicate Trickles(input: Input, left: nat) {
    |Rest(input)| > left && input.cuts == Trickle(|Rest(input)| - 1 - left)
  }

  lemma OneByte(input: Input, left: nat, size: nat)
    requires Trickles(input, left) && |Rest(input)| > left + 1 && size > 0
    ensures |Chunk(input, size)| == 1 && Trickles(After(input, size), left)
    ensures |Rest(After(input, size))| == |Rest(input)| - 1
  {
    TrickleStep(input, |Rest(input)| - 1 - left, size);
  }

  /** A line that ends in time is read byte by byte. */
  lemma {:induction false} LineTrickles(buffer: string, input: Input, left: nat)
    requires Trickles(input, left) && |FirstLine(buffer + Rest(input))| + left < |buffer + Rest(input)|
    ensures Trickles(ReadLine(buffer, input).input, left)
    decreases |Rest(input)|
  {
    hide Trickles;
    if Find(buffer, "\n").None? {
      LineIsLonger(buffer, Rest(input));
      OneByte(input, left, CHUNK);
      Assoc(buffer, Chunk(input, CHUNK), Rest(After(input, CHUNK)));
      LineTrickles(buffer + Chunk(input, CHUNK), After(input, CHUNK), left);
    }
  }

  lemma LineIsLonger(a: string, b: string)
    requires Find(a, "\n").None? && |FirstLine(a + b)| < |a + b|
    ensures |FirstLine(a + b)| > |a|
  {
    FindMeans(a + b, "\n");
    var k := Find(a + b, "\n").value;
    Incomplete(a, b, "\n", k);
  }

  lemma {:induction false} HeadShrinks(text: string, fields: map<string, string>)
    requires HeadOf(text, fields).Head?
    ensures |FirstLine(text)| + |HeadOf(text, fields).behind| <= |text|
    decreases |text|
  {
    var line := FirstLine(text);
    if !Blank(line) {
      var h := HeaderOf(line).value;
      HeadShrinks(text[|line|..], fields[h.0 := h.1]);
    }
  }

  /** So are headers. */
  lemma {:induction false} HeadersTrickle(buffer: string, input: Input, fields: map<string, string>, left: nat)
    requires Trickles(input, left) && HeadOf(buffer + Rest(input), fields).Head?
    requires |HeadOf(buffer + Rest(input), fields).behind| > left
    ensures ReadHeaders(buffer, input, fields).Headers? && Trickles(ReadHeaders(buffer, input, fields).input, left)
    decreases |buffer| + |Rest(input)|
  {
    hide Trickles, ReadLine, FirstLine;
    var text, l := buffer + Rest(input), ReadLine(buffer, input);
    HeadShrinks(text, fields);
    LinesAreExact(buffer, input);
    LineConsumes(buffer, input);
    LineTrickles(buffer, input, left);
    assert text[|l.text|..] == l.buffer + Rest(l.input);
    if !Blank(l.text) {
      var h := HeaderOf(l.text).value;
      HeadersTrickle(l.buffer, l.input, fields[h.0 := h.1], left);
    }
  }

  lemma {:induction false} FillTrickles(buffer: string, input: Input, left: nat)
    requires Trickles(input, left) && |buffer| + |Rest(input)| >= left + 3
    ensures Trickles(Fill(buffer, input).input, left)
    decreases |Rest(input)|
  {
    hide Trickles;
    if |buffer| < 2 {
      OneByte(input, left, 2 - |buffer|);
      FillTrickles(buffer + Chunk(input, 2 - |buffer|), After(input, 2 - |buffer|), left);
    }
  }

  /** And so is the line end behind a delimiter. */
  lemma TerminateTrickles(sunk: string, buffer: string, input: Input, left: nat)
    requires Trickles(input, left) && "\r\n" <= buffer + Rest(input) && |buffer| + |Rest(input)| >= left + 3
    ensures Trickles(Terminate(sunk, buffer, input).input, left)
  {
    hide Trickles;
    var f := Fill(buffer, input);
    FillIsExact(buffer, input);
    FillTrickles(buffer, input, left);
    FirstTwo(f.buffer, Rest(f.input), "--");
    assert (buffer + Rest(input))[0] == '\r';
  }

  /** The delimiter stays ahead of what a single byte pushes out. */
  lemma ByteStaysBehind(buffer: string, input: Input, d: string, k: nat)
    requires Find(buffer + Rest(input), d) == Some(k) && |buffer| < k + |d| && |Chunk(input, CHUNK)| == 1
    ensures var b, next := buffer + Chunk(input, CHUNK), After(input, CHUNK);
      var pushed, kept := Pushed(b, Keep(d)), Left(b, Keep(d));
      && |pushed| <= k && buffer + Rest(input) == pushed + (kept + Rest(next))
      && Find(kept + Rest(next), d) == Some(k - |pushed|)
  {
    var b, next := buffer + Chunk(input, CHUNK), After(input, CHUNK);
    ReadKeepsWhole("", buffer, input, Keep(d));
    FindBehind(Pushed(b, Keep(d)), Left(b, Keep(d)) + Rest(next), d, k);
  }

  /** A part whose delimiter comes in time is read byte by byte, and stops there. */
  lemma {:induction false} PartTrickles(
    buffer: string, input: Input, d: string, limit: nat, sunk: string, k: nat, left: nat)
    requires Trickles(input, left) && Find(buffer + Rest(input), d) == Some(k) && |sunk| + k <= limit
    requires k + |d| + left + 3 <= |buffer + Rest(input)| && "\r\n" <= (buffer + Rest(input))[k + |d|..]
    ensures var p := StreamPart(buffer, input, d, limit, sunk);
      StoppedAt(p, sunk, buffer + Rest(input), d, k) && Trickles(p.input, left)
    decreases |Rest(input)|
  {
    hide Trickles, StoppedAt, Pushed, Left, Chunk, After;
    match Find(buffer, d) {
      case Some(j) =>
        FindInPrefix(buffer, Rest(input), d, j);
        PartEndsHere(buffer, input, d, limit, sunk, k, left);
      case None =>
        Incomplete(buffer, Rest(input), d, k);
        OneByte(input, left, CHUNK);
        ByteStaysBehind(buffer, input, d, k);
        var b, next := buffer + Chunk(input, CHUNK), After(input, CHUNK);
        var pushed, kept := Pushed(b, Keep(d)), Left(b, Keep(d));
        SliceBehind(pushed, kept + Rest(next), k, k + |d|);
        OneRound(buffer, input, d, limit, sunk);
        PartTrickles(kept, next, d, limit, sunk + pushed, k - |pushed|, left);
        StoppedBehind(StreamPart(buffer, input, d, limit, sunk), sunk, pushed, kept + Rest(next), d, k);
    }
  }

  lemma PartEndsHere(buffer: string, input: Input, d: string, limit: nat, sunk: string, k: nat, left: nat)
    requires Trickles(input, left) && Find(buffer, d) == Some(k) && |sunk| + k <= limit
    requires k + |d| + left + 3 <= |buffer + Rest(input)| && "\r\n" <= (buffer + Rest(input))[k + |d|..]
    ensures var p := StreamPart(buffer, input, d, limit, sunk);
      StoppedAt(p, sunk, buffer + Rest(input), d, k) && Trickles(p.input, left)
  {
    hide Trickles, StoppedAt, StreamPart, Terminate;
    StopsHere(buffer, input, d, limit, sunk, k);
    FoundAt(buffer, input, d, limit, sunk, k);
    FindMeans(buffer, d);
    CutKeepsWhole(sunk, buffer, Rest(input), d, k);
    TerminateTrickles(sunk + buffer[..k], buffer[k + |d|..], input, left);
  }

  // ---------------------------------------------------------------- the parts before

  /** The parser stands at a part, and the burst is to come at the delimiter before the last. */
  predicate Poised(buffer: string, input: Input, parts: seq<Sent>, boundary: string)
    requires parts != []
  {
    buffer + Rest(input) == InPart(parts, boundary) && Trickles(input, Unread(parts, boundary))
  }

  lemma LastOfRest(parts: seq<Sent>, boundary: string)
    requires |parts| > 1
    ensures Last(parts[1..]) == Last(parts) && Unread(parts[1..], boundary) == Unread(parts, boundary)
    ensures |Tail(parts[1..], boundary)| >= Unread(parts, boundary) > 8
    ensures |parts| > 2 ==> |Tail(parts[1..], boundary)| >= Unread(parts, boundary) + 6
  {
    TailIsLong(parts[1..], boundary);
    if |parts| > 2 {
      TailIsLong(parts[1..][1..], boundary);
    }
  }

  /** The headers of a part that is not the last. */
  lemma HeadersArePoised(buffer: string, input: Input, parts: seq<Sent>, boundary: string)
    requires |parts| > 1 && PlainPart(parts[0]) && Poised(buffer, input, parts, boundary)
    ensures var h := ReadHeaders(buffer, input, map[]);
      && h.Headers? && h.fields == FieldsOf(parts[0])
      && h.buffer + Rest(h.input) == parts[0].content + (Delimiter(boundary) + Tail(parts[1..], boundary))
      && Trickles(h.input, Unread(parts, boundary))
  {
    hide Trickles, HeadLines, Unread;
    var behind := parts[0].content + (Delimiter(boundary) + Tail(parts[1..], boundary));
    HeadersOfPart(buffer, input, parts, boundary);
    HeadIsRead(parts[0], behind);
    LastOfRest(parts, boundary);
    HeadersTrickle(buffer, input, map[], Unread(parts, boundary));
  }

  /** The body of a part with two more behind it. */
  lemma BodyIsPoised(buffer: string, input: Input, parts: seq<Sent>, boundary: string, limit: nat)
    requires |parts| > 2 && BoundaryOk(boundary) && Absent(parts[0].content, boundary)
    requires buffer + Rest(input) == parts[0].content + (Delimiter(boundary) + Tail(parts[1..], boundary))
    requires Trickles(input, Unread(parts, boundary)) && |parts[0].content| <= limit
    ensures var p := StreamPart(buffer, input, Delimiter(boundary), limit, "");
      p.sunk == parts[0].content && p.outcome == Ended(false) && Poised(p.buffer, p.input, parts[1..], boundary)
  {
    hide Trickles, Absent, StreamPart, Delimiter, Unread;
    var d, c, t := Delimiter(boundary), parts[0].content, Tail(parts[1..], boundary);
    FirstDelimiter(c, boundary, t);
    LastOfRest(parts, boundary);
    BodyBehind(c, d, t);
    assert "\r\n" <= t;
    PartTrickles(buffer, input, d, limit, "", |c|, Unread(parts, boundary));
    BodyEnds(StreamPart(buffer, input, d, limit, ""), parts, boundary, d, c, t);
  }

  predicate StepPoised(s: Step, seen: Seen, parts: seq<Sent>, boundary: string)
    requires |parts| > 1
  {
    s.Went? && s.seen == Took(seen, parts[0]) && !s.final && Poised(s.buffer, s.input, parts[1..], boundary)
  }

  /** A part with two more behind it is read as it was printed. */
  lemma PartIsPoised(seen: Seen, buffer: string, input: Input, parts: seq<Sent>, boundary: string, l: Limits, codec: Codec)
    requires |parts| > 2 && BoundaryOk(boundary) && Absent(parts[0].content, boundary)
    requires PlainPart(parts[0]) && Welcome(seen, parts[0], l, codec) && Poised(buffer, input, parts, boundary)
    ensures StepPoised(ReadPart(seen, buffer, input, Delimiter(boundary), l, codec), seen, parts, boundary)
  {
    hide ReadHeaders, ReadPart, Poised, Trickles, Absent, StreamPart, InPart;
    var h := ReadHeaders(buffer, input, map[]);
    HeadersArePoised(buffer, input, parts, boundary);
    HeadersDecide(seen, buffer, input, parts[0], Delimiter(boundary), l, codec);
    if parts[0].filename != "" {
      BodyIsPoised(h.buffer, h.input, parts, boundary, l.file);
    } else {
      BodyIsPoised(h.buffer, h.input, parts, boundary, TextLimit(l));
    }
  }

  // ---------------------------------------------------------------- no delimiter in header lines

  predicate Silent(a: string, d: string) {
    Find(a, d).None?
  }

  /** A delimiter begins with its only carriage return. */
  predicate Delimits(d: string) {
    |d| >= 4 && d[..4] == "\r\n--" && '\r' !in d[1..]
  }

  lemma DelimiterDelimits(boundary: string)
    requires BoundaryOk(boundary)
    ensures Delimits(Delimiter(boundary)) && Silent(Delimiter(boundary)[1..], Delimiter(boundary))
  {
    var d := Delimiter(boundary);
    assert d[1..] == "\n--" + boundary;
    assert d[..4] == "\r\n--";
    FindMeans(d[1..], d);
    if Find(d[1..], d).Some? {
      assert |d[1..]| < |d|;
    }
  }

  /** A text without delimiters has none that begins in it and ends behind a line end. */
  lemma NoneBefore(a: string, b: string, d: string, j: nat)
    requires Delimits(d) && Silent(a, d) && (b == "" || b[0] == '\r') && j < |a|
    ensures !At(a + b, d, j)
  {
    FindMeans(a, d);
    if j + |d| <= |a| {
      AtInPrefix(a, b, d, j);
    } else if j + |d| <= |a + b| {
      var i := |a| - j;
      assert (a + b)[j..j + |d|][i] == b[0];
      assert d[i] == d[1..][i - 1] && d[1..][i - 1] in d[1..];
    }
  }

  lemma SilentJoin(a: string, b: string, d: string)
    requires Delimits(d) && Silent(a, d) && Silent(b, d) && b != "" && b[0] == '\r'
    ensures Silent(a + b, d)
  {
    FindMeans(a + b, d);
    FindMeans(b, d);
    if Find(a + b, d).Some? {
      var j := Find(a + b, d).value;
      if j < |a| {
        NoneBefore(a, b, d, j);
      } else {
        assert (a + b)[j..j + |d|] == b[j - |a|..j - |a| + |d|];
        assert At(b, d, j - |a|);
      }
    }
  }

  /** A line that does not begin with a dash. */
  lemma SilentLine(line: string, d: string)
    requires Delimits(d) && '\r' !in line && (line == "" || line[0] != '-')
    ensures Silent("\r\n" + line, d)
  {
    var t := "\r\n" + line;
    assert d[0] == d[..4][0] && d[2] == d[..4][2];
    forall j | 0 <= j <= |t| - |d| ensures !At(t, d, j) {
      assert t[j..j + |d|][0] == t[j] && t[j..j + |d|][2] == t[j + 2];
      assert j > 1 ==> t[j] == line[j - 2] && line[j - 2] in line;
    }
    FindMeans(t, d);
  }

  lemma PlainLinesAreSilent(s: Sent, d: string)
    requires PlainPart(s) && Delimits(d)
    ensures Silent("\r\n" + ("Content-Disposition: " + DispositionText(s.name, s.filename)), d)
    ensures Silent("\r\n" + ("Content-Type: " + s.contentType), d) && Silent("\r\n", d)
  {
    hide Silent, Delimits, DispositionText;
    NoReturns(s);
    SilentLine("Content-Disposition: " + DispositionText(s.name, s.filename), d);
    SilentLine("Content-Type: " + s.contentType, d);
    assert "\r\n" + "" == "\r\n";
    SilentLine("", d);
  }

  lemma NoReturns(s: Sent)
    requires PlainPart(s)
    ensures '\r' !in "Content-Disposition: " + DispositionText(s.name, s.filename)
    ensures '\r' !in "Content-Type: " + s.contentType
  {
    hide PlainField, Plain, PlainChar, DispositionText;
    NoReturnInTheDisposition(s.name, s.filename);
    NoReturnInTheType(s.contentType);
  }

  lemma NoReturnInTheType(t: string)
    requires t == "application/json" || t == "application/octet-stream"
    ensures '\r' !in t
  {
  }

  lemma NoReturnInTheDisposition(name: string, filename: string)
    requires PlainField(name) && (filename == "" || Plain(filename))
    ensures '\r' !in DispositionText(name, filename)
  {
    NoReturnIn(name);
    if filename != "" {
      NoReturnIn(filename);
    }
  }

  lemma NoReturnIn(text: string)
    requires PlainField(text)
    ensures '\r' !in text
  {
  }

  /** The header lines without the last line end, behind the end of a boundary line. */
  function Heading(s: Sent): string {
    "\r\n" + ("Content-Disposition: " + DispositionText(s.name, s.filename))
    + ("\r\n" + ("Content-Type: " + s.contentType)) + "\r\n"
  }

  lemma HeadingIsTheHead(s: Sent, rest: string)
    requires PlainPart(s)
    ensures "\r\n" + (HeadLines(s) + rest) == Heading(s) + ("\r\n" + rest)
    ensures |Heading(s)| == |HeadLines(s)|
  {
    var a, b := "Content-Disposition: " + DispositionText(s.name, s.filename), "Content-Type: " + s.contentType;
    assert HeadLines(s) == a + "\r\n" + (b + "\r\n") + "\r\n";
    assert "\r\n" + HeadLines(s) == Heading(s) + "\r\n";
    Assoc("\r\n", HeadLines(s), rest);
    Assoc(Heading(s), "\r\n", rest);
  }

  /** Behind the start of a delimiter, no other begins before the end of the header lines. */
  lemma NoneInTheHead(s: Sent, boundary: string, rest: string, q: nat)
    requires PlainPart(s) && BoundaryOk(boundary)
    requires 0 < q < |Delimiter(boundary)| + |HeadLines(s)|
    ensures !At(Delimiter(boundary) + ("\r\n" + (HeadLines(s) + rest)), Delimiter(boundary), q)
  {
    hide HeadLines, Find;
    var d := Delimiter(boundary);
    DelimiterDelimits(boundary);
    HeadingIsSilent(s, d);
    HeadingIsTheHead(s, rest);
    NoneBefore(d[1..] + Heading(s), "\r\n" + rest, d, q - 1);
    OneOn(d, Heading(s), "\r\n" + rest, q);
  }

  lemma HeadingIsSilent(s: Sent, d: string)
    requires PlainPart(s) && Delimits(d) && Silent(d[1..], d)
    ensures Silent(d[1..] + Heading(s), d)
  {
    hide Silent;
    var a := "\r\n" + ("Content-Disposition: " + DispositionText(s.name, s.filename));
    var b := "\r\n" + ("Content-Type: " + s.contentType);
    PlainLinesAreSilent(s, d);
    SilentJoin(d[1..], a, d);
    SilentJoin(d[1..] + a, b, d);
    SilentJoin(d[1..] + a + b, "\r\n", d);
    assert d[1..] + Heading(s) == d[1..] + a + b + "\r\n";
  }

  lemma OneOn(d: string, a: string, b: string, q: nat)
    requires d != "" && q > 0
    ensures At(d + (a + b), d, q) <==> At(d[1..] + a + b, d, q - 1)
  {
    assert d + (a + b) == [d[0]] + (d[1..] + a + b);
  }

  // ---------------------------------------------------------------- what can still be received

  /** Every file that is still to come fits into what is still to be read. */
  predicate FilesFit(before: seq<Staged>, after: seq<Staged>, size: int) {
    && before <= after
    && forall i :: |before| <= i < |after| ==> |after[i].content| < size
  }

  lemma {:induction false} HeadersConsume(buffer: string, input: Input, fields: map<string, string>)
    ensures var h := ReadHeaders(buffer, input, fields);
      h.Headers? ==> |h.buffer| + |Rest(h.input)| <= |buffer| + |Rest(input)|
    decreases |buffer| + |Rest(input)|
  {
    var l := ReadLine(buffer, input);
    LineConsumes(buffer, input);
    if l.text != "" && !Blank(l.text) && HeaderOf(l.text).Some? {
      var h := HeaderOf(l.text).value;
      HeadersConsume(l.buffer, l.input, fields[h.0 := h.1]);
    }
  }

  lemma PartFits(buffer: string, input: Input, d: string, limit: nat)
    ensures var p := StreamPart(buffer, input, d, limit, "");
      p.outcome.Ended? ==>
        (|p.sunk| + |d| + 2 <= |buffer| + |Rest(input)|
         && |p.buffer| + |Rest(p.input)| <= |buffer| + |Rest(input)| - |p.sunk| - |d| - 2)
  {
    hide StreamPart;
    PartsConserveBytes(buffer, input, d, limit, "");
  }

  /** A round leaves what fits into `size`, and no more than that unread. */
  predicate StepFits(s: Step, before: seq<Staged>, size: int, d: string) {
    s.Went? ==> FilesFit(before, s.seen.files, size - |d| - 1) && |s.buffer| + |Rest(s.input)| <= size
  }

  lemma FilePartFits(seen: Seen, name: string, filename: string, contentType: string, h: Headers, d: string, l: Limits)
    requires h.Headers?
    ensures StepFits(FilePart(seen, name, filename, contentType, h, d, l), seen.files, |h.buffer| + |Rest(h.input)|, d)
  {
    hide StreamPart;
    PartFits(h.buffer, h.input, d, l.file);
  }

  lemma TextPartFits(seen: Seen, name: string, h: Headers, d: string, l: Limits, codec: Codec)
    requires h.Headers?
    ensures StepFits(TextPart(seen, name, h, d, l, codec), seen.files, |h.buffer| + |Rest(h.input)|, d)
  {
    hide StreamPart;
    PartFits(h.buffer, h.input, d, TextLimit(l));
  }

  /** One round of the parser, on any input. */
  lemma RoundFits(seen: Seen, buffer: string, input: Input, d: string, l: Limits, codec: Codec)
    ensures StepFits(ReadPart(seen, buffer, input, d, l, codec), seen.files, |buffer| + |Rest(input)|, d)
  {
    hide FilePart, TextPart, ReadHeaders, NamesOf;
    var h := ReadHeaders(buffer, input, map[]);
    HeadersConsume(buffer, input, map[]);
    if h.Headers? && NamesOf(h.fields).Some? {
      var n := NamesOf(h.fields).value;
      if n.1 != "" {
        FilePartFits(seen, n.0, n.1, ContentType(h.fields), h, d, l);
      } else {
        TextPartFits(seen, n.0, h, d, l, codec);
      }
    }
  }

  lemma {:induction false} LaterFilesFit(
    seen: Seen, buffer: string, input: Input, d: string, l: Limits, codec: Codec, count: nat)
    ensures var r := ReadParts(seen, buffer, input, d, l, codec, count);
      r.Accepted? ==> FilesFit(seen.files, r.files, |buffer| + |Rest(input)| - |d| - 1)
    decreases MAX_FIELDS - count
  {
    hide ReadPart;
    if count < MAX_FIELDS {
      var s := ReadPart(seen, buffer, input, d, l, codec);
      RoundFits(seen, buffer, input, d, l, codec);
      if s.Went? && !s.final {
        LaterFilesFit(s.seen, s.buffer, s.input, d, l, codec, count + 1);
      }
    }
  }

  // ---------------------------------------------------------------- the part that overruns

  /** The burst takes the body of the part before the last beyond its end. */
  lemma BurstComes(buffer: string, input: Input, d: string, limit: nat, k: nat, left: nat)
    requires Trickles(input, left) && Find(buffer + Rest(input), d) == Some(k) && d != "" && k <= limit
    requires left > 8 && |buffer + Rest(input)| == k + |d| + left
    ensures |StreamPart(buffer, input, d, limit, "").sunk| > k
  {
    hide StreamPart, Trickle;
    assert Find(buffer, d).None? by {
      if Find(buffer, d).Some? {
        FindInPrefix(buffer, Rest(input), d, Find(buffer, d).value);
      }
    }
    TrickleOverruns(buffer, input, d, limit, "", k, |Rest(input)| - 1 - left);
  }

  /** What is left behind a delimiter that lies behind the end of the body. */
  lemma LittleIsLeft(p: Part, c: string, s: Sent, boundary: string)
    requires PlainPart(s) && BoundaryOk(boundary) && |p.sunk| > |c| && p.outcome.Ended?
    requires var d := Delimiter(boundary);
      c + (d + ("\r\n" + (HeadLines(s) + (s.content + (d + "--\r\n")))))
      == p.sunk + (d + (Terminator(p.outcome.final) + (p.buffer + Rest(p.input))))
    ensures |p.buffer| + |Rest(p.input)| <= |s.content| + 4
  {
    hide HeadLines, Delimiter, Terminator;
    var d, t := Delimiter(boundary), "\r\n" + (HeadLines(s) + (s.content + (Delimiter(boundary) + "--\r\n")));
    var behind := Terminator(p.outcome.final) + (p.buffer + Rest(p.input));
    LaterDelimiter(c, d, t, p.sunk, behind);
    FarDelimiter(s, boundary, |p.sunk| - |c|);
    TwoAtLeast(p.outcome.final);
    assert |c| + |d| + |t| == |p.sunk| + |d| + |behind|;
  }

  lemma TwoAtLeast(final: bool)
    ensures |Terminator(final)| >= 2
  {
  }

  /** The body of the part before the last: it takes in the delimiter, and what is left is too
      short for the content of the last part. */
  lemma BodyOverruns(buffer: string, input: Input, parts: seq<Sent>, boundary: string, limit: nat)
    requires |parts| == 2 && BoundaryOk(boundary) && Absent(parts[0].content, boundary) && PlainPart(parts[1])
    requires buffer + Rest(input) == parts[0].content + (Delimiter(boundary) + Tail(parts[1..], boundary))
    requires Trickles(input, Unread(parts, boundary)) && |parts[0].content| <= limit
    ensures var p := StreamPart(buffer, input, Delimiter(boundary), limit, "");
      && |p.sunk| > |parts[0].content|
      && (p.outcome.Ended? ==> |p.buffer| + |Rest(p.input)| <= |parts[1].content| + 4)
  {
    hide StreamPart, Tail, Delimiter, Absent, Trickles, HeadLines, PlainPart;
    var d, c := Delimiter(boundary), parts[0].content;
    FirstDelimiter(c, boundary, Tail(parts[1..], boundary));
    LastOfRest(parts, boundary);
    DelimiterDelimits(boundary);
    assert parts[1..] == [Last(parts)];
    BurstComes(buffer, input, d, limit, |c|, Unread(parts, boundary));
    PartsConserveBytes(buffer, input, d, limit, "");
    TailOfLast(parts, boundary);
    var p := StreamPart(buffer, input, d, limit, "");
    if p.outcome.Ended? {
      LittleIsLeft(p, c, parts[1], boundary);
    }
  }

  lemma LaterDelimiter(c: string, d: string, t: string, sunk: string, behind: string)
    requires c + (d + t) == sunk + (d + behind) && |sunk| > |c|
    ensures At(d + t, d, |sunk| - |c|)
  {
    var q := |sunk| - |c|;
    assert (d + t)[q..q + |d|] == (c + (d + t))[|sunk|..|sunk| + |d|];
    assert (sunk + (d + behind))[|sunk|..|sunk| + |d|] == d;
  }

  lemma TailOfLast(parts: seq<Sent>, boundary: string)
    requires |parts| == 2
    ensures Tail(parts[1..], boundary)
      == "\r\n" + (HeadLines(parts[1]) + (parts[1].content + (Delimiter(boundary) + "--\r\n")))
  {
    assert parts[1..][1..] == [];
  }

  lemma FarDelimiter(s: Sent, boundary: string, q: nat)
    requires PlainPart(s) && BoundaryOk(boundary) && q > 0
    requires var d := Delimiter(boundary);
      At(d + ("\r\n" + (HeadLines(s) + (s.content + (d + "--\r\n")))), d, q)
    ensures q >= |Delimiter(boundary)| + |HeadLines(s)|
  {
    hide HeadLines, Delimiter;
    if q < |Delimiter(boundary)| + |HeadLines(s)| {
      NoneInTheHead(s, boundary, s.content + (Delimiter(boundary) + "--\r\n"), q);
    }
  }

  /** What the part before the last leaves for the files. */
  predicate Spoilt(s: Step, seen: Seen, parts: seq<Sent>)
    requires |parts| == 2
  {
    s.Went? ==>
      if parts[0].filename != "" then
        |s.seen.files| == |seen.files| + 1 && |s.seen.files[|seen.files|].content| > |parts[0].content|
      else s.seen.files == seen.files && |s.buffer| + |Rest(s.input)| <= |parts[1].content| + 4
  }

  lemma PartIsSpoilt(seen: Seen, buffer: string, input: Input, parts: seq<Sent>, boundary: string, l: Limits, codec: Codec)
    requires |parts| == 2 && BoundaryOk(boundary) && Absent(parts[0].content, boundary) && PlainPart(parts[1])
    requires PlainPart(parts[0]) && Welcome(seen, parts[0], l, codec) && Poised(buffer, input, parts, boundary)
    ensures Spoilt(ReadPart(seen, buffer, input, Delimiter(boundary), l, codec), seen, parts)
  {
    hide ReadHeaders, ReadPart, Poised, Trickles, Absent, StreamPart, Tail, Delimiter;
    var h := ReadHeaders(buffer, input, map[]);
    HeadersArePoised(buffer, input, parts, boundary);
    HeadersDecide(seen, buffer, input, parts[0], Delimiter(boundary), l, codec);
    if parts[0].filename != "" {
      BodyOverruns(h.buffer, h.input, parts, boundary, l.file);
    } else {
      BodyOverruns(h.buffer, h.input, parts, boundary, TextLimit(l));
    }
  }

  /** The files that are received are not those that were sent. */
  lemma {:induction false} PartsAreSpoilt(
    seen: Seen, buffer: string, input: Input, parts: seq<Sent>, boundary: string, l: Limits, codec: Codec, count: nat)
    requires |parts| >= 2 && BoundaryOk(boundary) && AllPrintable(parts, boundary) && Last(parts).filename != ""
    requires AllWelcome(seen, parts, l, codec) && count + |parts| <= MAX_FIELDS
    requires Poised(buffer, input, parts, boundary)
    ensures var r := ReadParts(seen, buffer, input, Delimiter(boundary), l, codec, count);
      r.Accepted? ==> r.files != TookAll(seen, parts).files
    decreases parts
  {
    hide ReadPart, Poised, ReadParts, Delimiter, Welcome, Absent, AllWelcome, TookAll;
    PrintableStep(parts, boundary);
    TookStep(seen, parts, l, codec);
    if |parts| > 2 {
      PartIsPoised(seen, buffer, input, parts, boundary, l, codec);
      var s := ReadPart(seen, buffer, input, Delimiter(boundary), l, codec);
      ReadPartsStep(seen, buffer, input, Delimiter(boundary), l, codec, count, s);
      PartsAreSpoilt(s.seen, s.buffer, s.input, parts[1..], boundary, l, codec, count + 1);
    } else {
      LastTwoAreSpoilt(seen, buffer, input, parts, boundary, l, codec, count);
    }
  }

  lemma LastTwoAreSpoilt(
    seen: Seen, buffer: string, input: Input, parts: seq<Sent>, boundary: string, l: Limits, codec: Codec, count: nat)
    requires |parts| == 2 && BoundaryOk(boundary) && AllPrintable(parts, boundary) && Last(parts).filename != ""
    requires Welcome(seen, parts[0], l, codec) && count < MAX_FIELDS && Poised(buffer, input, parts, boundary)
    ensures var r := ReadParts(seen, buffer, input, Delimiter(boundary), l, codec, count);
      r.Accepted? ==> r.files != TookAll(seen, parts).files
  {
    hide ReadPart, Poised, ReadParts, Delimiter, Welcome, TookAll, Spoilt, Absent;
    var s := ReadPart(seen, buffer, input, Delimiter(boundary), l, codec);
    assert parts[0] in parts && parts[1] in parts;
    DelimiterDelimits(boundary);
    PartIsSpoilt(seen, buffer, input, parts, boundary, l, codec);
    SpoiltFiles(s, seen, parts, Delimiter(boundary), l, codec, count);
    RoundSpoils(seen, buffer, input, Delimiter(boundary), l, codec, count, s);
  }

  lemma RoundSpoils(seen: Seen, buffer: string, input: Input, d: string, l: Limits, codec: Codec, count: nat, s: Step)
    requires count < MAX_FIELDS && s == ReadPart(seen, buffer, input, d, l, codec)
    ensures ReadParts(seen, buffer, input, d, l, codec, count)
      == if s.Failed? then Refused
         else if s.final then Finish(s.seen) else ReadParts(s.seen, s.buffer, s.input, d, l, codec, count + 1)
  {
  }

  lemma SpoiltFiles(s: Step, seen: Seen, parts: seq<Sent>, d: string, l: Limits, codec: Codec, count: nat)
    requires |parts| == 2 && parts[1].filename != "" && Spoilt(s, seen, parts) && |d| >= 4
    ensures s.Went? ==>
      (var r := if s.final then Finish(s.seen) else ReadParts(s.seen, s.buffer, s.input, d, l, codec, count + 1);
       r.Accepted? ==> r.files != TookAll(seen, parts).files)
  {
    hide ReadParts;
    TookBoth(seen, parts);
    if s.Went? {
      LaterFilesFit(s.seen, s.buffer, s.input, d, l, codec, count + 1);
    }
  }

  lemma TookBoth(seen: Seen, parts: seq<Sent>)
    requires |parts| == 2 && parts[1].filename != ""
    ensures var files := TookAll(seen, parts).files;
      && |files| > |seen.files|
      && files[|seen.files|].content == if parts[0].filename != "" then parts[0].content else parts[1].content
  {
    assert TookAll(seen, parts) == TookAll(Took(seen, parts[0]), parts[1..]);
    assert parts[1..][1..] == [];
    assert TookAll(Took(seen, parts[0]), parts[1..]) == Took(Took(seen, parts[0]), parts[1]);
  }

  // ---------------------------------------------------------------- the upload

  /** The first read of `n` bytes, and then the trickle. */
  lemma PreambleTrickles(input: Input, parts: seq<Sent>, boundary: string, n: nat)
    requires |parts| >= 2 && BoundaryOk(boundary) && Rest(input) == Print(parts, boundary)
    requires 0 < n <= CHUNK && n + Unread(parts, boundary) < |Print(parts, boundary)|
    requires input.cuts == [n] + Trickle(|Print(parts, boundary)| - n - 1 - Unread(parts, boundary))
    ensures var first := FirstRealLine("", input);
      DropEol(first.text) == "--" + boundary && Poised(first.buffer, first.input, parts, boundary)
  {
    hide Print, InPart, Tail, Trickles, FirstRealLine, DropEol, FirstLine;
    var text, left := Print(parts, boundary), Unread(parts, boundary);
    PrintStarts(parts, boundary);
    PreambleIsRead(input, parts, boundary);
    FirstRead(input, n, left);
    InPartIsLong(parts, boundary);
    assert "" + Chunk(input, CHUNK) == Chunk(input, CHUNK);
    LineTrickles(Chunk(input, CHUNK), After(input, CHUNK), left);
  }

  lemma FirstRead(input: Input, n: nat, left: nat)
    requires 0 < n <= CHUNK && n + left < |Rest(input)| && input.cuts == [n] + Trickle(|Rest(input)| - n - 1 - left)
    ensures Trickles(After(input, CHUNK), left) && |Rest(After(input, CHUNK))| == |Rest(input)| - n
    ensures ReadLine("", input) == ReadLine("" + Chunk(input, CHUNK), After(input, CHUNK))
  {
    assert input.cuts[1..] == Trickle(|Rest(input)| - n - 1 - left);
    FindMeans("", "\n");
  }

  lemma InPartIsLong(parts: seq<Sent>, boundary: string)
    requires |parts| >= 2
    ensures |InPart(parts, boundary)| > Unread(parts, boundary)
  {
    LastOfRest(parts, boundary);
  }

  /** Where the first read does not reach the delimiter before the last file, the upload is
      not received under every fragmentation. */
  lemma TrickledUploadIsSpoilt(u: Upload, boundary: string, l: Limits, codec: Codec, unread: string, n: nat)
    requires Sendable(u, boundary, l, codec)
    requires Print(SentParts(u), boundary) <= unread && |Print(SentParts(u), boundary)| <= TotalLimit(l)
    requires 0 < n <= CHUNK && n + Unread(SentParts(u), boundary) < |Print(SentParts(u), boundary)|
    ensures var size := |Print(SentParts(u), boundary)|;
      Parse(size, unread, [n] + Trickle(size - n - 1 - Unread(SentParts(u), boundary)), boundary, l, codec) != Received(u)
  {
    hide Print, SentParts, Unread, InPart, FirstRealLine, ReadParts, AllPrintable, AllWelcome, TookAll, Delimiter, Poised;
    var parts, size := SentParts(u), |Print(SentParts(u), boundary)|;
    LastIsAFile(u);
    var input := Input(unread, size, [n] + Trickle(size - n - 1 - Unread(parts, boundary)));
    assert Rest(input) == Print(parts, boundary);
    assert u.files[|u.files| - 1] in u.files;
    PartsArePrintable(u, boundary, l, codec);
    PartsAreTaken(u, boundary, l, codec);
    PreambleTrickles(input, parts, boundary, n);
    var first := FirstRealLine("", input);
    PartsAreSpoilt(Seen(None, None, []), first.buffer, first.input, parts, boundary, l, codec, 0);
  }

  /** The main result: an upload as the client prints it is received for every fragmentation
      that begins with a read of `n` bytes if and only if no more than the last part, from the
      end of its boundary on, is behind that read. */
  lemma ReceivedForEveryFragmentationIffReached(
    u: Upload, boundary: string, l: Limits, codec: Codec, unread: string, n: nat)
    requires Sendable(u, boundary, l, codec)
    requires Print(SentParts(u), boundary) <= unread && |Print(SentParts(u), boundary)| <= TotalLimit(l)
    requires 0 < n <= CHUNK && n <= |Print(SentParts(u), boundary)|
    ensures (forall cuts ::
        Parse(|Print(SentParts(u), boundary)|, unread, [n] + cuts, boundary, l, codec) == Received(u))
      <==> |Print(SentParts(u), boundary)| - n <= |Tail([Last(SentParts(u))], boundary)|
  {
    hide Print, SentParts, Tail, Parse;
    LastIsAFile(u);
    var size := |Print(SentParts(u), boundary)|;
    if size - n <= Unread(SentParts(u), boundary) {
      forall cuts ensures Parse(size, unread, [n] + cuts, boundary, l, codec) == Received(u) {
        ReadOf(Input(unread, size, [n] + cuts), n);
        RoundTrip(u, boundary, l, codec, unread, [n] + cuts);
      }
    } else {
      TrickledUploadIsSpoilt(u, boundary, l, codec, unread, n);
    }
  }

  lemma ReadOf(input: Input, n: nat)
    requires 0 < n <= CHUNK && n <= |Rest(input)| && input.cuts != [] && input.cuts[0] == n
    ensures |Rest(After(input, CHUNK))| == |Rest(input)| - n
  {
  }
}
