/** Reading a multipart body over arbitrarily fragmented reads with a sliding buffer. Bytes
    are characters. */
module MultipartReader {
  import opened Prelude

  const CHUNK := 64 * 1024

  // ---------------------------------------------------------------- the input

  /** What the socket still holds, how much of it belongs to the body, and how the coming
      reads fall: `cuts` gives the length of each read as far as it is allowed, and a read
      beyond `cuts` gives all it can. Every fragmentation is some `cuts`. */
  datatype Input = Input(unread: string, remaining: nat, cuts: seq<nat>)

  function Min(a: nat, b: nat): nat {
    if a < b then a else b
  }

  /** The rest of the body. */
  function Rest(i: Input): string {
    i.unread[..Min(|i.unread|, i.remaining)]
  }

  /** How many bytes `_LimitedStream.read(size)` returns: none only at the end. */
  function ReadLength(i: Input, size: nat): (n: nat)
    requires size > 0
    ensures n <= size && n <= |Rest(i)| && (n == 0 <==> Rest(i) == "")
  {
    var most := Min(size, |Rest(i)|);
    if most == 0 || i.cuts == [] || i.cuts[0] > most then most
    else if i.cuts[0] == 0 then 1
    else i.cuts[0]
  }

  function Chunk(i: Input, size: nat): (c: string)
    requires size > 0
    ensures c <= Rest(i) && |c| <= size
  {
    Rest(i)[..ReadLength(i, size)]
  }

  /** The input after such a read; an empty read ends it. */
  function After(i: Input, size: nat): (j: Input)
    requires size > 0
    ensures Rest(i) == Chunk(i, size) + Rest(j)
  {
    var n := ReadLength(i, size);
    if n == 0 then i.(remaining := 0) else
    var j := Input(i.unread[n..], i.remaining - n, if i.cuts == [] then [] else i.cuts[1..]);
    assert Rest(j) == Rest(i)[n..];
    j
  }

  // ---------------------------------------------------------------- searching

  predicate At(text: string, p: string, k: int) {
    0 <= k && k + |p| <= |text| && text[k..k + |p|] == p
  }

  /** `bytearray.find`: the first place where `p` is. */
  function Find(text: string, p: string): (r: Option<nat>)
    ensures r.Some? ==> r.value + |p| <= |text|
  {
    FindFrom(text, p, 0)
  }

  function FindFrom(text: string, p: string, from: nat): (r: Option<nat>)
    ensures r.Some? ==> r.value + |p| <= |text|
    decreases |text| - from
  {
    if from + |p| > |text| then None
    else if text[from..from + |p|] == p then Some(from)
    else FindFrom(text, p, from + 1)
  }

  lemma {:induction false} FindFromMeans(text: string, p: string, from: nat)
    ensures var r := FindFrom(text, p, from);
      && (r.Some? ==> from <= r.value && At(text, p, r.value) && forall k :: from <= k < r.value ==> !At(text, p, k))
      && (r.None? ==> forall k :: from <= k ==> !At(text, p, k))
    decreases |text| - from
  {
    if from + |p| <= |text| && !At(text, p, from) {
      FindFromMeans(text, p, from + 1);
    }
  }

  /** It is the first place, and None means there is no place. */
  lemma FindMeans(text: string, p: string)
    ensures var r := Find(text, p);
      && (r.Some? ==> At(text, p, r.value) && forall k :: 0 <= k < r.value ==> !At(text, p, k))
      && (r.None? ==> forall k :: 0 <= k ==> !At(text, p, k))
  {
    FindFromMeans(text, p, 0);
  }

  lemma FindIs(text: string, p: string, k: nat)
    requires At(text, p, k) && forall j :: 0 <= j < k ==> !At(text, p, j)
    ensures Find(text, p) == Some(k)
  {
    FindMeans(text, p);
  }

  // ---------------------------------------------------------------- lines and headers

  datatype Line = Line(text: string, buffer: string, input: Input)

  /** `_readline` */
  function ReadLine(buffer: string, input: Input): Line
    decreases |Rest(input)|
  {
    match Find(buffer, "\n")
    case Some(k) => Line(buffer[..k + 1], buffer[k + 1..], input)
    case None =>
      if Rest(input) == "" then Line(buffer, "", After(input, CHUNK))
      else ReadLine(buffer + Chunk(input, CHUNK), After(input, CHUNK))
  }

  datatype Headers = Headers(fields: map<string, string>, buffer: string, input: Input) | HeadersFailed

  predicate Blank(line: string) {
    line == "\r\n" || line == "\n"
  }

  /** The name and the value of a header line, None where it has no colon. */
  function HeaderOf(line: string): Option<(string, string)> {
    var text := Strip(line);
    match Find(text, ":")
    case None => None
    case Some(k) => Some((Lower(Strip(text[..k])), Strip(text[k + 1..])))
  }

  /** A line uses up as many bytes as it is long, and is empty only at the end of the body. */
  lemma {:induction false} LineConsumes(buffer: string, input: Input)
    ensures var l := ReadLine(buffer, input);
      && |l.text| + |l.buffer| + |Rest(l.input)| == |buffer| + |Rest(input)| && |Rest(l.input)| <= |Rest(input)|
      && (l.text == "" ==> |buffer| + |Rest(input)| == 0)
    decreases |Rest(input)|
  {
    if Find(buffer, "\n").None? && Rest(input) != "" {
      LineConsumes(buffer + Chunk(input, CHUNK), After(input, CHUNK));
    }
  }

  lemma Assoc(a: string, b: string, c: string)
    ensures (a + b) + c == a + (b + c)
  {
  }

  /** `_read_headers` */
  function ReadHeaders(buffer: string, input: Input, fields: map<string, string>): Headers
    decreases |buffer| + |Rest(input)|
  {
    var l := ReadLine(buffer, input);
    LineConsumes(buffer, input);
    if l.text == "" then HeadersFailed
    else if Blank(l.text) then Headers(fields, l.buffer, l.input)
    else match HeaderOf(l.text)
      case None => HeadersFailed
      case Some(h) => ReadHeaders(l.buffer, l.input, fields[h.0 := h.1])
  }

  // ---------------------------------------------------------------- part bodies

  datatype Outcome = Ended(final: bool) | TooLarge | EndOfBody | BadTerminator

  /** What a part body read has handed to the sink, and where it stands. */
  datatype Part = Part(sunk: string, buffer: string, input: Input, outcome: Outcome)

  datatype Filled = Filled(buffer: string, input: Input, ok: bool)

  /** Reads until the buffer holds two bytes. */
  function Fill(buffer: string, input: Input): Filled
    decreases |Rest(input)|
  {
    if |buffer| >= 2 then Filled(buffer, input, true)
    else if Rest(input) == "" then Filled(buffer, After(input, 2 - |buffer|), false)
    else Fill(buffer + Chunk(input, 2 - |buffer|), After(input, 2 - |buffer|))
  }

  /** The line end that closes a delimiter. */
  function Close(sunk: string, buffer: string, input: Input, final: bool): Part {
    var g := Fill(buffer, input);
    if !g.ok then Part(sunk, g.buffer, g.input, EndOfBody)
    else if !("\r\n" <= g.buffer) then Part(sunk, g.buffer, g.input, BadTerminator)
    else Part(sunk, g.buffer[2..], g.input, Ended(final))
  }

  /** What follows a delimiter. */
  function Terminate(sunk: string, buffer: string, input: Input): Part {
    var f := Fill(buffer, input);
    if !f.ok then Part(sunk, f.buffer, f.input, EndOfBody)
    else if "--" <= f.buffer then Close(sunk, f.buffer[2..], f.input, true)
    else Close(sunk, f.buffer, f.input, false)
  }

  function Keep(d: string): nat {
    |d| + 8
  }

  /** What a read pushes out of the buffer, and what it leaves there. */
  function Pushed(b: string, keep: nat): string {
    if |b| > keep then b[..|b| - keep] else ""
  }

  function Left(b: string, keep: nat): string {
    if |b| > keep then b[|b| - keep..] else b
  }

  /** `_stream_part_body` with the delimiter `d`, after `sunk` has gone to the sink. */
  function StreamPart(buffer: string, input: Input, d: string, limit: nat, sunk: string): Part
    decreases |Rest(input)|
  {
    match Find(buffer, d)
    case Some(k) =>
      var all := sunk + buffer[..k];
      if k > 0 && |all| > limit then Part(all, buffer, input, TooLarge)
      else Terminate(all, buffer[k + |d|..], input)
    case None =>
      if Rest(input) == "" then Part(sunk, buffer, After(input, CHUNK), EndOfBody) else
      var b, next := buffer + Chunk(input, CHUNK), After(input, CHUNK);
      var all := sunk + Pushed(b, Keep(d));
      if |b| > Keep(d) && |all| > limit then Part(all, Left(b, Keep(d)), next, TooLarge)
      else StreamPart(Left(b, Keep(d)), next, d, limit, all)
  }

  // ---------------------------------------------------------------- without fragments

  /** The first line of a text, and a text without it. */
  function FirstLine(text: string): string {
    match Find(text, "\n")
    case Some(k) => text[..k + 1]
    case None => text
  }

  lemma FirstLineInPrefix(a: string, b: string, k: nat)
    requires Find(a, "\n") == Some(k)
    ensures FirstLine(a + b) == a[..k + 1] && a + b == a[..k + 1] + (a[k + 1..] + b)
  {
    FindInPrefix(a, b, "\n", k);
    assert (a + b)[..k + 1] == a[..k + 1];
    assert a == a[..k + 1] + a[k + 1..];
    Assoc(a[..k + 1], a[k + 1..], b);
  }

  /** Lines do not depend on how the reads fall. */
  lemma {:induction false} LinesAreExact(buffer: string, input: Input)
    ensures var l := ReadLine(buffer, input);
      l.text == FirstLine(buffer + Rest(input)) && buffer + Rest(input) == l.text + (l.buffer + Rest(l.input))
    decreases |Rest(input)|
  {
    match Find(buffer, "\n") {
      case Some(k) => FirstLineInPrefix(buffer, Rest(input), k);
      case None =>
        if Rest(input) != "" {
          LinesAreExact(buffer + Chunk(input, CHUNK), After(input, CHUNK));
          Assoc(buffer, Chunk(input, CHUNK), Rest(After(input, CHUNK)));
        } else {
          assert buffer + Rest(input) == buffer;
        }
    }
  }

  lemma FindInPrefix(a: string, b: string, p: string, k: nat)
    requires Find(a, p) == Some(k)
    ensures Find(a + b, p) == Some(k)
  {
    FindMeans(a, p);
    forall j | 0 <= j <= k ensures At(a + b, p, j) <==> At(a, p, j) {
      assert (a + b)[j..j + |p|] == a[j..j + |p|];
    }
    FindIs(a + b, p, k);
  }

  /** The headers of a text, and the text behind them. */
  datatype Head = Head(fields: map<string, string>, behind: string) | NoHead

  function HeadOf(text: string, fields: map<string, string>): Head
    decreases |text|
  {
    var line := FirstLine(text);
    if line == "" then NoHead
    else if Blank(line) then Head(fields, text[|line|..])
    else match HeaderOf(line)
      case None => NoHead
      case Some(h) => HeadOf(text[|line|..], fields[h.0 := h.1])
  }

  /** Headers do not depend on how the reads fall. */
  lemma {:induction false} HeadersAreExact(buffer: string, input: Input, fields: map<string, string>)
    ensures var h := ReadHeaders(buffer, input, fields);
      if h.HeadersFailed? then HeadOf(buffer + Rest(input), fields) == NoHead
      else HeadOf(buffer + Rest(input), fields) == Head(h.fields, h.buffer + Rest(h.input))
           && |Rest(h.input)| <= |Rest(input)|
    decreases |buffer| + |Rest(input)|
  {
    var text := buffer + Rest(input);
    var l := ReadLine(buffer, input);
    LinesAreExact(buffer, input);
    LineConsumes(buffer, input);
    assert text[|l.text|..] == l.buffer + Rest(l.input);
    if l.text != "" && !Blank(l.text) && HeaderOf(l.text).Some? {
      var h := HeaderOf(l.text).value;
      HeadersAreExact(l.buffer, l.input, fields[h.0 := h.1]);
    }
  }
}
