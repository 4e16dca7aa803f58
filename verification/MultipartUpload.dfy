/** The upload call of the gateway: the parser of its multipart body, and the client's
    printer of one. */
module MultipartUpload {
  import opened Prelude
  import opened MultipartReader

  // ---------------------------------------------------------------- dispositions

  /** `str.split(c)` */
  function SplitOn(s: string, c: char): (parts: seq<string>)
    ensures parts != []
  {
    if s == "" then [""]
    else if s[0] == c then [""] + SplitOn(s[1..], c)
    else
      var rest := SplitOn(s[1..], c);
      [[s[0]] + rest[0]] + rest[1..]
  }

  function DropLeft(s: string, c: char): string {
    if s != "" && s[0] == c then DropLeft(s[1..], c) else s
  }

  function DropRight(s: string, c: char): string {
    if s != "" && s[|s| - 1] == c then DropRight(s[..|s| - 1], c) else s
  }

  /** `str.strip('"')` */
  function Unquote(s: string): string {
    DropRight(DropLeft(s, '"'), '"')
  }

  function Stripped(items: seq<string>): seq<string> {
    if items == [] then []
    else if Strip(items[0]) == "" then Stripped(items[1..])
    else [Strip(items[0])] + Stripped(items[1..])
  }

  function Params(items: seq<string>, params: map<string, string>): map<string, string>
    decreases items
  {
    if items == [] then params else
    match Find(items[0], "=")
    case None => Params(items[1..], params)
    case Some(k) =>
      Params(items[1..], params[Lower(Strip(items[0][..k])) := Unquote(Strip(items[0][k + 1..]))])
  }

  /** `_parse_content_disposition`: None where it raises. */
  function Disposition(value: string): Option<(string, map<string, string>)> {
    var parts := Stripped(SplitOn(value, ';'));
    if parts == [] then None else Some((Lower(parts[0]), Params(parts[1..], map[])))
  }

  function Get(m: map<string, string>, key: string): string {
    if key in m then m[key] else ""
  }

  /** What stands in brackets behind `file` or `files`. */
  function Bracketed(name: string): string {
    if "files[" <= name then name[6..] else if "file[" <= name then name[5..] else ""
  }

  /** `_normalize_slot` */
  function SlotOf(name: string): string {
    var t := Bracketed(Strip(name));
    if |t| >= 2 && t[|t| - 1] == ']' && ']' !in t[..|t| - 1] then Strip(t[..|t| - 1]) else Strip(name)
  }

  // ---------------------------------------------------------------- the parser

  datatype Staged = Staged(slot: string, field: string, filename: string, contentType: string, content: string)

  datatype Seen = Seen(payload: Option<string>, fileMap: Option<string>, files: seq<Staged>)

  datatype Parsed = Accepted(payload: string, fileMap: Option<string>, files: seq<Staged>) | Refused

  /** Which texts decode: as text, as a payload object, as a file map object. */
  datatype Codec = Codec(text: string -> bool, payload: string -> bool, fileMap: string -> bool)

  datatype Limits = Limits(total: int, file: nat)

  function TotalLimit(l: Limits): nat {
    if l.total < 1 then 1 else l.total
  }

  function TextLimit(l: Limits): nat {
    if TotalLimit(l) < CHUNK then CHUNK else TotalLimit(l)
  }

  function Delimiter(boundary: string): string {
    "\r\n--" + boundary
  }

  datatype Step = Went(seen: Seen, buffer: string, input: Input, final: bool) | Failed

  /** A part with a file name goes to a stage file. */
  function FilePart(seen: Seen, name: string, filename: string, contentType: string, h: Headers, d: string, l: Limits): Step
    requires h.Headers?
  {
    var slot := SlotOf(name);
    if slot == "" || (exists f <- seen.files :: f.slot == slot) then Failed else
    var p := StreamPart(h.buffer, h.input, d, l.file, "");
    if !p.outcome.Ended? then Failed
    else Went(seen.(files := seen.files + [Staged(slot, name, filename, contentType, p.sunk)]),
              p.buffer, p.input, p.outcome.final)
  }

  /** A part without one is collected. */
  function TextPart(seen: Seen, name: string, h: Headers, d: string, l: Limits, codec: Codec): Step
    requires h.Headers?
  {
    var p := StreamPart(h.buffer, h.input, d, TextLimit(l), "");
    if !p.outcome.Ended? || !codec.text(p.sunk) then Failed
    else if name == "payload" then
      if codec.payload(p.sunk) then Went(seen.(payload := Some(p.sunk)), p.buffer, p.input, p.outcome.final) else Failed
    else if name == "file_map" then
      if p.sunk == "" || codec.fileMap(p.sunk) then Went(seen.(fileMap := Some(p.sunk)), p.buffer, p.input, p.outcome.final)
      else Failed
    else Went(seen, p.buffer, p.input, p.outcome.final)
  }

  function ContentType(fields: map<string, string>): string {
    Strip(if Get(fields, "content-type") == "" then "application/octet-stream" else Get(fields, "content-type"))
  }

  /** What the headers of a part say: its field name and file name, or that it is refused. */
  function NamesOf(fields: map<string, string>): Option<(string, string)> {
    match Disposition(Get(fields, "content-disposition"))
    case None => None
    case Some(d) =>
      var name := Strip(Get(d.1, "name"));
      if d.0 != "form-data" || name == "" then None else Some((name, Strip(Get(d.1, "filename"))))
  }

  /** One round of the parser's loop. */
  function ReadPart(seen: Seen, buffer: string, input: Input, d: string, l: Limits, codec: Codec): Step {
    var h := ReadHeaders(buffer, input, map[]);
    if h.HeadersFailed? then Failed else
    match NamesOf(h.fields)
    case None => Failed
    case Some(n) =>
      if n.1 != "" then FilePart(seen, n.0, n.1, ContentType(h.fields), h, d, l)
      else TextPart(seen, n.0, h, d, l, codec)
  }

  function Finish(seen: Seen): Parsed {
    if seen.payload.None? || seen.files == [] then Refused
    else Accepted(seen.payload.value, seen.fileMap, seen.files)
  }

  const MAX_FIELDS := 64

  function ReadParts(seen: Seen, buffer: string, input: Input, d: string, l: Limits, codec: Codec, count: nat): Parsed
    decreases MAX_FIELDS - count
  {
    if count >= MAX_FIELDS then Refused else
    var s := ReadPart(seen, buffer, input, d, l, codec);
    if s.Failed? then Refused
    else if s.final then Finish(s.seen)
    else ReadParts(s.seen, s.buffer, s.input, d, l, codec, count + 1)
  }

  /** The first line that is not blank. */
  function FirstRealLine(buffer: string, input: Input): Line
    decreases |buffer| + |Rest(input)|
  {
    var line := ReadLine(buffer, input);
    LineConsumes(buffer, input);
    if Blank(line.text) then FirstRealLine(line.buffer, line.input) else line
  }

  /** `bytes.rstrip(b"\r\n")` */
  function DropEol(s: string): string {
    if s != "" && (s[|s| - 1] == '\r' || s[|s| - 1] == '\n') then DropEol(s[..|s| - 1]) else s
  }

  /** `parse_gateway_upload_call` on what a connection holds. */
  function Parse(contentLength: int, unread: string, cuts: seq<nat>, boundary: string, l: Limits, codec: Codec): Parsed {
    if contentLength > TotalLimit(l) then Refused else
    var first := FirstRealLine("", Input(unread, if contentLength < 0 then 0 else contentLength, cuts));
    if DropEol(first.text) != "--" + boundary then Refused
    else ReadParts(Seen(None, None, []), first.buffer, first.input, Delimiter(boundary), l, codec, 0)
  }

  // ---------------------------------------------------------------- the printer

  /** A file to upload: bytes given inline, or the content of a file on disk. */
  datatype File = File(slot: string, filename: string, content: string, inline: bool)

  /** What the client sends; an empty file map is not sent. */
  datatype Upload = Upload(payload: string, fileMap: string, files: seq<File>)

  datatype Sent = Sent(name: string, filename: string, contentType: string, content: string)

  function SentFiles(files: seq<File>): seq<Sent> {
    if files == [] then [] else
    [Sent("files[" + files[0].slot + "]", files[0].filename, "application/octet-stream", files[0].content)]
    + SentFiles(files[1..])
  }

  function SentParts(u: Upload): seq<Sent> {
    [Sent("payload", "", "application/json", u.payload)]
    + (if u.fileMap == "" then [] else [Sent("file_map", "", "application/json", u.fileMap)])
    + SentFiles(u.files)
  }

  /** The value of the Content-Disposition header. */
  function DispositionText(name: string, filename: string): string {
    "form-data; name=\"" + name + "\"" + (if filename == "" then "" else "; filename=\"" + filename + "\"")
  }

  /** The header lines of a part, behind the boundary line. */
  function HeadLines(s: Sent): string {
    "Content-Disposition: " + DispositionText(s.name, s.filename) + "\r\n"
    + (if s.contentType == "" then "" else "Content-Type: " + s.contentType + "\r\n")
    + "\r\n"
  }

  /** `_multipart_part_header` */
  function PartHeader(boundary: string, s: Sent): string {
    "--" + boundary + "\r\n" + HeadLines(s)
  }

  function Print(parts: seq<Sent>, boundary: string): string {
    if parts == [] then "--" + boundary + "--\r\n"
    else PartHeader(boundary, parts[0]) + parts[0].content + "\r\n" + Print(parts[1..], boundary)
  }
}
