/** The parser and the printer as they run: a connection that is consumed, a byte buffer that
    slides over it, and a connection that is written to. */
module MultipartGateway {
  import opened Prelude
  import opened MultipartReader
  import opened MultipartParts
  import opened MultipartUpload
  import opened MultipartVerdicts

  // ---------------------------------------------------------------- the gateway

  /** A `_LimitedStream` over a connection, with the parser's buffer. */
  class UploadReader {
    var unread: string
    var remaining: nat
    var cuts: seq<nat>
    var buffer: string

    ghost function Source(): Input
      reads this
    {
      Input(unread, remaining, cuts)
    }

    constructor (connection: string, fragments: seq<nat>, contentLength: int)
      ensures Source() == Input(connection, if contentLength < 0 then 0 else contentLength, fragments)
      ensures buffer == ""
    {
      unread, cuts, buffer := connection, fragments, "";
      remaining := if contentLength < 0 then 0 else contentLength;
    }

    /** `_LimitedStream.read`: at most `size` bytes, never beyond the body. */
    method Read(size: nat) returns (chunk: string)
      requires size > 0
      modifies this`unread, this`remaining, this`cuts
      ensures chunk == Chunk(old(Source()), size) && Source() == After(old(Source()), size)
      ensures |chunk| <= size && remaining <= old(remaining)
      ensures chunk == "" <==> Rest(old(Source())) == ""
    {
      if remaining == 0 {
        return "";
      }
      var most := Min(Min(size, remaining), |unread|);
      if most == 0 {
        remaining := 0;
        return "";
      }
      var n := if cuts == [] || cuts[0] > most then most else if cuts[0] == 0 then 1 else cuts[0];
      chunk := unread[..n];
      unread, remaining := unread[n..], remaining - n;
      if cuts != [] {
        cuts := cuts[1..];
      }
    }

    method ReadLineOnce() returns (line: string)
      modifies this
      ensures Line(line, buffer, Source()) == ReadLine(old(buffer), old(Source()))
    {
      while true
        invariant ReadLine(buffer, Source()) == ReadLine(old(buffer), old(Source()))
        decreases |Rest(Source())|
      {
        var found := Find(buffer, "\n");
        if found.Some? {
          line := buffer[..found.value + 1];
          buffer := buffer[found.value + 1..];
          return;
        }
        var chunk := Read(CHUNK);
        if chunk == "" {
          line := buffer;
          buffer := "";
          return;
        }
        buffer := buffer + chunk;
      }
    }

    method ReadPartHeaders() returns (fields: map<string, string>, ok: bool)
      modifies this
      ensures ok ==> ReadHeaders(old(buffer), old(Source()), map[]) == Headers(fields, buffer, Source())
      ensures !ok ==> ReadHeaders(old(buffer), old(Source()), map[]) == HeadersFailed
    {
      fields := map[];
      while true
        invariant ReadHeaders(buffer, Source(), fields) == ReadHeaders(old(buffer), old(Source()), map[])
        decreases |buffer| + |Rest(Source())|
      {
        LineConsumes(buffer, Source());
        var line := ReadLineOnce();
        if line == "" {
          return fields, false;
        }
        if Blank(line) {
          return fields, true;
        }
        var header := HeaderOf(line);
        if header.None? {
          return fields, false;
        }
        fields := fields[header.value.0 := header.value.1];
      }
    }

    /** Reads until the buffer holds two bytes. */
    method FillTwo() returns (ok: bool)
      modifies this
      ensures Filled(buffer, Source(), ok) == Fill(old(buffer), old(Source()))
      ensures ok ==> |buffer| >= 2
    {
      while |buffer| < 2
        invariant Fill(buffer, Source()) == Fill(old(buffer), old(Source()))
        decreases |Rest(Source())|
      {
        var extra := Read(2 - |buffer|);
        if extra == "" {
          return false;
        }
        buffer := buffer + extra;
      }
      ok := true;
    }

    /** What stands behind a delimiter. */
    method ReadTerminator(ghost sunk: string) returns (outcome: Outcome)
      modifies this
      ensures Part(sunk, buffer, Source(), outcome) == Terminate(sunk, old(buffer), old(Source()))
    {
      var ok := FillTwo();
      if !ok {
        return EndOfBody;
      }
      var final := false;
      if "--" <= buffer {
        final := true;
        buffer := buffer[2..];
      }
      ok := FillTwo();
      if !ok {
        return EndOfBody;
      }
      if !("\r\n" <= buffer) {
        return BadTerminator;
      }
      buffer := buffer[2..];
      outcome := Ended(final);
    }

    /** The buffer keeps its last bytes; the others are flushed. */
    method Flush(keep: nat) returns (flushed: string)
      modifies this`buffer
      ensures flushed == Pushed(old(buffer), keep) && buffer == Left(old(buffer), keep)
    {
      flushed := "";
      if |buffer| > keep {
        flushed := buffer[..|buffer| - keep];
        buffer := buffer[|buffer| - keep..];
      }
    }

    /** The reads of a part up to its delimiter, which is left in the buffer. */
    method ReadToDelimiter(d: string, limit: nat) returns (sunk: string, written: nat, failure: Option<Outcome>)
      modifies this
      ensures written == |sunk| && (failure.None? ==> Find(buffer, d).Some?)
      ensures StreamPart(old(buffer), old(Source()), d, limit, "")
        == if failure.Some? then Part(sunk, buffer, Source(), failure.value)
           else StreamPart(buffer, Source(), d, limit, sunk)
    {
      sunk, written, failure := "", 0, None;
      while Find(buffer, d).None?
        invariant written == |sunk|
        invariant StreamPart(old(buffer), old(Source()), d, limit, "") == StreamPart(buffer, Source(), d, limit, sunk)
        decreases |Rest(Source())|
      {
        RoundOf(buffer, Source(), d, limit, sunk);
        var chunk := Read(CHUNK);
        if chunk == "" {
          return sunk, written, Some(EndOfBody);
        }
        buffer := buffer + chunk;
        var more := Flush(Keep(d));
        sunk := sunk + more;
        written := written + |more|;
        if more != "" && written > limit {
          return sunk, written, Some(TooLarge);
        }
      }
    }

    /** The delimiter is in the buffer: what is before it, and what stands behind it. */
    method TakePart(d: string, idx: nat, limit: nat, before: string) returns (sunk: string, outcome: Outcome)
      requires Find(buffer, d) == Some(idx)
      modifies this
      ensures Part(sunk, buffer, Source(), outcome) == StreamPart(old(buffer), old(Source()), d, limit, before)
      ensures |sunk| == |before| + idx
    {
      FoundAt(buffer, Source(), d, limit, before, idx);
      sunk := before + buffer[..idx];
      if idx > 0 && |sunk| > limit {
        return sunk, TooLarge;
      }
      buffer := buffer[idx + |d|..];
      outcome := ReadTerminator(sunk);
    }

    /** `_stream_part_body`; `sunk` is what the sink got, `written` the counter. */
    method StreamPartBody(boundary: string, limit: nat) returns (sunk: string, written: nat, outcome: Outcome)
      modifies this
      ensures Part(sunk, buffer, Source(), outcome) == StreamPart(old(buffer), old(Source()), Delimiter(boundary), limit, "")
      ensures written == |sunk|
      ensures outcome.Ended? ==> written <= limit
      ensures |buffer| <= Bound(old(buffer), Delimiter(boundary))
    {
      var d := Delimiter(boundary);
      PartsAreBounded(buffer, Source(), d, limit);
      var failure;
      sunk, written, failure := ReadToDelimiter(d, limit);
      if failure.Some? {
        return sunk, written, failure.value;
      }
      var idx := Find(buffer, d).value;
      sunk, outcome := TakePart(d, idx, limit, sunk);
      written := written + idx;
    }

    /** A part with a file name goes to a stage file. */
    method ParseFilePart(seen: Seen, name: string, filename: string, fields: map<string, string>, boundary: string, l: Limits)
      returns (next: Seen, final: bool, ok: bool)
      modifies this
      ensures var s := FilePart(seen, name, filename, ContentType(fields),
                                Headers(fields, old(buffer), old(Source())), Delimiter(boundary), l);
        if ok then s == Went(next, buffer, Source(), final) else s == Failed
    {
      next, final, ok := seen, false, false;
      var slot := SlotOf(name);
      if slot == "" || exists f <- seen.files :: f.slot == slot {
        return;
      }
      var content, written, outcome := StreamPartBody(boundary, l.file);
      if !outcome.Ended? {
        return;
      }
      next := seen.(files := seen.files + [Staged(slot, name, filename, ContentType(fields), content)]);
      final, ok := outcome.final, true;
    }

    /** A part without one is collected and decoded. */
    method ParseTextPart(seen: Seen, name: string, fields: map<string, string>, boundary: string, l: Limits, codec: Codec)
      returns (next: Seen, final: bool, ok: bool)
      modifies this
      ensures var s := TextPart(seen, name, Headers(fields, old(buffer), old(Source())), Delimiter(boundary), l, codec);
        if ok then s == Went(next, buffer, Source(), final) else s == Failed
    {
      next, final, ok := seen, false, false;
      var text, written, outcome := StreamPartBody(boundary, TextLimit(l));
      if !outcome.Ended? || !codec.text(text) {
        return;
      }
      if name == "payload" {
        if !codec.payload(text) {
          return;
        }
        next := seen.(payload := Some(text));
      } else if name == "file_map" {
        if text != "" && !codec.fileMap(text) {
          return;
        }
        next := seen.(fileMap := Some(text));
      }
      final, ok := outcome.final, true;
    }

    /** One part with its headers. */
    method ParsePart(seen: Seen, boundary: string, l: Limits, codec: Codec) returns (next: Seen, final: bool, ok: bool)
      modifies this
      ensures var s := ReadPart(seen, old(buffer), old(Source()), Delimiter(boundary), l, codec);
        if ok then s == Went(next, buffer, Source(), final) else s == Failed
    {
      next, final, ok := seen, false, false;
      var fields, good := ReadPartHeaders();
      if !good {
        return;
      }
      var names := NamesOf(fields);
      if names.None? {
        return;
      }
      var (name, filename) := names.value;
      if filename != "" {
        next, final, ok := ParseFilePart(seen, name, filename, fields, boundary, l);
      } else {
        next, final, ok := ParseTextPart(seen, name, fields, boundary, l, codec);
      }
    }

    /** The parser's loop over the parts, at most 64 of them. */
    method ParseParts(boundary: string, l: Limits, codec: Codec) returns (r: Parsed)
      modifies this
      ensures r == ReadParts(Seen(None, None, []), old(buffer), old(Source()), Delimiter(boundary), l, codec, 0)
    {
      var seen := Seen(None, None, []);
      var count := 0;
      while true
        invariant count <= MAX_FIELDS
        invariant ReadParts(seen, buffer, Source(), Delimiter(boundary), l, codec, count)
          == ReadParts(Seen(None, None, []), old(buffer), old(Source()), Delimiter(boundary), l, codec, 0)
        decreases MAX_FIELDS - count
      {
        count := count + 1;
        if count > MAX_FIELDS {
          return Refused;
        }
        var next, final, ok := ParsePart(seen, boundary, l, codec);
        if !ok {
          return Refused;
        }
        seen := next;
        if final {
          return Finish(seen);
        }
      }
    }

    method ReadFirstLine() returns (line: string)
      modifies this
      ensures Line(line, buffer, Source()) == FirstRealLine(old(buffer), old(Source()))
    {
      LineConsumes(buffer, Source());
      line := ReadLineOnce();
      while Blank(line)
        invariant (if Blank(line) then FirstRealLine(buffer, Source()) else Line(line, buffer, Source()))
          == FirstRealLine(old(buffer), old(Source()))
        decreases |buffer| + |Rest(Source())| + |line|
      {
        LineConsumes(buffer, Source());
        line := ReadLineOnce();
      }
    }
  }

  /** `parse_gateway_upload_call` */
  method ParseUploadCall(
    contentLength: int, connection: string, fragments: seq<nat>, boundary: string, l: Limits, codec: Codec)
    returns (r: Parsed)
    ensures r == Parse(contentLength, connection, fragments, boundary, l, codec)
    ensures contentLength > l.total && contentLength > 1 ==> r == Refused
    ensures r.Accepted? ==> 1 <= |r.files| <= 63
    ensures r.Accepted? ==> forall i :: 0 <= i < |r.files| ==>
      r.files[i].slot != "" && r.files[i].filename != "" && |r.files[i].content| <= l.file
    ensures r.Accepted? ==> forall i, j :: 0 <= i < j < |r.files| ==> r.files[i].slot != r.files[j].slot
    ensures r.Accepted? ==> codec.text(r.payload) && codec.payload(r.payload)
    ensures r.Accepted? ==> |r.payload| <= 65536 || |r.payload| <= l.total
    ensures r.Accepted? && r.fileMap.Some? ==>
      codec.text(r.fileMap.value) && (r.fileMap.value == "" || codec.fileMap(r.fileMap.value))
    ensures r.Accepted? && r.fileMap.Some? ==> |r.fileMap.value| <= 65536 || |r.fileMap.value| <= l.total
  {
    AcceptedIsSound(contentLength, connection, fragments, boundary, l, codec);
    if contentLength > TotalLimit(l) {
      return Refused;
    }
    var reader := new UploadReader(connection, fragments, contentLength);
    var first := reader.ReadFirstLine();
    if DropEol(first) != "--" + boundary {
      return Refused;
    }
    r := reader.ParseParts(boundary, l, codec);
  }

  // ---------------------------------------------------------------- the client

  function PartText(boundary: string, s: Sent): string {
    PartHeader(boundary, s) + s.content + "\r\n"
  }

  lemma PrintCons(s: Sent, rest: seq<Sent>, boundary: string)
    ensures Print([s] + rest, boundary) == PartText(boundary, s) + Print(rest, boundary)
    ensures |Print([s] + rest, boundary)| == |PartHeader(boundary, s)| + |s.content| + 2 + |Print(rest, boundary)|
  {
    assert ([s] + rest)[1..] == rest;
  }

  function PayloadPart(u: Upload): Sent {
    Sent("payload", "", "application/json", u.payload)
  }

  function FileMapPart(u: Upload): Sent {
    Sent("file_map", "", "application/json", u.fileMap)
  }

  function FilePartOf(f: File): Sent {
    Sent("files[" + f.slot + "]", f.filename, "application/octet-stream", f.content)
  }

  lemma PartsOf(u: Upload)
    ensures u.fileMap == "" ==> SentParts(u) == [PayloadPart(u)] + SentFiles(u.files)
    ensures u.fileMap != "" ==> SentParts(u) == [PayloadPart(u)] + ([FileMapPart(u)] + SentFiles(u.files))
  {
  }

  lemma FilesFrom(files: seq<File>, i: nat)
    requires i < |files|
    ensures SentFiles(files[i..]) == [FilePartOf(files[i])] + SentFiles(files[i + 1..])
  {
    assert files[i..][1..] == files[i + 1..];
  }

  method PartLength(boundary: string, part: Sent) returns (n: nat)
    ensures n == |PartHeader(boundary, part)| + |part.content| + 2
  {
    n := |PartHeader(boundary, part)|;
    n := n + |part.content| + 2;
  }

  method FilesLength(files: seq<File>, boundary: string) returns (total: nat)
    ensures total == |Print(SentFiles(files), boundary)|
  {
    total := 0;
    assert files[0..] == files;
    for i := 0 to |files|
      invariant total + |Print(SentFiles(files[i..]), boundary)| == |Print(SentFiles(files), boundary)|
    {
      FilesFrom(files, i);
      PrintCons(FilePartOf(files[i]), SentFiles(files[i + 1..]), boundary);
      var n := PartLength(boundary, FilePartOf(files[i]));
      total := total + n;
    }
    assert files[|files|..] == [];
    total := total + |"--" + boundary + "--\r\n"|;
  }

  /** `_multipart_content_length` */
  method ContentLength(u: Upload, boundary: string) returns (total: nat)
    ensures total == |Print(SentParts(u), boundary)|
  {
    PartsOf(u);
    total := PartLength(boundary, PayloadPart(u));
    if u.fileMap != "" {
      var n := PartLength(boundary, FileMapPart(u));
      total := total + n;
      PrintCons(PayloadPart(u), [FileMapPart(u)] + SentFiles(u.files), boundary);
      PrintCons(FileMapPart(u), SentFiles(u.files), boundary);
    } else {
      PrintCons(PayloadPart(u), SentFiles(u.files), boundary);
    }
    var rest := FilesLength(u.files, boundary);
    total := total + rest;
  }

  const FILE_CHUNK := 256 * 1024

  /** The client's side of the connection. */
  class UploadConnection {
    var sent: string

    constructor ()
      ensures sent == ""
    {
      sent := "";
    }

    method Send(data: string)
      modifies this
      ensures sent == old(sent) + data
    {
      sent := sent + data;
    }

    /** A file on disk goes out in pieces. */
    method SendFile(content: string)
      modifies this
      ensures sent == old(sent) + content
    {
      var at := 0;
      while true
        invariant at <= |content| && sent == old(sent) + content[..at]
        decreases |content| - at
      {
        var chunk := content[at..Min(at + FILE_CHUNK, |content|)];
        if chunk == "" {
          break;
        }
        Send(chunk);
        assert content[..at] + chunk == content[..at + |chunk|];
        at := at + |chunk|;
      }
      assert content[..at] == content;
    }

    method SendPart(boundary: string, part: Sent, inline: bool)
      modifies this
      ensures sent == old(sent) + PartText(boundary, part)
    {
      Send(PartHeader(boundary, part));
      if inline {
        Send(part.content);
      } else {
        SendFile(part.content);
      }
      Send("\r\n");
    }

    method SendFiles(files: seq<File>, boundary: string)
      modifies this
      ensures sent == old(sent) + Print(SentFiles(files), boundary)
    {
      var i := 0;
      assert files[0..] == files;
      while i < |files|
        invariant i <= |files|
        invariant sent + Print(SentFiles(files[i..]), boundary) == old(sent) + Print(SentFiles(files), boundary)
      {
        FilesFrom(files, i);
        PrintCons(FilePartOf(files[i]), SentFiles(files[i + 1..]), boundary);
        Assoc(sent, PartText(boundary, FilePartOf(files[i])), Print(SentFiles(files[i + 1..]), boundary));
        SendPart(boundary, FilePartOf(files[i]), files[i].inline);
        i := i + 1;
      }
      assert files[i..] == [];
      Send("--" + boundary + "--\r\n");
    }

    /** The body of `_http_multipart_request`: what goes out is the printed upload, and it is
        as long as the Content-Length header said. */
    method SendBody(u: Upload, boundary: string) returns (length: nat)
      modifies this
      ensures sent == old(sent) + Print(SentParts(u), boundary)
      ensures length == |Print(SentParts(u), boundary)|
    {
      length := ContentLength(u, boundary);
      PartsOf(u);
      ghost var files := Print(SentFiles(u.files), boundary);
      ghost var payload, fileMap := PartText(boundary, PayloadPart(u)), PartText(boundary, FileMapPart(u));
      SendPart(boundary, PayloadPart(u), true);
      if u.fileMap != "" {
        SendPart(boundary, FileMapPart(u), true);
        PrintCons(PayloadPart(u), [FileMapPart(u)] + SentFiles(u.files), boundary);
        PrintCons(FileMapPart(u), SentFiles(u.files), boundary);
        Assoc(old(sent) + payload, fileMap, files);
        Assoc(old(sent), payload, fileMap + files);
      } else {
        PrintCons(PayloadPart(u), SentFiles(u.files), boundary);
        Assoc(old(sent), payload, files);
      }
      SendFiles(u.files, boundary);
    }
  }
}
