/**
 * The client of the `pop-launcher` daemon used by the generic launcher
 * view: requests go to the daemon's standard input as one JSON value per
 * line, and each read of its standard output yields a chunk of lines of
 * which the first that parses is the response.
 */
module PopLauncher {
  import opened Wrappers
  import opened Strings
  import opened Streams
  import JsonText

  /** The `icon` of a search result: a theme icon name or a MIME type. */
  datatype IconSource = Name(name: string) | Mime(mime: string)

  /** One entry of an `Update` response; the optional fields may be absent. */
  datatype SearchResult = SearchResult(
    id: int,
    name: string,
    description: string,
    keywords: Option<seq<string>>,
    icon: Option<IconSource>,
    exec: Option<string>,
    window: Option<int>)

  /** `PopLauncherRequest`: `{Search: q}`, `{Activate: id}`, `"Exit"` or `"Interrupt"`. */
  datatype Request = Search(query: string) | Activate(id: JsonText.SafeInteger) | Exit | Interrupt

  /** `PopLauncherResponse`: `{Update: [...]}`, `{Fill: s}` or `{Close: null}`. */
  datatype Response = Update(results: seq<SearchResult>) | Fill(text: string) | Close

  // ---------------------------------------------------------------------
  // Requests on the wire

  /** `JSON.stringify(request)`. */
  function Stringify(request: Request): (json: string)
    ensures '\n' !in json
  {
    match request
    case Search(q) => "{\"Search\":" + JsonText.Quote(q) + "}"
    case Activate(id) => "{\"Activate\":" + JsonText.Int(id) + "}"
    case Exit => "\"Exit\""
    case Interrupt => "\"Interrupt\""
  }

  /**
   * A decoder for exactly the four shapes `Stringify` writes (compact, with
   * no whitespace), used to show that `Stringify` loses nothing; it is not a
   * general JSON reader.
   */
  function ParseRequest(json: string): Option<Request>
  {
    if json == "\"Exit\"" then Some(Exit)
    else if json == "\"Interrupt\"" then Some(Interrupt)
    else if |json| >= 13 && json[..11] == "{\"Search\":\"" && json[|json| - 2..] == "\"}" then
      match JsonText.Unescape(json[11..|json| - 2])
      case Some(q) => Some(Search(q))
      case None => None
    else if |json| >= 13 && json[..12] == "{\"Activate\":" && json[|json| - 1..] == "}" then
      match JsonText.IntValue(json[12..|json| - 1])
      case Some(id) =>
        if -JsonText.MaxSafeInteger <= id <= JsonText.MaxSafeInteger then Some(Activate(id)) else None
      case None => None
    else None
  }

  /** A search request is read back with its query intact. */
  lemma ParseSearch(q: string)
    ensures ParseRequest(Stringify(Search(q))) == Some(Search(q))
  {
    var body := JsonText.Escape(q);
    var json := "{\"Search\":\"" + body + "\"}";
    assert Stringify(Search(q)) == json;
    assert json[..11] == "{\"Search\":\"";
    assert json[|json| - 2..] == "\"}";
    assert json[11..|json| - 2] == body;
    assert json[0] == '{';
    JsonText.UnescapeEscape(q);
  }

  /** An activation request is read back with its id intact. */
  lemma ParseActivate(id: JsonText.SafeInteger)
    ensures ParseRequest(Stringify(Activate(id))) == Some(Activate(id))
  {
    var digits := JsonText.Int(id);
    var json := "{\"Activate\":" + digits + "}";
    assert Stringify(Activate(id)) == json;
    assert json[0] == '{';
    assert json[..11][2] == 'A';
    assert json[..12] == "{\"Activate\":";
    assert json[|json| - 1..] == "}";
    assert json[12..|json| - 1] == digits;
  }

  /** Every request the client can send is read back as itself. */
  lemma ParseStringify(request: Request)
    ensures ParseRequest(Stringify(request)) == Some(request)
  {
    match request
    case Search(q) => ParseSearch(q);
    case Activate(id) => ParseActivate(id);
    case Exit =>
    case Interrupt =>
  }

  /** `jsonString + "\n"`: the bytes `sendRequest` writes. */
  function Frame(request: Request): (bytes: string)
    ensures Split(bytes, '\n') == [Stringify(request), ""]
  {
    var json := Stringify(request);
    assert Join([json, ""], '\n') == json + "\n" by {
      assert Join([json, ""], '\n') == json + ['\n'] + Join([""], '\n');
    }
    SplitUnique([json, ""], '\n');
    json + "\n"
  }

  // ---------------------------------------------------------------------
  // Responses on the wire

  /**
   * The response `readResponse` picks from the non-blank lines of a chunk:
   * that of the first line `parse` accepts, or none when no line parses.
   * `parse` stands for `JSON.parse`, `None` for a line it rejects.
   */
  function FirstParsed(lines: seq<string>, parse: string -> Option<Response>): (r: Option<Response>)
    ensures r.None? <==> forall i :: 0 <= i < |lines| ==> parse(lines[i]).None?
    ensures r.Some? ==>
      exists i :: 0 <= i < |lines| && parse(lines[i]) == r && forall j :: 0 <= j < i ==> parse(lines[j]).None?
    decreases |lines|
  {
    if lines == [] then None
    else if parse(lines[0]).Some? then parse(lines[0])
    else
      var r := FirstParsed(lines[1..], parse);
      assert forall i :: 1 <= i < |lines| ==> lines[i] == lines[1..][i - 1];
      r
  }

  /** A line that parses, with none parsing before it, is the one chosen. */
  lemma {:induction false} FirstParsedAt(lines: seq<string>, parse: string -> Option<Response>, i: nat)
    requires i < |lines| && parse(lines[i]).Some?
    requires forall j :: 0 <= j < i ==> parse(lines[j]).None?
    ensures FirstParsed(lines, parse) == parse(lines[i])
    decreases i
  {
    if i > 0 {
      assert parse(lines[0]).None?;
      var tail := lines[1..];
      assert forall j :: 0 <= j < i - 1 ==> tail[j] == lines[j + 1];
      FirstParsedAt(tail, parse, i - 1);
    }
  }

  /** Lines after the first one that parses are never looked at. */
  lemma {:induction false} FirstParsedIgnoresRest(lines: seq<string>, more: seq<string>, parse: string -> Option<Response>)
    requires FirstParsed(lines, parse).Some?
    ensures FirstParsed(lines + more, parse) == FirstParsed(lines, parse)
    decreases |lines|
  {
    var both := lines + more;
    assert both[0] == lines[0];
    if parse(lines[0]).None? {
      assert both[1..] == lines[1..] + more;
      FirstParsedIgnoresRest(lines[1..], more, parse);
    }
  }

  /** The child process as `spawn()` gives it: which pipes exist, and how they will behave. */
  datatype ChildProcess = ChildProcess(
    stdinPiped: bool,         // `process.stdin` is present
    stdoutPiped: bool,        // `process.stdout` is present
    input: seq<WriteResult>,  // how the child's input will take the writes, write by write
    output: seq<ReadResult>)  // what the child's output will yield, read by read

  /**
   * The writer on the child's input, with the outcomes of the writes to
   * come. An accepted write consumes its outcome; a rejected one leaves the
   * stream errored, so every later write rejects too. A writer with no
   * outcome left rejects: the child no longer reads its input.
   */
  datatype Writer = Writer(pending: seq<WriteResult>)

  /** Whether the next write on `w` is accepted. */
  predicate Accepts(w: Writer)
  {
    w.pending != [] && w.pending[0] == Written
  }

  /** The writer after one write: an accepted write is consumed; a rejected one leaves the stream as it is. */
  function WriterAfterWrite(w: Writer): (after: Writer)
    ensures Accepts(w) ==> |after.pending| == |w.pending| - 1 && after.pending == w.pending[1..]
    ensures !Accepts(w) ==> after == w && !Accepts(after)
  {
    if Accepts(w) then Writer(w.pending[1..]) else w
  }

  /** The reader on the child's output, with what it has yet to yield. */
  datatype Reader = Reader(pending: seq<ReadResult>)

  /** Why spawning failed: `Deno.Command.spawn` threw, or a pipe was missing. */
  datatype SpawnFailure = CommandFailed | PipesMissing

  /** The errors the client's methods throw. */
  datatype ClientError = NotConnected | FailedToSend | FailedToSpawn(reason: SpawnFailure)

  /**
   * What one `readResponse` call returns on a given reader: `NotConnected`
   * without one; null at the end of the stream and when the read rejects;
   * otherwise the first response that parses among the chunk's non-blank
   * lines, or null when none does.
   */
  function ReadOutcome(reader: Option<Reader>, parse: string -> Option<Response>): (r: Result<Option<Response>, ClientError>)
    ensures r.Failure? <==> reader.None?
    ensures r.Failure? ==> r.error == NotConnected
    ensures r.Success? && r.value.Some? ==>
      reader.value.pending != [] && reader.value.pending[0].Chunk?
      && (exists i :: 0 <= i < |NonBlankLines(reader.value.pending[0].text)|
            && parse(NonBlankLines(reader.value.pending[0].text)[i]) == r.value)
  {
    match reader
    case None => Failure(NotConnected)
    case Some(Reader(pending)) =>
      if pending == [] then Success(None)
      else match pending[0]
        case ReadError => Success(None)
        case Chunk(text) => Success(FirstParsed(NonBlankLines(text), parse))
  }

  /**
   * The reader after one `readResponse`: a chunk read is consumed; an ended
   * or errored stream stays as it is, so an errored stream stays errored.
   */
  function ReaderAfterRead(reader: Option<Reader>): (after: Option<Reader>)
    ensures after.None? <==> reader.None?
    ensures reader.Some? && reader.value.pending != [] && reader.value.pending[0].Chunk? ==>
      |after.value.pending| == |reader.value.pending| - 1 && after.value.pending == reader.value.pending[1..]
    ensures reader.Some? && (reader.value.pending == [] || reader.value.pending[0].ReadError?) ==>
      after == reader
  {
    match reader
    case Some(Reader(pending)) =>
      if pending != [] && pending[0].Chunk? then Some(Reader(pending[1..])) else reader
    case None => None
  }

  /** Helper for `ReadResponse`: the chunk case of `ReadOutcome` and `ReaderAfterRead`. */
  lemma ReadChunk(pending: seq<ReadResult>, parse: string -> Option<Response>)
    requires pending != [] && pending[0].Chunk?
    ensures ReadOutcome(Some(Reader(pending)), parse) == Success(FirstParsed(NonBlankLines(pending[0].text), parse))
    ensures ReaderAfterRead(Some(Reader(pending))) == Some(Reader(pending[1..]))
  {
  }

  /** A blank chunk, or one none of whose lines parses, yields null, not an error. */
  lemma NoParseIsNull(text: string, rest: seq<ReadResult>, parse: string -> Option<Response>)
    requires forall i :: 0 <= i < |NonBlankLines(text)| ==> parse(NonBlankLines(text)[i]).None?
    ensures ReadOutcome(Some(Reader([Chunk(text)] + rest)), parse) == Success(None)
  {
  }

  /** `search`'s dispatch: the results of an `Update`; nothing for `Fill`, `Close` or null. */
  function UpdateResults(response: Option<Response>): (results: seq<SearchResult>)
    ensures results != [] ==> response.Some? && response.value.Update?
    ensures response.Some? && response.value.Update? ==> results == response.value.results
  {
    match response
    case Some(Update(results)) => results
    case _ => []
  }

  // ---------------------------------------------------------------------
  // The client

  /**
   * `PopLauncherClient`: three nullable handles, `process`, `writer` and
   * `reader`. `sent` records every write the child's input has accepted, in
   * order; the writer holds the outcomes of the writes to come and the
   * reader the child's output.
   */
  class PopLauncherClient {
    var process: Option<ChildProcess>
    var writer: Option<Writer>
    var reader: Option<Reader>
    var sent: seq<string>

    /** A new client is disconnected and has sent nothing. */
    constructor ()
      ensures process == None && writer == None && reader == None && sent == []
    {
      process := None;
      writer := None;
      reader := None;
      sent := [];
    }

    /**
     * `connect()`: `spawn` is what `command.spawn()` gives (`None` when it
     * throws). The process handle is stored before the pipes are checked, so
     * a child without pipes leaves `process` set and the other handles as
     * they were; with both pipes, all three handles are set.
     */
    method Connect(spawn: Option<ChildProcess>) returns (r: Outcome<ClientError>)
      modifies this
      ensures sent == old(sent)
      ensures spawn.None? ==>
        r == Fail(FailedToSpawn(CommandFailed)) && process == old(process) && writer == old(writer) && reader == old(reader)
      ensures spawn.Some? && !(spawn.value.stdinPiped && spawn.value.stdoutPiped) ==>
        r == Fail(FailedToSpawn(PipesMissing))
        && process == spawn && writer == old(writer) && reader == old(reader)
      ensures spawn.Some? && spawn.value.stdinPiped && spawn.value.stdoutPiped ==>
        r == Pass && process == spawn
        && writer == Some(Writer(spawn.value.input))
        && reader == Some(Reader(spawn.value.output))
    {
      if spawn.None? {
        return Fail(FailedToSpawn(CommandFailed));
      }
      process := spawn;
      var child := spawn.value;
      if !child.stdinPiped || !child.stdoutPiped {
        return Fail(FailedToSpawn(PipesMissing));
      }
      writer := Some(Writer(child.input));
      reader := Some(Reader(child.output));
      r := Pass;
    }

    /**
     * `sendRequest(request)`: refuses without a writer; otherwise writes the
     * request's JSON and one newline, or fails if the write rejects.
     */
    method SendRequest(request: Request) returns (r: Outcome<ClientError>)
      modifies this
      ensures process == old(process) && reader == old(reader)
      ensures old(writer).None? ==> r == Fail(NotConnected) && sent == old(sent) && writer == old(writer)
      ensures old(writer).Some? && !Accepts(old(writer).value) ==>
        r == Fail(FailedToSend) && sent == old(sent) && writer == old(writer)
      ensures old(writer).Some? && Accepts(old(writer).value) ==>
        r == Pass && sent == old(sent) + [Frame(request)] && writer == Some(WriterAfterWrite(old(writer).value))
    {
      if writer.None? {
        return Fail(NotConnected);
      }
      var data := Frame(request);
      var w := writer.value;
      if !Accepts(w) {
        return Fail(FailedToSend);
      }
      writer := Some(WriterAfterWrite(w));
      sent := sent + [data];
      r := Pass;
    }
    /**
     * `readResponse()`: refuses without a reader; otherwise reads one chunk
     * and returns the first of its non-blank lines that parses.
     */
    method ReadResponse(parse: string -> Option<Response>) returns (r: Result<Option<Response>, ClientError>)
      modifies this
      ensures r == ReadOutcome(old(reader), parse)
      ensures reader == ReaderAfterRead(old(reader))
      ensures process == old(process) && writer == old(writer) && sent == old(sent)
    {
      ghost var expected := ReadOutcome(reader, parse);
      if reader.None? {
        return Failure(NotConnected);
      }
      var pending := reader.value.pending;
      if pending == [] {
        return Success(None);
      }
      if pending[0].ReadError? {
        return Success(None);
      }
      var lines := NonBlankLines(pending[0].text);
      ReadChunk(pending, parse);
      assert expected == Success(FirstParsed(lines, parse));
      reader := Some(Reader(pending[1..]));
      for i := 0 to |lines|
        invariant forall j :: 0 <= j < i ==> parse(lines[j]).None?
      {
        var parsed := parse(lines[i]);
        if parsed.Some? {
          FirstParsedAt(lines, parse, i);
          return Success(parsed);
        }
      }
      r := Success(None);
    }

    /**
     * `search(query)`: sends `{Search: query}` and reads one response; an
     * `Update` gives its results, anything else the empty list. Errors of
     * either step are thrown to the caller.
     */
    method Search(query: string, parse: string -> Option<Response>) returns (r: Result<seq<SearchResult>, ClientError>)
      modifies this
      ensures process == old(process)
      ensures old(writer).None? ==>
        r == Failure(NotConnected) && sent == old(sent) && writer == old(writer) && reader == old(reader)
      ensures old(writer).Some? && !Accepts(old(writer).value) ==>
        r == Failure(FailedToSend) && sent == old(sent) && writer == old(writer) && reader == old(reader)
      ensures old(writer).Some? && Accepts(old(writer).value) ==>
        sent == old(sent) + [Frame(Request.Search(query))]
        && writer == Some(WriterAfterWrite(old(writer).value))
        && reader == ReaderAfterRead(old(reader))
        && r == match ReadOutcome(old(reader), parse)
                case Failure(e) => Failure(e)
                case Success(response) => Success(UpdateResults(response))
    {
      var sentOk := SendRequest(Request.Search(query));
      if sentOk.Fail? {
        return Failure(sentOk.error);
      }
      var response := ReadResponse(parse);
      if response.Failure? {
        return Failure(response.error);
      }
      r := Success(UpdateResults(response.value));
    }

    /** `activate(id)`: sends `{Activate: id}` and reads nothing. */
    method Activate(id: JsonText.SafeInteger) returns (r: Outcome<ClientError>)
      modifies this
      ensures process == old(process) && reader == old(reader)
      ensures old(writer).None? ==> r == Fail(NotConnected) && sent == old(sent) && writer == old(writer)
      ensures old(writer).Some? && !Accepts(old(writer).value) ==>
        r == Fail(FailedToSend) && sent == old(sent) && writer == old(writer)
      ensures old(writer).Some? && Accepts(old(writer).value) ==>
        r == Pass && sent == old(sent) + [Frame(Request.Activate(id))]
        && writer == Some(WriterAfterWrite(old(writer).value))
    {
      r := SendRequest(Request.Activate(id));
    }

    /**
     * `close()`: with a writer, send "Exit" and close it; then cancel the
     * reader and wait for the process, clearing each handle. Errors are
     * caught: when the "Exit" write rejects, nothing after it happens and
     * every handle stays set.
     */
    method Close()
      modifies this
      ensures old(writer).Some? && !Accepts(old(writer).value) ==>
        process == old(process) && writer == old(writer) && reader == old(reader) && sent == old(sent)
      ensures old(writer).None? || Accepts(old(writer).value) ==>
        process == None && writer == None && reader == None
      ensures old(writer).None? ==> sent == old(sent)
      ensures old(writer).Some? && Accepts(old(writer).value) ==> sent == old(sent) + [Frame(Exit)]
    {
      if writer.Some? {
        var sentExit := SendRequest(Exit);
        if sentExit.Fail? {
          return;
        }
        writer := None;
      }
      if reader.Some? {
        reader := None;
      }
      if process.Some? {
        process := None;
      }
    }
  }

  /** Closing a client whose writer still accepts twice sends "Exit" once: the second close finds no writer. */
  method CloseTwice(client: PopLauncherClient)
    requires client.writer.Some? && Accepts(client.writer.value)
    modifies client
    ensures client.sent == old(client.sent) + [Frame(Exit)]
    ensures client.process == None && client.writer == None && client.reader == None
  {
    client.Close();
    client.Close();
  }

  /**
   * A writer can take one request and then reject the next: when the child
   * stops reading after a search, the search is sent, the "Exit" of the
   * following close rejects, and every handle stays set.
   */
  method SearchThenExitRejected(client: PopLauncherClient, query: string, parse: string -> Option<Response>)
    returns (found: Result<seq<SearchResult>, ClientError>)
    requires client.writer == Some(Writer([Written]))
    modifies client
    ensures found.Success? <==> old(client.reader).Some?
    ensures client.sent == old(client.sent) + [Frame(Request.Search(query))]
    ensures client.writer == Some(Writer([])) && client.process == old(client.process)
    ensures client.reader == ReaderAfterRead(old(client.reader))
  {
    found := client.Search(query, parse);
    client.Close();
  }
}
