/** The server's view of one client connection: what it reads, sends and starts, in order. */
module ServerClient {
  import opened Bytes
  import opened Protocol

  /** A rule of the configuration; `stdinArg` is 0 for none, -1 for the last argument. */
  datatype Rule = Rule(
    command: Data,
    subcommand: Data,
    program: Data,
    stdinArg: int,
    sudoUser: Option<Data>,
    summary: Option<Data>,
    help: Option<Data>,
    acls: seq<string>,
    file: string)

  /** The result of reading a token; `closed` when the other end has gone away. */
  datatype ReadResult = Token(data: Data) | ReadFailed(closed: bool)

  datatype Event =
    | Received(result: ReadResult)
    | Sent(token: Data)
    | SendFailed
    | Started(path: Data, rule: Rule, argv: seq<Data>, input: Option<Data>)
    | CommandDone
    | Abandoned

  function Ascii(s: string): (d: Data)
    ensures |d| == |s|
  {
    seq(|s|, i requires 0 <= i < |s| => s[i] as int % 256)
  }

  function ErrorText(code: ErrorCode): (text: string)
    ensures |text| < 64
  {
    match code
    case Internal => "Internal failure"
    case BadToken => "Invalid token"
    case UnknownMessage => "Unknown message"
    case BadCommand => "Invalid command token"
    case UnknownCommand => "Unknown command"
    case Access => "Access denied"
    case TooManyArgs => "Too many arguments"
    case TooMuchData => "Too much data"
    case UnexpectedMessage => "Unexpected message"
    case NoHelp => "No help defined for command"
  }

  function OutputToken(stream: byte, data: Data): (token: Data)
    ensures |token| == 7 + |data|
  {
    [2, MESSAGE_OUTPUT, stream] + U32(|data|) + data
  }

  /** The octet that carries an exit status. */
  function StatusByte(status: int): byte
  {
    if status > 255 || status < -127 then 255 else status % 256
  }

  function StatusToken(status: int): (token: Data)
  {
    [2, MESSAGE_STATUS, StatusByte(status)]
  }

  function ErrorToken(code: ErrorCode): (token: Data)
    ensures |token| < 74
  {
    var text := Ascii(ErrorText(code));
    [2, MESSAGE_ERROR] + U32(ErrorNumber(code)) + U32(|text|) + text
  }

  const VERSION_TOKEN: Data := [2, MESSAGE_VERSION, 3]
  const NOOP_TOKEN: Data := [3, MESSAGE_NOOP]

  function Next(input: seq<ReadResult>): (r: ReadResult)
  {
    if input == [] then ReadFailed(true) else input[0]
  }

  function Rest(input: seq<ReadResult>): (rest: seq<ReadResult>)
    ensures |rest| <= |input|
  {
    if input == [] then [] else input[1..]
  }

  /** Either everything expected happened, or it happened up to the first send that failed. */
  ghost predicate UpToFailure(events: seq<Event>, expected: seq<Event>, failed: bool)
  {
    if failed then
      exists k :: 0 <= k < |expected| && expected[k].Sent? && events == expected[..k] + [SendFailed]
    else
      events == expected
  }

  lemma UpToFailureAppend(events: seq<Event>, expected: seq<Event>, more: seq<Event>, expectedMore: seq<Event>,
                          failed: bool)
    requires UpToFailure(events, expected, false) && UpToFailure(more, expectedMore, failed)
    ensures UpToFailure(events + more, expected + expectedMore, failed)
  {
    if failed {
      var k :| 0 <= k < |expectedMore| && expectedMore[k].Sent? && more == expectedMore[..k] + [SendFailed];
      var n := |expected| + k;
      assert (expected + expectedMore)[..n] == expected + expectedMore[..k];
      assert (expected + expectedMore)[n] == expectedMore[k];
    }
  }

  lemma UpToFailureStops(events: seq<Event>, expected: seq<Event>, expectedMore: seq<Event>)
    requires UpToFailure(events, expected, true)
    ensures UpToFailure(events, expected + expectedMore, true)
  {
    var k :| 0 <= k < |expected| && expected[k].Sent? && events == expected[..k] + [SendFailed];
    assert (expected + expectedMore)[..k] == expected[..k];
  }

  lemma EventsAssociative(x: seq<Event>, y: seq<Event>, z: seq<Event>)
    ensures x + (y + z) == (x + y) + z
  {
  }

  lemma NoFailure(events: seq<Event>)
    ensures UpToFailure(events, events, false)
  {
  }

  lemma UpToFailureEvents(events: seq<Event>, expected: seq<Event>, failed: bool)
    requires UpToFailure(events, expected, failed) && SendFailed !in expected
    ensures forall e :: e in events ==> e in expected || e == SendFailed
    ensures SendFailed in events <==> failed
  {
    if failed {
      var k :| 0 <= k < |expected| && expected[k].Sent? && events == expected[..k] + [SendFailed];
      assert events[k] == SendFailed;
    }
  }

  /** The events of several parts, one part after the other. */
  function AllEvents(parts: seq<seq<Event>>): seq<Event>
  {
    if parts == [] then [] else parts[0] + AllEvents(parts[1..])
  }

  lemma {:induction false} AllEventsSnoc(parts: seq<seq<Event>>, part: seq<Event>)
    ensures AllEvents(parts + [part]) == AllEvents(parts) + part
  {
    var all := parts + [part];
    if parts == [] {
      assert all[1..] == [];
    } else {
      assert all[0] == parts[0] && all[1..] == parts[1..] + [part];
      AllEventsSnoc(parts[1..], part);
    }
  }

  class Client {
    var incoming: seq<ReadResult>
    var keepalive: bool
    var fatal: bool
    var trace: seq<Event>

    constructor (incoming: seq<ReadResult>)
      ensures this.incoming == incoming && !keepalive && !fatal && trace == []
    {
      this.incoming, keepalive, fatal, trace := incoming, false, false, [];
    }

    /** `token_send_priv`; every sender of the server sets the fatal flag when it fails. */
    method Send(token: Data) returns (ok: bool)
      modifies this`fatal, this`trace
      ensures ok ==> |token| <= TOKEN_MAX_DATA
      ensures fatal == (old(fatal) || !ok)
      ensures trace == old(trace) + [if ok then Sent(token) else SendFailed]
      ensures UpToFailure([if ok then Sent(token) else SendFailed], [Sent(token)], !ok)
    {
      ok := *;
      if |token| > TOKEN_MAX_DATA {
        ok := false;
      }
      if !ok {
        fatal := true;
      }
      trace := trace + [if ok then Sent(token) else SendFailed];
      assert [Sent(token)][..0] + [SendFailed] == [SendFailed];
    }

    /** `server_v2_send_error`. */
    method SendError(code: ErrorCode) returns (ok: bool)
      modifies this`fatal, this`trace
      ensures fatal == (old(fatal) || !ok)
      ensures trace == old(trace) + [if ok then Sent(ErrorToken(code)) else SendFailed]
      ensures UpToFailure([if ok then Sent(ErrorToken(code)) else SendFailed], [Sent(ErrorToken(code))], !ok)
    {
      ok := Send(ErrorToken(code));
    }

    /** `server_v2_read_token`: a failure other than the end of the connection is answered with an error. */
    method ReadToken() returns (r: ReadResult, ghost reply: seq<Event>)
      modifies this`incoming, this`fatal, this`trace
      ensures r == Next(old(incoming)) && incoming == Rest(old(incoming))
      ensures trace == old(trace) + [Received(r)] + reply
      ensures if r.Token? || r.closed then reply == [] else reply in {[Sent(ErrorToken(BadToken))], [SendFailed]}
      ensures fatal == (old(fatal) || reply == [SendFailed])
    {
      r := Next(incoming);
      incoming := Rest(incoming);
      trace := trace + [Received(r)];
      reply := [];
      if r.ReadFailed? && !r.closed {
        var ok := SendError(BadToken);
        reply := [if ok then Sent(ErrorToken(BadToken)) else SendFailed];
      }
    }
  }
}
