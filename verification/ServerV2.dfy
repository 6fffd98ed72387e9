/**
 * The protocol v2 server: reading commands, parsing them and handling a whole connection (server/server-v2.c,
 * server/generic.c).
 */
module ServerV2 {
  import opened Bytes
  import opened Protocol
  import opened CommandCodec
  import opened ServerClient
  import opened Reassembly
  import opened Monitor
  import opened Commands
  import opened RunCommand
  import Acl

  // Parsing.

  /** The arguments read so far, followed by what the rest of the octets gives. */
  function Joined(argv: seq<Data>, rest: Option<seq<Data>>): Option<seq<Data>>
  {
    if rest.None? then None else Some(argv + rest.value)
  }

  /** `server_parse_command`: the parsed arguments, or exactly one error sent to the client. */
  method ServerParseCommand(client: Client, buffer: Data) returns (r: Option<seq<Data>>, ghost events: seq<Event>)
    requires |buffer| >= 4
    modifies client`fatal, client`trace
    ensures client.trace == old(client.trace) + events
    ensures client.fatal == (old(client.fatal) || SendFailed in events)
    ensures match ParseCommand(buffer)
            case Command(argv) => r == Some(argv) && events == []
            case Malformed(code) => r == None && events in {[Sent(ErrorToken(code))], [SendFailed]}
  {
    r, events := None, [];
    var argc, p := OfU32(buffer[..4]), 4;
    var code := BadCommand;
    if argc == 0 {
      code := UnknownCommand;
    } else if argc > COMMAND_MAX_ARGS {
      code := TooManyArgs;
    } else if |buffer| - p >= 4 * argc {
      r := FillArgv(buffer, argc);
    }
    if r.None? {
      var sent := client.SendError(code);
      events := [if sent then Sent(ErrorToken(code)) else SendFailed];
    }
  }

  /** One argument taken from the octets at p. */
  lemma ParseStep(buffer: Data, p: nat, argv: seq<Data>, all: Option<seq<Data>>)
    requires p + 4 <= |buffer| && all == Joined(argv, ParseArgs(buffer[p..]))
    ensures all.Some? ==> |all.value| > |argv|
    ensures var n := OfU32(buffer[p..p + 4]);
            if |buffer| - p - 4 < n then all == None
            else all == Joined(argv + [buffer[p + 4..p + 4 + n]], ParseArgs(buffer[p + 4 + n..]))
  {
    hide OfU32;
    var rest := buffer[p..];
    assert rest[..4] == buffer[p..p + 4];
    var n := OfU32(rest[..4]);
    if |rest| - 4 >= n {
      assert rest[4..4 + n] == buffer[p + 4..p + 4 + n] && rest[4 + n..] == buffer[p + 4 + n..];
      var tail := ParseArgs(buffer[p + 4 + n..]);
      if tail.Some? {
        assert argv + ([rest[4..4 + n]] + tail.value) == argv + [rest[4..4 + n]] + tail.value;
      }
    }
  }

  lemma ParseEnd(buffer: Data, p: nat, argv: seq<Data>)
    requires |buffer| - 4 < p <= |buffer|
    ensures Joined(argv, ParseArgs(buffer[p..])) == if p == |buffer| then Some(argv) else None
  {
    assert argv + [] == argv;
  }

  /** The loop of the parser: fills an array of argc arguments, or finds the octets malformed. */
  method FillArgv(buffer: Data, argc: nat) returns (r: Option<seq<Data>>)
    requires |buffer| >= 4
    ensures var args := ParseArgs(buffer[4..]);
            r == if args.Some? && |args.value| == argc then args else None
  {
    hide OfU32, ParseArgs;
    ghost var all, read := ParseArgs(buffer[4..]), [];
    var argv := new Data[argc](_ => []);
    var p, count := 4, 0;
    assert all.Some? ==> [] + all.value == all.value;
    while p <= |buffer| - 4
      invariant 4 <= p <= |buffer| && 0 <= count <= argc
      invariant read == argv[..count] && all == Joined(read, ParseArgs(buffer[p..]))
      decreases |buffer| - p
    {
      ParseStep(buffer, p, read, all);
      if count >= argc {
        return None;
      }
      var arglen := OfU32(buffer[p..p + 4]);
      p := p + 4;
      if |buffer| - p < arglen {
        return None;
      }
      argv[count] := buffer[p..p + arglen];
      read := read + [buffer[p..p + arglen]];
      count := count + 1;
      p := p + arglen;
    }
    ParseEnd(buffer, p, read);
    assert argv[..argc] == argv[..];
    if count != argc || p != |buffer| {
      return None;
    }
    return Some(argv[..]);
  }

  // Reassembly.

  /** Why a read is no continuation of a command. */
  function WhyNot(r: ReadResult): Reason
    requires LongEnough(r) && !(r.Token? && IsCommand(r.data))
  {
    if r.ReadFailed? then NoToken(r.closed)
    else if !KnownVersion(r.data) then OtherVersion
    else if r.data[1] == MESSAGE_QUIT then QuitReceived
    else NotCommand
  }

  /** What the server answers when it gives a command up. */
  function GiveUpReply(reason: Reason): seq<Event>
  {
    match reason
    case NoToken(closed) => if closed then [] else [Sent(ErrorToken(BadToken))]
    case OtherVersion => [Sent(VERSION_TOKEN)]
    case QuitReceived => []
    case NotCommand => [Sent(ErrorToken(UnexpectedMessage))]
  }

  /** What the server answers during the reassembly of a command: nothing if it is completed. */
  function AssemblyReply(a: Assembled): seq<Event>
  {
    match a
    case Complete(payload, last, rest) => []
    case Refused(code, last, rest) => [Sent(ErrorToken(code))]
    case GivenUp(reason, last, rest) => GiveUpReply(reason)
  }

  /** Sends, successful or not, that are the expected ones up to the first failure. */
  ghost predicate Replied(reply: seq<Event>, expected: seq<Event>)
  {
    && UpToFailure(reply, expected, SendFailed in reply)
    && forall e :: e in reply ==> e.Sent? || e.SendFailed?
  }

  lemma RepliedOne(reply: seq<Event>, expected: Event)
    requires expected.Sent? && (reply == [expected] || reply == [SendFailed])
    ensures Replied(reply, [expected])
  {
    assert [expected][..0] + [SendFailed] == [SendFailed];
  }

  lemma RepliedNone()
    ensures Replied([], [])
  {
  }

  /**
   * `server_v2_read_continuation`: the next command token of a continued command, or an answer to what came
   * instead.
   */
  method ReadContinuation(client: Client) returns (next: Option<Data>, ghost reply: seq<Event>)
    requires AllLongEnough(client.incoming) && !client.fatal
    modifies client`incoming, client`keepalive, client`fatal, client`trace
    ensures client.incoming == Rest(old(client.incoming))
    ensures client.trace == old(client.trace) + [Received(Next(old(client.incoming)))] + reply
    ensures var r := Next(old(client.incoming));
            if r.Token? && IsCommand(r.data) then
              next == Some(r.data) && reply == [] && !client.fatal && client.keepalive == old(client.keepalive)
            else
              next == None && Replied(reply, GiveUpReply(WhyNot(r)))
  {
    hide ErrorText, Replied, UpToFailure;
    RepliedNone();
    var r;
    r, reply := client.ReadToken();
    next := None;
    if r.ReadFailed? {
      client.fatal := true;
      if !r.closed {
        RepliedOne(reply, Sent(ErrorToken(BadToken)));
      }
    } else if !KnownVersion(r.data) {
      var sent := client.Send(VERSION_TOKEN);
      reply := [if sent then Sent(VERSION_TOKEN) else SendFailed];
      RepliedOne(reply, Sent(VERSION_TOKEN));
    } else if r.data[1] == MESSAGE_QUIT {
      client.keepalive := false;
    } else if r.data[1] != MESSAGE_COMMAND {
      var sent := client.SendError(UnexpectedMessage);
      reply := [if sent then Sent(ErrorToken(UnexpectedMessage)) else SendFailed];
      RepliedOne(reply, Sent(ErrorToken(UnexpectedMessage)));
    } else {
      next := Some(r.data);
    }
  }

  /** The events of reading these one after the other. */
  function ReadEvents(taken: seq<ReadResult>): (events: seq<Event>)
    ensures |events| == |taken|
    ensures forall e :: e in events ==> e.Received?
  {
    seq(|taken|, i requires 0 <= i < |taken| => Received(taken[i]))
  }

  lemma ReadEventsStep(r: ReadResult, taken: seq<ReadResult>)
    ensures ReadEvents([r] + taken) == [Received(r)] + ReadEvents(taken)
  {
  }

  /** How the reassembly of a command ends, for the client, the caller and whoever watches. */
  ghost predicate Ended(a: Assembled, m: Watch, payload: Option<Data>, result: bool, keepalive: bool, fatal: bool)
  {
    m.safe &&
    match a
    case Complete(p, last, rest) =>
      payload == Some(p) && !fatal && keepalive == KeepsAlive(last) && m == Watch(true, last, true)
    case Refused(code, last, rest) =>
      payload == None && result == !fatal && keepalive == KeepsAlive(last) && m == Watch(result, last, true)
    case GivenUp(reason, last, rest) =>
      payload == None && !result
  }

  datatype Turn = More(next: Data, buffer: Data) | Done(payload: Option<Data>, result: bool, abandoned: bool)

  /** A read, and what is answered to it, in an open connection. */
  lemma WatchRead(m0: Watch, before: seq<Event>, current: Data, r: ReadResult, reply: seq<Event>)
    requires After(m0, before) == Watch(true, current, true)
    requires forall e :: e in reply ==> e.Sent? || e.SendFailed? || e.Started?
    ensures After(m0, before + [Received(r)]) == Step(Watch(true, current, true), Received(r))
    ensures After(m0, before + [Received(r)] + reply).safe
  {
    AfterAppend(m0, before, [Received(r)]);
    AfterOne(After(m0, before), Received(r));
    WatchReply(m0, before + [Received(r)], reply);
  }

  lemma WatchReply(m0: Watch, events: seq<Event>, reply: seq<Event>)
    requires forall e :: e in reply ==> e.Sent? || e.SendFailed? || e.Started?
    ensures var m := After(m0, events); After(m0, events + reply) == m.(open := m.open && SendFailed !in reply)
  {
    AfterAppend(m0, events, reply);
    AfterReply(After(m0, events), reply);
  }

  /** The three ways the reassembly can take with a token. */
  lemma TurnCases(current: Data, input: seq<ReadResult>, continued: bool, buffer: Data)
    requires |current| >= 4 && AllLongEnough(input) && |buffer| < COMMAND_MAX_DATA
    ensures LongEnough(Next(input)) && AllLongEnough(Rest(input))
    ensures var a := Assemble(current, input, continued, buffer);
            var taken := AssembleReads(current, input, continued, buffer);
            var refusal, r, longer := Refusal(current, continued, |buffer|), Next(input), buffer + current[4..];
            if refusal.Some? then
              a == Refused(refusal.value, current, input) && taken == []
            else if current[3] != 1 && current[3] != 2 then
              a == Complete(longer, current, input) && taken == []
            else if r.Token? && IsCommand(r.data) then
              && |r.data| >= 4 && |longer| < COMMAND_MAX_DATA && |Rest(input)| < |input|
              && a == Assemble(r.data, Rest(input), true, longer)
              && taken == [r] + AssembleReads(r.data, Rest(input), true, longer)
            else
              a == GivenUp(WhyNot(r), current, Rest(input)) && taken == [r]
  {
  }

  /** The answer to a token that is refused. */
  method RefuseToken(client: Client, current: Data, code: ErrorCode, ghost before: seq<Event>, ghost m0: Watch)
    returns (result: bool, ghost reply: seq<Event>)
    requires !client.fatal && After(m0, before) == Watch(true, current, true)
    modifies client`fatal, client`trace
    ensures client.trace == old(client.trace) + reply && client.fatal == !result
    ensures Replied(reply, [Sent(ErrorToken(code))]) && After(m0, before + reply) == Watch(result, current, true)
  {
    hide ErrorText, ErrorToken, UpToFailure, After, Replied;
    result := client.SendError(code);
    reply := [if result then Sent(ErrorToken(code)) else SendFailed];
    RepliedOne(reply, Sent(ErrorToken(code)));
    WatchReply(m0, before, reply);
  }

  /** The read of the next token of a continued command. */
  method NextToken(client: Client, current: Data, ghost before: seq<Event>, ghost m0: Watch)
    returns (next: Option<Data>, ghost reply: seq<Event>)
    requires AllLongEnough(client.incoming) && !client.fatal && After(m0, before) == Watch(true, current, true)
    modifies client`incoming, client`keepalive, client`fatal, client`trace
    ensures client.incoming == Rest(old(client.incoming))
    ensures client.trace == old(client.trace) + [Received(Next(old(client.incoming)))] + reply
    ensures var r := Next(old(client.incoming));
            if r.Token? && IsCommand(r.data) then
              && next == Some(r.data) && reply == [] && !client.fatal
              && After(m0, before + [Received(r)]) == Watch(true, r.data, true)
            else
              && next == None && Replied(reply, GiveUpReply(WhyNot(r)))
              && After(m0, before + [Received(r)] + reply).safe
  {
    hide ErrorText, UpToFailure, GiveUpReply, After;
    ghost var r := Next(client.incoming);
    next, reply := ReadContinuation(client);
    WatchRead(m0, before, current, r, reply);
  }

  /** How the reassembly ends in each of the cases. */
  lemma EndedCases(current: Data, rest: seq<ReadResult>, code: ErrorCode, reason: Reason, payload: Data, result: bool,
                   m: Watch)
    ensures m == Watch(true, current, true) ==>
      Ended(Complete(payload, current, rest), m, Some(payload), false, KeepsAlive(current), false)
    ensures m == Watch(result, current, true) ==>
      Ended(Refused(code, current, rest), m, None, result, KeepsAlive(current), !result)
    ensures m.safe ==>
      forall keepalive, fatal :: Ended(GivenUp(reason, current, rest), m, None, false, keepalive, fatal)
  {
  }

  /** One turn of the reassembly loop, on the token read last. */
  method TakeToken(client: Client, current: Data, continued: bool, buffer: Data, ghost before: seq<Event>,
                   ghost m0: Watch)
    returns (t: Turn, ghost received: seq<Event>, ghost reply: seq<Event>)
    requires |current| >= 4 && AllLongEnough(client.incoming) && !client.fatal && |buffer| < COMMAND_MAX_DATA
    requires After(m0, before) == Watch(true, current, true)
    modifies client`incoming, client`keepalive, client`fatal, client`trace
    ensures client.trace == old(client.trace) + received + reply
    ensures var a := Assemble(current, old(client.incoming), continued, buffer);
            var taken := AssembleReads(current, old(client.incoming), continued, buffer);
            match t
            case Done(payload, result, abandoned) =>
              && abandoned == a.GivenUp?
              && client.incoming == a.rest && Replied(reply, AssemblyReply(a)) && received == ReadEvents(taken)
              && Ended(a, After(m0, before + received + reply), payload, result, client.keepalive, client.fatal)
            case More(next, longer) =>
              && reply == []
              && |next| >= 4 && AllLongEnough(client.incoming) && !client.fatal && |longer| < COMMAND_MAX_DATA
              && |client.incoming| < |old(client.incoming)|
              && a == Assemble(next, client.incoming, true, longer)
              && received == [Received(Token(next))]
              && taken == [Token(next)] + AssembleReads(next, client.incoming, true, longer)
              && After(m0, before + received) == Watch(true, next, true)
  {
    TurnCases(current, client.incoming, continued, buffer);
    client.keepalive := current[2] != 0;
    assert client.keepalive == KeepsAlive(current);
    hide ErrorToken, UpToFailure, GiveUpReply, After, Step, Assemble, AssembleReads, Refusal, Replied, AllLongEnough;
    hide Ended,
      KeepsAlive, IsCommand;
    received, reply := [], [];
    ghost var input := client.incoming;
    assert before + [] == before;
    var refusal := Refusal(current, continued, |buffer|);
    if refusal.Some? {
      var result;
      result, reply := RefuseToken(client, current, refusal.value, before, m0);
      EndedCases(current, input, refusal.value, OtherVersion, [], result, After(m0, before + reply));
      return Done(None, result, false), received, reply;
    }
    var longer := buffer + current[4..];
    if current[3] != 1 && current[3] != 2 {
      RepliedNone();
      EndedCases(current, input, Internal, OtherVersion, longer, false, After(m0, before));
      return Done(Some(longer), false, false), received, reply;
    }
    ghost var r := Next(input);
    received := [Received(r)];
    var next;
    next, reply := NextToken(client, current, before, m0);
    if next.None? {
      EndedCases(current, Rest(input), Internal, WhyNot(r), [], false, After(m0, before + received + reply));
      return Done(None, false, true), received, reply;
    }
    t := More(next.value, longer);
  }

  /**
   * The reassembly loop of `server_v2_handle_command`.  It reads what Assemble reads and answers what
   * Assemble says; `result` says whether a refusal could be sent.
   */
  method Reassemble(client: Client, token: Data)
    returns (payload: Option<Data>, result: bool, abandoned: bool, ghost received: seq<Event>, ghost reply: seq<Event>)
    requires |token| >= 4 && AllLongEnough(client.incoming) && !client.fatal
    modifies client`incoming, client`keepalive, client`fatal, client`trace
    ensures client.trace == old(client.trace) + received + reply
    ensures abandoned == Assemble(token, old(client.incoming), false, []).GivenUp?
    ensures received == ReadEvents(AssembleReads(token, old(client.incoming), false, []))
    ensures client.incoming == Assemble(token, old(client.incoming), false, []).rest
    ensures Replied(reply, AssemblyReply(Assemble(token, old(client.incoming), false, [])))
    ensures Ended(Assemble(token, old(client.incoming), false, []), After(Watch(true, token, true), received + reply),
                  payload, result, client.keepalive, client.fatal)
  {
    hide Ended, Replied, AssemblyReply, Assemble, AssembleReads, ReadEvents, Step, AllLongEnough;
    ghost var a, m0 := Assemble(token, client.incoming, false, []), Watch(true, token, true);
    ghost var taken := AssembleReads(token, client.incoming, false, []);
    received, reply := [], [];
    var continued, t := false, More(token, []);
    while t.More?
      invariant client.trace == old(client.trace) + received + reply
      invariant t.More? ==>
        && reply == []
        && |t.next| >= 4 && AllLongEnough(client.incoming) && !client.fatal && |t.buffer| < COMMAND_MAX_DATA
        && a == Assemble(t.next, client.incoming, continued, t.buffer)
        && ReadEvents(taken) == received + ReadEvents(AssembleReads(t.next, client.incoming, continued, t.buffer))
        && After(m0, received) == Watch(true, t.next, true)
      invariant t.Done? ==>
        && t.abandoned == a.GivenUp?
        && client.incoming == a.rest && Replied(reply, AssemblyReply(a)) && received == ReadEvents(taken)
        && Ended(a, After(m0, received + reply), t.payload, t.result, client.keepalive, client.fatal)
      decreases t.More?, |client.incoming|
    {
      ghost var more, before := [], received;
      assert client.trace == old(client.trace) + before;
      t, more, reply := TakeToken(client, t.next, continued, t.buffer, received, m0);
      received := before + more;
      if t.More? {
        ghost var later := AssembleReads(t.next, client.incoming, true, t.buffer);
        ReadEventsStep(Token(t.next), later);
        EventsAssociative(before, more, ReadEvents(later));
      }
      assert client.trace == old(client.trace) + received + reply;
      continued := true;
    }
    payload, result, abandoned := t.payload, t.result, t.abandoned;
  }

  // Whole connections.

  /** A complete command carries at least the four octets of its argument count. */
  predicate HasCount(a: Assembled)
  {
    a.Complete? ==> |a.payload| >= 4
  }

  /** The same for every command of a stream, taken one after the other. */
  ghost predicate WellSized(input: seq<ReadResult>)
    requires AllLongEnough(input)
    decreases |input|
  {
    input == [] ||
    if input[0].Token? && IsCommand(input[0].data) then
      var a := Assemble(input[0].data, input[1..], false, []);
      HasCount(a) && WellSized(a.rest)
    else
      WellSized(input[1..])
  }

  ghost predicate AllAuthorised(site: Site, who: Acl.Identity, events: seq<Event>)
    requires ValidSite(site)
  {
    forall e :: e in events ==> Authorised(site, who, e)
  }

  lemma Unstarted(site: Site, who: Acl.Identity, events: seq<Event>)
    requires ValidSite(site) && forall e :: e in events ==> !e.Started?
    ensures AllAuthorised(site, who, events)
  {
  }

  lemma AuthorisedAppend(site: Site, who: Acl.Identity, xs: seq<Event>, ys: seq<Event>)
    requires ValidSite(site) && AllAuthorised(site, who, xs) && AllAuthorised(site, who, ys)
    ensures AllAuthorised(site, who, xs + ys)
  {
    hide Authorised;
  }

  /** What a complete payload is answered with. */
  ghost predicate Answered(site: Site, who: Acl.Identity, payload: Data, reply: seq<Event>, run: Run)
    requires ValidSite(site) && |payload| >= 4
  {
    match ParseCommand(payload)
    case Command(argv) => Answers(site, who, argv, reply, run)
    case Malformed(code) => IsReply(site, who, reply) && (reply == [Sent(ErrorToken(code))] || reply == [SendFailed])
  }

  method HandlePayload(client: Client, site: Site, who: Acl.Identity, payload: Data)
    returns (ghost reply: seq<Event>, ghost run: Run)
    requires ValidSite(site) && |payload| >= 4 && !client.fatal
    modifies client`fatal, client`trace
    ensures client.trace == old(client.trace) + reply
    ensures client.fatal == (SendFailed in reply)
    ensures Answered(site, who, payload, reply, run) && IsReply(site, who, reply)
  {
    hide Decide, DecideHelp, Expected, ParseCommand, ErrorText;
    var argv;
    argv, reply := ServerParseCommand(client, payload);
    run := Run(true, [], Exited(0));
    if argv.Some? {
      var what;
      what, reply := ServerRunCommand(client, site, who, argv.value);
      run := what;
    }
  }

  /** What handling a command token leads to, from the tokens that complete the command to the end of the reply. */
  ghost predicate Handled(site: Site, who: Acl.Identity, a: Assembled, taken: seq<ReadResult>, events: seq<Event>,
                          reply: seq<Event>, run: Run)
    requires ValidSite(site) && HasCount(a)
  {
    && events == ReadEvents(taken) + reply + [if a.GivenUp? then Abandoned else CommandDone]
    && if a.Complete? then Answered(site, who, a.payload, reply, run) else Replied(reply, AssemblyReply(a))
  }

  lemma AfterCommand(site: Site, who: Acl.Identity, m0: Watch, received: seq<Event>, reply: seq<Event>, last: Event)
    requires ValidSite(site) && (forall e :: e in received ==> e.Received?)
    requires IsReply(site, who, reply) && !last.Started?
    ensures var m := After(m0, received); After(m0, received + reply) == m.(open := m.open && SendFailed !in reply)
    ensures After(m0, received + reply + [last]) == Step(After(m0, received + reply), last)
    ensures AllAuthorised(site, who, received + reply + [last])
  {
    WatchReply(m0, received, reply);
    AfterAppend(m0, received + reply, [last]);
    AfterOne(After(m0, received + reply), last);
    assert forall e :: e in received + reply + [last] ==> e in received || e in reply || e == last;
  }

  lemma SilentWhenComplete(reply: seq<Event>, a: Assembled)
    requires a.Complete? && Replied(reply, AssemblyReply(a))
    ensures reply == []
  {
  }

  /** `server_v2_handle_command`. */
  method HandleCommand(client: Client, site: Site, who: Acl.Identity, token: Data)
    returns (result: bool, ghost events: seq<Event>, ghost reply: seq<Event>, ghost run: Run)
    requires ValidSite(site) && |token| >= 4 && AllLongEnough(client.incoming) && !client.fatal
    requires HasCount(Assemble(token, client.incoming, false, []))
    modifies client`incoming, client`keepalive, client`fatal, client`trace
    ensures client.trace == old(client.trace) + events && AllAuthorised(site, who, events)
    ensures client.incoming == Assemble(token, old(client.incoming), false, []).rest
    ensures var m := After(Watch(true, token, true), events); m.safe && m.open == (result && client.keepalive)
    ensures result ==> !client.fatal
    ensures Handled(site, who, Assemble(token, old(client.incoming), false, []),
                    AssembleReads(token, old(client.incoming), false, []), events, reply, run)
  {
    hide Answered, Decide, Expected, ParseCommand, Permitted, Assemble, AssembleReads, AssemblyReply, UpToFailure;
    hide After, KeepsAlive, AllLongEnough;
    ghost var m0, a := Watch(true, token, true), Assemble(token, client.incoming, false, []);
    var payload, abandoned;
    ghost var received;
    payload, result, abandoned, received, reply := Reassemble(client, token);
    run := Run(true, [], Exited(0));
    var last := CommandDone;
    if payload.Some? {
      SilentWhenComplete(reply, a);
      assert received + [] == received;
      reply, run := HandlePayload(client, site, who, payload.value);
      result := !client.fatal;
    } else if abandoned {
      last := Abandoned;
    }
    events := received + reply + [last];
    client.trace := client.trace + [last];
    AfterCommand(site, who, m0, received, reply, last);
    if client.fatal {
      result := false;
    }
  }

  /** The answer to a token that is no command. */
  function Reaction(token: Data): seq<Event>
    requires |token| >= 2
  {
    if !KnownVersion(token) then [Sent(VERSION_TOKEN)]
    else if token[1] == MESSAGE_NOOP then [Sent(NOOP_TOKEN)]
    else if token[1] == MESSAGE_QUIT then []
    else [Sent(ErrorToken(UnknownMessage))]
  }

  /** What handling a token leads to, when `input` is what can be read after it. */
  ghost predicate ReactsTo(site: Site, who: Acl.Identity, token: Data, input: seq<ReadResult>, events: seq<Event>)
    requires ValidSite(site) && LongEnough(Token(token)) && AllLongEnough(input)
    requires IsCommand(token) ==> HasCount(Assemble(token, input, false, []))
  {
    if IsCommand(token) then
      exists reply, run ::
        Handled(site, who, Assemble(token, input, false, []), AssembleReads(token, input, false, []),
                events, reply, run)
    else
      Replied(events, Reaction(token))
  }

  /** The cases of `server_v2_handle_token` other than a command. */
  method React(client: Client, token: Data) returns (result: bool, ghost events: seq<Event>)
    requires LongEnough(Token(token)) && !IsCommand(token) && !client.fatal && client.keepalive
    modifies client`keepalive, client`fatal, client`trace
    ensures client.trace == old(client.trace) + events && Replied(events, Reaction(token))
    ensures client.keepalive == !IsQuit(token) && client.fatal == (SendFailed in events)
    ensures result == (!IsQuit(token) && SendFailed !in events)
  {
    hide ErrorText, Replied, UpToFailure;
    events := [];
    RepliedNone();
    if KnownVersion(token) && token[1] == MESSAGE_QUIT {
      client.keepalive := false;
      return false, events;
    }
    if !KnownVersion(token) {
      result := client.Send(VERSION_TOKEN);
      events := [if result then Sent(VERSION_TOKEN) else SendFailed];
    } else if token[1] == MESSAGE_NOOP {
      result := client.Send(NOOP_TOKEN);
      events := [if result then Sent(NOOP_TOKEN) else SendFailed];
    } else {
      result := client.SendError(UnknownMessage);
      events := [if result then Sent(ErrorToken(UnknownMessage)) else SendFailed];
    }
    RepliedOne(events, Reaction(token)[0]);
  }

  lemma RepliedSends(site: Site, who: Acl.Identity, m: Watch, reply: seq<Event>, expected: seq<Event>)
    requires ValidSite(site) && Replied(reply, expected)
    ensures After(m, reply) == m.(open := m.open && SendFailed !in reply) && AllAuthorised(site, who, reply)
  {
    AfterReply(m, reply);
    Unstarted(site, who, reply);
  }

  /** `server_v2_handle_token`. */
  method HandleToken(client: Client, site: Site, who: Acl.Identity, token: Data)
    returns (result: bool, ghost events: seq<Event>)
    requires ValidSite(site) && LongEnough(Token(token)) && AllLongEnough(client.incoming)
    requires IsCommand(token) ==> HasCount(Assemble(token, client.incoming, false, []))
    requires !client.fatal && client.keepalive
    modifies client`incoming, client`keepalive, client`fatal, client`trace
    ensures client.trace == old(client.trace) + events && AllAuthorised(site, who, events)
    ensures client.incoming ==
            if IsCommand(token) then Assemble(token, old(client.incoming), false, []).rest else old(client.incoming)
    ensures var m := After(Watch(!IsQuit(token), token, true), events); m.safe && m.open == (result && client.keepalive)
    ensures result ==> !client.fatal
    ensures ReactsTo(site, who, token, old(client.incoming), events)
  {
    hide Handled, Replied, Assemble, AssembleReads, After, AllAuthorised;
    if KnownVersion(token) && token[1] == MESSAGE_COMMAND {
      ghost var reply, run;
      result, events, reply, run := HandleCommand(client, site, who, token);
    } else {
      result, events := React(client, token);
      RepliedSends(site, who, Watch(!IsQuit(token), token, true), events, Reaction(token));
    }
  }

  /** The input left after the next read has been handled. */
  function InputAfter(input: seq<ReadResult>): (rest: seq<ReadResult>)
    requires AllLongEnough(input)
    ensures AllLongEnough(rest) && (input != [] ==> |rest| < |input|)
  {
    var r := Next(input);
    if r.Token? && IsCommand(r.data) then Assemble(r.data, Rest(input), false, []).rest else Rest(input)
  }

  /** The events of one turn of the connection loop: a read and what it leads to. */
  ghost predicate IsTurn(site: Site, who: Acl.Identity, input: seq<ReadResult>, events: seq<Event>)
    requires ValidSite(site) && AllLongEnough(input) && WellSized(input)
  {
    events != [] && events[0] == Received(Next(input)) &&
    match Next(input)
    case ReadFailed(closed) => Replied(events[1..], GiveUpReply(NoToken(closed)))
    case Token(token) => ReactsTo(site, who, token, Rest(input), events[1..])
  }

  /** Events that are whole turns, from one input to another. */
  ghost predicate Conversation(site: Site, who: Acl.Identity, input: seq<ReadResult>, turns: seq<seq<Event>>,
                               now: seq<ReadResult>)
    requires ValidSite(site) && AllLongEnough(input) && WellSized(input)
    decreases |turns|
  {
    if turns == [] then
      now == input
    else
      IsTurn(site, who, input, turns[0]) && Conversation(site, who, InputAfter(input), turns[1..], now)
  }

  lemma WellSizedNext(input: seq<ReadResult>)
    requires AllLongEnough(input) && WellSized(input)
    ensures WellSized(InputAfter(input)) && AllLongEnough(Rest(input))
    ensures var r := Next(input);
            LongEnough(r) && (r.Token? && IsCommand(r.data) ==> HasCount(Assemble(r.data, Rest(input), false, [])))
  {
  }

  lemma TokenTurn(site: Site, who: Acl.Identity, input: seq<ReadResult>, token: Data, events: seq<Event>)
    requires ValidSite(site) && AllLongEnough(input) && WellSized(input) && Next(input) == Token(token)
    requires LongEnough(Token(token)) && AllLongEnough(Rest(input))
    requires IsCommand(token) ==> HasCount(Assemble(token, Rest(input), false, []))
    requires ReactsTo(site, who, token, Rest(input), events)
    ensures IsTurn(site, who, input, [Received(Token(token))] + events)
  {
    hide ReactsTo, Assemble, WellSized;
    assert ([Received(Token(token))] + events)[1..] == events;
  }

  lemma FailedTurn(site: Site, who: Acl.Identity, input: seq<ReadResult>, closed: bool, reply: seq<Event>)
    requires ValidSite(site) && AllLongEnough(input) && WellSized(input) && Next(input) == ReadFailed(closed)
    requires if closed then reply == [] else reply == [Sent(ErrorToken(BadToken))] || reply == [SendFailed]
    ensures IsTurn(site, who, input, [Received(ReadFailed(closed))] + reply)
  {
    hide ErrorText, WellSized;
    assert ([Received(ReadFailed(closed))] + reply)[1..] == reply;
    RepliedNone();
    if !closed {
      RepliedOne(reply, Sent(ErrorToken(BadToken)));
    }
  }

  lemma {:induction false} ConversationSnoc(site: Site, who: Acl.Identity, input: seq<ReadResult>,
                                            turns: seq<seq<Event>>, now: seq<ReadResult>, turn: seq<Event>)
    requires ValidSite(site) && AllLongEnough(input) && WellSized(input) && AllLongEnough(now) && WellSized(now)
    requires Conversation(site, who, input, turns, now) && IsTurn(site, who, now, turn)
    ensures Conversation(site, who, input, turns + [turn], InputAfter(now))
    ensures AllEvents(turns + [turn]) == AllEvents(turns) + turn
    decreases |turns|
  {
    hide IsTurn, InputAfter, WellSized, AllLongEnough, Assemble, LongEnough, AllEvents;
    WellSizedNext(input);
    AllEventsSnoc(turns, turn);
    var all := turns + [turn];
    if turns == [] {
      assert all[0] == turn && all[1..] == [];
    } else {
      assert all[0] == turns[0] && all[1..] == turns[1..] + [turn];
      ConversationSnoc(site, who, InputAfter(input), turns[1..], now, turn);
    }
  }

  lemma NoTurns(site: Site, who: Acl.Identity, input: seq<ReadResult>)
    requires ValidSite(site) && AllLongEnough(input) && WellSized(input)
    ensures Conversation(site, who, input, [], input) && AllEvents([]) == []
  {
  }

  /** What a read in an open connection does to the watch. */
  lemma ReadStep(events: seq<Event>, r: ReadResult, reply: seq<Event>)
    requires After(FRESH, events).safe && After(FRESH, events).open
    requires forall e :: e in reply ==> e.Sent? || e.SendFailed? || e.Started?
    ensures After(FRESH, events + [Received(r)] + reply).safe
    ensures r.ReadFailed? ==> !After(FRESH, events + [Received(r)] + reply).open
    ensures r.Token? ==> After(FRESH, events + [Received(r)]) == Watch(!IsQuit(r.data), r.data, true)
  {
    AfterAppend(FRESH, events, [Received(r)]);
    AfterOne(After(FRESH, events), Received(r));
    WatchReply(FRESH, events + [Received(r)], reply);
  }

  /** One turn of the connection loop: reads a token and handles it; `more` says whether to go on. */
  method OneTurn(client: Client, site: Site, who: Acl.Identity, ghost before: seq<Event>)
    returns (more: bool, ghost turn: seq<Event>)
    requires ValidSite(site) && AllLongEnough(client.incoming) && WellSized(client.incoming)
    requires !client.fatal && client.keepalive && After(FRESH, before).safe && After(FRESH, before).open
    modifies client`incoming, client`keepalive, client`fatal, client`trace
    ensures client.trace == old(client.trace) + turn && IsTurn(site, who, old(client.incoming), turn)
    ensures client.incoming == InputAfter(old(client.incoming)) && WellSized(client.incoming)
    ensures AllAuthorised(site, who, turn)
    ensures After(FRESH, before + turn).safe && After(FRESH, before + turn).open == more
    ensures more ==> client.keepalive && !client.fatal && |client.incoming| < |old(client.incoming)|
  {
    hide ErrorText, Assemble, ReactsTo, IsTurn, WellSized, HasCount, AllAuthorised, After, AllLongEnough;
    ghost var input := client.incoming;
    WellSizedNext(input);
    var r;
    ghost var reply;
    r, reply := client.ReadToken();
    ReadStep(before, r, reply);
    if r.ReadFailed? {
      turn := [Received(r)] + reply;
      assert before + turn == before + [Received(r)] + reply;
      FailedTurn(site, who, input, r.closed, reply);
      Unstarted(site, who, turn);
      return false, turn;
    }
    var result;
    ghost var handled;
    result, handled := HandleToken(client, site, who, r.data);
    turn := [Received(r)] + handled;
    assert before + turn == before + [Received(r)] + handled;
    AfterAppend(FRESH, before + [Received(r)], handled);
    TokenTurn(site, who, input, r.data, handled);
    Unstarted(site, who, [Received(r)]);
    AuthorisedAppend(site, who, [Received(r)], handled);
    more := result && client.keepalive;
  }

  /**
   * `server_v2_handle_messages`: a whole connection, turn by turn.  No token is read after the connection
   * was closed by QUIT, a failed read or send, an abandoned command or a command without keep-alive; the
   * server stops for no other reason; and every program it starts is authorised.
   */
  method HandleMessages(client: Client, site: Site, who: Acl.Identity) returns (ghost turns: seq<seq<Event>>)
    requires ValidSite(site) && AllLongEnough(client.incoming) && WellSized(client.incoming) && !client.fatal
    modifies client`incoming, client`keepalive, client`fatal, client`trace
    ensures client.trace == old(client.trace) + AllEvents(turns)
    ensures Conversation(site, who, old(client.incoming), turns, client.incoming)
    ensures AllAuthorised(site, who, AllEvents(turns))
    ensures After(FRESH, AllEvents(turns)).safe && !After(FRESH, AllEvents(turns)).open
  {
    hide ErrorText, IsTurn, Conversation, AllEvents, UpToFailure, WellSized, AllLongEnough, InputAfter;
    client.keepalive := true;
    turns := [];
    ghost var events := [];
    NoTurns(site, who, client.incoming);
    var more := true;
    while more
      invariant events == AllEvents(turns) && client.trace == old(client.trace) + events
      invariant AllLongEnough(client.incoming) && WellSized(client.incoming)
      invariant Conversation(site, who, old(client.incoming), turns, client.incoming)
      invariant AllAuthorised(site, who, events)
      invariant After(FRESH, events).safe && After(FRESH, events).open == more
      invariant more ==> client.keepalive && !client.fatal
      decreases more, |client.incoming|
    {
      ghost var input, turn := client.incoming, [];
      more, turn := OneTurn(client, site, who, events);
      ConversationSnoc(site, who, old(client.incoming), turns, input, turn);
      turns, events := turns + [turn], events + turn;
    }
  }
}
