/** Several commands on one connection that is kept alive. */
module Session {
  import opened Bytes
  import opened Protocol
  import opened CommandCodec
  import opened Fragments
  import opened Reassembly
  import opened ServerClient
  import opened Commands
  import opened RunCommand
  import opened RunTheorems
  import opened Monitor
  import opened ServerV2
  import opened ClientOutput
  import EndToEnd
  import Acl

  /** A command as a client cut it. */
  datatype Request = Request(command: seq<Data>, tokens: seq<Data>, keepalive: byte)

  /** A command within the limits that is answered by one reply, cut in any way, that keeps the connection. */
  ghost predicate ValidRequest(site: Site, r: Request)
  {
    && IsCut(r.tokens, r.keepalive, Encode(r.command)) && r.keepalive != 0
    && 1 <= |r.command| <= COMMAND_MAX_ARGS && |Encode(r.command)| < COMMAND_MAX_DATA
    && SingleReply(site, r.command)
  }

  ghost predicate ValidRequests(site: Site, requests: seq<Request>)
  {
    forall i :: 0 <= i < |requests| ==> ValidRequest(site, requests[i])
  }

  predicate Answerable(site: Site, requests: seq<Request>)
  {
    forall i :: 0 <= i < |requests| ==> SingleReply(site, requests[i].command)
  }

  lemma ValidIsAnswerable(site: Site, requests: seq<Request>)
    requires ValidRequests(site, requests)
    ensures Answerable(site, requests)
  {
  }

  /** The tokens of all the requests, one after the other, and then whatever follows. */
  function SessionInput(requests: seq<Request>, rest: seq<ReadResult>): seq<ReadResult>
  {
    if requests == [] then rest else Tokens(requests[0].tokens) + SessionInput(requests[1..], rest)
  }

  // One turn.

  /** The events of a request whose reply is sent without a failure. */
  ghost function TurnEvents(site: Site, who: Acl.Identity, r: Request, run: Run): seq<Event>
    requires ValidSite(site) && SingleReply(site, r.command)
  {
    ReadEvents(Tokens(r.tokens)) + Expected(site.sudo, Verdict(site, who, r.command), run) + [CommandDone]
  }

  lemma FirstRequest(r: Request, rest: seq<ReadResult>)
    requires IsCut(r.tokens, r.keepalive, Encode(r.command)) && |Encode(r.command)| < COMMAND_MAX_DATA
    requires AllLongEnough(rest)
    ensures var input := Tokens(r.tokens) + rest;
            && AllLongEnough(input) && Next(input) == Token(r.tokens[0])
            && IsCommand(r.tokens[0]) && |r.tokens[0]| >= 4
            && Rest(input) == Tokens(r.tokens[1..]) + rest && AllLongEnough(Rest(input))
            && Assemble(r.tokens[0], Rest(input), false, [])
               == Complete(Encode(r.command), r.tokens[|r.tokens| - 1], rest)
            && AssembleReads(r.tokens[0], Rest(input), false, []) == Tokens(r.tokens[1..])
            && InputAfter(input) == rest && (WellSized(rest) ==> WellSized(input))
  {
    hide Assemble, AssembleReads;
    AllLongEnoughTokens(r.tokens, rest);
    InputSplit(r.tokens, rest);
    CutIsForgotten(r.tokens, r.keepalive, Encode(r.command), rest);
  }

  lemma TurnOfRequest(site: Site, who: Acl.Identity, r: Request, rest: seq<ReadResult>, turn: seq<Event>)
    returns (run: Run)
    requires ValidSite(site) && ValidRequest(site, r) && AllLongEnough(rest) && WellSized(rest)
    requires AllLongEnough(Tokens(r.tokens) + rest) && WellSized(Tokens(r.tokens) + rest)
    requires IsTurn(site, who, Tokens(r.tokens) + rest, turn) && SendFailed !in turn
    ensures ValidRun(run) && turn == TurnEvents(site, who, r, run)
  {
    hide Assemble, AssembleReads, Verdict, Expected, ParseCommand, Encode, WellSized, AllLongEnough, IsCut, SingleReply;
    FirstRequest(r, rest);
    EndToEnd.CommandArrives(r.command, r.tokens, r.keepalive, rest);
    var handled, done := turn[1..], Tokens(r.tokens[1..]);
    var a := Assemble(r.tokens[0], Rest(Tokens(r.tokens) + rest), false, []);
    var reply, what :| Handled(site, who, a, done, handled, reply, what);
    run := what;
    SingleAnswer(site, who, r.command, reply, run);
    assert forall e :: e in reply ==> e in handled;
    assert forall e :: e in handled ==> e in turn;
    assert Tokens(r.tokens) == [Token(r.tokens[0])] + done by { InputSplit(r.tokens, []); WholeTokens(r.tokens); }
    ReadEventsStep(Token(r.tokens[0]), done);
    assert turn == [Received(Token(r.tokens[0]))] + handled;
    EventsAssociative([Received(Token(r.tokens[0]))], ReadEvents(done), reply);
  }

  lemma WholeTokens(tokens: seq<Data>)
    requires tokens != []
    ensures Tokens(tokens) + [] == Tokens(tokens) && Tokens(tokens[1..]) + [] == Tokens(tokens[1..])
  {
  }

  lemma {:induction false} AfterTokens(m: Watch, tokens: seq<Data>)
    requires tokens != [] && CommandTokens(tokens) && m.open && m.safe
    ensures After(m, ReadEvents(Tokens(tokens))) == Watch(true, tokens[|tokens| - 1], true)
    decreases |tokens|
  {
    var n := |tokens| - 1;
    var events := ReadEvents(Tokens(tokens));
    assert events[..n] == ReadEvents(Tokens(tokens[..n]));
    assert IsCommand(tokens[n]) && events[n] == Received(Token(tokens[n]));
    if n > 0 {
      AfterTokens(m, tokens[..n]);
    }
  }

  /** A request leaves the connection open. */
  lemma AfterRequest(site: Site, who: Acl.Identity, m: Watch, r: Request, run: Run)
    requires ValidSite(site) && ValidRequest(site, r) && ValidRun(run) && m.open && m.safe
    requires SendFailed !in TurnEvents(site, who, r, run)
    ensures var n := After(m, TurnEvents(site, who, r, run)); n.open && n.safe
  {
    hide Verdict, ErrorToken, Encode, SingleReply;
    var received := ReadEvents(Tokens(r.tokens));
    var reply := Expected(site.sudo, Verdict(site, who, r.command), run);
    AfterTokens(m, r.tokens);
    assert forall e :: e in reply ==> e.Sent? || e.Started?;
    AfterAppend(m, received, reply);
    AfterReply(After(m, received), reply);
    AfterAppend(m, received + reply, [CommandDone]);
    AfterOne(After(m, received + reply), CommandDone);
  }

  // All turns.

  /**
   * On a connection that serves requests until it closes, without a failed send, the requests are served one
   * turn after the other, each by the decision on its own command.
   */
  lemma {:induction false} TurnsOfRequests(site: Site, who: Acl.Identity, requests: seq<Request>, rest: seq<ReadResult>,
                                           turns: seq<seq<Event>>, now: seq<ReadResult>, m: Watch)
    returns (runs: seq<Run>)
    requires ValidSite(site) && ValidRequests(site, requests) && AllLongEnough(rest) && WellSized(rest)
    requires AllLongEnough(SessionInput(requests, rest)) && WellSized(SessionInput(requests, rest))
    requires Conversation(site, who, SessionInput(requests, rest), turns, now)
    requires SendFailed !in AllEvents(turns) && m.open && m.safe && !After(m, AllEvents(turns)).open
    ensures |runs| == |requests| <= |turns|
    ensures forall i :: 0 <= i < |runs| ==> ValidRun(runs[i]) && turns[i] == TurnEvents(site, who, requests[i], runs[i])
    decreases |requests|
  {
    hide IsTurn, TurnEvents, WellSized, AllLongEnough, ValidRequest, InputAfter, ValidRun;
    ValidIsAnswerable(site, requests);
    runs := [];
    if requests != [] {
      assert turns != [];
      var r, more := requests[0], requests[1..];
      SessionInputValid(site, more, rest);
      var run := TurnOfRequest(site, who, r, SessionInput(more, rest), turns[0]);
      assert forall e :: e in turns[0] ==> e in AllEvents(turns);
      assert forall e :: e in AllEvents(turns[1..]) ==> e in AllEvents(turns);
      AfterRequest(site, who, m, r, run);
      AfterAppend(m, turns[0], AllEvents(turns[1..]));
      FirstRequestOf(site, r, SessionInput(more, rest));
      var others := TurnsOfRequests(site, who, more, rest, turns[1..], now, After(m, turns[0]));
      runs := [run] + others;
      forall i | 0 <= i < |runs|
        ensures ValidRun(runs[i]) && turns[i] == TurnEvents(site, who, requests[i], runs[i])
      {
        if i > 0 {
          assert runs[i] == others[i - 1] && turns[i] == turns[1..][i - 1] && requests[i] == more[i - 1];
        }
      }
    }
  }

  lemma FirstRequestOf(site: Site, r: Request, rest: seq<ReadResult>)
    requires ValidRequest(site, r) && AllLongEnough(rest)
    ensures AllLongEnough(Tokens(r.tokens) + rest) && InputAfter(Tokens(r.tokens) + rest) == rest
    ensures WellSized(rest) ==> WellSized(Tokens(r.tokens) + rest)
  {
    FirstRequest(r, rest);
  }

  lemma {:induction false} SessionInputValid(site: Site, requests: seq<Request>, rest: seq<ReadResult>)
    requires ValidRequests(site, requests) && AllLongEnough(rest) && WellSized(rest)
    ensures AllLongEnough(SessionInput(requests, rest)) && WellSized(SessionInput(requests, rest))
  {
    hide WellSized, AllLongEnough, ValidRequest;
    if requests != [] {
      SessionInputValid(site, requests[1..], rest);
      FirstRequestOf(site, requests[0], SessionInput(requests[1..], rest));
    }
  }

  // The client's side.

  /** Collecting the outputs of n commands, one command after the other. */
  function Rounds(input: seq<Incoming>, n: nat): (results: seq<Option<Result>>)
    decreases n
  {
    if n == 0 then
      []
    else
      [Collect(State(true, input), EMPTY_RESULT)] + Rounds(Leftover(State(true, input)), n - 1)
  }

  ghost function Outcomes(site: Site, who: Acl.Identity, requests: seq<Request>, runs: seq<Run>): seq<Option<Result>>
    requires ValidSite(site) && |runs| == |requests| && Answerable(site, requests)
  {
    seq(|requests|, i requires 0 <= i < |requests| =>
      Some(EndToEnd.Outcome(Verdict(site, who, requests[i].command), runs[i])))
  }

  lemma RepliesOfTurn(site: Site, who: Acl.Identity, r: Request, run: Run)
    requires ValidSite(site) && ValidRun(run) && SingleReply(site, r.command)
    ensures var d := Verdict(site, who, r.command);
            Replies(TurnEvents(site, who, r, run))
            == OutputTokens(RunTheorems.Output(d, run)) + [RunTheorems.LastToken(d, run)]
  {
    hide Expected, RunTheorems.LastToken;
    var d := Verdict(site, who, r.command);
    var received, reply := ReadEvents(Tokens(r.tokens)), Expected(site.sudo, d, run);
    RepliesOfReads(received);
    RepliesAppend(received + reply, [CommandDone]);
    RepliesAppend(received, reply);
    ResponseShape(site.sudo, d, run);
  }

  lemma {:induction false} RepliesOfReads(events: seq<Event>)
    requires forall e :: e in events ==> e.Received?
    ensures Replies(events) == []
  {
    if events != [] {
      assert events[0] in events;
      RepliesOfReads(events[1..]);
    }
  }

  lemma DeliverAppend(xs: seq<Data>, ys: seq<Data>)
    ensures EndToEnd.Deliver(xs + ys) == EndToEnd.Deliver(xs) + EndToEnd.Deliver(ys)
  {
  }

  lemma {:induction false} RoundsOfTurns(site: Site, who: Acl.Identity, requests: seq<Request>,
                                         turns: seq<seq<Event>>, runs: seq<Run>)
    requires ValidSite(site) && |runs| == |requests| <= |turns| && Answerable(site, requests)
    requires forall i :: 0 <= i < |runs| ==>
      ValidRun(runs[i]) && turns[i] == TurnEvents(site, who, requests[i], runs[i])
    ensures Rounds(EndToEnd.Deliver(Replies(AllEvents(turns))), |requests|) == Outcomes(site, who, requests, runs)
    decreases |requests|
  {
    hide Verdict, TurnEvents, RunTheorems.LastToken, EndToEnd.Outcome, Collect, Leftover;
    if requests != [] {
      var d := Verdict(site, who, requests[0].command);
      var later := AllEvents(turns[1..]);
      var after := EndToEnd.Deliver(Replies(later));
      RepliesAppend(turns[0], later);
      RepliesOfTurn(site, who, requests[0], runs[0]);
      DeliverAppend(Replies(turns[0]), Replies(later));
      EndToEnd.OutcomeIs(d, runs[0]);
      EndToEnd.CollectReply(d, runs[0], RunTheorems.Output(d, runs[0]), after, EMPTY_RESULT);
      EndToEnd.LeftoverOfReply(d, runs[0], RunTheorems.Output(d, runs[0]), after);
      RoundsOfTurns(site, who, requests[1..], turns[1..], runs[1..]);
      assert Outcomes(site, who, requests, runs)
          == [Some(EndToEnd.Outcome(d, runs[0]))] + Outcomes(site, who, requests[1..], runs[1..]);
    }
  }

  /**
   * Any number of commands on one connection, served by the connection loop until it closes and without a
   * failed send: collecting the outputs command by command gives the outcomes of the server's decisions on
   * exactly these commands, in order.
   */
  lemma WholeSession(site: Site, who: Acl.Identity, requests: seq<Request>, rest: seq<ReadResult>,
                     turns: seq<seq<Event>>, now: seq<ReadResult>) returns (runs: seq<Run>)
    requires ValidSite(site) && ValidRequests(site, requests) && AllLongEnough(rest) && WellSized(rest)
    requires AllLongEnough(SessionInput(requests, rest)) && WellSized(SessionInput(requests, rest))
    requires Conversation(site, who, SessionInput(requests, rest), turns, now)
    requires SendFailed !in AllEvents(turns) && !After(FRESH, AllEvents(turns)).open
    ensures |runs| == |requests| <= |turns| && forall i :: 0 <= i < |runs| ==> ValidRun(runs[i])
    ensures Rounds(EndToEnd.Deliver(Replies(AllEvents(turns))), |requests|) == Outcomes(site, who, requests, runs)
  {
    ValidIsAnswerable(site, requests);
    hide TurnEvents, Conversation, AllEvents, After;
    runs := TurnsOfRequests(site, who, requests, rest, turns, now, FRESH);
    RoundsOfTurns(site, who, requests, turns, runs);
  }

  /** The connection loop itself, on requests that have all arrived. */
  method ServeRequests(client: Client, site: Site, who: Acl.Identity, ghost requests: seq<Request>,
                       ghost rest: seq<ReadResult>)
    returns (ghost turns: seq<seq<Event>>, ghost runs: seq<Run>)
    requires ValidSite(site) && ValidRequests(site, requests) && AllLongEnough(rest) && WellSized(rest)
    requires client.incoming == SessionInput(requests, rest) && !client.fatal
    modifies client`incoming, client`keepalive, client`fatal, client`trace
    ensures client.trace == old(client.trace) + AllEvents(turns)
    ensures SendFailed !in AllEvents(turns) ==>
      && |runs| == |requests| && (forall i :: 0 <= i < |runs| ==> ValidRun(runs[i]))
      && Rounds(EndToEnd.Deliver(Replies(AllEvents(turns))), |requests|) == Outcomes(site, who, requests, runs)
  {
    hide Conversation, AllEvents, After, ValidRequest, WellSized, AllLongEnough, AllAuthorised;
    SessionInputValid(site, requests, rest);
    turns := HandleMessages(client, site, who);
    runs := [];
    if SendFailed !in AllEvents(turns) {
      runs := WholeSession(site, who, requests, rest, turns, client.incoming);
    }
  }
}
