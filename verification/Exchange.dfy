/** Whole exchanges over octets: commands to the server and replies back to the client. */
module Exchange {
  import opened Bytes
  import opened Protocol
  import opened CommandCodec
  import opened Fragments
  import opened Reassembly
  import opened ServerClient
  import opened Commands
  import opened RunCommand
  import opened Wire
  import opened Session
  import RunTheorems
  import TokenStream
  import ServerV2
  import ClientV2
  import ClientOutput
  import EndToEnd
  import Monitor
  import Acl

  // Replies.

  /** The server's decision on a command of any size. */
  ghost function Answer(site: Site, who: Acl.Identity, command: seq<Data>): (d: Decision)
    requires ValidSite(site) && (WithinLimits(command) ==> SingleReply(site, command))
  {
    match Reading(command)
    case Malformed(code) => Refuse(code)
    case Command(argv) => Verdict(site, who, command)
  }

  /** The tokens of the reply to a decision. */
  function ReplyTokens(d: Decision, run: Run): (tokens: seq<Data>)
  {
    RunTheorems.OutputTokens(RunTheorems.Output(d, run)) + [RunTheorems.LastToken(d, run)]
  }

  /** What the server does with a whole cut: the reply to its decision, up to the first send that fails. */
  lemma CutAnswered(site: Site, who: Acl.Identity, command: seq<Data>, tokens: seq<Data>, keepalive: byte,
                    events: seq<Event>, reply: seq<Event>, run: Run)
    requires ValidSite(site) && (WithinLimits(command) ==> SingleReply(site, command))
    requires IsCut(tokens, keepalive, Encode(command)) && |command| < UINT32_LIMIT && Fits(command)
    requires |tokens[0]| >= 4 && AllLongEnough(Tokens(tokens[1..]))
    requires ServerV2.HasCount(Assemble(tokens[0], Tokens(tokens[1..]), false, []))
    requires ServerV2.Handled(site, who, Assemble(tokens[0], Tokens(tokens[1..]), false, []),
                              AssembleReads(tokens[0], Tokens(tokens[1..]), false, []), events, reply, run)
    ensures var d := Answer(site, who, command);
            && (d.Execute? ==> ValidRun(run))
            && UpToFailure(reply, Expected(site.sudo, d, run), SendFailed in reply)
            && Sends(events) == Sends(reply) && (SendFailed in events <==> SendFailed in reply)
  {
    hide Assemble, AssembleReads, Encode, ParseCommand, IsCut, Verdict, ErrorToken, UpToFailure, HelpBranch, ExitStatus;
    CutExactly(command, tokens, keepalive);
    var a := Assemble(tokens[0], Tokens(tokens[1..]), false, []);
    var taken := AssembleReads(tokens[0], Tokens(tokens[1..]), false, []);
    SendsAround(ServerV2.ReadEvents(taken), reply, CommandDone);
    match Reading(command) {
      case Malformed(code) =>
        assert Expected(site.sudo, Refuse(code), run) == [Sent(ErrorToken(code))];
        if a.Complete? {
          OneSend(reply, Sent(ErrorToken(code)));
        }
      case Command(argv) =>
        SingleAnswer(site, who, command, reply, run);
    }
  }

  lemma OneSend(reply: seq<Event>, expected: Event)
    requires expected.Sent? && (reply == [expected] || reply == [SendFailed])
    ensures UpToFailure(reply, [expected], SendFailed in reply)
  {
    assert [expected][..0] + [SendFailed] == [SendFailed];
  }

  /** The tokens sent. */
  function Sends(events: seq<Event>): seq<Data>
  {
    RunTheorems.Replies(events)
  }

  lemma SendsAround(received: seq<Event>, reply: seq<Event>, last: Event)
    requires (forall e :: e in received ==> e.Received?) && last.CommandDone?
    ensures Sends(received + reply + [last]) == Sends(reply)
    ensures SendFailed in received + reply + [last] <==> SendFailed in reply
  {
    RepliesOfReads(received);
    RunTheorems.RepliesAppend(received + reply, [last]);
    RunTheorems.RepliesAppend(received, reply);
    assert [last][1..] == [] && Sends([last]) == [];
    assert [] + Sends(reply) == Sends(reply) && Sends(reply) + [] == Sends(reply);
  }

  /** The tokens that went out are those of the reply if no send failed, and otherwise fewer of them. */
  lemma SendsOfReply(sudo: Data, d: Decision, run: Run, reply: seq<Event>)
    requires d.Execute? ==> ValidRun(run)
    requires UpToFailure(reply, Expected(sudo, d, run), SendFailed in reply)
    ensures Sends(reply) <= ReplyTokens(d, run)
    ensures Sends(reply) == ReplyTokens(d, run) <==> SendFailed !in reply
    ensures forall token :: token in Sends(reply) ==> |token| <= TOKEN_MAX_LENGTH
  {
    var expected := Expected(sudo, d, run);
    RunTheorems.ResponseShape(sudo, d, run);
    SmallTokens(d, run);
    hide Expected, RunTheorems.LastToken, RunTheorems.Output, RunTheorems.OutputTokens, ErrorToken;
    assert Sends(expected) == ReplyTokens(d, run);
    hide ReplyTokens, Sends;
    if SendFailed in reply {
      var k :| 0 <= k < |expected| && expected[k].Sent? && reply == expected[..k] + [SendFailed];
      CutShort(expected, k);
    }
    assert Sends(reply) <= ReplyTokens(d, run);
  }

  lemma SmallTokens(d: Decision, run: Run)
    requires d.Execute? ==> ValidRun(run)
    ensures forall token :: token in ReplyTokens(d, run) ==> |token| <= TOKEN_MAX_LENGTH
  {
  }

  lemma CutShort(expected: seq<Event>, k: nat)
    requires k < |expected| && expected[k].Sent?
    ensures Sends(expected[..k] + [SendFailed]) < Sends(expected)
  {
    var head, tail := expected[..k], expected[k + 1..];
    assert expected == head + ([expected[k]] + tail);
    RunTheorems.RepliesAppend(head, [expected[k]] + tail);
    assert ([expected[k]] + tail)[1..] == tail;
    RunTheorems.RepliesAppend(head, [SendFailed]);
    assert [SendFailed][1..] == [] && Sends([SendFailed]) == [];
  }

  /** Collecting a reply that breaks off before its last token fails. */
  lemma {:induction false} CollectChunks(chunks: seq<Chunk>, result: ClientOutput.Result)
    requires EndToEnd.ValidChunks(chunks)
    ensures ClientOutput.Collect(ClientOutput.State(true, EndToEnd.Deliver(RunTheorems.OutputTokens(chunks))), result)
         == None
    decreases |chunks|
  {
    hide OutputToken, ClientOutput.Decode;
    var tokens := RunTheorems.OutputTokens(chunks);
    if chunks != [] {
      EndToEnd.DecodeOutput(chunks[0].stream, chunks[0].data);
      assert tokens[1..] == RunTheorems.OutputTokens(chunks[1..]);
      assert EndToEnd.Deliver(tokens)[1..] == EndToEnd.Deliver(tokens[1..]);
      var first := ClientOutput.OutputChunk(chunks[0].stream, chunks[0].data);
      CollectChunks(chunks[1..], ClientOutput.Append(result, first));
    }
  }

  lemma CollectBrokenOff(d: Decision, run: Run, got: seq<Data>)
    requires (d.Execute? ==> ValidRun(run)) && got < ReplyTokens(d, run)
    ensures ClientOutput.Collect(ClientOutput.State(true, EndToEnd.Deliver(got)), ClientOutput.EMPTY_RESULT) == None
  {
    var chunks := RunTheorems.Output(d, run)[..|got|];
    assert got == RunTheorems.OutputTokens(chunks);
    CollectChunks(chunks, ClientOutput.EMPTY_RESULT);
  }

  lemma CollectWhole(d: Decision, run: Run)
    requires d.Execute? ==> ValidRun(run)
    ensures ClientOutput.Collect(ClientOutput.State(true, EndToEnd.Deliver(ReplyTokens(d, run))),
                                 ClientOutput.EMPTY_RESULT)
         == Some(EndToEnd.Outcome(d, run))
  {
    EndToEnd.CollectReply(d, run, RunTheorems.Output(d, run), [], ClientOutput.EMPTY_RESULT);
    hide ClientOutput.Collect, RunTheorems.LastToken, EndToEnd.Outcome;
    EndToEnd.OutcomeIs(d, run);
    assert EndToEnd.Deliver(ReplyTokens(d, run)) + [] == EndToEnd.Deliver(ReplyTokens(d, run));
  }

  /** How far an exchange got: the command reached the server, the whole reply was sent, the whole reply came back. */
  datatype Stage = Stage(reached: bool, answered: bool, returned: bool)

  /**
   * One command and its reply over octets.  The client gets the outcome of the server's decision on exactly its
   * command if everything got through, and an error in all other cases.
   */
  method CommandAndReply(there: Network, back: Network, site: Site, who: Acl.Identity, command: seq<Data>)
    returns (stage: Stage, sent: bool, ghost tokens: seq<Data>, ghost reply: seq<Event>, sentBack: bool, ghost run: Run,
             result: Option<ClientOutput.Result>)
    requires ValidSite(site) && (WithinLimits(command) ==> SingleReply(site, command))
    ensures sent ==> IsCut(tokens, 1, Encode(command)) && Fits(command)
    ensures stage.reached <==> sent && LetsThrough(there, tokens)
    ensures stage.reached ==>
      && UpToFailure(reply, Expected(site.sudo, Answer(site, who, command), run), !stage.answered)
      && (stage.answered <==> SendFailed !in reply)
      && (stage.returned <==> sentBack && LetsThrough(back, Sends(reply)))
    ensures result == if stage == Stage(true, true, true) then Some(EndToEnd.Outcome(Answer(site, who, command), run))
                      else None
  {
    hide Encode, IsCut, LetsThrough, WithinLimits, Answer, ReplyTokens, EndToEnd.Outcome, Assemble, AssembleReads,
      ServerV2.Handled, UpToFailure, Expected, ClientOutput.Collect, SingleReply, Sends;
    stage, sent, tokens, reply := Stage(false, false, false), false, [], [];
    sentBack, run, result := false, Run(true, [], Exited(0)), None;
    var r := new ClientV2.Remctl();
    var ok := r.CommandV(command);
    if !ok {
      return;
    }
    tokens := r.sent;
    assert r.sent[0..] == r.sent;
    FirstToken(r.sent, 1, Encode(command));
    var arrived;
    sent, arrived := Carry(there, r.sent);
    if |arrived| < |r.sent| {
      return;
    }
    assert arrived == r.sent;
    CutExactly(command, arrived, 1);
    var server := new Client(Tokens(arrived[1..]));
    var more;
    ghost var events;
    more, events, reply, run := ServerV2.HandleCommand(server, site, who, arrived[0]);
    CutAnswered(site, who, command, arrived, 1, events, reply, run);
    ghost var d := Answer(site, who, command);
    SendsOfReply(site.sudo, d, run, reply);
    assert server.trace == events;
    var sends := Sends(server.trace);
    var got;
    sentBack, got := Carry(back, sends);
    stage := Stage(true, SendFailed !in server.trace, |got| == |sends|);
    var client := new ClientOutput.Remctl(true, EndToEnd.Deliver(got));
    result := client.CollectAll();
    if stage == Stage(true, true, true) {
      CollectWhole(d, run);
    } else {
      CollectBrokenOff(d, run, got);
    }
  }

  // Several commands.

  /** The tokens of all the requests. */
  function AllTokens(requests: seq<Request>): seq<Data>
  {
    if requests == [] then [] else requests[0].tokens + AllTokens(requests[1..])
  }

  lemma {:induction false} AllTokensInput(requests: seq<Request>)
    ensures Tokens(AllTokens(requests)) == SessionInput(requests, [])
  {
    if requests != [] {
      AllTokensInput(requests[1..]);
      var first, later := requests[0].tokens, AllTokens(requests[1..]);
      assert Tokens(first + later) == Tokens(first) + Tokens(later);
    }
  }

  lemma {:induction false} AllTokensSmall(site: Site, requests: seq<Request>)
    requires ValidRequests(site, requests)
    ensures forall token :: token in AllTokens(requests) ==> |token| <= TOKEN_MAX_LENGTH
  {
    if requests != [] {
      AllTokensSmall(site, requests[1..]);
      assert forall i :: 0 <= i < |requests[1..]| ==> requests[1..][i] == requests[i + 1];
      assert ValidRequest(site, requests[0]);
      FirstToken(requests[0].tokens, requests[0].keepalive, Encode(requests[0].command));
    }
  }

  /** The turns after those of the requests are a conversation on what follows. */
  lemma {:induction false} TurnsAfterRequests(site: Site, who: Acl.Identity, requests: seq<Request>,
                                              turns: seq<seq<Event>>, now: seq<ReadResult>)
    requires ValidSite(site) && ValidRequests(site, requests) && |requests| <= |turns|
    requires AllLongEnough(SessionInput(requests, [])) && ServerV2.WellSized(SessionInput(requests, []))
    requires ServerV2.Conversation(site, who, SessionInput(requests, []), turns, now)
    ensures ServerV2.Conversation(site, who, [], turns[|requests|..], now)
    decreases |requests|
  {
    if requests == [] {
      assert turns[0..] == turns;
    } else {
      var more := requests[1..];
      hide ServerV2.IsTurn, ServerV2.InputAfter, ValidRequest, ServerV2.WellSized;
      SessionInputFollows(site, more);
      FirstRequestOf(site, requests[0], SessionInput(more, []));
      TurnsAfterRequests(site, who, more, turns[1..], now);
      assert turns[1..][|more|..] == turns[|requests|..];
    }
  }

  lemma SessionInputFollows(site: Site, requests: seq<Request>)
    requires ValidRequests(site, requests)
    ensures AllLongEnough(SessionInput(requests, [])) && ServerV2.WellSized(SessionInput(requests, []))
  {
    SessionInputValid(site, requests, []);
  }

  /** When nothing is left to read, nothing is sent. */
  lemma {:induction false} NothingSent(site: Site, who: Acl.Identity, turns: seq<seq<Event>>, now: seq<ReadResult>)
    requires ValidSite(site) && ServerV2.WellSized([]) && ServerV2.Conversation(site, who, [], turns, now)
    ensures Sends(AllEvents(turns)) == []
    decreases |turns|
  {
    if turns != [] {
      var turn := turns[0];
      assert turn[1..] == [] by { NoReply(turn[1..]); }
      assert turn[0].Received? && turn == [turn[0]] && Sends(turn[1..]) == [];
      NothingSent(site, who, turns[1..], now);
      RunTheorems.RepliesAppend(turn, AllEvents(turns[1..]));
    }
  }

  lemma NoReply(reply: seq<Event>)
    requires ServerV2.Replied(reply, [])
    ensures reply == []
  {
  }

  /** What the server sends in the turns of the requests is small. */
  lemma {:induction false} SessionSends(site: Site, who: Acl.Identity, requests: seq<Request>, turns: seq<seq<Event>>,
                                        runs: seq<Run>)
    requires ValidSite(site) && |runs| == |requests| <= |turns| && Answerable(site, requests)
    requires forall i :: 0 <= i < |runs| ==>
      ValidRun(runs[i]) && turns[i] == TurnEvents(site, who, requests[i], runs[i])
    requires Sends(AllEvents(turns[|requests|..])) == []
    ensures forall token :: token in Sends(AllEvents(turns)) ==> |token| <= TOKEN_MAX_LENGTH
    decreases |requests|
  {
    if requests == [] {
      assert turns[0..] == turns;
    } else {
      var d := Verdict(site, who, requests[0].command);
      RepliesOfTurn(site, who, requests[0], runs[0]);
      SmallTokens(d, runs[0]);
      hide TurnEvents, Verdict, RunTheorems.LastToken;
      assert turns[1..][|requests[1..]|..] == turns[|requests|..];
      SessionSends(site, who, requests[1..], turns[1..], runs[1..]);
      RunTheorems.RepliesAppend(turns[0], AllEvents(turns[1..]));
      assert Sends(turns[0]) == ReplyTokens(d, runs[0]);
    }
  }

  /** Collects the outputs of n commands, one after the other. */
  method CollectRounds(input: seq<ClientOutput.Incoming>, n: nat) returns (results: seq<Option<ClientOutput.Result>>)
    ensures results == Rounds(input, n)
  {
    results := [];
    var left := input;
    for i := 0 to n
      invariant Rounds(input, n) == results + Rounds(left, n - i)
    {
      var client := new ClientOutput.Remctl(true, left);
      var result := client.CollectAll();
      results := results + [result];
      left := client.input;
    }
  }

  /** What a connection that serves requests without a failed send gives the client. */
  lemma SessionReplies(site: Site, who: Acl.Identity, requests: seq<Request>, turns: seq<seq<Event>>,
                       now: seq<ReadResult>) returns (runs: seq<Run>)
    requires ValidSite(site) && ValidRequests(site, requests) && Answerable(site, requests)
    requires AllLongEnough(SessionInput(requests, [])) && ServerV2.WellSized(SessionInput(requests, []))
    requires ServerV2.Conversation(site, who, SessionInput(requests, []), turns, now)
    requires SendFailed !in AllEvents(turns) && !Monitor.After(Monitor.FRESH, AllEvents(turns)).open
    ensures |runs| == |requests| && forall i :: 0 <= i < |runs| ==> ValidRun(runs[i])
    ensures forall token :: token in Sends(AllEvents(turns)) ==> |token| <= TOKEN_MAX_LENGTH
    ensures Rounds(EndToEnd.Deliver(Sends(AllEvents(turns))), |requests|) == Outcomes(site, who, requests, runs)
  {
    assert AllLongEnough([]) && ServerV2.WellSized([]);
    hide ServerV2.Conversation, AllEvents, ServerV2.WellSized, AllLongEnough, TurnEvents, Rounds, Outcomes;
    hide ValidRequest,
      Monitor.After;
    runs := TurnsOfRequests(site, who, requests, [], turns, now, Monitor.FRESH);
    TurnsAfterRequests(site, who, requests, turns, now);
    NothingSent(site, who, turns[|requests|..], now);
    SessionSends(site, who, requests, turns, runs);
    RoundsOfTurns(site, who, requests, turns, runs);
  }

  /** Turns that the connection loop can take on the requests. */
  ghost predicate IsSession(site: Site, who: Acl.Identity, requests: seq<Request>, turns: seq<seq<Event>>,
                            now: seq<ReadResult>)
    requires ValidSite(site) && ValidRequests(site, requests)
  {
    SessionInputFollows(site, requests);
    ServerV2.Conversation(site, who, SessionInput(requests, []), turns, now)
    && !Monitor.After(Monitor.FRESH, AllEvents(turns)).open
  }

  /** The server's part: the tokens it sends while it serves the requests, if no send fails. */
  method Serve(site: Site, who: Acl.Identity, requests: seq<Request>, arrived: seq<Data>)
    returns (sends: Option<seq<Data>>, ghost turns: seq<seq<Event>>, ghost now: seq<ReadResult>, ghost runs: seq<Run>)
    requires ValidSite(site) && ValidRequests(site, requests) && Answerable(site, requests)
    requires arrived == AllTokens(requests)
    ensures IsSession(site, who, requests, turns, now)
    ensures sends == if SendFailed in AllEvents(turns) then None else Some(Sends(AllEvents(turns)))
    ensures sends.Some? ==>
      && |runs| == |requests| && (forall i :: 0 <= i < |runs| ==> ValidRun(runs[i]))
      && (forall token :: token in sends.value ==> |token| <= TOKEN_MAX_LENGTH)
      && Rounds(EndToEnd.Deliver(sends.value), |requests|) == Outcomes(site, who, requests, runs)
  {
    hide ServerV2.Conversation, AllEvents, ServerV2.WellSized, AllLongEnough, Sends, Rounds, Outcomes, ValidRequest,
      Monitor.After, ServerV2.AllAuthorised;
    AllTokensInput(requests);
    SessionInputFollows(site, requests);
    var server := new Client(Tokens(arrived));
    turns := ServerV2.HandleMessages(server, site, who);
    now := server.incoming;
    assert server.trace == AllEvents(turns);
    sends, runs := None, [];
    if SendFailed !in server.trace {
      runs := SessionReplies(site, who, requests, turns, server.incoming);
      sends := Some(Sends(server.trace));
    }
  }

  /**
   * Any number of commands on one connection, and their replies, over octets: if everything gets through, the
   * client gets the outcomes of the server's decisions on exactly these commands, in order.
   */
  method SessionOverTheWire(there: Network, back: Network, site: Site, who: Acl.Identity, requests: seq<Request>)
    returns (stage: Stage, sent: bool, ghost turns: seq<seq<Event>>, ghost now: seq<ReadResult>, sentBack: bool,
             ghost runs: seq<Run>, results: Option<seq<Option<ClientOutput.Result>>>)
    requires ValidSite(site) && ValidRequests(site, requests) && Answerable(site, requests)
    ensures stage.reached <==> sent && LetsThrough(there, AllTokens(requests))
    ensures stage.reached ==>
      IsSession(site, who, requests, turns, now) && (stage.answered <==> SendFailed !in AllEvents(turns))
    ensures stage.reached && stage.answered ==>
      (stage.returned <==> sentBack && LetsThrough(back, Sends(AllEvents(turns))))
    ensures results.Some? <==> stage == Stage(true, true, true)
    ensures results.Some? ==> |runs| == |requests| && (forall i :: 0 <= i < |runs| ==> ValidRun(runs[i]))
                              && results.value == Outcomes(site, who, requests, runs)
  {
    hide LetsThrough, Rounds, Outcomes, ValidRequest, IsSession, AllEvents, Sends;
    stage, sent, turns, now := Stage(false, false, false), false, [], [];
    sentBack, runs, results := false, [], None;
    AllTokensSmall(site, requests);
    var all := AllTokens(requests);
    var arrived;
    sent, arrived := Carry(there, all);
    if |arrived| < |all| {
      return;
    }
    assert arrived == all;
    stage := Stage(true, false, false);
    var sends;
    sends, turns, now, runs := Serve(site, who, requests, arrived);
    if sends.None? {
      return;
    }
    var got;
    sentBack, got := Carry(back, sends.value);
    stage := Stage(true, true, |got| == |sends.value|);
    if stage.returned {
      assert got == sends.value;
      var rounds := CollectRounds(EndToEnd.Deliver(got), |requests|);
      results := Some(rounds);
    }
  }
}
