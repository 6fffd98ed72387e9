/**
 * The parts put together: a command handed to a client, its tokens as octets on a stream, and the arguments
 * that the server reads from them.
 */
module Wire {
  import opened Bytes
  import opened Protocol
  import opened CommandCodec
  import opened Fragments
  import opened TokenStream
  import opened Reassembly
  import opened ServerClient
  import ClientOutput
  import ClientV1
  import ClientV2
  import Java
  import ServerV2
  import EndToEnd

  /** Command tokens on the stream; wrapping is the identity. */
  function Wrapped(tokens: seq<Data>): (ts: seq<StreamToken>)
    ensures |ts| == |tokens|
  {
    seq(|tokens|, i requires 0 <= i < |tokens| => StreamToken(ClientOutput.DATA_TOKEN_FLAGS, tokens[i]))
  }

  function Unwrapped(ts: seq<StreamToken>): (tokens: seq<Data>)
    ensures |tokens| == |ts|
  {
    seq(|ts|, i requires 0 <= i < |ts| => ts[i].data)
  }

  /** How every call of the system turns out while the i-th token is sent and received. */
  datatype Network = Network(sendTimeout: bool, sends: nat -> seq<Outcome>, recvTimeout: bool, turns: nat -> Turns)

  /** All tokens can be received. */
  ghost predicate LetsThrough(net: Network, tokens: seq<Data>)
  {
    forall i :: 0 <= i < |tokens| ==> AllReadsThrough(net.recvTimeout, net.turns(i), |tokens[i]|)
  }

  /** Sends tokens as octets and receives tokens from those octets; `sent` says whether all went out. */
  method Carry(net: Network, tokens: seq<Data>) returns (sent: bool, arrived: seq<Data>)
    requires forall token :: token in tokens ==> |token| <= TOKEN_MAX_LENGTH
    ensures arrived <= tokens
    ensures arrived == tokens <==> sent && LetsThrough(net, tokens)
    ensures net.sendTimeout ==>
      (sent <==> forall i :: 0 <= i < |tokens| ==> Moves(net.sends(i), 5 + |tokens[i]|, false))
  {
    hide AllReadsThrough, Moves;
    var ts, n := Wrapped(tokens), |tokens|;
    var schedules := seq(n, i requires 0 <= i < n => net.sends(i));
    var turns := seq(n, i requires 0 <= i < n => net.turns(i));
    assert forall t :: t in ts ==> t.data in tokens;
    var done, got := Transfer(ts, TOKEN_MAX_LENGTH, net.sendTimeout, schedules, net.recvTimeout, turns);
    sent, arrived := done == n, Unwrapped(got);
    assert forall i :: 0 <= i < n ==> schedules[i] == net.sends(i) && |ts[i].data| == |tokens[i]|;
    assert forall i :: 0 <= i < |got| ==> got[i] == ts[i];
    assert arrived == tokens <==> got == ts;
  }

  /** What the server can take. */
  predicate WithinLimits(command: seq<Data>)
  {
    1 <= |command| <= COMMAND_MAX_ARGS && |Encode(command)| < COMMAND_MAX_DATA
  }

  /** A token with the status that a cut gives it, in front of the others. */
  predicate InCut(token: Data, others: seq<Data>, continued: bool)
    requires CommandTokens(others)
  {
    && 4 <= |token| <= TOKEN_MAX_DATA
    && token[3] == (if others == [] then if continued then 3 else 0 else if continued then 2 else 1)
    && forall i :: 0 <= i < |others| ==> others[i][3] == if i < |others| - 1 then 2 else 3
  }

  lemma CutRefusal(token: Data, others: seq<Data>, continued: bool, total: nat)
    requires CommandTokens(others) && InCut(token, others, continued) && total < COMMAND_MAX_DATA
    ensures Refusal(token, continued, total) ==
            if total + |token| - 4 < COMMAND_MAX_DATA then None else Some(TooMuchData)
  {
  }

  /** A cut is completed by its last token, or refused because it is too large. */
  lemma {:induction false} WholeOrTooMuch(token: Data, others: seq<Data>, continued: bool, buffer: Data)
    requires CommandTokens(others) && InCut(token, others, continued) && |buffer| < COMMAND_MAX_DATA
    ensures AllLongEnough(Tokens(others))
    ensures var a := Assemble(token, Tokens(others), continued, buffer);
            var payload := buffer + (token[4..] + Payload(others));
            if |payload| < COMMAND_MAX_DATA then a == Complete(payload, Last(token, others), [])
            else a.Refused? && a.code == TooMuchData
    decreases |others|
  {
    CutRefusal(token, others, continued, |buffer|);
    hide Refusal, Assemble;
    AllLongEnoughTokens(others, []);
    assert Tokens(others) + [] == Tokens(others);
    if Refusal(token, continued, |buffer|).Some? {
      AssembleRefused(token, Tokens(others), continued, buffer);
    } else if others == [] {
      assert token[4..] + Payload(others) == token[4..];
      AssembleLast(token, Tokens(others), continued, buffer);
    } else {
      var next, more := others[0], others[1..];
      var longer := buffer + token[4..];
      InputSplit(others, []);
      assert Tokens(more) + [] == Tokens(more);
      WholeOrTooMuch(next, more, true, longer);
      AssembleStep(token, next, Tokens(more), continued, buffer);
      ConcatAssociative(buffer, token[4..], Payload(others));
    }
  }

  lemma AssembleRefused(token: Data, input: seq<ReadResult>, continued: bool, buffer: Data)
    requires |token| >= 4 && AllLongEnough(input) && |buffer| < COMMAND_MAX_DATA
    requires Refusal(token, continued, |buffer|).Some?
    ensures Assemble(token, input, continued, buffer)
         == Refused(Refusal(token, continued, |buffer|).value, token, input)
  {
  }

  /** What the server makes of a command, of any size and number of arguments. */
  function Reading(command: seq<Data>): (r: Parsed)
    ensures WithinLimits(command) <==> r.Command?
    ensures r.Command? ==> r.argv == command
  {
    if |Encode(command)| >= COMMAND_MAX_DATA then Malformed(TooMuchData)
    else if command == [] then Malformed(UnknownCommand)
    else if |command| > COMMAND_MAX_ARGS then Malformed(TooManyArgs)
    else Command(command)
  }

  /** The server's reading of a cut, exactly: the command if it is within the limits, and otherwise which error. */
  lemma CutExactly(command: seq<Data>, tokens: seq<Data>, keepalive: byte)
    requires IsCut(tokens, keepalive, Encode(command)) && |command| < UINT32_LIMIT && Fits(command)
    ensures tokens != [] && AllLongEnough(Tokens(tokens[1..])) && |tokens[0]| >= 4
    ensures var a := Assemble(tokens[0], Tokens(tokens[1..]), false, []);
            if |Encode(command)| >= COMMAND_MAX_DATA then a.Refused? && Reading(command) == Malformed(a.code)
            else a.Complete? && a.payload == Encode(command) && ParseCommand(a.payload) == Reading(command)
  {
    hide Assemble, Encode, ParseCommand;
    WholeOrTooMuch(tokens[0], tokens[1..], false, []);
    assert Payload(tokens) == tokens[0][4..] + Payload(tokens[1..]);
    assert [] + Payload(tokens) == Payload(tokens);
    if |Encode(command)| < COMMAND_MAX_DATA {
      ParseReading(command);
    }
  }

  lemma ParseReading(command: seq<Data>)
    requires |command| < UINT32_LIMIT && Fits(command) && |Encode(command)| < COMMAND_MAX_DATA
    ensures ParseCommand(Encode(command)) == Reading(command)
  {
    var payload := Encode(command);
    ParserExact(payload, command);
    DecodeEncodeU32(|command|);
    hide U32, OfU32;
    assert payload[..4] == U32(|command|);
  }

  /** The server's side for one command: reassembly, then the parser. */
  method ServerReads(tokens: seq<Data>, ghost command: seq<Data>, ghost keepalive: byte)
    returns (argv: Option<seq<Data>>)
    requires IsCut(tokens, keepalive, Encode(command)) && |command| < UINT32_LIMIT && Fits(command)
    ensures argv == if WithinLimits(command) then Some(command) else None
  {
    hide Assemble, Encode, ParseCommand, IsCut, Refusal;
    CutExactly(command, tokens, keepalive);
    var client := new Client(Tokens(tokens[1..]));
    var payload, result, abandoned;
    ghost var received, reply;
    payload, result, abandoned, received, reply := ServerV2.Reassemble(client, tokens[0]);
    if payload.None? {
      return None;
    }
    argv, reply := ServerV2.ServerParseCommand(client, payload.value);
  }

  lemma FirstToken(tokens: seq<Data>, keepalive: byte, payload: Data)
    requires IsCut(tokens, keepalive, payload)
    ensures tokens != [] && |tokens[0]| >= 4
    ensures forall token :: token in tokens ==> |token| <= TOKEN_MAX_LENGTH
  {
  }

  /**
   * A command handed to the C client, cut, carried as octets, reassembled and parsed.  If the client succeeds
   * and the network lets everything through, the server gets exactly the command if it is within the limits;
   * in all other cases it gets nothing.
   */
  method CommandOverTheWire(net: Network, command: seq<Data>)
    returns (sent: bool, ghost tokens: seq<Data>, argv: Option<seq<Data>>)
    ensures sent ==> IsCut(tokens, 1, Encode(command)) && Fits(command)
    ensures argv == if sent && LetsThrough(net, tokens) && WithinLimits(command) then Some(command) else None
  {
    hide Encode, IsCut, LetsThrough, WithinLimits;
    var r := new ClientV2.Remctl();
    var ok := r.CommandV(command);
    if !ok {
      return false, [], None;
    }
    tokens := r.sent;
    assert r.sent[0..] == r.sent;
    FirstToken(r.sent, 1, Encode(command));
    var arrived;
    sent, arrived := Carry(net, r.sent);
    if |arrived| < |r.sent| {
      return sent, tokens, None;
    }
    assert arrived == r.sent;
    argv := ServerReads(arrived, command, 1);
  }

  /** Whichever of the clients succeeds, the server reads the same arguments. */
  method ClientsAgree(command: seq<Data>, keepalive: bool)
    returns (v1: Option<Option<seq<Data>>>, v2: Option<Option<seq<Data>>>, java: Option<Option<seq<Data>>>)
    ensures v2.Some? ==> v2.value == if WithinLimits(command) then Some(command) else None
    ensures java.Some? ==> java.value == if WithinLimits(command) then Some(command) else None
    ensures v1.Some? ==> v1.value == if WithinLimits(command) then Some(command) else None
    ensures v1.Some? ==> |Encode(command)| <= TOKEN_MAX_DATA
    ensures java.Some? <==> |command| < UINT32_LIMIT && |Java.Message(command, keepalive)| < 0x8000_0000
  {
    hide Encode, IsCut, ParseCommand;
    v1, v2, java := None, None, None;
    var r := new ClientV2.Remctl();
    var ok := r.CommandV(command);
    if ok {
      assert r.sent[0..] == r.sent;
      var argv := ServerReads(r.sent, command, 1);
      v2 := Some(argv);
    }
    if |command| < UINT32_LIMIT && |Java.Message(command, keepalive)| < 0x8000_0000 {
      ShortArguments(command, keepalive);
      var j := new Java.RemctlClient();
      j.ProcessRequest(command, keepalive);
      assert j.sent[0..] == j.sent;
      var argv := ServerReads(j.sent, command, if keepalive then 1 else 0);
      java := Some(argv);
    }
    var q := new ClientV2.Remctl();
    ok := ClientV1.CommandV(q, command);
    if ok {
      ParseReading(command);
      var client := new Client([]);
      var argv;
      ghost var reply;
      argv, reply := ServerV2.ServerParseCommand(client, q.sent[0]);
      v1 := Some(argv);
    }
  }

  lemma ShortArguments(command: seq<Data>, keepalive: bool)
    requires |Java.Message(command, keepalive)| < 0x8000_0000
    ensures Fits(command)
  {
    ArgumentsFit(command, 0x8000_0000);
  }

  lemma {:induction false} ArgumentsFit(args: seq<Data>, limit: nat)
    requires |EncodeArgs(args)| < limit <= UINT32_LIMIT
    ensures Fits(args)
  {
    if args != [] {
      ArgumentsFit(args[1..], limit);
      assert forall i :: 0 < i < |args| ==> args[i] == args[1..][i - 1];
    }
  }
}
