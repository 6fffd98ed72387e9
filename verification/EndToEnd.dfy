/** A command from the client through the server to its program, and the output back to the client. */
module EndToEnd {
  import opened Bytes
  import opened Protocol
  import opened CommandCodec
  import opened Fragments
  import opened Reassembly
  import opened ServerClient
  import opened Commands
  import opened RunCommand
  import opened RunTheorems
  import ServerV2
  import ClientV2
  import opened ClientOutput
  import Acl

  // The way there.

  /** Any cut of a command within the server's limits is read and parsed as exactly that command. */
  lemma CommandArrives(command: seq<Data>, tokens: seq<Data>, keepalive: byte, rest: seq<ReadResult>)
    requires IsCut(tokens, keepalive, Encode(command)) && AllLongEnough(rest)
    requires 1 <= |command| <= COMMAND_MAX_ARGS && |Encode(command)| < COMMAND_MAX_DATA
    ensures AllLongEnough(Tokens(tokens[1..]) + rest)
    ensures Assemble(tokens[0], Tokens(tokens[1..]) + rest, false, [])
         == Complete(Encode(command), tokens[|tokens| - 1], rest)
    ensures ParseCommand(Encode(command)) == Command(command)
  {
    CutIsForgotten(tokens, keepalive, Encode(command), rest);
    ArgumentsFit(command);
    ParserExact(Encode(command), command);
  }

  lemma {:induction false} ArgumentsFit(args: seq<Data>)
    requires |EncodeArgs(args)| < COMMAND_MAX_DATA
    ensures Fits(args)
  {
    if args != [] {
      ArgumentsFit(args[1..]);
      assert forall i :: 0 < i < |args| ==> args[i] == args[1..][i - 1];
    }
  }

  /** What the C client sends is such a cut, so the round trip holds for `internal_v2_commandv`. */
  lemma ClientV2Arrives(command: seq<Data>, tokens: seq<Data>, rest: seq<ReadResult>)
    requires ClientV2.SentWhole(command, tokens) && AllLongEnough(rest)
    requires 1 <= |command| <= COMMAND_MAX_ARGS && |Encode(command)| < COMMAND_MAX_DATA
    ensures AllLongEnough(Tokens(tokens[1..]) + rest)
    ensures Assemble(tokens[0], Tokens(tokens[1..]) + rest, false, [])
         == Complete(Encode(command), tokens[|tokens| - 1], rest)
    ensures ParseCommand(Encode(command)) == Command(command)
  {
    CommandArrives(command, tokens, 1, rest);
  }

  /** Two clients that cut the same command differently give the server the same arguments. */
  lemma ClientsAgree(command: seq<Data>, tokens1: seq<Data>, keepalive1: byte, tokens2: seq<Data>, keepalive2: byte)
    requires IsCut(tokens1, keepalive1, Encode(command)) && IsCut(tokens2, keepalive2, Encode(command))
    requires |Encode(command)| < COMMAND_MAX_DATA
    ensures AllLongEnough(Tokens(tokens1[1..]) + []) && AllLongEnough(Tokens(tokens2[1..]) + [])
    ensures var a1 := Assemble(tokens1[0], Tokens(tokens1[1..]) + [], false, []);
            var a2 := Assemble(tokens2[0], Tokens(tokens2[1..]) + [], false, []);
            && a1.Complete? && a2.Complete? && a1.payload == a2.payload == Encode(command)
            && ParseCommand(a1.payload) == ParseCommand(a2.payload)
            && (1 <= |command| <= COMMAND_MAX_ARGS ==> ParseCommand(a1.payload) == Command(command))
  {
    CutIsForgotten(tokens1, keepalive1, Encode(command), []);
    CutIsForgotten(tokens2, keepalive2, Encode(command), []);
    ArgumentsFit(command);
    ParserExact(Encode(command), command);
  }

  // The way back.

  function Deliver(tokens: seq<Data>): (input: seq<Incoming>)
    ensures |input| == |tokens|
  {
    seq(|tokens|, i requires 0 <= i < |tokens| => Incoming(DATA_TOKEN_FLAGS, tokens[i]))
  }

  function Chunks(chunks: seq<Chunk>): seq<Option<ClientOutput.Output>>
  {
    seq(|chunks|, i requires 0 <= i < |chunks| => Some(OutputChunk(chunks[i].stream, chunks[i].data)))
  }

  lemma DecodeOutput(stream: byte, data: Data)
    requires stream in {1, 2} && |data| < UINT32_LIMIT
    ensures Decode(OutputToken(stream, data)) == Some(OutputChunk(stream, data))
  {
    hide U32, OfU32;
    var token := OutputToken(stream, data);
    DecodeEncodeU32(|data|);
    assert token[3..7] == U32(|data|) && token[7..] == data;
  }

  lemma DecodeError(code: ErrorCode)
    ensures Decode(ErrorToken(code)) == Some(Error(ErrorNumber(code), Ascii(ErrorText(code))))
  {
    hide U32, OfU32, ErrorText, Ascii;
    var token, text := ErrorToken(code), Ascii(ErrorText(code));
    DecodeEncodeU32(|text|);
    DecodeEncodeU32(ErrorNumber(code));
    assert token[2..6] == U32(ErrorNumber(code)) && token[6..10] == U32(|text|) && token[10..] == text;
  }

  /** The last thing the client is told. */
  function LastOutput(d: Decision, run: Run): ClientOutput.Output
  {
    match d
    case Refuse(code) => Error(ErrorNumber(code), Ascii(ErrorText(code)))
    case Execute(_, _, _) =>
      if run.end.InternalFailure? then Error(ErrorNumber(Internal), Ascii(ErrorText(Internal)))
      else Status(SignedChar(StatusByte(ExitStatus(run.end))))
  }

  lemma DecodeLast(d: Decision, run: Run)
    ensures Decode(LastToken(d, run)) == Some(LastOutput(d, run))
  {
    hide U32, OfU32, ErrorText, Ascii;
    DecodeError(if d.Refuse? then d.code else Internal);
  }

  /** Exit statuses from 128 on arrive as negative numbers, all others unchanged. */
  lemma StatusArrives(end: End)
    requires !end.InternalFailure?
    ensures SignedChar(StatusByte(ExitStatus(end))) == ExitStatus(end) <==> ExitStatus(end) < 128
    ensures ExitStatus(end) >= 128 ==> SignedChar(StatusByte(ExitStatus(end))) == ExitStatus(end) - 256
  {
  }

  function Repeat(n: nat): seq<Option<ClientOutput.Output>>
  {
    seq(n, _ => Some(Done))
  }

  lemma {:induction false} DoneForever(st: State, n: nat)
    requires !st.ready
    ensures Polls(st, n) == Repeat(n)
  {
    if n > 0 {
      DoneForever(st, n - 1);
    }
  }

  /** The input that a reply makes, with whatever follows. */
  function ReplyInput(chunks: seq<Chunk>, last: Data, after: seq<Incoming>): seq<Incoming>
  {
    Deliver(OutputTokens(chunks) + [last]) + after
  }

  predicate ValidChunks(chunks: seq<Chunk>)
  {
    forall i :: 0 <= i < |chunks| ==> chunks[i].stream in {1, 2} && |chunks[i].data| <= TOKEN_MAX_OUTPUT
  }

  lemma ReplyInputStep(chunks: seq<Chunk>, last: Data, after: seq<Incoming>)
    requires chunks != []
    ensures ReplyInput(chunks, last, after) != []
    ensures ReplyInput(chunks, last, after)[0]
         == Incoming(DATA_TOKEN_FLAGS, OutputToken(chunks[0].stream, chunks[0].data))
    ensures ReplyInput(chunks, last, after)[1..] == ReplyInput(chunks[1..], last, after)
  {
    hide OutputToken;
    var tokens := OutputTokens(chunks) + [last];
    assert tokens[1..] == OutputTokens(chunks[1..]) + [last];
    assert Deliver(tokens)[1..] == Deliver(tokens[1..]);
  }

  lemma ReplyInputEnd(last: Data, after: seq<Incoming>)
    ensures ReplyInput([], last, after) == [Incoming(DATA_TOKEN_FLAGS, last)] + after
  {
    assert OutputTokens([]) + [last] == [last];
  }

  /** The client returns the reply token by token, and DONE on every later call. */
  lemma {:induction false} ClientSeesReply(d: Decision, run: Run, chunks: seq<Chunk>, after: seq<Incoming>, n: nat)
    requires ValidChunks(chunks)
    ensures Polls(State(true, ReplyInput(chunks, LastToken(d, run), after)), |chunks| + 1 + n)
         == Chunks(chunks) + [Some(LastOutput(d, run))] + Repeat(n)
    decreases |chunks|
  {
    hide OutputToken, Decode, LastToken, LastOutput, ReplyInput;
    var st := State(true, ReplyInput(chunks, LastToken(d, run), after));
    if chunks == [] {
      DecodeLast(d, run);
      ReplyInputEnd(LastToken(d, run), after);
      LastOutputEnds(d, run);
      DoneForever(Poll(st).1, n);
    } else {
      DecodeOutput(chunks[0].stream, chunks[0].data);
      ReplyInputStep(chunks, LastToken(d, run), after);
      ClientSeesReply(d, run, chunks[1..], after, n);
      assert Chunks(chunks) == [Some(OutputChunk(chunks[0].stream, chunks[0].data))] + Chunks(chunks[1..]);
    }
  }

  lemma LastOutputEnds(d: Decision, run: Run)
    ensures !LastOutput(d, run).OutputChunk? && !LastOutput(d, run).Done?
  {
  }

  /** The in-order concatenation of the chunks of one stream. */
  function Stream(chunks: seq<Chunk>, stream: byte): Data
  {
    if chunks == [] then []
    else (if chunks[0].stream == stream then chunks[0].data else []) + Stream(chunks[1..], stream)
  }

  /** What `remctl` adds to a result while it reads a reply. */
  function Gathered(result: Result, chunks: seq<Chunk>, last: ClientOutput.Output): Result
  {
    Append(result.(stdout := result.stdout + Stream(chunks, 1), stderr := result.stderr + Stream(chunks, 2)), last)
  }

  lemma {:induction false} CollectReply(d: Decision, run: Run, chunks: seq<Chunk>, after: seq<Incoming>, result: Result)
    requires ValidChunks(chunks)
    ensures Collect(State(true, ReplyInput(chunks, LastToken(d, run), after)), result)
         == Some(Gathered(result, chunks, LastOutput(d, run)))
    decreases |chunks|
  {
    hide OutputToken, Decode, LastToken, LastOutput, ReplyInput;
    var st, last := State(true, ReplyInput(chunks, LastToken(d, run), after)), LastOutput(d, run);
    LastOutputEnds(d, run);
    if chunks == [] {
      DecodeLast(d, run);
      ReplyInputEnd(LastToken(d, run), after);
      assert result.stdout + [] == result.stdout && result.stderr + [] == result.stderr;
    } else {
      DecodeOutput(chunks[0].stream, chunks[0].data);
      ReplyInputStep(chunks, LastToken(d, run), after);
      var first := Append(result, OutputChunk(chunks[0].stream, chunks[0].data));
      CollectReply(d, run, chunks[1..], after, first);
      GatheredStep(result, chunks, last);
    }
  }

  /** It stops right behind the reply. */
  lemma {:induction false} LeftoverOfReply(d: Decision, run: Run, chunks: seq<Chunk>, after: seq<Incoming>)
    requires ValidChunks(chunks)
    ensures Leftover(State(true, ReplyInput(chunks, LastToken(d, run), after))) == after
    decreases |chunks|
  {
    hide OutputToken, Decode, LastToken, LastOutput, ReplyInput;
    LastOutputEnds(d, run);
    if chunks == [] {
      DecodeLast(d, run);
      ReplyInputEnd(LastToken(d, run), after);
    } else {
      DecodeOutput(chunks[0].stream, chunks[0].data);
      ReplyInputStep(chunks, LastToken(d, run), after);
      LeftoverOfReply(d, run, chunks[1..], after);
    }
  }

  lemma GatheredStep(result: Result, chunks: seq<Chunk>, last: ClientOutput.Output)
    requires chunks != [] && ValidChunks(chunks)
    ensures Gathered(Append(result, OutputChunk(chunks[0].stream, chunks[0].data)), chunks[1..], last)
         == Gathered(result, chunks, last)
  {
    var data, more := chunks[0].data, chunks[1..];
    ConcatAssociative(result.stdout, data, Stream(more, 1));
    ConcatAssociative(result.stderr, data, Stream(more, 2));
    assert [] + Stream(more, 1) == Stream(more, 1) && [] + Stream(more, 2) == Stream(more, 2);
  }

  /** The result that `remctl` returns for a decision and the run of its process. */
  function Outcome(d: Decision, run: Run): Result
  {
    Gathered(EMPTY_RESULT, RunTheorems.Output(d, run), LastOutput(d, run))
  }

  lemma OutcomeStreams(d: Decision, run: Run)
    ensures Outcome(d, run).stdout == Stream(RunTheorems.Output(d, run), 1)
    ensures Outcome(d, run).stderr == Stream(RunTheorems.Output(d, run), 2)
  {
    LastOutputEnds(d, run);
    assert [] + Stream(RunTheorems.Output(d, run), 1) == Stream(RunTheorems.Output(d, run), 1);
    assert [] + Stream(RunTheorems.Output(d, run), 2) == Stream(RunTheorems.Output(d, run), 2);
  }

  /**
   * What the caller of `remctl` gets besides the streams: the exit status of the program, as a signed octet, or
   * -1 after a signal, and no error; otherwise the text of the error, and status 0.
   */
  lemma OutcomeStatus(d: Decision, run: Run)
    ensures var result := Outcome(d, run);
            match d
            case Refuse(code) => result.error == Some(Ascii(ErrorText(code))) && result.status == 0
            case Execute(_, _, _) =>
              match run.end
              case Exited(c) => result.error == None && result.status == if c < 128 then c else c - 256
              case Killed => result.error == None && result.status == -1
              case InternalFailure => result.error == Some(Ascii(ErrorText(Internal))) && result.status == 0
  {
    hide Ascii, ErrorText, Stream;
    if d.Execute? && run.end.Exited? {
      StatusOctet(run.end.code);
    }
    assert [] + Ascii(ErrorText(if d.Refuse? then d.code else Internal))
        == Ascii(ErrorText(if d.Refuse? then d.code else Internal));
  }

  lemma StatusOctet(c: byte)
    ensures StatusByte(c) == c && SignedChar(c) == if c < 128 then c else c - 256
  {
  }

  /**
   * A command cut by a client, handled by the server without a failed send, and its reply collected by
   * `remctl`: the result is that of the server's decision on exactly the client's arguments.
   */
  lemma WholeExchange(site: Site, who: Acl.Identity, command: seq<Data>, tokens: seq<Data>, keepalive: byte,
                      rest: seq<ReadResult>,
                      events: seq<Event>, reply: seq<Event>, run: Run, after: seq<Incoming>)
    requires ValidSite(site) && IsCut(tokens, keepalive, Encode(command)) && AllLongEnough(rest)
    requires 1 <= |command| <= COMMAND_MAX_ARGS && |Encode(command)| < COMMAND_MAX_DATA
    requires AllLongEnough(Tokens(tokens[1..]) + rest)
    requires ServerV2.HasCount(Assemble(tokens[0], Tokens(tokens[1..]) + rest, false, []))
    requires ServerV2.Handled(site, who, Assemble(tokens[0], Tokens(tokens[1..]) + rest, false, []),
                              AssembleReads(tokens[0], Tokens(tokens[1..]) + rest, false, []), events, reply, run)
    requires SingleReply(site, command) && SendFailed !in reply
    ensures reply == Expected(site.sudo, Verdict(site, who, command), run)
    ensures Collect(State(true, Deliver(Replies(reply)) + after), EMPTY_RESULT)
         == Some(Outcome(Verdict(site, who, command), run))
  {
    hide Verdict, Expected, Encode, Outcome, Collect, SingleReply;
    CommandArrives(command, tokens, keepalive, rest);
    var d := Verdict(site, who, command);
    assert Answers(site, who, command, reply, run);
    SingleAnswer(site, who, command, reply, run);
    ResponseShape(site.sudo, d, run);
    CollectReply(d, run, RunTheorems.Output(d, run), after, EMPTY_RESULT);
    assert Deliver(Replies(reply)) + after == ReplyInput(RunTheorems.Output(d, run), LastToken(d, run), after);
    assert Outcome(d, run) == Gathered(EMPTY_RESULT, RunTheorems.Output(d, run), LastOutput(d, run))
      by { OutcomeIs(d, run); }
  }

  lemma OutcomeIs(d: Decision, run: Run)
    ensures Outcome(d, run) == Gathered(EMPTY_RESULT, RunTheorems.Output(d, run), LastOutput(d, run))
  {
  }
}
