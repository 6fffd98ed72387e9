/** What the server answers to whatever is read in a connection, message by message. */
module ReplyMeaning {
  import opened Bytes
  import opened Protocol
  import opened CommandCodec
  import opened ServerClient
  import opened Reassembly
  import opened Commands
  import opened RunCommand
  import opened ServerV2
  import Acl

  /** The reply is this one token, or failed to be sent. */
  predicate OneReply(reply: seq<Event>, token: Data)
  {
    reply == [Sent(token)] || reply == [SendFailed]
  }

  lemma RepliedToken(reply: seq<Event>, token: Data)
    requires Replied(reply, [Sent(token)])
    ensures OneReply(reply, token)
  {
    if SendFailed in reply {
      var k :| 0 <= k < 1 && reply == [Sent(token)][..k] + [SendFailed];
      assert [Sent(token)][..0] == [];
    }
  }

  lemma RepliedNothing(reply: seq<Event>)
    requires Replied(reply, [])
    ensures reply == []
  {
  }

  /**
   * Between commands: other versions than 2 and 3 are told the version, a no-op is returned, QUIT gets no
   * answer, every other message but a command is unknown; a failed read is an error unless the client has gone.
   */
  lemma TurnMeaning(site: Site, who: Acl.Identity, input: seq<ReadResult>, events: seq<Event>)
    requires ValidSite(site) && AllLongEnough(input) && WellSized(input) && IsTurn(site, who, input, events)
    ensures var reply := events[1..];
            match Next(input)
            case ReadFailed(closed) => if closed then reply == [] else OneReply(reply, ErrorToken(BadToken))
            case Token(token) =>
              && |token| >= 2
              && if token[0] != 2 && token[0] != 3 then OneReply(reply, [2, 6, 3])
                 else if token[1] == 1 then IsCommand(token)
                 else if token[1] == 2 then reply == []
                 else if token[1] == 7 then OneReply(reply, [3, 7])
                 else OneReply(reply, ErrorToken(UnknownMessage))
  {
    WellSizedNext(input);
    hide Replied, UpToFailure, ErrorToken, Handled, WellSized, Assemble, AssembleReads;
    var reply := events[1..];
    match Next(input) {
      case ReadFailed(closed) =>
        if closed {
          RepliedNothing(reply);
        } else {
          RepliedToken(reply, ErrorToken(BadToken));
        }
      case Token(token) =>
        if !IsCommand(token) {
          if token[0] != 2 && token[0] != 3 {
            RepliedToken(reply, [2, 6, 3]);
          } else if token[1] == 2 {
            RepliedNothing(reply);
          } else if token[1] == 7 {
            RepliedToken(reply, [3, 7]);
          } else {
            RepliedToken(reply, ErrorToken(UnknownMessage));
          }
        }
    }
  }

  /** The checks on a command token, by its size, its status as a signed octet and the payload before it. */
  lemma RefusalMeaning(token: Data, continued: bool, total: nat)
    requires |token| >= 4 && total < COMMAND_MAX_DATA
    ensures Refusal(token, continued, total) ==
      if |token| > 65536 then Some(TooMuchData)
      else if continued && token[3] == 1 then Some(BadCommand)
      else if !continued && (token[3] == 2 || token[3] == 3) then Some(BadCommand)
      else if 4 <= token[3] < 128 then Some(BadCommand)
      else if total + |token| - 4 >= 104857600 then Some(TooMuchData)
      else None
  {
  }

  /** A command given up: the read that ended it, and the answer to that. */
  lemma {:induction false} GivenUpMeaning(token: Data, input: seq<ReadResult>, continued: bool, buffer: Data)
    requires |token| >= 4 && AllLongEnough(input) && |buffer| < COMMAND_MAX_DATA
    requires Assemble(token, input, continued, buffer).GivenUp?
    ensures var taken, a := AssembleReads(token, input, continued, buffer), Assemble(token, input, continued, buffer);
            && taken != []
            && var reply := AssemblyReply(a);
               match taken[|taken| - 1]
               case ReadFailed(closed) => reply == if closed then [] else [Sent(ErrorToken(BadToken))]
               case Token(next) =>
                 && |next| >= 2
                 && if next[0] != 2 && next[0] != 3 then reply == [Sent([2, 6, 3])]
                    else if next[1] == 2 then reply == []
                    else next[1] != 1 && reply == [Sent(ErrorToken(UnexpectedMessage))]
    decreases |input|
  {
    hide ErrorToken;
    TurnCases(token, input, continued, buffer);
    var r := Next(input);
    if r.Token? && IsCommand(r.data) {
      hide Assemble, AssembleReads;
      GivenUpMeaning(r.data, Rest(input), true, buffer + token[4..]);
    }
  }

  /** The parser's errors: no arguments, too many, or octets that encode no list of as many as announced. */
  lemma ParserErrors(payload: Data)
    requires |payload| >= 4
    ensures var argc := OfU32(payload[..4]);
            && (argc == 0 ==> ParseCommand(payload) == Malformed(UnknownCommand))
            && (argc > 4096 ==> ParseCommand(payload) == Malformed(TooManyArgs))
            && (1 <= argc <= 4096 && !ParseCommand(payload).Command? ==> ParseCommand(payload) == Malformed(BadCommand))
    ensures ParseCommand(payload).Command? <==>
      exists argv :: 1 <= |argv| <= 4096 && Fits(argv) && payload == Encode(argv)
  {
    hide Encode, OfU32, ParseArgs, Fits;
    if ParseCommand(payload).Command? {
      ParserExact(payload, ParseCommand(payload).argv);
    }
    if argv :| 1 <= |argv| <= 4096 && Fits(argv) && payload == Encode(argv) {
      ParserExact(payload, argv);
    }
  }
}
