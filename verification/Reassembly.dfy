/**
 * Putting a command together from its tokens.  `Assemble` is what the server's loop does to any stream
 * of reads; the theorems say which streams it completes and that the way a payload was cut is forgotten.
 */
module Reassembly {
  import opened Bytes
  import opened Protocol
  import opened Fragments
  import opened ServerClient

  /** Why a continued command is given up while waiting for its next token. */
  datatype Reason = NoToken(closed: bool) | OtherVersion | QuitReceived | NotCommand

  datatype Assembled =
    | Complete(payload: Data, last: Data, rest: seq<ReadResult>)
    | Refused(code: ErrorCode, last: Data, rest: seq<ReadResult>)
    | GivenUp(reason: Reason, last: Data, rest: seq<ReadResult>)

  predicate KnownVersion(token: Data)
    requires |token| >= 2
  {
    token[0] == 2 || token[0] == 3
  }

  predicate IsQuit(token: Data)
  {
    |token| >= 2 && KnownVersion(token) && token[1] == MESSAGE_QUIT
  }

  predicate IsCommand(token: Data)
  {
    |token| >= 2 && KnownVersion(token) && token[1] == MESSAGE_COMMAND
  }

  /** A token long enough for the fields the server reads without looking at its length. */
  predicate LongEnough(r: ReadResult)
  {
    r.Token? ==> |r.data| >= 2 && (IsCommand(r.data) ==> |r.data| >= 4)
  }

  predicate AllLongEnough(input: seq<ReadResult>)
  {
    forall i :: 0 <= i < |input| ==> LongEnough(input[i])
  }

  /** `p[3]` is a char: octets from 128 on are negative. */
  predicate BadStatus(status: int, continued: bool)
  {
    (status == 1 && continued) || (status > 1 && !continued) || status > 3
  }

  /** The checks on one token, in the order of the server, when `total` octets are in the buffer. */
  function Refusal(token: Data, continued: bool, total: nat): (code: Option<ErrorCode>)
    requires |token| >= 4 && total < COMMAND_MAX_DATA
    ensures code.None? ==> total + |token| - 4 < COMMAND_MAX_DATA
  {
    if |token| > TOKEN_MAX_DATA then Some(TooMuchData)
    else if BadStatus(SignedChar(token[3]), continued) then Some(BadCommand)
    else if |token| - 4 >= COMMAND_MAX_DATA - total then Some(TooMuchData)
    else None
  }

  function Assemble(token: Data, input: seq<ReadResult>, continued: bool, buffer: Data): (a: Assembled)
    requires |token| >= 4 && AllLongEnough(input) && |buffer| < COMMAND_MAX_DATA
    ensures a.Complete? ==> |a.payload| < COMMAND_MAX_DATA && |a.last| >= 4
    ensures AllLongEnough(a.rest) && |a.rest| <= |input|
    decreases |input|
  {
    var refusal := Refusal(token, continued, |buffer|);
    if refusal.Some? then
      Refused(refusal.value, token, input)
    else if token[3] != 1 && token[3] != 2 then
      Complete(buffer + token[4..], token, input)
    else
      match Next(input)
      case ReadFailed(closed) => GivenUp(NoToken(closed), token, Rest(input))
      case Token(next) =>
        if !KnownVersion(next) then GivenUp(OtherVersion, token, Rest(input))
        else if next[1] == MESSAGE_QUIT then GivenUp(QuitReceived, token, Rest(input))
        else if next[1] != MESSAGE_COMMAND then GivenUp(NotCommand, token, Rest(input))
        else Assemble(next, Rest(input), true, buffer + token[4..])
  }

  /** What is read after the first token, up to the one that completes the command or ends the attempt. */
  function AssembleReads(token: Data, input: seq<ReadResult>, continued: bool, buffer: Data): (taken: seq<ReadResult>)
    requires |token| >= 4 && AllLongEnough(input) && |buffer| < COMMAND_MAX_DATA
    decreases |input|
  {
    if Refusal(token, continued, |buffer|).Some? || (token[3] != 1 && token[3] != 2) then
      []
    else
      var next := Next(input);
      [next] +
      if next.Token? && IsCommand(next.data) then AssembleReads(next.data, Rest(input), true, buffer + token[4..])
      else []
  }

  function Tokens(tokens: seq<Data>): (input: seq<ReadResult>)
    ensures |input| == |tokens|
  {
    seq(|tokens|, i requires 0 <= i < |tokens| => Token(tokens[i]))
  }

  /** A list of command tokens of legal size. */
  predicate CommandTokens(tokens: seq<Data>)
  {
    forall i :: 0 <= i < |tokens| ==> IsCommand(tokens[i]) && 4 <= |tokens[i]| <= TOKEN_MAX_DATA
  }

  predicate Final(status: byte)
  {
    SignedChar(status) <= 0
  }

  /** The continue statuses of the tokens after the first: any number of 2, then 3 or one that is not positive. */
  predicate ClosesCommand(tokens: seq<Data>)
    requires CommandTokens(tokens)
  {
    && tokens != []
    && (forall i :: 0 <= i < |tokens| - 1 ==> tokens[i][3] == 2)
    && (tokens[|tokens| - 1][3] == 3 || Final(tokens[|tokens| - 1][3]))
  }

  /** The language of the C server: 0, or 1 2* (3 | 0), where any octet from 128 on counts as 0. */
  predicate CLanguage(tokens: seq<Data>)
    requires CommandTokens(tokens)
  {
    tokens != [] &&
    if |tokens| == 1 then Final(tokens[0][3]) else tokens[0][3] == 1 && ClosesCommand(tokens[1..])
  }

  /** The run of the server's status check over a token and the tokens after it, from either state. */
  predicate Accepts(token: Data, others: seq<Data>, continued: bool)
    requires |token| >= 4 && CommandTokens(others)
    decreases |others|
  {
    && !BadStatus(SignedChar(token[3]), continued)
    && if others == [] then token[3] != 1 && token[3] != 2
       else (token[3] == 1 || token[3] == 2) && Accepts(others[0], others[1..], true)
  }

  lemma {:induction false} AcceptsContinued(tokens: seq<Data>)
    requires tokens != [] && CommandTokens(tokens)
    ensures Accepts(tokens[0], tokens[1..], true) <==> ClosesCommand(tokens)
  {
    if |tokens| > 1 {
      AcceptsContinued(tokens[1..]);
      assert ClosesCommand(tokens) ==> tokens[0][3] == 2;
      assert tokens[0][3] == 2 ==> (ClosesCommand(tokens) <==> ClosesCommand(tokens[1..]));
    }
  }

  lemma AcceptsLanguage(tokens: seq<Data>)
    requires tokens != [] && CommandTokens(tokens)
    ensures Accepts(tokens[0], tokens[1..], false) <==> CLanguage(tokens)
  {
    if |tokens| > 1 {
      AcceptsContinued(tokens[1..]);
    }
  }

  /** One turn of the loop with a command token to follow. */
  lemma AssembleStep(token: Data, next: Data, more: seq<ReadResult>, continued: bool, buffer: Data)
    requires |token| >= 4 && IsCommand(next) && |next| >= 4 && AllLongEnough(more) && |buffer| < COMMAND_MAX_DATA
    requires Refusal(token, continued, |buffer|).None?
    ensures AllLongEnough([Token(next)] + more)
    ensures Assemble(token, [Token(next)] + more, continued, buffer)
         == if token[3] == 1 || token[3] == 2 then Assemble(next, more, true, buffer + token[4..])
            else Complete(buffer + token[4..], token, [Token(next)] + more)
  {
    var input := [Token(next)] + more;
    assert Next(input) == Token(next) && Rest(input) == more;
  }

  /** While the payload stays below the limit, only the status of a token can be wrong. */
  lemma OnlyStatus(token: Data, continued: bool, total: nat)
    requires 4 <= |token| <= TOKEN_MAX_DATA && total + |token| - 4 < COMMAND_MAX_DATA
    ensures Refusal(token, continued, total).None? <==> !BadStatus(SignedChar(token[3]), continued)
  {
  }

  lemma InputSplit(tokens: seq<Data>, rest: seq<ReadResult>)
    requires tokens != []
    ensures Tokens(tokens) + rest == [Token(tokens[0])] + (Tokens(tokens[1..]) + rest)
  {
    assert Tokens(tokens) == [Token(tokens[0])] + Tokens(tokens[1..]);
  }

  lemma AllLongEnoughTokens(tokens: seq<Data>, rest: seq<ReadResult>)
    requires CommandTokens(tokens) && AllLongEnough(rest)
    ensures AllLongEnough(Tokens(tokens) + rest)
  {
  }

  function Last(token: Data, others: seq<Data>): Data
  {
    if others == [] then token else others[|others| - 1]
  }

  lemma AssembleReadsStep(token: Data, next: Data, more: seq<ReadResult>, continued: bool, buffer: Data)
    requires |token| >= 4 && IsCommand(next) && |next| >= 4 && AllLongEnough(more) && |buffer| < COMMAND_MAX_DATA
    requires Refusal(token, continued, |buffer|).None? && (token[3] == 1 || token[3] == 2)
    ensures AllLongEnough([Token(next)] + more)
    ensures AssembleReads(token, [Token(next)] + more, continued, buffer)
         == [Token(next)] + AssembleReads(next, more, true, buffer + token[4..])
  {
    var input := [Token(next)] + more;
    assert Next(input) == Token(next) && Rest(input) == more;
  }

  /** A command whose statuses are accepted is read to its last token and no further. */
  lemma {:induction false} AcceptedReads(token: Data, others: seq<Data>, rest: seq<ReadResult>, continued: bool,
                                         buffer: Data)
    requires 4 <= |token| <= TOKEN_MAX_DATA && CommandTokens(others) && AllLongEnough(rest)
    requires |buffer| + |token| - 4 + |Payload(others)| < COMMAND_MAX_DATA && Accepts(token, others, continued)
    ensures AllLongEnough(Tokens(others) + rest)
    ensures AssembleReads(token, Tokens(others) + rest, continued, buffer) == Tokens(others)
    decreases |others|
  {
    hide Refusal, BadStatus, SignedChar;
    AllLongEnoughTokens(others, rest);
    OnlyStatus(token, continued, |buffer|);
    if others != [] {
      var next, more := others[0], others[1..];
      AllLongEnoughTokens(more, rest);
      InputSplit(others, rest);
      InputSplit(others, []);
      AssembleReadsStep(token, next, Tokens(more) + rest, continued, buffer);
      AcceptedReads(next, more, rest, true, buffer + token[4..]);
      assert Tokens(others) + [] == Tokens(others) && Tokens(more) + [] == Tokens(more);
    }
  }

  lemma AssembleLast(token: Data, rest: seq<ReadResult>, continued: bool, buffer: Data)
    requires |token| >= 4 && AllLongEnough(rest) && |buffer| < COMMAND_MAX_DATA
    requires Refusal(token, continued, |buffer|).None? && token[3] != 1 && token[3] != 2
    ensures Assemble(token, rest, continued, buffer) == Complete(buffer + token[4..], token, rest)
  {
  }

  /** Tokens whose statuses are accepted are completed with their whole payload. */
  lemma {:induction false} AssembleAccepted(token: Data, others: seq<Data>, rest: seq<ReadResult>, continued: bool,
                                            buffer: Data)
    requires 4 <= |token| <= TOKEN_MAX_DATA && CommandTokens(others) && AllLongEnough(rest)
    requires |buffer| + |token| - 4 + |Payload(others)| < COMMAND_MAX_DATA && Accepts(token, others, continued)
    ensures AllLongEnough(Tokens(others) + rest)
    ensures Assemble(token, Tokens(others) + rest, continued, buffer)
         == Complete(buffer + (token[4..] + Payload(others)), Last(token, others), rest)
    decreases |others|
  {
    hide Assemble, Refusal, BadStatus, SignedChar;
    AllLongEnoughTokens(others, rest);
    OnlyStatus(token, continued, |buffer|);
    if others == [] {
      assert Tokens(others) + rest == rest && token[4..] + Payload(others) == token[4..];
      AssembleLast(token, rest, continued, buffer);
    } else {
      var next, more := others[0], others[1..];
      var longer := buffer + token[4..];
      AllLongEnoughTokens(more, rest);
      InputSplit(others, rest);
      AssembleStep(token, next, Tokens(more) + rest, continued, buffer);
      AssembleAccepted(next, more, rest, true, longer);
      assert longer + (next[4..] + Payload(more)) == buffer + (token[4..] + Payload(others));
    }
  }

  /** Tokens whose statuses are not accepted are not completed by the last of them. */
  lemma {:induction false} AssembleRejected(token: Data, others: seq<Data>, continued: bool, buffer: Data)
    requires 4 <= |token| <= TOKEN_MAX_DATA && CommandTokens(others)
    requires |buffer| + |token| - 4 + |Payload(others)| < COMMAND_MAX_DATA && !Accepts(token, others, continued)
    ensures AllLongEnough(Tokens(others) + [])
    ensures var a := Assemble(token, Tokens(others) + [], continued, buffer); !a.Complete? || a.rest != []
    decreases |others|
  {
    AllLongEnoughTokens(others, []);
    OnlyStatus(token, continued, |buffer|);
    if others != [] && Refusal(token, continued, |buffer|).None? {
      var next, more := others[0], others[1..];
      AllLongEnoughTokens(more, []);
      InputSplit(others, []);
      AssembleStep(token, next, Tokens(more) + [], continued, buffer);
      if token[3] == 1 || token[3] == 2 {
        AssembleRejected(next, more, true, buffer + token[4..]);
      }
    }
  }

  /** The C server completes exactly the status sequences of its language, and then with the whole payload. */
  lemma CServerLanguage(tokens: seq<Data>)
    requires tokens != [] && CommandTokens(tokens) && |Payload(tokens)| < COMMAND_MAX_DATA
    ensures AllLongEnough(Tokens(tokens[1..]))
    ensures CLanguage(tokens) <==>
      var a := Assemble(tokens[0], Tokens(tokens[1..]), false, []); a.Complete? && a.rest == []
    ensures CLanguage(tokens) ==> Assemble(tokens[0], Tokens(tokens[1..]), false, []).payload == Payload(tokens)
  {
    assert Tokens(tokens[1..]) + [] == Tokens(tokens[1..]);
    AcceptsLanguage(tokens);
    assert Payload(tokens) == tokens[0][4..] + Payload(tokens[1..]);
    if CLanguage(tokens) {
      AssembleAccepted(tokens[0], tokens[1..], [], false, []);
      assert [] + Payload(tokens) == Payload(tokens);
    } else {
      AssembleRejected(tokens[0], tokens[1..], false, []);
    }
  }

  /** However a payload below the limit is cut, the server reassembles it, and leaves the rest of its input alone. */
  lemma CutIsForgotten(tokens: seq<Data>, keepalive: byte, payload: Data, rest: seq<ReadResult>)
    requires IsCut(tokens, keepalive, payload) && |payload| < COMMAND_MAX_DATA && AllLongEnough(rest)
    ensures AllLongEnough(Tokens(tokens[1..]) + rest)
    ensures Assemble(tokens[0], Tokens(tokens[1..]) + rest, false, []) == Complete(payload, tokens[|tokens| - 1], rest)
    ensures AssembleReads(tokens[0], Tokens(tokens[1..]) + rest, false, []) == Tokens(tokens[1..])
  {
    assert tokens[1..] != [] ==> ClosesCommand(tokens[1..]);
    AcceptsLanguage(tokens);
    assert Payload(tokens) == tokens[0][4..] + Payload(tokens[1..]);
    AssembleAccepted(tokens[0], tokens[1..], rest, false, []);
    AcceptedReads(tokens[0], tokens[1..], rest, false, []);
    assert [] + Payload(tokens) == Payload(tokens);
  }
}
