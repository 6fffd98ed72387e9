/** The client's reading of replies (client/client-v2.c, client/api.c). */
module ClientOutput {
  import opened Bytes
  import opened Protocol
  import opened TokenStream

  const DATA_TOKEN_FLAGS: byte := 4 + 64

  /** A token from the server, or a failure to receive one; after some failures the client closes the connection. */
  datatype Incoming = Incoming(flags: byte, data: Data) | ReceiveFailed(failure: Failure)

  /** The client closes the connection after the end of the stream and after a timeout. */
  predicate Closes(head: Incoming)
  {
    head.ReceiveFailed? && (head.failure.FailEof? || head.failure.FailTimeout?)
  }

  datatype Output =
    | OutputChunk(stream: byte, data: Data)
    | Status(status: int)
    | Error(code: nat, message: Data)
    | Done

  /** `internal_v2_read_string`. */
  function ReadString(token: Data, offset: nat): (s: Option<Data>)
    requires offset + 4 <= |token|
  {
    if OfU32(token[offset..offset + 4]) != |token| - offset - 4 then None else Some(token[offset + 4..])
  }

  /** What `internal_v2_output` makes of a token; None where it returns a null pointer. */
  function Decode(token: Data): (r: Option<Output>)
    ensures r.Some? ==> !r.value.Done?
  {
    if |token| < 2 || (token[0] != 2 && token[0] != 3) then
      None
    else if token[1] == MESSAGE_OUTPUT then
      if |token| < 7 || (token[2] != 1 && token[2] != 2) then None
      else
        var data := ReadString(token, 3);
        if data.None? then None else Some(OutputChunk(token[2], data.value))
    else if token[1] == MESSAGE_STATUS then
      if |token| != 3 then None else Some(Status(SignedChar(token[2])))
    else if token[1] == MESSAGE_ERROR then
      if |token| < 10 then None
      else
        var message := ReadString(token, 6);
        if message.None? then None else Some(Error(OfU32(token[2..6]), message.value))
    else
      None
  }

  datatype State = State(ready: bool, input: seq<Incoming>)

  /** One call of `internal_v2_output`: what it returns and the state it leaves. */
  function Poll(st: State): (r: (Option<Output>, State))
    ensures |r.1.input| <= |st.input|
    ensures r.0.Some? && r.0.value.OutputChunk? ==> |r.1.input| < |st.input|
  {
    if !st.ready then
      (Some(Done), st)
    else if st.input == [] then
      (None, st)
    else
      var rest := st.(input := if Closes(st.input[0]) then [] else st.input[1..]);
      if st.input[0].ReceiveFailed? || st.input[0].flags != DATA_TOKEN_FLAGS then
        (None, rest)
      else
        var r := Decode(st.input[0].data);
        (r, if r.Some? && !r.value.OutputChunk? then rest.(ready := false) else rest)
  }

  /** What the next n calls return. */
  function Polls(st: State, n: nat): (rs: seq<Option<Output>>)
    ensures |rs| == n
    decreases n
  {
    if n == 0 then [] else [Poll(st).0] + Polls(Poll(st).1, n - 1)
  }

  datatype Result = Result(stdout: Data, stderr: Data, status: int, error: Option<Data>)

  const EMPTY_RESULT: Result := Result([], [], 0, None)

  /** `internal_output_append`, for the outputs it is called with. */
  function Append(result: Result, output: Output): Result
  {
    match output
    case OutputChunk(stream, data) =>
      if stream == 1 then result.(stdout := result.stdout + data) else result.(stderr := result.stderr + data)
    case Error(_, message) => result.(error := Some((if result.error.Some? then result.error.value else []) + message))
    case Status(status) => result.(status := status)
    case Done => result
  }

  /** The loop of `remctl`; None where it fails. */
  function Collect(st: State, result: Result): (r: Option<Result>)
    decreases |st.input|
  {
    var (output, next) := Poll(st);
    if output.None? then None
    else if output.value.OutputChunk? then Collect(next, Append(result, output.value))
    else Some(Append(result, output.value))
  }

  /** The tokens that loop leaves unread. */
  function Leftover(st: State): (input: seq<Incoming>)
    decreases |st.input|
  {
    var (output, next) := Poll(st);
    if output.Some? && output.value.OutputChunk? then Leftover(next) else next.input
  }

  class Remctl {
    var ready: bool
    var input: seq<Incoming>
    var output: Output

    constructor (ready: bool, input: seq<Incoming>)
      ensures this.ready == ready && this.input == input
    {
      this.ready, this.input, output := ready, input, Done;
    }

    ghost function Current(): State
      reads this
    {
      State(ready, input)
    }

    /** `internal_v2_read_token`. */
    method ReadToken() returns (token: Option<Data>)
      modifies this`input
      ensures input == if old(input) == [] || Closes(old(input)[0]) then [] else old(input)[1..]
      ensures token == if old(input) != [] && old(input)[0].Incoming? && old(input)[0].flags == DATA_TOKEN_FLAGS
                          && |old(input)[0].data| >= 2 && old(input)[0].data[0] in {2, 3}
                       then Some(old(input)[0].data) else None
    {
      if input == [] {
        return None;
      }
      var head := input[0];
      input := if Closes(head) then [] else input[1..];
      if head.ReceiveFailed? || head.flags != DATA_TOKEN_FLAGS || |head.data| < 2 ||
         (head.data[0] != 2 && head.data[0] != 3) {
        return None;
      }
      return Some(head.data);
    }

    /** `internal_v2_output`. */
    method V2Output() returns (r: Option<Output>)
      modifies this
      ensures (r, Current()) == Poll(old(Current()))
      ensures r.Some? ==> output == r.value
    {
      output := Done;
      if !ready {
        return Some(output);
      }
      var received := ReadToken();
      if received.None? {
        return None;
      }
      var token := received.value;
      match token[1] {
        case 3 =>
          if |token| < 7 || (token[2] != 1 && token[2] != 2) {
            return None;
          }
          var data := ReadString(token, 3);
          if data.None? {
            return None;
          }
          output := OutputChunk(token[2], data.value);
        case 4 =>
          if |token| != 3 {
            return None;
          }
          output := Status(SignedChar(token[2]));
          ready := false;
        case 5 =>
          if |token| < 10 {
            return None;
          }
          var code, message := OfU32(token[2..6]), ReadString(token, 6);
          if message.None? {
            return None;
          }
          output := Error(code, message.value);
          ready := false;
        case _ =>
          return None;
      }
      return Some(output);
    }

    /** The loop of `remctl`, the simplified interface. */
    method CollectAll() returns (result: Option<Result>)
      modifies this
      ensures result == Collect(old(Current()), EMPTY_RESULT) && input == Leftover(old(Current()))
    {
      var so := EMPTY_RESULT;
      while true
        invariant Collect(old(Current()), EMPTY_RESULT) == Collect(Current(), so)
        invariant Leftover(old(Current())) == Leftover(Current())
        decreases |input|
      {
        var got := V2Output();
        if got.None? {
          return None;
        }
        so := Append(so, got.value);
        if !got.value.OutputChunk? {
          return Some(so);
        }
      }
    }
  }
}
