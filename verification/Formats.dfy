/** The wire formats octet by octet, and exactly what the client accepts. */
module Formats {
  import opened Bytes
  import opened Protocol
  import opened CommandCodec
  import opened ServerClient
  import opened ClientOutput
  import opened TokenStream
  import Negotiation

  // Numbers and tokens.

  /** Most significant octet first. */
  lemma NumberOctets(n: nat)
    requires n < UINT32_LIMIT
    ensures U32(n) == [n / 0x100_0000, n / 0x1_0000 % 256, n / 256 % 256, n % 256]
  {
    var a, b, c := n / 256, n / 256 / 256, n / 256 / 256 / 256;
    assert c / 256 == 0 && b == n / 0x1_0000 && c == n / 0x100_0000;
    assert BigEndian(c, 1) == BigEndian(c / 256, 0) + [c % 256] == [c];
    assert BigEndian(b, 2) == BigEndian(c, 1) + [b % 256];
    assert BigEndian(a, 3) == BigEndian(b, 2) + [a % 256];
    assert BigEndian(n, 4) == BigEndian(a, 3) + [n % 256];
  }

  /** The tokens of the server: version 2 but for the NOOP reply, the message type, and the fields. */
  lemma ServerTokens(stream: byte, data: Data, status: byte, code: ErrorCode)
    ensures OutputToken(stream, data) == [2, 3, stream] + U32(|data|) + data
    ensures StatusToken(status) == [2, 4, status]
    ensures var text := Ascii(ErrorText(code));
            ErrorToken(code) == [2, 5] + U32(ErrorNumber(code)) + U32(|text|) + text
    ensures VERSION_TOKEN == [2, 6, 3] && NOOP_TOKEN == [3, 7]
  {
  }

  /** The error codes of the protocol. */
  lemma ErrorCodes()
    ensures ErrorNumber(Internal) == 1 && ErrorNumber(BadToken) == 2 && ErrorNumber(UnknownMessage) == 3
    ensures ErrorNumber(BadCommand) == 4 && ErrorNumber(UnknownCommand) == 5 && ErrorNumber(Access) == 6
    ensures ErrorNumber(TooManyArgs) == 7 && ErrorNumber(TooMuchData) == 8
    ensures ErrorNumber(UnexpectedMessage) == 9 && ErrorNumber(NoHelp) == 10
  {
  }

  /** A token on the stream: an octet of flags, the length, the data. */
  lemma StreamToken(t: TokenStream.StreamToken)
    ensures TokenBytes(t) == [t.flags] + U32(|t.data|) + t.data
  {
  }

  /** The flags of the handshake. */
  lemma HandshakeFlags()
    ensures Negotiation.INITIAL == 81 && Negotiation.INITIAL_V1 == 17
    ensures Negotiation.CONTEXT_V2 == 66 && Negotiation.TOKEN_CONTEXT == 2
  {
  }

  /** The payload of a command of two arguments, spelled out. */
  lemma TwoArguments(x: Data, y: Data)
    ensures Encode([x, y]) == U32(2) + ((U32(|x|) + x) + (U32(|y|) + y))
  {
    hide U32;
    var args := [x, y];
    assert args[1..] == [y] && [y][1..] == [];
    assert EncodeArgs([y]) == EncodeArg(y) + [];
    assert EncodeArgs(args) == EncodeArg(x) + EncodeArgs([y]);
  }

  // What the client accepts.

  predicate FromServer(token: Data, kind: byte)
  {
    |token| >= 2 && (token[0] == 2 || token[0] == 3) && token[1] == kind
  }

  lemma NumberUnique(octets: Data, n: nat)
    requires |octets| == 4 && n < UINT32_LIMIT
    ensures OfU32(octets) == n <==> octets == U32(n)
  {
    DecodeEncodeU32(n);
    EncodeDecodeU32(octets);
  }

  /** A token is taken for output exactly if it is an output token, of either version, for one of the streams. */
  lemma OutputExactly(token: Data, stream: byte, data: Data)
    requires |data| < UINT32_LIMIT
    ensures Decode(token) == Some(OutputChunk(stream, data)) <==>
      FromServer(token, 3) && (stream == 1 || stream == 2) && token[2..] == [stream] + U32(|data|) + data
  {
    if |token| >= 7 {
      NumberUnique(token[3..7], |data|);
      hide U32, OfU32;
      assert token[2..] == [token[2]] + token[3..7] + token[7..];
      if token[2..] == [stream] + U32(|data|) + data {
        assert token[2] == token[2..][0] == stream;
        assert token[3..7] == token[2..][1..5] == U32(|data|);
        assert token[7..] == token[2..][5..] == data;
      }
    }
  }

  /** For a status exactly if it is a status token of three octets; the last one is a signed octet. */
  lemma StatusExactly(token: Data, status: int)
    ensures Decode(token) == Some(Status(status)) <==>
      FromServer(token, 4) && |token| == 3 && status == token[2] as int - if token[2] < 128 then 0 else 256
  {
  }

  /** For an error exactly if it is an error token whose text fills the rest. */
  lemma ErrorExactly(token: Data, code: nat, message: Data)
    requires code < UINT32_LIMIT && |message| < UINT32_LIMIT
    ensures Decode(token) == Some(Error(code, message)) <==>
      FromServer(token, 5) && token[2..] == U32(code) + U32(|message|) + message
  {
    if |token| >= 10 {
      NumberUnique(token[2..6], code);
      NumberUnique(token[6..10], |message|);
      hide U32, OfU32;
      assert token[2..] == token[2..6] + token[6..10] + token[10..];
      if token[2..] == U32(code) + U32(|message|) + message {
        assert token[2..6] == token[2..][0..4] == U32(code);
        assert token[6..10] == token[2..][4..8] == U32(|message|);
        assert token[10..] == token[2..][8..] == message;
      }
    }
  }

  /**
   * One poll while a reply is expected: a token with the flags of protocol data (4 and 64) is taken for what it
   * is; everything else is a failure that leaves the client waiting.  After the end of the stream and after a
   * timeout nothing more is read; STATUS and ERROR end the reply, and then every poll says that all is done.
   */
  lemma PollMeaning(head: Incoming, rest: seq<Incoming>)
    ensures var (output, next) := Poll(State(true, [head] + rest));
            match head
            case Incoming(flags, data) =>
              && output == (if flags == 68 then Decode(data) else None) && next.input == rest
              && (next.ready <==> output.None? || output.value.OutputChunk?)
            case ReceiveFailed(failure) =>
              output == None && next == State(true, if failure == FailEof || failure == FailTimeout then [] else rest)
    ensures Poll(State(true, [])) == (None, State(true, []))
    ensures Poll(State(false, rest)) == (Some(Done), State(false, rest))
  {
    hide Decode;
    assert ([head] + rest)[1..] == rest;
  }

  /** The longest data that token_send takes. */
  lemma LongestToken(t: TokenStream.StreamToken)
    ensures Sendable(t) <==> |t.data| <= 4294967290
  {
  }
}
