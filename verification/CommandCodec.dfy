/**
 * The payload of a command: the argument count, then for each argument its length and its octets.
 * `Encode` is the format, `ParseCommand` the server's reading of it, and `ParserExact` says that they
 * are inverse to each other on all payloads.
 */
module CommandCodec {
  import opened Bytes
  import opened Protocol

  function EncodeArg(arg: Data): (d: Data)
    ensures |d| == 4 + |arg|
  {
    U32(|arg|) + arg
  }

  function EncodeArgs(args: seq<Data>): (d: Data)
    ensures |d| >= 4 * |args|
  {
    if args == [] then [] else EncodeArg(args[0]) + EncodeArgs(args[1..])
  }

  function Encode(args: seq<Data>): (d: Data)
    ensures |d| >= 4
  {
    U32(|args|) + EncodeArgs(args)
  }

  /** Every argument length can be written in 32 bits. */
  predicate Fits(args: seq<Data>)
  {
    forall i :: 0 <= i < |args| ==> |args[i]| < UINT32_LIMIT
  }

  lemma {:induction false} EncodeArgsAppend(xs: seq<Data>, ys: seq<Data>)
    ensures EncodeArgs(xs + ys) == EncodeArgs(xs) + EncodeArgs(ys)
  {
    hide EncodeArg;
    var all := xs + ys;
    if xs == [] {
      assert all == ys;
    } else {
      var rest := xs[1..];
      EncodeArgsAppend(rest, ys);
      assert all[0] == xs[0] && all[1..] == rest + ys;
      ConcatAssociative(EncodeArg(xs[0]), EncodeArgs(rest), EncodeArgs(ys));
    }
  }

  lemma EncodeArgsSnoc(xs: seq<Data>, x: Data)
    ensures EncodeArgs(xs + [x]) == EncodeArgs(xs) + EncodeArg(x)
  {
    EncodeArgsAppend(xs, [x]);
    assert [x][1..] == [];
    assert EncodeArgs([x]) == EncodeArg(x);
  }

  /** The encoding grows by one argument at a time. */
  lemma EncodeArgsStep(args: seq<Data>, i: nat)
    requires i < |args|
    ensures EncodeArgs(args[..i + 1]) == EncodeArgs(args[..i]) + EncodeArg(args[i])
  {
    assert args[..i + 1] == args[..i] + [args[i]];
    EncodeArgsSnoc(args[..i], args[i]);
  }

  lemma EncodeArgsSplit(args: seq<Data>, i: nat)
    requires i <= |args|
    ensures EncodeArgs(args) == EncodeArgs(args[..i]) + EncodeArgs(args[i..])
  {
    assert args == args[..i] + args[i..];
    EncodeArgsAppend(args[..i], args[i..]);
  }

  lemma EncodeNone(args: seq<Data>)
    ensures EncodeArgs(args[..0]) == []
  {
  }

  /** Writes one argument, its length first, into a buffer that has room for it. */
  method PutArg(value: array<byte>, p: nat, arg: Data) returns (next: nat)
    requires p + 4 + |arg| <= value.Length
    modifies value
    ensures next == p + 4 + |arg| && value[..next] == old(value[..p]) + EncodeArg(arg)
  {
    hide U32;
    Memcpy(value, p, U32(|arg|));
    ghost var middle := value[..];
    assert middle[..p] == old(value[..p]) && middle[p..p + 4] == U32(|arg|);
    Memcpy(value, p + 4, arg);
    next := p + 4 + |arg|;
    assert value[..p + 4] == middle[..p + 4] == middle[..p] + middle[p..p + 4];
    assert value[..next] == value[..p + 4] + arg;
    ConcatAssociative(middle[..p], U32(|arg|), arg);
  }

  /** Reads packed arguments until the octets are exhausted. */
  function ParseArgs(d: Data): (r: Option<seq<Data>>)
    ensures r.Some? ==> |d| >= 4 * |r.value|
  {
    if d == [] then
      Some([])
    else if |d| < 4 then
      None
    else
      var n := OfU32(d[..4]);
      if |d| - 4 < n then
        None
      else
        match ParseArgs(d[4 + n..])
        case None => None
        case Some(rest) => Some([d[4..4 + n]] + rest)
  }

  datatype Parsed = Command(argv: seq<Data>) | Malformed(code: ErrorCode)

  function ParseCommand(payload: Data): (r: Parsed)
    requires |payload| >= 4
  {
    var argc := OfU32(payload[..4]);
    if argc == 0 then
      Malformed(UnknownCommand)
    else if argc > COMMAND_MAX_ARGS then
      Malformed(TooManyArgs)
    else
      match ParseArgs(payload[4..])
      case None => Malformed(BadCommand)
      case Some(argv) => if |argv| == argc then Command(argv) else Malformed(BadCommand)
  }

  lemma {:induction false} ParseEncodedArgs(args: seq<Data>)
    requires Fits(args)
    ensures ParseArgs(EncodeArgs(args)) == Some(args)
  {
    hide U32, OfU32;
    if args != [] {
      var d, n := EncodeArgs(args), |args[0]|;
      DecodeEncodeU32(n);
      assert d[..4] == U32(n);
      assert d[4..4 + n] == args[0];
      assert d[4 + n..] == EncodeArgs(args[1..]);
      ParseEncodedArgs(args[1..]);
      assert args == [args[0]] + args[1..];
    }
  }

  lemma ThreeParts(d: Data, i: nat, j: nat)
    requires i <= j <= |d|
    ensures d == (d[..i] + d[i..j]) + d[j..]
  {
  }

  lemma {:induction false} EncodeParsedArgs(d: Data)
    requires ParseArgs(d).Some?
    ensures Fits(ParseArgs(d).value) && EncodeArgs(ParseArgs(d).value) == d
  {
    hide U32, OfU32;
    if d != [] {
      var n := OfU32(d[..4]);
      var first, rest := d[4..4 + n], ParseArgs(d[4 + n..]).value;
      EncodeParsedArgs(d[4 + n..]);
      EncodeDecodeU32(d[..4]);
      ThreeParts(d, 4, 4 + n);
      EncodeArgsCons(first, rest);
      FitsCons(first, rest);
    }
  }

  lemma EncodeArgsCons(first: Data, rest: seq<Data>)
    ensures EncodeArgs([first] + rest) == (U32(|first|) + first) + EncodeArgs(rest)
  {
    assert ([first] + rest)[1..] == rest;
  }

  lemma FitsCons(first: Data, rest: seq<Data>)
    requires |first| < UINT32_LIMIT && Fits(rest)
    ensures Fits([first] + rest)
  {
  }

  /** The parser accepts exactly the encodings of 1 to COMMAND_MAX_ARGS arguments, and inverts them. */
  lemma ParserExact(payload: Data, argv: seq<Data>)
    requires |payload| >= 4
    ensures ParseCommand(payload) == Command(argv)
       <==> 1 <= |argv| <= COMMAND_MAX_ARGS && Fits(argv) && payload == Encode(argv)
  {
    assert payload == payload[..4] + payload[4..];
    if ParseCommand(payload) == Command(argv) {
      EncodeParsedArgs(payload[4..]);
      EncodeDecodeU32(payload[..4]);
    }
    if 1 <= |argv| <= COMMAND_MAX_ARGS && Fits(argv) && payload == Encode(argv) {
      ParseEncodedArgs(argv);
      DecodeEncodeU32(|argv|);
      assert payload[..4] == U32(|argv|) && payload[4..] == EncodeArgs(argv);
    }
  }

  /** Two different argument lists never share a payload. */
  lemma EncodeInjective(xs: seq<Data>, ys: seq<Data>)
    requires |xs| < UINT32_LIMIT && |ys| < UINT32_LIMIT && Fits(xs) && Fits(ys)
    requires Encode(xs) == Encode(ys)
    ensures xs == ys
  {
    ParseEncodedArgs(xs);
    ParseEncodedArgs(ys);
    assert Encode(xs)[4..] == EncodeArgs(xs) && Encode(ys)[4..] == EncodeArgs(ys);
  }
}
