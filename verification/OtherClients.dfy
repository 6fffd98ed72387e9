/** The other senders and readers of commands: the protocol v1 client and the Java client and server. */
module ClientV1 {
  import opened Bytes
  import opened Protocol
  import opened CommandCodec
  import ClientV2

  /**
   * `internal_v1_commandv`: the whole command in one token, which the server acknowledges; sending fails for
   * a token over TOKEN_MAX_DATA, and may fail before or after the token has gone out.
   */
  method CommandV(r: ClientV2.Remctl, command: seq<Data>) returns (ok: bool)
    modifies r
    ensures !old(r.failed) ==> (ok <==> |command| < UINT32_LIMIT && Fits(command) && !r.failed)
    ensures ok ==> r.ready && r.sent == old(r.sent) + [Encode(command)] && |Encode(command)| <= TOKEN_MAX_DATA
    ensures !ok ==> r.ready == old(r.ready)
    ensures !ok ==> r.sent == old(r.sent) || (r.sent == old(r.sent) + [Encode(command)] && r.failed)
  {
    var token := BuildToken(command);
    if token.None? {
      return false;
    }
    ok := r.SendToken(token.value);
    if ok {
      var acknowledged: bool := *;
      if !acknowledged {
        r.failed := true;
        return false;
      }
      r.ready := true;
    }
  }

  /** A sizing loop, then a loop that fills the only token. */
  method BuildToken(command: seq<Data>) returns (token: Option<Data>)
    ensures token.Some? <==> |command| < UINT32_LIMIT && Fits(command)
    ensures token.Some? ==> token.value == Encode(command)
  {
    hide U32, EncodeArgs;
    var count := |command|;
    if count >= UINT32_LIMIT {
      return None;
    }
    EncodeNone(command);
    var length, i := 4, 0;
    while i < count
      invariant 0 <= i <= count && length == 4 + |EncodeArgs(command[..i])|
    {
      EncodeArgsStep(command, i);
      length := length + 4 + |command[i]|;
      i := i + 1;
    }
    assert command[..count] == command;
    var value := new byte[length];
    Memcpy(value, 0, U32(count));
    var p := 4;
    i := 0;
    assert value[..4] == U32(count) + EncodeArgs(command[..0]);
    while i < count
      invariant 0 <= i <= count && p == 4 + |EncodeArgs(command[..i])|
      invariant p <= length == |Encode(command)|
      invariant value[..p] == U32(count) + EncodeArgs(command[..i])
      invariant forall k :: 0 <= k < i ==> |command[k]| < UINT32_LIMIT
    {
      if |command[i]| >= UINT32_LIMIT {
        return None;
      }
      EncodeArgsStep(command, i);
      EncodeArgsSplit(command, i + 1);
      p := PutArg(value, p, command[i]);
      ConcatAssociative(U32(count), EncodeArgs(command[..i]), EncodeArg(command[i]));
      i := i + 1;
    }
    assert command[..count] == command && value[..p] == value[..];
    return Some(value[..]);
  }
}

module Java {
  import opened Bytes
  import opened Protocol
  import opened CommandCodec
  import opened Fragments
  import opened Reassembly

  /** The message as `processRequest` builds it: the header of every token, then the payload. */
  function Message(args: seq<Data>, keepalive: bool): (m: Data)
  {
    [2, MESSAGE_COMMAND, if keepalive then 1 else 0, 1] + Encode(args)
  }

  /** The part of `processRequest` that builds the message: a sizing loop and a loop of puts. */
  method BuildMessage(args: seq<Data>, keepalive: bool) returns (m: Data)
    ensures m == Message(args, keepalive)
  {
    hide U32, EncodeArgs;
    EncodeNone(args);
    var messageLength, i := 8, 0;
    while i < |args|
      invariant 0 <= i <= |args| && messageLength == 8 + |EncodeArgs(args[..i])|
    {
      EncodeArgsStep(args, i);
      messageLength := messageLength + 4 + |args[i]|;
      i := i + 1;
    }
    assert args[..|args|] == args;
    var buffer := new byte[messageLength];
    Memcpy(buffer, 0, [2, MESSAGE_COMMAND, if keepalive then 1 else 0, 1] + U32(|args|));
    ghost var head := buffer[..8];
    var p := 8;
    i := 0;
    assert head == [2, MESSAGE_COMMAND, if keepalive then 1 else 0, 1] + U32(|args|);
    assert buffer[..8] == head + EncodeArgs(args[..0]);
    while i < |args|
      invariant 0 <= i <= |args| && p == 8 + |EncodeArgs(args[..i])| <= messageLength == 8 + |EncodeArgs(args)|
      invariant buffer[..p] == head + EncodeArgs(args[..i])
    {
      EncodeArgsStep(args, i);
      EncodeArgsSplit(args, i + 1);
      p := PutArg(buffer, p, args[i]);
      ConcatAssociative(head, EncodeArgs(args[..i]), EncodeArg(args[i]));
      i := i + 1;
    }
    assert args[..i] == args && buffer[..p] == buffer[..];
    m := buffer[..];
    ConcatAssociative([2, MESSAGE_COMMAND, if keepalive then 1 else 0, 1], U32(|args|), EncodeArgs(args));
  }

  /** `continue_status ^= 1` on the two values it is applied to: 1 becomes 0, 2 becomes 3. */
  function LastStatus(status: bv8): bv8
  {
    status ^ 1
  }

  class RemctlClient {
    var sent: seq<Data>
    var keptalive: bool

    constructor ()
      ensures sent == [] && keptalive
    {
      sent, keptalive := [], true;
    }

    /**
     * `processRequest`: cuts the message every TOKEN_MAX_DATA octets, repeating three octets of header.
     * ByteBuffer positions are ints, so the message must be shorter than 2 GB.
     */
    method ProcessRequest(args: seq<Data>, keepalive: bool)
      requires |Message(args, keepalive)| < 0x8000_0000
      modifies this
      ensures keptalive == keepalive && old(sent) <= sent
      ensures IsCut(sent[|old(sent)|..], if keepalive then 1 else 0, Encode(args))
    {
      hide Encode;
      ghost var first, payload := |sent|, Encode(args);
      ghost var flag: byte := if keepalive then 1 else 0;
      var buffer := BuildMessage(args, keepalive);
      var position, continueStatus: bv8 := 0, 1;
      assert sent[first..] == [] && payload[..0] == [];
      while position < |buffer|
        invariant 0 <= position <= |buffer| && (position == 0 || 4 < position)
        invariant first <= |sent| && sent[..first] == old(sent)
        invariant position == 0 <==> sent[first..] == []
        invariant continueStatus == if position == 0 then 1 else 2
        invariant position < |buffer| ==> IsPartialCut(sent[first..], flag, payload[..Done(position)])
        invariant position == |buffer| ==> IsCut(sent[first..], flag, payload)
      {
        hide IsCut, IsPartialCut, Message;
        ghost var before, done := sent[first..], Done(position);
        var bytes, next := BuildToken(buffer, position, continueStatus, payload, flag);
        SliceJoin(payload, done, next - 4, bytes[4..]);
        CutStep(before, flag, payload[..done], bytes);
        position := next;
        continueStatus := 2;
        sent := sent + [bytes];
        assert sent[first..] == before + [bytes] && payload[..|payload|] == payload;
      }
      keptalive := keepalive;
    }
  }

  /** The number of payload octets sent when the buffer stands at a position. */
  function Done(position: nat): nat
  {
    if position <= 4 then 0 else position - 4
  }

  lemma SliceJoin(payload: Data, from: nat, to: nat, piece: Data)
    requires from <= to <= |payload| && piece == payload[from..to]
    ensures payload[..from] + piece == payload[..to]
  {
  }

  /** One pass of the loop of `processRequest`. */
  method BuildToken(buffer: Data, position: nat, status: bv8, ghost payload: Data, ghost flag: byte)
    returns (bytes: Data, next: nat)
    requires |payload| >= 4 && buffer == [2, MESSAGE_COMMAND, flag, 1] + payload
    requires position < |buffer| && (position == 0 || 4 < position) && status == if position == 0 then 1 else 2
    ensures position < next <= |buffer| && 4 < next && CommandToken(bytes, flag)
    ensures bytes[4..] == payload[Done(position)..next - 4]
    ensures bytes[3] == if next == |buffer| then if position == 0 then 0 else 3 else if position == 0 then 1 else 2
  {
    var count := |buffer| - position;
    if position != 0 {
      count := count + 4;
    }
    if count > TOKEN_MAX_DATA {
      count := TOKEN_MAX_DATA;
    }
    bytes := NextToken(buffer, position, count);
    next := if position == 0 then count else position + count - 4;
    assert buffer[4..] == payload;
    assert bytes[4..] == buffer[4..][Done(position)..next - 4];
    assert bytes[0] == bytes[..3][0] && bytes[1] == bytes[..3][1] && bytes[2] == bytes[..3][2];
    var continueStatus := if next == |buffer| then LastStatus(status) else status;
    var stored := bytes[3 := continueStatus as byte];
    assert stored[4..] == bytes[4..];
    bytes := stored;
  }

  /** The octets of the next token before its status is stored: the header again, then what comes next. */
  method NextToken(buffer: Data, position: nat, count: nat) returns (bytes: Data)
    requires 4 <= count && |buffer| >= 4 &&
             (if position == 0 then count <= |buffer| else position + count - 4 <= |buffer|)
    ensures |bytes| == count && bytes[..3] == buffer[..3]
    ensures bytes[4..] == if position == 0 then buffer[4..count] else buffer[position..position + count - 4]
  {
    var a := new byte[count](_ => 0);
    if position != 0 {
      Memcpy(a, 0, buffer[..3]);
      ghost var middle := a[..];
      Memcpy(a, 4, buffer[position..position + count - 4]);
      assert a[..3] == middle[..3];
    } else {
      Memcpy(a, 0, buffer[..count]);
    }
    bytes := a[..];
  }

  // The server's continuation automaton.

  /** One step on a continue status; None is the exception for a continuation error. */
  function Step(returnCode: bv8, status: bv8): (next: Option<bv8>)
  {
    if status & !3 != 0 || (status & 2) >> 1 != returnCode then None else Some(2 - (((status + 1) & 2) >> 1))
  }

  /** The automaton completes a command with the last of the statuses and not before. */
  predicate Completes(returnCode: bv8, statuses: seq<bv8>)
    decreases |statuses|
  {
    statuses != [] &&
    var next := Step(returnCode, statuses[0]);
    next.Some? && if next.value == 2 then |statuses| == 1 else Completes(next.value, statuses[1..])
  }

  /** 0, or 1 2* 3. */
  predicate JavaLanguage(statuses: seq<bv8>)
  {
    || statuses == [0]
    || (|statuses| >= 2 && statuses[0] == 1 && statuses[|statuses| - 1] == 3 &&
        forall i :: 0 < i < |statuses| - 1 ==> statuses[i] == 2)
  }

  /** Waiting for a command, 0 completes one and 1 starts one; inside one, 2 continues and 3 completes. */
  lemma StepTable(status: bv8)
    ensures Step(0, status) == if status == 0 then Some(2) else if status == 1 then Some(1) else None
    ensures Step(1, status) == if status == 2 then Some(1) else if status == 3 then Some(2) else None
  {
  }

  predicate ClosedBy3(statuses: seq<bv8>)
  {
    |statuses| >= 1 && statuses[|statuses| - 1] == 3 && forall i :: 0 <= i < |statuses| - 1 ==> statuses[i] == 2
  }

  lemma {:induction false} CompletesContinued(statuses: seq<bv8>)
    ensures Completes(1, statuses) <==> ClosedBy3(statuses)
  {
    hide Step;
    if statuses != [] {
      StepTable(statuses[0]);
      CompletesContinued(statuses[1..]);
      assert |statuses| > 1 && statuses[0] == 2 ==> (ClosedBy3(statuses) <==> ClosedBy3(statuses[1..]));
    }
  }

  /** The Java server completes exactly the status sequences 0 and 1 2* 3. */
  lemma JavaServerLanguage(statuses: seq<bv8>)
    ensures Completes(0, statuses) <==> JavaLanguage(statuses)
  {
    hide Step;
    if statuses != [] {
      StepTable(statuses[0]);
      CompletesContinued(statuses[1..]);
    }
  }

  /** The loop of `serve_a_client` over the statuses of one command: how many tokens it takes, if it completes. */
  method ServeStatuses(statuses: seq<bv8>) returns (taken: Option<nat>)
    ensures taken.Some? ==> taken.value <= |statuses| && JavaLanguage(statuses[..taken.value])
    ensures taken.None? ==> forall n :: 0 <= n <= |statuses| ==> !JavaLanguage(statuses[..n])
  {
    hide Step;
    var returnCode: bv8, i := 0, 0;
    while i < |statuses|
      invariant 0 <= i <= |statuses| && returnCode in {0, 1}
      invariant if i == 0 then returnCode == 0
                else returnCode == 1 && statuses[0] == 1 && forall k :: 0 < k < i ==> statuses[k] == 2
      invariant forall n :: 0 <= n <= i ==> !JavaLanguage(statuses[..n])
    {
      StepTable(statuses[i]);
      var next := Step(returnCode, statuses[i]);
      if next.None? {
        return None;
      }
      returnCode := next.value;
      i := i + 1;
      if returnCode == 2 {
        return Some(i);
      }
    }
    return None;
  }

  /** Tokens that carry the given statuses. */
  predicate Carries(tokens: seq<Data>, statuses: seq<bv8>)
    requires CommandTokens(tokens)
  {
    |tokens| == |statuses| && forall i :: 0 <= i < |tokens| ==> tokens[i][3] == statuses[i] as byte
  }

  /** Every status sequence that completes a command for the Java server completes it for the C server. */
  lemma JavaWithinC(tokens: seq<Data>, statuses: seq<bv8>)
    requires CommandTokens(tokens) && Carries(tokens, statuses) && JavaLanguage(statuses)
    ensures CLanguage(tokens)
  {
  }

  /** Every cut made by one of the clients is completed by both servers. */
  lemma ClientsWithinJava(tokens: seq<Data>, keepalive: byte, payload: Data, statuses: seq<bv8>)
    requires IsCut(tokens, keepalive, payload) && |statuses| == |tokens|
    requires forall i :: 0 <= i < |tokens| ==> tokens[i][3] == statuses[i] as byte
    ensures JavaLanguage(statuses) && CommandTokens(tokens) && CLanguage(tokens)
  {
  }
}
