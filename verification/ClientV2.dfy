/** The protocol v2 client: cutting a command into tokens (client/client-v2.c). */
module ClientV2 {
  import opened Bytes
  import opened Protocol
  import opened CommandCodec
  import opened Fragments

  /** The number of payload octets before octet `offset` of argument `iov`. */
  function At(command: seq<Data>, iov: nat, offset: nat): (n: nat)
    requires iov <= |command|
  {
    At'(4 + |EncodeArgs(command[..iov])|, offset)
  }

  /** The same for an argument whose length stands at octet `at`. */
  function At'(at: nat, offset: nat): (n: nat)
  {
    at + if offset == 0 then 0 else 4 + offset
  }

  predicate Position(command: seq<Data>, iov: nat, offset: nat)
  {
    iov <= |command| && (offset > 0 ==> iov < |command| && offset < |command[iov]|)
  }

  /**
   * A place where a token may end: between two arguments, or inside the octets of an argument after at
   * least one of them.  A length is never cut, and never ends a token when octets follow it.
   */
  ghost predicate CleanCut(command: seq<Data>, n: nat)
  {
    exists iov, offset :: Position(command, iov, offset) && n == At(command, iov, offset)
  }

  predicate FitsUpTo(command: seq<Data>, n: nat)
    requires n <= |command|
  {
    n == 0 || (|command[n - 1]| < UINT32_LIMIT && FitsUpTo(command, n - 1))
  }

  /** The arguments whose length has been written when sending stands at a position all fit. */
  predicate FitsBefore(command: seq<Data>, iov: nat, offset: nat)
    requires Position(command, iov, offset)
  {
    FitsUpTo(command, if offset > 0 then iov + 1 else iov)
  }

  lemma {:induction false} FitsUpToFits(command: seq<Data>, n: nat)
    requires n <= |command|
    ensures FitsUpTo(command, n) <==> Fits(command[..n])
  {
    if n > 0 {
      FitsUpToFits(command, n - 1);
      assert forall k :: 0 <= k < n - 1 ==> command[..n][k] == command[..n - 1][k];
    }
  }

  lemma ArgInPayload(command: seq<Data>, iov: nat)
    requires iov < |command|
    ensures var at, arg, payload := At(command, iov, 0), command[iov], Encode(command);
            && at + 4 + |arg| <= |payload|
            && payload[at..at + 4] == U32(|arg|)
            && payload[at + 4..at + 4 + |arg|] == arg
            && At(command, iov + 1, 0) == at + 4 + |arg|
  {
    hide U32, EncodeArgs;
    var at, arg, payload := At(command, iov, 0), command[iov], Encode(command);
    EncodeArgsStep(command, iov);
    EncodeArgsSplit(command, iov + 1);
    var before := U32(|command|) + EncodeArgs(command[..iov]);
    var after := EncodeArgs(command[iov + 1..]);
    assert payload == before + (U32(|arg|) + (arg + after));
    assert |before| == at;
    assert payload[at..] == U32(|arg|) + (arg + after);
    assert payload[at + 4..] == arg + after;
  }

  lemma SliceOfSlice(d: Data, from: nat, s: Data, offset: nat, n: nat)
    requires from + |s| <= |d| && d[from..from + |s|] == s && offset + n <= |s|
    ensures d[from + offset..from + offset + n] == s[offset..offset + n]
  {
    var t := d[from..];
    assert d[from..from + |s|] == t[..|s|];
    assert d[from + offset..from + offset + n] == t[offset..offset + n];
    assert s[offset..offset + n] == t[..|s|][offset..offset + n] == t[offset..offset + n];
  }

  lemma StartOfArgs(command: seq<Data>)
    ensures At(command, 0, 0) == 4
  {
    assert command[..0] == [];
  }

  lemma EndOfPayload(command: seq<Data>)
    ensures At(command, |command|, 0) == |Encode(command)|
  {
    assert command[..|command|] == command;
  }

  class Remctl {
    var sent: seq<Data>
    var failed: bool
    var ready: bool

    constructor ()
      ensures sent == [] && !failed && !ready
    {
      sent, failed, ready := [], false, false;
    }

    /** `token_send_priv`: may fail at any time, and refuses data over TOKEN_MAX_DATA. */
    method SendToken(token: Data) returns (ok: bool)
      modifies this`sent, this`failed
      ensures ok ==> |token| <= TOKEN_MAX_DATA && sent == old(sent) + [token] && failed == old(failed)
      ensures !ok ==> sent == old(sent) && failed
    {
      ok := *;
      if |token| > TOKEN_MAX_DATA {
        ok := false;
      }
      if ok {
        sent := sent + [token];
      } else {
        failed := true;
      }
    }

    /** `internal_v2_commandv`: sends a command in as few tokens as its rules on cuts allow. */
    method CommandV(command: seq<Data>) returns (ok: bool)
      modifies this
      ensures old(sent) <= sent
      ensures !old(failed) ==> (ok <==> |command| < UINT32_LIMIT && Fits(command) && !failed)
      ensures ok ==> ready && SentWhole(command, sent[|old(sent)|..])
      ensures !ok ==> ready == old(ready)
      ensures !ok ==> exists n :: 0 <= n < |Encode(command)| && SentPart(command, sent[|old(sent)|..], n)
    {
      hide U32, EncodeArgs, Encode, IsNext;
      ghost var first, payload := |sent|, Encode(command);
      var count := |command|;
      assert sent[first..] == [] && payload[..0] == [];
      if count >= UINT32_LIMIT {
        assert SentPart(command, sent[first..], 0);
        return false;
      }
      StartOfArgs(command);
      var length: nat, iov: nat := 4, 0;
      while iov < count
        modifies {}
        invariant iov <= count && length == At(command, iov, 0)
      {
        ArgInPayload(command, iov);
        length := length + 4 + |command[iov]|;
        iov := iov + 1;
      }
      EndOfPayload(command);

      iov := 0;
      var offset: nat, sentOctets: nat := 0, 0;
      while sentOctets < length
        invariant first <= |sent| && old(sent) == sent[..first]
        invariant 0 <= sentOctets <= length == |payload|
        invariant Position(command, iov, offset) && FitsBefore(command, iov, offset)
        invariant if sentOctets == 0 then iov == 0 && offset == 0 else sentOctets == At(command, iov, offset)
        invariant sentOctets == length ==> iov == count
        invariant ready == old(ready) && failed == old(failed)
        invariant if sentOctets == length then SentWhole(command, sent[first..])
                  else SentPart(command, sent[first..], sentOctets)
        decreases length - sentOctets
      {
        ghost var base, before := sentOctets, sent;
        var fits, message;
        fits, message, iov, offset, sentOctets := BuildToken(command, length, iov, offset, sentOctets);
        if !fits {
          return false;
        }
        var done := SendToken(message);
        if !done {
          return false;
        }
        assert sent[first..] == before[first..] + [message];
        SendStep(command, before[first..], base, message, sentOctets);
      }
      FitsUpToFits(command, |command|);
      assert command[..|command|] == command;
      ready := true;
      return true;
    }
  }

  /** Every token ends at a clean cut, and every token but the last is full up to four octets. */
  ghost predicate WellCut(command: seq<Data>, tokens: seq<Data>)
  {
    && (forall k :: 0 < k <= |tokens| ==> CleanCut(command, |Payload(tokens[..k])|))
    && (forall k :: 0 <= k < |tokens| - 1 ==> |tokens[k]| >= TOKEN_MAX_DATA - 4)
  }

  ghost predicate SentWhole(command: seq<Data>, tokens: seq<Data>)
  {
    IsCut(tokens, 1, Encode(command)) && WellCut(command, tokens)
  }

  /** The first n octets of the payload have been sent, and the last token announces more. */
  ghost predicate SentPart(command: seq<Data>, tokens: seq<Data>, n: nat)
    requires n < |Encode(command)|
  {
    && IsPartialCut(tokens, 1, Encode(command)[..n])
    && (n == 0 <==> tokens == [])
    && WellCut(command, tokens)
    && (tokens != [] ==> |tokens[|tokens| - 1]| >= TOKEN_MAX_DATA - 4)
  }

  /** The token carries payload octets n to m, is full unless m is the end, and is labelled accordingly. */
  predicate IsNext(payload: Data, n: nat, token: Data, m: nat)
  {
    && n < m <= |payload|
    && CommandToken(token, 1)
    && token[4..] == payload[n..m]
    && (m < |payload| ==> |token| >= TOKEN_MAX_DATA - 4)
    && token[3] == if m < |payload| then if n == 0 then 1 else 2 else if n == 0 then 0 else 3
  }

  /** What one more token does to the tokens sent before. */
  lemma SendStep(command: seq<Data>, tokens: seq<Data>, n: nat, token: Data, m: nat)
    requires IsNext(Encode(command), n, token, m) && CleanCut(command, m)
    requires SentPart(command, tokens, n)
    ensures if m < |Encode(command)| then SentPart(command, tokens + [token], m)
            else SentWhole(command, tokens + [token])
  {
    var payload, all := Encode(command), tokens + [token];
    CutStep(tokens, 1, payload[..n], token);
    assert payload[..n] + token[4..] == payload[..m];
    assert payload[..|payload|] == payload;
    forall k | 0 < k <= |all| ensures CleanCut(command, |Payload(all[..k])|) {
      if k == |all| {
        assert all[..k] == all;
      } else {
        assert all[..k] == tokens[..k];
      }
    }
  }

  /** Copies the next octets of the payload behind those already in the token. */
  method CopyNext(token: array<byte>, p: nat, octets: Data, ghost payload: Data, ghost base: nat, ghost sent: nat)
    requires 4 <= p && p + |octets| <= token.Length
    requires base <= sent && sent + |octets| <= |payload|
    requires token[4..p] == payload[base..sent] && octets == payload[sent..sent + |octets|]
    modifies token
    ensures token[..4] == old(token[..4])
    ensures token[4..p + |octets|] == payload[base..sent + |octets|]
  {
    Memcpy(token, p, octets);
    assert token[..4] == old(token[..p])[..4];
    assert token[4..p + |octets|] == old(token[4..p]) + octets;
  }

  datatype Put = Complete | Stopped | TooLong

  /**
   * Writes one argument, found at octet `at` of the payload, from its octet `offset0` on; its length
   * goes first if nothing of it was sent before.
   */
  method PutArg(arg: Data, token: array<byte>, p0: nat, offset0: nat, ghost payload: Data, ghost base: nat,
                ghost at: nat)
    returns (r: Put, p: nat, offset: nat)
    requires at + 4 + |arg| <= |payload| && payload[at..at + 4] == U32(|arg|)
    requires payload[at + 4..at + 4 + |arg|] == arg
    requires offset0 == 0 || offset0 < |arg|
    requires base <= At'(at, offset0) && 4 <= p0 == 4 + At'(at, offset0) - base <= token.Length
    requires token[4..p0] == payload[base..At'(at, offset0)]
    modifies token
    ensures token[..4] == old(token[..4])
    ensures p0 <= p <= token.Length
    ensures r.TooLong? ==> |arg| >= UINT32_LIMIT
    ensures !r.TooLong? && offset0 == 0 ==> |arg| < UINT32_LIMIT || (r.Stopped? && offset == 0)
    ensures r.Complete? ==> offset == 0 && p == 4 + at + 4 + |arg| - base &&
                            token[4..p] == payload[base..at + 4 + |arg|]
    ensures r.Stopped? ==> (offset == 0 || offset < |arg|) && p == 4 + At'(at, offset) - base
    ensures r.Stopped? ==> (offset == 0 ==> offset0 == 0)
    ensures r.Stopped? ==> token[4..p] == payload[base..At'(at, offset)]
    ensures r.Stopped? ==> token.Length - p <= 4 && token.Length - p < at + 4 + |arg| - At'(at, offset)
  {
    hide U32;
    p, offset := p0, offset0;
    var left := token.Length - p;
    if offset == 0 {
      if left < 4 || (left < 5 && |arg| > 0) {
        return Stopped, p, offset;
      }
      if |arg| >= UINT32_LIMIT {
        return TooLong, p, offset;
      }
      CopyNext(token, p, U32(|arg|), payload, base, at);
      p, left := p + 4, left - 4;
    }
    r, p, offset := PutOctets(arg, token, p, offset, payload, base, at);
  }

  /** Writes the octets of an argument from `offset0` on, as many as fit. */
  method PutOctets(arg: Data, token: array<byte>, p0: nat, offset0: nat, ghost payload: Data, ghost base: nat,
                   ghost at: nat)
    returns (r: Put, p: nat, offset: nat)
    requires at + 4 + |arg| <= |payload| && payload[at + 4..at + 4 + |arg|] == arg
    requires offset0 <= |arg| && base <= at + 4 + offset0 && 4 <= p0 == 4 + (at + 4 + offset0) - base <= token.Length
    requires offset0 < |arg| ==> p0 < token.Length || offset0 > 0
    requires token[4..p0] == payload[base..at + 4 + offset0]
    modifies token
    ensures token[..4] == old(token[..4])
    ensures p0 <= p <= token.Length && !r.TooLong?
    ensures r.Complete? ==> offset == 0 && p == 4 + at + 4 + |arg| - base &&
                            token[4..p] == payload[base..at + 4 + |arg|]
    ensures r.Stopped? ==> 0 < offset < |arg| && p == 4 + at + 4 + offset - base == token.Length
    ensures r.Stopped? ==> token[4..p] == payload[base..at + 4 + offset]
  {
    hide U32;
    var left := token.Length - p0;
    var delta := if left >= |arg| - offset0 then |arg| - offset0 else left;
    SliceOfSlice(payload, at + 4, arg, offset0, delta);
    CopyNext(token, p0, arg[offset0..offset0 + delta], payload, base, at + 4 + offset0);
    p, offset := p0 + delta, offset0 + delta;
    if offset < |arg| {
      return Stopped, p, offset;
    }
    return Complete, p, 0;
  }

  /** The octets are those of the payload from octet `base` up to a position, and every length among them fits. */
  ghost predicate Written(command: seq<Data>, octets: Data, base: nat, iov: nat, offset: nat)
  {
    && Position(command, iov, offset) && FitsBefore(command, iov, offset)
    && base <= At(command, iov, offset) <= |Encode(command)|
    && octets == Encode(command)[base..At(command, iov, offset)]
  }

  lemma WrittenAll(command: seq<Data>, octets: Data, base: nat, offset: nat)
    requires Written(command, octets, base, |command|, offset)
    ensures At(command, |command|, offset) == |Encode(command)|
  {
    EndOfPayload(command);
  }

  /** A token that was left early has fewer than five octets of room, and not enough for the rest of the payload. */
  ghost predicate NoRoom(command: seq<Data>, left: int, iov: nat, offset: nat)
  {
    iov <= |command| && left <= 4 && left < |Encode(command)| - At(command, iov, offset)
  }

  /** One pass of the inner loop: the argument at hand, or what fits of it. */
  method PutNext(command: seq<Data>, token: array<byte>, p0: nat, iov0: nat, offset0: nat, ghost base: nat)
    returns (r: Put, p: nat, iov: nat, offset: nat)
    requires iov0 < |command| && 4 <= p0 <= token.Length && Written(command, token[4..p0], base, iov0, offset0)
    modifies token
    ensures token[..4] == old(token[..4]) && p0 <= p <= token.Length
    ensures r.TooLong? ==> !Fits(command)
    ensures !r.TooLong? ==> Written(command, token[4..p], base, iov, offset)
    ensures r.Complete? ==> iov == iov0 + 1
    ensures r.Stopped? ==> iov == iov0 && NoRoom(command, token.Length - p, iov, offset)
  {
    hide U32, Encode, EncodeArgs;
    iov := iov0;
    ArgInPayload(command, iov);
    r, p, offset := PutArg(command[iov], token, p0, offset0, Encode(command), base, At(command, iov, 0));
    if r.TooLong? {
      FitsUpToFits(command, iov + 1);
    } else if r.Complete? {
      iov := iov + 1;
    }
  }

  /**
   * The inner loop of `internal_v2_commandv`: writes as many arguments as fit behind what the token
   * already holds.
   */
  method FillToken(command: seq<Data>, token: array<byte>, start: nat, iov0: nat, offset0: nat, ghost base: nat)
    returns (fits: bool, p: nat, iov: nat, offset: nat)
    requires 4 <= start <= token.Length && Written(command, token[4..start], base, iov0, offset0)
    modifies token
    ensures token[..4] == old(token[..4]) && start <= p <= token.Length
    ensures !fits ==> !Fits(command)
    ensures fits ==> Written(command, token[4..p], base, iov, offset)
    ensures fits ==> if At(command, iov, offset) < |Encode(command)| then NoRoom(command, token.Length - p, iov, offset)
                     else iov == |command|
  {
    hide Encode, EncodeArgs, FitsBefore, At;
    p, iov, offset, fits := start, iov0, offset0, true;
    var r := Complete;
    while r.Complete? && iov < |command|
      invariant start <= p <= token.Length && token[..4] == old(token[..4])
      invariant Written(command, token[4..p], base, iov, offset) && !r.TooLong?
      invariant r.Stopped? ==> NoRoom(command, token.Length - p, iov, offset)
      decreases |command| - iov, r.Complete?
    {
      r, p, iov, offset := PutNext(command, token, p, iov, offset, base);
      if r.TooLong? {
        return false, p, iov, offset;
      }
    }
    if iov == |command| {
      WrittenAll(command, token[4..p], base, offset);
    }
  }

  /** The length of the next token before trimming, and the status chosen from it. */
  function TokenLength(length: nat, sent: nat): nat
    requires sent < length
  {
    if length - sent > TOKEN_MAX_DATA - 4 then TOKEN_MAX_DATA else length - sent + 4
  }

  function TokenStatus(length: nat, sent: nat): byte
    requires sent < length
  {
    if TokenLength(length, sent) == length - sent + 4 then
      if sent == 0 then 0 else 3
    else
      if sent == 0 then 1 else 2
  }

  /** The status chosen before the token is trimmed is the right one: only a full token is trimmed. */
  lemma StatusIsRight(payload: Data, n: nat, message: Data, m: nat, left: nat)
    requires n <= m <= |payload| && n < |payload|
    requires |message| + left == TokenLength(|payload|, n) && |message| == 4 + m - n
    requires message[..4] == [2, MESSAGE_COMMAND, 1, TokenStatus(|payload|, n)] && message[4..] == payload[n..m]
    requires m < |payload| ==> left <= 4 && left < |payload| - m
    ensures IsNext(payload, n, message, m)
  {
    assert message[0] == message[..4][0] && message[1] == message[..4][1];
    assert message[2] == message[..4][2] && message[3] == message[..4][3];
  }

  method NewToken(length: nat, status: byte) returns (token: array<byte>)
    requires length >= 4
    ensures fresh(token) && token.Length == length && token[..4] == [2, MESSAGE_COMMAND, 1, status]
  {
    token := new byte[length];
    token[0], token[1], token[2], token[3] := 2, MESSAGE_COMMAND, 1, status;
  }

  /** One pass of the sending loop: the next token, from payload octet `sent0` up to octet `sent`. */
  method BuildToken(command: seq<Data>, length: nat, iov0: nat, offset0: nat, sent0: nat)
    returns (fits: bool, message: Data, iov: nat, offset: nat, sent: nat)
    requires length == |Encode(command)| && |command| < UINT32_LIMIT
    requires Position(command, iov0, offset0) && FitsBefore(command, iov0, offset0)
    requires sent0 < length && if sent0 == 0 then iov0 == 0 && offset0 == 0 else sent0 == At(command, iov0, offset0)
    ensures !fits ==> !Fits(command)
    ensures fits ==> Position(command, iov, offset) && FitsBefore(command, iov, offset)
    ensures fits ==> sent == At(command, iov, offset) && (sent == length ==> iov == |command|)
    ensures fits ==> IsNext(Encode(command), sent0, message, sent)
  {
    ghost var payload := Encode(command);
    var token := NewToken(TokenLength(length, sent0), TokenStatus(length, sent0));
    var p := 4;
    if sent0 == 0 {
      CopyNext(token, 4, U32(|command|), payload, 0, 0);
      p := p + 4;
      assert command[..0] == [];
    }
    fits, p, iov, offset := FillToken(command, token, p, iov0, offset0, sent0);
    message, sent := token[..p], sent0 + p - 4;
    if fits {
      assert message[..4] == token[..4] && message[4..] == token[4..p];
      StatusIsRight(payload, sent0, message, sent, token.Length - p);
    }
  }
}
