/** Tokens on a byte stream (util/tokens.c, util/network.c): flags, a length and the data. */
module TokenStream {
  import opened Bytes
  import opened XWrite

  datatype StreamToken = StreamToken(flags: byte, data: Data)

  datatype Failure = FailSystem | FailSocket | FailLarge | FailEof | FailTimeout

  datatype Received = Ok(token: StreamToken) | Fail(failure: Failure)

  /** What goes over the wire for a token. */
  function TokenBytes(t: StreamToken): (d: Data)
    ensures |d| == 5 + |t.data|
  {
    [t.flags] + U32(|t.data|) + t.data
  }

  function StreamBytes(ts: seq<StreamToken>): Data
  {
    if ts == [] then [] else TokenBytes(ts[0]) + StreamBytes(ts[1..])
  }

  predicate Sendable(t: StreamToken)
  {
    |t.data| <= UINT32_LIMIT - 1 - 1 - 4
  }

  /** A stream that begins with a token begins with no other. */
  lemma TokenPrefixUnique(t: StreamToken, rest: Data, u: StreamToken, more: Data)
    requires Sendable(t) && Sendable(u) && TokenBytes(t) + rest == TokenBytes(u) + more
    ensures t == u && rest == more
  {
    hide U32, OfU32;
    var d := TokenBytes(t) + rest;
    assert d[0] == t.flags && d[0] == u.flags;
    assert d[1..5] == U32(|t.data|) && d[1..5] == U32(|u.data|);
    DecodeEncodeU32(|t.data|);
    DecodeEncodeU32(|u.data|);
    assert d[5..5 + |t.data|] == t.data && d[5..5 + |u.data|] == u.data;
    assert d[5 + |t.data|..] == rest && d[5 + |u.data|..] == more;
  }

  /** As many tokens as were sent, received one after the other, are the tokens that were sent. */
  lemma {:induction false} StreamUnique(sent: seq<StreamToken>, rest: Data, received: seq<StreamToken>, more: Data)
    requires |sent| == |received| && (forall t :: t in sent ==> Sendable(t))
    requires (forall t :: t in received ==> Sendable(t))
    requires StreamBytes(sent) + rest == StreamBytes(received) + more
    ensures sent == received && rest == more
  {
    if sent == [] {
      assert [] + rest == rest && [] + more == more;
    } else {
      hide TokenBytes;
      ConcatAssociative(TokenBytes(sent[0]), StreamBytes(sent[1..]), rest);
      ConcatAssociative(TokenBytes(received[0]), StreamBytes(received[1..]), more);
      TokenPrefixUnique(sent[0], StreamBytes(sent[1..]) + rest, received[0], StreamBytes(received[1..]) + more);
      StreamUnique(sent[1..], rest, received[1..], more);
      assert sent == [sent[0]] + sent[1..] && received == [received[0]] + received[1..];
    }
  }

  lemma {:induction false} StreamBytesSnoc(ts: seq<StreamToken>, t: StreamToken)
    ensures StreamBytes(ts + [t]) == StreamBytes(ts) + TokenBytes(t)
  {
    hide TokenBytes;
    var all := ts + [t];
    if ts == [] {
      assert all[1..] == [];
    } else {
      assert all[0] == ts[0] && all[1..] == ts[1..] + [t];
      StreamBytesSnoc(ts[1..], t);
      ConcatAssociative(TokenBytes(ts[0]), StreamBytes(ts[1..]), TokenBytes(t));
    }
  }

  /** The octets do not begin with a whole token. */
  predicate Incomplete(d: Data)
  {
    |d| < 5 || |d| < 5 + OfU32(d[1..5])
  }

  /** A token that was not sent to the end is no token. */
  lemma PartOfToken(t: StreamToken, n: nat)
    requires Sendable(t) && n < |TokenBytes(t)|
    ensures Incomplete(TokenBytes(t)[..n])
  {
    if n >= 5 {
      LengthField(t, []);
      assert TokenBytes(t) + [] == TokenBytes(t);
      assert TokenBytes(t)[..n][1..5] == TokenBytes(t)[1..5];
    }
  }

  // Reading and writing under any schedule.

  /**
   * What the system does at one turn of a loop: an interruption, an error, the end of the timeout, or a
   * transfer of at most n octets, after which the time may be up.  A schedule is all turns there are.
   */
  datatype Outcome = Interrupted | Broken | TimedOut | Moved(n: nat, expired: bool)

  /** With a timeout, the schedule moves this many octets; for a read a move of none means the end. */
  predicate Moves(schedule: seq<Outcome>, need: nat, reading: bool)
    decreases |schedule|
  {
    schedule != [] &&
    match schedule[0]
    case Interrupted => Moves(schedule[1..], need, reading)
    case Moved(n, expired) =>
      (n > 0 || !reading) && (n >= need || (!expired && Moves(schedule[1..], need - n, reading)))
    case _ => false
  }

  /** What turn k decides. */
  lemma MovesStep(schedule: seq<Outcome>, k: nat, need: nat, reading: bool)
    requires k <= |schedule|
    ensures schedule[0..] == schedule
    ensures Moves(schedule[k..], need, reading) <==>
      k < |schedule| &&
      match schedule[k]
      case Interrupted => Moves(schedule[k + 1..], need, reading)
      case Moved(n, expired) =>
        (n > 0 || !reading) && (n >= need || (!expired && Moves(schedule[k + 1..], need - n, reading)))
      case _ => false
  {
    assert k < |schedule| ==> schedule[k..][1..] == schedule[k + 1..];
  }

  /** Without a timeout a read may stay idle, being interrupted, for fewer than a hundred turns in a row. */
  predicate MovesPatiently(schedule: seq<Outcome>, need: nat, idle: nat)
    decreases |schedule|
  {
    need == 0 ||
    (schedule != [] && idle < 100 &&
     match schedule[0]
     case Interrupted => MovesPatiently(schedule[1..], need, idle + 1)
     case Moved(n, _) => n > 0 && (n >= need || MovesPatiently(schedule[1..], need - n, 0))
     case _ => false)
  }

  // Schedules in plain words.

  /** The octets moved in the first n turns. */
  function Total(schedule: seq<Outcome>, n: nat): nat
    requires n <= |schedule|
  {
    if n == 0 then 0
    else Total(schedule, n - 1) + if schedule[n - 1].Moved? then schedule[n - 1].n else 0
  }

  /** The interruptions in a row right before turn n. */
  function IdleBefore(schedule: seq<Outcome>, n: nat): (idle: nat)
    requires n <= |schedule|
    ensures idle <= n
  {
    if n == 0 || !schedule[n - 1].Interrupted? then 0 else 1 + IdleBefore(schedule, n - 1)
  }

  lemma {:induction false} IdleMeaning(schedule: seq<Outcome>, n: nat, m: nat)
    requires n <= |schedule|
    ensures IdleBefore(schedule, n) >= m <==> m <= n && forall i :: n - m <= i < n ==> schedule[i].Interrupted?
    decreases n
  {
    if n > 0 && m > 0 {
      IdleMeaning(schedule, n - 1, m - 1);
    }
  }

  /** An interruption or a move of at least one octet. */
  predicate Harmless(turn: Outcome)
  {
    turn.Interrupted? || (turn.Moved? && turn.n > 0)
  }

  /** Turn j is taken: it does not fail, fewer than a hundred in a row were idle, and more is needed. */
  predicate Bearable(schedule: seq<Outcome>, j: nat, need: nat)
    requires j < |schedule|
  {
    Harmless(schedule[j]) && IdleBefore(schedule, j) < 100 && Total(schedule, j) < need
  }

  predicate Taken(schedule: seq<Outcome>, k: nat, n: nat, need: nat)
    requires k <= n <= |schedule|
  {
    forall j :: k <= j < n ==> Bearable(schedule, j, need)
  }

  lemma PatientlyStep(schedule: seq<Outcome>, k: nat, need: nat, idle: nat)
    requires k < |schedule| && need > 0
    ensures MovesPatiently(schedule[k..], need, idle) <==>
      idle < 100 &&
      match schedule[k]
      case Interrupted => MovesPatiently(schedule[k + 1..], need, idle + 1)
      case Moved(n, _) => n > 0 && (n >= need || MovesPatiently(schedule[k + 1..], need - n, 0))
      case _ => false
  {
    assert schedule[k..][1..] == schedule[k + 1..];
  }

  /** The turns that are taken from k on move what is needed. */
  ghost predicate Suffices(schedule: seq<Outcome>, k: nat, need: nat)
    requires k <= |schedule|
  {
    exists n :: k < n <= |schedule| && Total(schedule, n) >= need && Taken(schedule, k, n, need)
  }

  lemma SufficesStep(schedule: seq<Outcome>, k: nat, need: nat)
    requires k < |schedule| && Total(schedule, k) < need
    ensures Suffices(schedule, k, need) <==>
      Bearable(schedule, k, need) && (Total(schedule, k + 1) >= need || Suffices(schedule, k + 1, need))
  {
    hide Total, Bearable;
    if Bearable(schedule, k, need) && Total(schedule, k + 1) >= need {
      assert Taken(schedule, k, k + 1, need);
    }
    forall n | k + 1 <= n <= |schedule|
      ensures Taken(schedule, k, n, need) <==> Bearable(schedule, k, need) && Taken(schedule, k + 1, n, need)
    {
    }
  }

  lemma {:induction false} PatientlyFrom(schedule: seq<Outcome>, k: nat, need: nat)
    requires k <= |schedule| && Total(schedule, k) < need
    ensures MovesPatiently(schedule[k..], need - Total(schedule, k), IdleBefore(schedule, k)) <==>
      Suffices(schedule, k, need)
    decreases |schedule| - k
  {
    if k < |schedule| {
      PatientlyStep(schedule, k, need - Total(schedule, k), IdleBefore(schedule, k));
      SufficesStep(schedule, k, need);
      hide MovesPatiently, Suffices;
      assert Total(schedule, k + 1) == Total(schedule, k) + if schedule[k].Moved? then schedule[k].n else 0;
      assert IdleBefore(schedule, k + 1) == if schedule[k].Interrupted? then 1 + IdleBefore(schedule, k) else 0;
      if Total(schedule, k + 1) < need {
        PatientlyFrom(schedule, k + 1, need);
      }
    }
  }

  /** Turn j is an interruption or a move and needed, and the hundred turns before it were not all interruptions. */
  predicate BorneTurn(schedule: seq<Outcome>, j: nat, need: nat)
    requires j < |schedule|
  {
    && Harmless(schedule[j]) && Total(schedule, j) < need
    && (j >= 100 ==> exists i :: j - 100 <= i < j && schedule[i].Moved?)
  }

  predicate Borne(schedule: seq<Outcome>, n: nat, need: nat)
    requires n <= |schedule|
  {
    forall j :: 0 <= j < n ==> BorneTurn(schedule, j, need)
  }

  lemma {:induction false} HundredTurns(schedule: seq<Outcome>, n: nat, need: nat)
    requires n <= |schedule|
    ensures Taken(schedule, 0, n, need) <==> Borne(schedule, n, need)
    ensures Borne(schedule, n, need) ==> forall i :: 0 <= i < n ==> Harmless(schedule[i])
  {
    if n > 0 {
      HundredTurns(schedule, n - 1, need);
      assert Taken(schedule, 0, n, need) <==> Taken(schedule, 0, n - 1, need) && Bearable(schedule, n - 1, need);
      assert Borne(schedule, n, need) <==> Borne(schedule, n - 1, need) && BorneTurn(schedule, n - 1, need);
      if Borne(schedule, n - 1, need) {
        HundredBefore(schedule, n - 1);
      }
      hide Taken, Borne, IdleBefore, Total;
    }
  }

  lemma HundredBefore(schedule: seq<Outcome>, j: nat)
    requires j <= |schedule| && forall i :: 0 <= i < j ==> Harmless(schedule[i])
    ensures IdleBefore(schedule, j) < 100 <==> (j >= 100 ==> exists i :: j - 100 <= i < j && schedule[i].Moved?)
  {
    IdleMeaning(schedule, j, 100);
    hide IdleBefore;
    assert forall i :: 0 <= i < j ==> (schedule[i].Moved? <==> !schedule[i].Interrupted?);
  }

  /** Without a timeout a read goes through exactly if so many borne turns move the octets it needs. */
  lemma PatienceOfReads(schedule: seq<Outcome>, need: nat)
    requires need > 0
    ensures MovesPatiently(schedule, need, 0) <==>
      exists n :: 0 < n <= |schedule| && Total(schedule, n) >= need && Borne(schedule, n, need)
  {
    assert schedule[0..] == schedule;
    PatientlyFrom(schedule, 0, need);
    assert Total(schedule, 0) == 0 && IdleBefore(schedule, 0) == 0;
    hide Total, IdleBefore, Taken, Borne, MovesPatiently;
    forall n | 0 < n <= |schedule| ensures Taken(schedule, 0, n, need) <==> Borne(schedule, n, need) {
      HundredTurns(schedule, n, need);
    }
  }

  /**
   * Turn j neither fails nor, for a read, ends the stream, and the time is not up after it unless it was the
   * last needed.
   */
  predicate Timely(schedule: seq<Outcome>, j: nat, need: nat, reading: bool)
    requires j < |schedule|
  {
    && (schedule[j].Interrupted? || (schedule[j].Moved? && (reading ==> schedule[j].n > 0)
                                     && (schedule[j].expired ==> Total(schedule, j + 1) >= need)))
    && Total(schedule, j) < need
  }

  ghost predicate SufficesInTime(schedule: seq<Outcome>, k: nat, need: nat, reading: bool)
    requires k <= |schedule|
  {
    exists n ::
      && k < n <= |schedule| && Total(schedule, n) >= need
      && forall j :: k <= j < n ==> Timely(schedule, j, need, reading)
  }

  lemma InTimeStep(schedule: seq<Outcome>, k: nat, need: nat, reading: bool)
    requires k < |schedule| && Total(schedule, k) < need
    ensures SufficesInTime(schedule, k, need, reading) <==>
      Timely(schedule, k, need, reading)
      && (Total(schedule, k + 1) >= need || SufficesInTime(schedule, k + 1, need, reading))
  {
    hide Total, Timely;
    if Timely(schedule, k, need, reading) && Total(schedule, k + 1) >= need {
      assert forall j :: k <= j < k + 1 ==> Timely(schedule, j, need, reading);
    }
    if Timely(schedule, k, need, reading) && SufficesInTime(schedule, k + 1, need, reading) {
      var n :| k + 1 < n <= |schedule| && Total(schedule, n) >= need
        && forall j :: k + 1 <= j < n ==> Timely(schedule, j, need, reading);
      assert forall j :: k <= j < n ==> Timely(schedule, j, need, reading);
    }
    if SufficesInTime(schedule, k, need, reading) {
      var n :| k < n <= |schedule| && Total(schedule, n) >= need
        && forall j :: k <= j < n ==> Timely(schedule, j, need, reading);
      assert n > k + 1 ==> forall j :: k + 1 <= j < n ==> Timely(schedule, j, need, reading);
    }
  }

  /** With a timeout a transfer goes through exactly if timely turns move the octets it needs. */
  lemma {:induction false} MovesMeaning(schedule: seq<Outcome>, k: nat, need: nat, reading: bool)
    requires k <= |schedule| && Total(schedule, k) < need
    ensures Moves(schedule[k..], need - Total(schedule, k), reading) <==> SufficesInTime(schedule, k, need, reading)
    decreases |schedule| - k
  {
    MovesStep(schedule, k, need - Total(schedule, k), reading);
    hide Moves;
    if k < |schedule| {
      InTimeStep(schedule, k, need, reading);
      hide SufficesInTime;
      assert Total(schedule, k + 1) == Total(schedule, k) + if schedule[k].Moved? then schedule[k].n else 0;
      if Total(schedule, k + 1) < need {
        MovesMeaning(schedule, k + 1, need, reading);
      }
    }
  }

  predicate ReadsThrough(timeout: bool, schedule: seq<Outcome>, total: nat)
  {
    if timeout then Moves(schedule, total, true) else MovesPatiently(schedule, total, 0)
  }

  /** The turns of the three reads of `token_recv`. */
  datatype Turns = Turns(flags: seq<Outcome>, length: seq<Outcome>, data: seq<Outcome>)

  predicate AllReadsThrough(timeout: bool, turns: Turns, length: nat)
  {
    && ReadsThrough(timeout, turns.flags, 1) && ReadsThrough(timeout, turns.length, 4)
    && (length > 0 ==> ReadsThrough(timeout, turns.data, length))
  }

  /** A whole token within the limit is there, and the schedule lets it through. */
  predicate Receivable(stream: Data, max: nat, timeout: bool, turns: Turns)
  {
    |stream| >= 5 &&
    var length := OfU32(stream[1..5]);
    length <= max && |stream| >= 5 + length && AllReadsThrough(timeout, turns, length)
  }

  /**
   * What a receiver makes of a stream that begins with a token within its limit, by the contract of
   * TokenRecv: exactly that token if the reads go through, what follows staying in the stream, and
   * otherwise a failure.
   */
  lemma TokenRecovered(sent: StreamToken, rest: Data, max: nat, timeout: bool, turns: Turns, r: Received,
                       consumed: Data, left: Data)
    requires max < UINT32_LIMIT - 6 && |sent.data| <= max && TokenBytes(sent) + rest == consumed + left
    requires r.Ok? <==> Receivable(TokenBytes(sent) + rest, max, timeout, turns)
    requires r.Ok? ==> consumed == TokenBytes(r.token) && |r.token.data| <= max
    ensures if AllReadsThrough(timeout, turns, |sent.data|) then r == Ok(sent) && left == rest else r.Fail?
  {
    LengthField(sent, rest);
    hide AllReadsThrough;
    if r.Ok? {
      TokenPrefixUnique(sent, rest, r.token, left);
    }
  }

  lemma LengthField(sent: StreamToken, rest: Data)
    requires Sendable(sent)
    ensures OfU32((TokenBytes(sent) + rest)[1..5]) == |sent.data|
  {
    hide U32, OfU32;
    DecodeEncodeU32(|sent.data|);
    assert (TokenBytes(sent) + rest)[1..5] == U32(|sent.data|);
  }

  function Min(a: nat, b: nat): nat
  {
    if a < b then a else b
  }

  class Reader {
    var incoming: Data

    constructor (incoming: Data)
      ensures this.incoming == incoming
    {
      this.incoming := incoming;
    }

    /** `socket_read` of at most n octets: some of the octets that are there. */
    method SocketRead(n: nat) returns (data: Data)
      modifies this
      ensures |data| == Min(n, |old(incoming)|) && old(incoming) == data + incoming
    {
      data := incoming[..Min(n, |incoming|)];
      incoming := incoming[|data|..];
    }

    /** `network_read`: with a timeout, and without one through `socket_xread`. */
    method NetworkRead(total: nat, timeout: bool, schedule: seq<Outcome>)
      returns (data: Data, failure: Option<Failure>)
      requires total > 0
      modifies this
      ensures old(incoming) == data + incoming && |data| <= total
      ensures failure.None? <==> |data| == total
      ensures failure.None? <==> |old(incoming)| >= total && ReadsThrough(timeout, schedule, total)
      ensures failure.Some? ==> !failure.value.FailLarge?
    {
      if timeout {
        data, failure := TimedRead(total, schedule);
      } else {
        data, failure := SocketXread(total, schedule);
      }
    }

    method SocketXread(total: nat, schedule: seq<Outcome>) returns (data: Data, failure: Option<Failure>)
      requires total > 0
      modifies this
      ensures old(incoming) == data + incoming && |data| <= total
      ensures failure.None? <==> |data| == total
      ensures failure.None? <==> |old(incoming)| >= total && MovesPatiently(schedule, total, 0)
      ensures failure.Some? ==> !failure.value.FailLarge?
    {
      assert schedule[0..] == schedule;
      data := [];
      var count, k := 0, 0;
      while |data| < total
        invariant 0 <= k <= |schedule| && |data| <= total && count <= 100
        invariant old(incoming) == data + incoming
        invariant |old(incoming)| >= total ==>
          MovesPatiently(schedule, total, 0) == MovesPatiently(schedule[k..], total - |data|, count)
        decreases |schedule| - k
      {
        assert k < |schedule| ==> schedule[k..][1..] == schedule[k + 1..];
        count := count + 1;
        if count > 100 || k == |schedule| {
          return data, Some(FailEof);
        }
        match schedule[k] {
          case Moved(n, _) =>
            var got := SocketRead(Min(n, total - |data|));
            if got == [] {
              return data, Some(FailEof);
            }
            ConcatAssociative(data, got, incoming);
            data, count := data + got, 0;
          case Interrupted =>
          case _ =>
            return data, Some(FailSocket);
        }
        k := k + 1;
      }
      failure := None;
    }

    method TimedRead(total: nat, schedule: seq<Outcome>) returns (data: Data, failure: Option<Failure>)
      requires total > 0
      modifies this
      ensures old(incoming) == data + incoming && |data| <= total
      ensures failure.None? <==> |data| == total
      ensures failure.None? <==> |old(incoming)| >= total && Moves(schedule, total, true)
      ensures failure.Some? ==> !failure.value.FailLarge?
    {
      hide Moves;
      data := [];
      var k := 0;
      MovesStep(schedule, 0, total, true);
      while k < |schedule|
        invariant 0 <= k <= |schedule| && |data| < total
        invariant old(incoming) == data + incoming
        invariant |old(incoming)| >= total ==>
          Moves(schedule, total, true) == Moves(schedule[k..], total - |data|, true)
      {
        MovesStep(schedule, k, total - |data|, true);
        match schedule[k] {
          case Interrupted =>
          case Broken =>
            return data, Some(FailSocket);
          case TimedOut =>
            return data, Some(FailTimeout);
          case Moved(n, expired) =>
            var got := SocketRead(Min(n, total - |data|));
            if got == [] {
              return data, Some(FailEof);
            }
            ConcatAssociative(data, got, incoming);
            data := data + got;
            if |data| == total {
              return data, None;
            }
            if expired {
              return data, Some(FailTimeout);
            }
        }
        k := k + 1;
      }
      MovesStep(schedule, k, total - |data|, true);
      failure := Some(FailTimeout);
    }

    /** `token_recv`, each of its reads under a schedule of its own. */
    method TokenRecv(max: nat, timeout: bool, turns: Turns) returns (r: Received, ghost consumed: Data)
      requires max < UINT32_LIMIT - 6
      modifies this
      ensures old(incoming) == consumed + incoming
      ensures r.Ok? <==> Receivable(old(incoming), max, timeout, turns)
      ensures r.Ok? ==> consumed == TokenBytes(r.token) && |r.token.data| <= max
      ensures r == Fail(FailLarge) <==>
        ReadsThrough(timeout, turns.flags, 1) && ReadsThrough(timeout, turns.length, 4)
        && |old(incoming)| >= 5 && OfU32(old(incoming)[1..5]) > max
    {
      hide U32, OfU32, ReadsThrough;
      ghost var stream := incoming;
      var flags, failure := NetworkRead(1, timeout, turns.flags);
      consumed := flags;
      if failure.Some? {
        return Fail(failure.value), consumed;
      }
      var octets;
      octets, failure := NetworkRead(4, timeout, turns.length);
      ConcatAssociative(flags, octets, incoming);
      consumed := flags + octets;
      if failure.Some? {
        return Fail(failure.value), consumed;
      }
      assert stream[1..5] == octets;
      var length := OfU32(octets);
      EncodeDecodeU32(octets);
      if length > max {
        return Fail(FailLarge), consumed;
      }
      var data := [];
      if length > 0 {
        data, failure := NetworkRead(length, timeout, turns.data);
        ConcatAssociative(consumed, data, incoming);
        consumed := consumed + data;
        if failure.Some? {
          return Fail(failure.value), consumed;
        }
      }
      r := Ok(StreamToken(flags[0], data));
      assert flags == [flags[0]];
      assert consumed == TokenBytes(r.token);
    }

    /**
     * Tokens received one after the other, each under turns of its own, until one cannot be received: exactly
     * the tokens in the stream, up to the first whose turns do not let it through.
     */
    method RecvAll(ghost sent: seq<StreamToken>, ghost rest: Data, max: nat, timeout: bool, turns: seq<Turns>)
      returns (got: seq<StreamToken>)
      requires max < UINT32_LIMIT - 6 && (forall t :: t in sent ==> |t.data| <= max)
      requires incoming == StreamBytes(sent) + rest && (|turns| <= |sent| || Incomplete(rest))
      modifies this
      ensures got <= sent && |got| <= |turns|
      ensures forall i :: 0 <= i < |got| ==> AllReadsThrough(timeout, turns[i], |sent[i].data|)
      ensures |got| < |turns| && |got| < |sent| ==> !AllReadsThrough(timeout, turns[|got|], |sent[|got|].data|)
      ensures |got| == |turns| ==> incoming == StreamBytes(sent[|got|..]) + rest
    {
      hide AllReadsThrough, TokenBytes, Receivable;
      got := [];
      assert sent[0..] == sent;
      while |got| < |turns|
        invariant |got| <= |turns| && got <= sent && incoming == StreamBytes(sent[|got|..]) + rest
        invariant forall i :: 0 <= i < |got| ==> AllReadsThrough(timeout, turns[i], |sent[i].data|)
      {
        ghost var left, stream := sent[|got|..], incoming;
        var r;
        ghost var consumed;
        r, consumed := TokenRecv(max, timeout, turns[|got|]);
        if left == [] {
          assert stream == rest;
          NothingReceivable(stream, max, timeout, turns[|got|]);
        } else {
          assert left[0] in sent && left[1..] == sent[|got| + 1..];
          ConcatAssociative(TokenBytes(left[0]), StreamBytes(left[1..]), rest);
          TokenRecovered(left[0], StreamBytes(left[1..]) + rest, max, timeout, turns[|got|], r, consumed, incoming);
        }
        if r.Fail? {
          return;
        }
        got := got + [r.token];
      }
    }
  }

  lemma NothingReceivable(stream: Data, max: nat, timeout: bool, turns: Turns)
    requires Incomplete(stream)
    ensures !Receivable(stream, max, timeout, turns)
  {
  }

  /** `network_write`: with a timeout, and without one through `xwrite`. */
  method NetworkWrite(fd: Descriptor, buffer: Data, timeout: bool, schedule: seq<Outcome>)
    returns (failure: Option<Failure>, ghost n: nat)
    requires buffer != []
    modifies fd
    ensures n <= |buffer| && fd.written == old(fd.written) + buffer[..n]
    ensures failure.None? <==> n == |buffer|
    ensures timeout ==> (failure.None? <==> Moves(schedule, |buffer|, false))
  {
    if !timeout {
      var status;
      ghost var calls;
      status, calls := XWrite.XWrite(fd, buffer);
      return if status >= 0 then None else Some(FailSocket), Progress(calls);
    }
    var sent, k := 0, 0;
    assert buffer[..0] == [] && schedule[0..] == schedule;
    while k < |schedule|
      invariant 0 <= k <= |schedule| && 0 <= sent < |buffer|
      invariant fd.written == old(fd.written) + buffer[..sent]
      invariant Moves(schedule, |buffer|, false) == Moves(schedule[k..], |buffer| - sent, false)
    {
      assert schedule[k..][1..] == schedule[k + 1..];
      match schedule[k] {
        case Interrupted =>
        case Broken =>
          return Some(FailSocket), sent;
        case TimedOut =>
          return Some(FailTimeout), sent;
        case Moved(m, expired) =>
          var status := Min(m, |buffer| - sent);
          fd.Take(buffer[sent..sent + status]);
          assert buffer[..sent] + buffer[sent..sent + status] == buffer[..sent + status];
          sent := sent + status;
          if sent == |buffer| {
            return None, sent;
          }
          if expired {
            return Some(FailTimeout), sent;
          }
      }
      k := k + 1;
    }
    return Some(FailTimeout), sent;
  }

  /** `token_send`: the whole message in one write. */
  method TokenSend(fd: Descriptor, t: StreamToken, timeout: bool, schedule: seq<Outcome>)
    returns (failure: Option<Failure>, ghost n: nat)
    modifies fd
    ensures n <= |TokenBytes(t)| && fd.written == old(fd.written) + TokenBytes(t)[..n]
    ensures failure.None? <==> Sendable(t) && n == |TokenBytes(t)|
    ensures !Sendable(t) ==> n == 0
    ensures timeout ==> (failure.None? <==> Sendable(t) && Moves(schedule, |TokenBytes(t)|, false))
  {
    if |t.data| > UINT32_LIMIT - 1 - 1 - 4 {
      assert TokenBytes(t)[..0] == [];
      return Some(FailSystem), 0;
    }
    var buffer := new byte[5 + |t.data|];
    var message := FillToken(buffer, t);
    failure, n := NetworkWrite(fd, message, timeout, schedule);
  }

  /** Tokens sent one after the other, each under a schedule of its own, until one cannot be sent. */
  method SendAll(fd: Descriptor, ts: seq<StreamToken>, timeout: bool, schedules: seq<seq<Outcome>>)
    returns (done: nat, ghost part: Data)
    requires |schedules| == |ts|
    modifies fd
    ensures done <= |ts| && fd.written == old(fd.written) + StreamBytes(ts[..done]) + part
    ensures done == |ts| ==> part == []
    ensures done < |ts| ==> part < TokenBytes(ts[done])
    ensures forall i :: 0 <= i < done ==> Sendable(ts[i]) && (timeout ==> Moves(schedules[i], 5 + |ts[i].data|, false))
    ensures done < |ts| && timeout ==> !(Sendable(ts[done]) && Moves(schedules[done], 5 + |ts[done].data|, false))
  {
    hide Moves, Sendable, StreamBytes;
    done, part := 0, [];
    assert ts[..0] == [] && StreamBytes([]) == [] by { StreamOfNone(); }
    while done < |ts|
      invariant done <= |ts| && part == [] && fd.written == old(fd.written) + StreamBytes(ts[..done])
      invariant forall i :: 0 <= i < done ==>
        Sendable(ts[i]) && (timeout ==> Moves(schedules[i], 5 + |ts[i].data|, false))
    {
      var failure;
      ghost var n;
      failure, n := TokenSend(fd, ts[done], timeout, schedules[done]);
      if failure.Some? {
        part := TokenBytes(ts[done])[..n];
        return;
      }
      assert TokenBytes(ts[done])[..n] == TokenBytes(ts[done]);
      assert ts[..done + 1] == ts[..done] + [ts[done]];
      StreamBytesSnoc(ts[..done], ts[done]);
      ConcatAssociative(old(fd.written), StreamBytes(ts[..done]), TokenBytes(ts[done]));
      done := done + 1;
    }
  }

  lemma StreamOfNone()
    ensures StreamBytes([]) == []
  {
  }

  /**
   * Tokens sent by one end and received by the other, under any schedules: what is received is always a
   * prefix of what was sent, and all of it exactly if every send and every read goes through.
   */
  method Transfer(ts: seq<StreamToken>, max: nat, sendTimeout: bool, schedules: seq<seq<Outcome>>,
                  recvTimeout: bool, turns: seq<Turns>) returns (done: nat, got: seq<StreamToken>)
    requires |schedules| == |turns| == |ts| && max < UINT32_LIMIT - 6 && (forall t :: t in ts ==> |t.data| <= max)
    ensures got <= ts && |got| <= done <= |ts|
    ensures got == ts <==>
      (done == |ts| && forall i :: 0 <= i < |ts| ==> AllReadsThrough(recvTimeout, turns[i], |ts[i].data|))
    ensures sendTimeout ==>
      (done == |ts| <==> forall i :: 0 <= i < |ts| ==> Moves(schedules[i], 5 + |ts[i].data|, false))
  {
    hide AllReadsThrough, Moves, StreamBytes, TokenBytes;
    var fd := new Descriptor();
    ghost var part;
    done, part := SendAll(fd, ts, sendTimeout, schedules);
    ghost var sent := ts[..done];
    assert [] + StreamBytes(sent) == StreamBytes(sent);
    assert forall t :: t in sent ==> t in ts;
    if done < |ts| {
      assert ts[done] in ts;
      PartOfToken(ts[done], |part|);
      assert part == TokenBytes(ts[done])[..|part|];
    }
    var reader := new Reader(fd.written);
    got := reader.RecvAll(sent, part, max, recvTimeout, turns);
  }

  method FillToken(buffer: array<byte>, t: StreamToken) returns (message: Data)
    requires buffer.Length == 5 + |t.data|
    modifies buffer
    ensures message == TokenBytes(t)
  {
    hide U32;
    buffer[0] := t.flags;
    Memcpy(buffer, 1, U32(|t.data|));
    ghost var middle := buffer[..];
    assert middle[..5] == [t.flags] + U32(|t.data|);
    Memcpy(buffer, 5, t.data);
    message := buffer[..];
    assert message == middle[..5] + t.data;
  }
}
