/** Watching a connection: after what events the server must not read another token. */
module Monitor {
  import opened Bytes
  import opened ServerClient
  import opened Reassembly

  /**
   * `open` as long as reading on is right, `last` the token read last, `safe` as long as nothing was read when
   * closed.
   */
  datatype Watch = Watch(open: bool, last: Data, safe: bool)

  /** The token asks to keep the connection after the command. */
  predicate KeepsAlive(token: Data)
  {
    |token| > 2 && token[2] != 0
  }

  function Step(m: Watch, e: Event): Watch
  {
    match e
    case Received(r) =>
      Watch(m.open && r.Token? && !IsQuit(r.data), if r.Token? then r.data else m.last, m.safe && m.open)
    case SendFailed => m.(open := false)
    case CommandDone => m.(open := m.open && KeepsAlive(m.last))
    case Abandoned => m.(open := false)
    case _ => m
  }

  function After(m: Watch, events: seq<Event>): Watch
    decreases |events|
  {
    if events == [] then m else Step(After(m, events[..|events| - 1]), events[|events| - 1])
  }

  lemma {:induction false} AfterAppend(m: Watch, xs: seq<Event>, ys: seq<Event>)
    ensures After(m, xs + ys) == After(After(m, xs), ys)
  {
    var all := xs + ys;
    if ys == [] {
      assert all == xs;
    } else {
      assert all[..|all| - 1] == xs + ys[..|ys| - 1];
      AfterAppend(m, xs, ys[..|ys| - 1]);
    }
  }

  lemma AfterOne(m: Watch, e: Event)
    ensures After(m, [e]) == Step(m, e)
  {
    assert [e][..0] == [];
  }

  /** Events of a reply close the connection exactly if a send failed. */
  lemma {:induction false} AfterReply(m: Watch, events: seq<Event>)
    requires forall e :: e in events ==> e.Sent? || e.SendFailed? || e.Started?
    ensures After(m, events) == m.(open := m.open && SendFailed !in events)
  {
    if events != [] {
      var before, e := events[..|events| - 1], events[|events| - 1];
      assert e in events && (SendFailed in events <==> SendFailed in before || e == SendFailed);
      AfterReply(m, before);
    }
  }

  const FRESH: Watch := Watch(true, [], true)

  /** The token read last before event n. */
  function LastToken(events: seq<Event>, n: nat): (token: Data)
    requires n <= |events|
  {
    if n == 0 then []
    else if events[n - 1].Received? && events[n - 1].result.Token? then events[n - 1].result.data
    else LastToken(events, n - 1)
  }

  /**
   * An event after which nothing more is to be read: a failed read or send, a QUIT message, a command given up,
   * or one done whose last token has no keep-alive flag.
   */
  predicate Closes(events: seq<Event>, n: nat)
    requires n < |events|
  {
    match events[n]
    case Received(ReadFailed(closed)) => true
    case Received(Token(token)) => |token| >= 2 && (token[0] == 2 || token[0] == 3) && token[1] == 2
    case SendFailed => true
    case CommandDone => |LastToken(events, n)| < 3 || LastToken(events, n)[2] == 0
    case Abandoned => true
    case _ => false
  }

  lemma {:induction false} WatchMeaning(events: seq<Event>, n: nat)
    requires n <= |events|
    ensures After(FRESH, events[..n]).last == LastToken(events, n)
    ensures After(FRESH, events[..n]).open <==> forall i :: 0 <= i < n ==> !Closes(events, i)
    ensures After(FRESH, events[..n]).safe <==>
      forall i, j :: 0 <= i < j < n && Closes(events, i) ==> !events[j].Received?
  {
    if n > 0 {
      WatchMeaning(events, n - 1);
      assert events[..n][..n - 1] == events[..n - 1];
      var m := After(FRESH, events[..n - 1]);
      assert After(FRESH, events[..n]) == Step(m, events[n - 1]);
      assert Step(m, events[n - 1]).open == (m.open && !Closes(events, n - 1));
    }
  }

  /** The watch is safe exactly if no token is read after an event that closes. */
  lemma SafeMeansNoReadAfterClose(events: seq<Event>)
    ensures After(FRESH, events).safe <==>
      forall i, j :: 0 <= i < j < |events| && Closes(events, i) ==> !events[j].Received?
    ensures After(FRESH, events).open <==> forall i :: 0 <= i < |events| ==> !Closes(events, i)
  {
    WatchMeaning(events, |events|);
    assert events[..|events|] == events;
  }
}
