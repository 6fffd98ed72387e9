/** Agreement on the protocol version while the security context is set up (client/open.c, server/generic.c). */
module Negotiation {
  import opened Bytes

  const TOKEN_NOOP: bv8 := 1
  const TOKEN_CONTEXT: bv8 := 2
  const TOKEN_CONTEXT_NEXT: bv8 := 16
  const TOKEN_PROTOCOL: bv8 := 64

  const INITIAL: bv8 := TOKEN_NOOP | TOKEN_CONTEXT_NEXT | TOKEN_PROTOCOL
  const INITIAL_V1: bv8 := TOKEN_NOOP | TOKEN_CONTEXT_NEXT
  const CONTEXT_V2: bv8 := TOKEN_CONTEXT | TOKEN_PROTOCOL

  datatype Major = Complete | ContinueNeeded | Failure

  datatype Sending = Nothing | Sent | Failed

  /** What one call into the GSS-API library brings: its status, and what became of the token it produced. */
  datatype Gss = Gss(major: Major, sending: Sending)

  /** The scripts of a peer: the outcome of its k-th call. */
  type Script = nat -> Gss

  /** The version the client starts with; a preset one is kept. */
  function Start(preset: nat): (v: nat)
    ensures v > 0
  {
    if preset == 0 then 2 else preset
  }

  function ContextFlags(version: nat): bv8
  {
    if version > 1 then CONTEXT_V2 else TOKEN_CONTEXT
  }

  predicate Carries(flags: bv8)
  {
    flags & TOKEN_PROTOCOL == TOKEN_PROTOCOL
  }

  /** The client's version after these tokens: it falls to 1 once one of them lacks TOKEN_PROTOCOL. */
  function ClientVersion(preset: nat, heard: seq<bv8>): nat
  {
    if Start(preset) > 1 && (exists k :: 0 <= k < |heard| && !Carries(heard[k])) then 1 else Start(preset)
  }

  /** Whether the server goes on after this token, the i-th it reads. */
  predicate Acceptable(flags: bv8, i: nat)
  {
    if i == 0 then flags == INITIAL || flags == INITIAL_V1 else flags == CONTEXT_V2 || flags == TOKEN_CONTEXT
  }

  /** The server's version after these tokens, unless it has refused one of them. */
  function ServerVersion(heard: seq<bv8>): Option<nat>
  {
    if heard == [] || (exists i :: 0 <= i < |heard| && !Acceptable(heard[i], i)) then
      None
    else if exists i :: 0 <= i < |heard| && !Carries(heard[i]) then
      Some(1)
    else
      Some(2)
  }

  /** What the client has sent in its first m calls, call k having heard k tokens. */
  ghost function ClientSent(preset: nat, script: Script, heard: seq<bv8>, m: nat): seq<bv8>
    requires m <= |heard| + 1
  {
    if m == 0 then
      [INITIAL]
    else
      ClientSent(preset, script, heard, m - 1) +
      if script(m - 1).sending.Sent? then [ContextFlags(ClientVersion(preset, heard[..m - 1]))] else []
  }

  /** What the server has sent in its first m calls, call k having heard the initial token and k + 1 others. */
  ghost function ServerSent(script: Script, heard: seq<bv8>, m: nat): seq<bv8>
    requires m == 0 || m < |heard|
  {
    if m == 0 then
      []
    else
      ServerSent(script, heard, m - 1) + if script(m - 1).sending.Sent? then [ServerSays(heard[..m + 1])] else []
  }

  /** The flags of a context token the server sends after hearing these tokens. */
  ghost function ServerSays(heard: seq<bv8>): bv8
  {
    ContextFlags(if ServerVersion(heard).Some? then ServerVersion(heard).value else 0)
  }

  /** The calls before the n-th went on, and their tokens got through. */
  ghost predicate WentOn(script: Script, n: nat)
  {
    forall k :: 0 <= k < n ==> script(k).major.ContinueNeeded? && !script(k).sending.Failed?
  }

  lemma {:induction false} ClientSentPrefix(preset: nat, script: Script, heard: seq<bv8>, more: seq<bv8>, m: nat)
    requires m <= |heard| + 1 && |heard| <= |more| && heard == more[..|heard|]
    ensures ClientSent(preset, script, heard, m) == ClientSent(preset, script, more, m)
  {
    if m > 0 {
      ClientSentPrefix(preset, script, heard, more, m - 1);
      assert heard[..m - 1] == more[..m - 1];
    }
  }

  lemma {:induction false} ServerSentPrefix(script: Script, heard: seq<bv8>, more: seq<bv8>, m: nat)
    requires m == 0 || m < |heard|
    requires |heard| <= |more| && heard == more[..|heard|]
    ensures ServerSent(script, heard, m) == ServerSent(script, more, m)
  {
    if m > 0 {
      ServerSentPrefix(script, heard, more, m - 1);
      assert heard[..m + 1] == more[..m + 1];
    }
  }

  /** A token without TOKEN_PROTOCOL brings the client down to version 1; any other changes nothing. */
  lemma ClientHears(preset: nat, heard: seq<bv8>, flags: bv8)
    ensures ClientVersion(preset, heard + [flags]) ==
            if ClientVersion(preset, heard) > 1 && !Carries(flags) then 1 else ClientVersion(preset, heard)
  {
    var more := heard + [flags];
    assert more[|heard|] == flags && forall k :: 0 <= k < |heard| ==> more[k] == heard[k];
  }

  lemma ServerHears(heard: seq<bv8>, flags: bv8)
    requires ServerVersion(heard).Some?
    ensures ServerVersion(heard + [flags]) ==
            if flags == TOKEN_CONTEXT then Some(1) else if flags == CONTEXT_V2 then ServerVersion(heard) else None
  {
    var more := heard + [flags];
    assert !Carries(TOKEN_CONTEXT) && Carries(CONTEXT_V2);
    assert more[|heard|] == flags && forall k :: 0 <= k < |heard| ==> more[k] == heard[k];
  }

  lemma ServerStarts(flags: bv8)
    ensures ServerVersion([flags]) ==
            if flags == INITIAL then Some(2) else if flags == INITIAL_V1 then Some(1) else None
  {
    assert !Carries(INITIAL_V1) && Carries(INITIAL);
    assert [flags][0] == flags;
  }

  /** One pass of the client's loop. */
  lemma ClientPass(preset: nat, script: Script, incoming: seq<bv8>, n: nat)
    requires n <= |incoming| && WentOn(script, n)
    ensures ClientSent(preset, script, incoming[..n], n + 1) ==
            ClientSent(preset, script, incoming[..n], n) +
            if script(n).sending.Sent? then [ContextFlags(ClientVersion(preset, incoming[..n]))] else []
    ensures n < |incoming| ==>
              && ClientSent(preset, script, incoming[..n + 1], n + 1)
                 == ClientSent(preset, script, incoming[..n], n + 1)
              && ClientVersion(preset, incoming[..n + 1]) ==
                 if ClientVersion(preset, incoming[..n]) > 1 && !Carries(incoming[n]) then 1
                 else ClientVersion(preset, incoming[..n])
    ensures script(n).major.ContinueNeeded? && !script(n).sending.Failed? ==> WentOn(script, n + 1)
  {
    assert incoming[..n][..n] == incoming[..n];
    if n < |incoming| {
      assert incoming[..n + 1] == incoming[..n] + [incoming[n]];
      ClientHears(preset, incoming[..n], incoming[n]);
      ClientSentPrefix(preset, script, incoming[..n], incoming[..n + 1], n + 1);
    }
  }

  /** `internal_open`: the loop that sets up the context. It ends in call n, having received n tokens. */
  method InternalOpen(preset: nat, initialSent: bool, script: Script, incoming: seq<bv8>, acceptableFlags: bool)
    returns (version: Option<nat>, sent: seq<bv8>, n: nat)
    ensures n <= |incoming| && WentOn(script, n)
    ensures !initialSent ==> sent == [] && n == 0
    ensures initialSent ==>
      sent == ClientSent(preset, script, incoming[..n], if script(n).sending.Failed? then n else n + 1)
    ensures version.Some? <==> initialSent && script(n).major.Complete? && !script(n).sending.Failed?
                               && (ClientVersion(preset, incoming[..n]) > 1 ==> acceptableFlags)
    ensures version.Some? ==> version.value == ClientVersion(preset, incoming[..n])
    ensures initialSent && script(n).major.ContinueNeeded? && !script(n).sending.Failed? ==> n == |incoming|
  {
    var protocol := preset;
    if protocol == 0 {
      protocol := 2;
    }
    if !initialSent {
      return None, [], 0;
    }
    sent, n := [INITIAL], 0;
    assert ClientVersion(preset, incoming[..0]) == protocol;
    assert ClientSent(preset, script, incoming[..0], 0) == sent;
    hide ClientVersion, ClientSent, WentOn, ContextFlags, Carries;
    while true
      invariant n <= |incoming| && WentOn(script, n)
      invariant protocol == ClientVersion(preset, incoming[..n])
      invariant sent == ClientSent(preset, script, incoming[..n], n)
      decreases |incoming| - n
    {
      ClientPass(preset, script, incoming, n);
      var step := script(n);
      if step.sending.Failed? {
        return None, sent, n;
      }
      if step.sending.Sent? {
        sent := sent + [ContextFlags(protocol)];
      }
      if step.major.Failure? {
        return None, sent, n;
      }
      if step.major.Complete? {
        break;
      }
      if n == |incoming| {
        return None, sent, n;
      }
      if protocol > 1 && !Carries(incoming[n]) {
        protocol := 1;
      }
      n := n + 1;
    }
    if protocol > 1 && !acceptableFlags {
      return None, sent, n;
    }
    version := Some(protocol);
  }

  /** One pass of the server's loop, after the token at n. */
  lemma ServerPass(script: Script, incoming: seq<bv8>, n: nat)
    requires 1 <= n < |incoming| && WentOn(script, n - 1) && ServerVersion(incoming[..n]).Some?
    ensures ServerVersion(incoming[..n + 1]) ==
            if incoming[n] == TOKEN_CONTEXT then Some(1)
            else if incoming[n] == CONTEXT_V2 then ServerVersion(incoming[..n])
            else None
    ensures ServerSent(script, incoming[..n + 1], n - 1) == ServerSent(script, incoming[..n], n - 1)
    ensures ServerSent(script, incoming[..n + 1], n) ==
            ServerSent(script, incoming[..n], n - 1) +
            if script(n - 1).sending.Sent? then [ServerSays(incoming[..n + 1])] else []
    ensures script(n - 1).major.ContinueNeeded? && !script(n - 1).sending.Failed? ==> WentOn(script, n)
  {
    assert incoming[..n + 1] == incoming[..n] + [incoming[n]];
    ServerHears(incoming[..n], incoming[n]);
    ServerSentPrefix(script, incoming[..n], incoming[..n + 1], n - 1);
    assert incoming[..n + 1][..n + 1] == incoming[..n + 1];
  }

  /** How many calls have had their token sent when the n-th token was the last one read. */
  ghost function Answered(script: Script, heard: seq<bv8>): nat
  {
    var n := |heard|;
    if n < 2 then 0 else if ServerVersion(heard).None? || script(n - 2).sending.Failed? then n - 2 else n - 1
  }

  /** The loop that accepts the context, after the initial token; `complete` if the last call completed it. */
  method AcceptContext(script: Script, incoming: seq<bv8>, initial: nat)
    returns (complete: bool, protocol: nat, sent: seq<bv8>, n: nat)
    requires incoming != [] && ServerVersion(incoming[..1]) == Some(initial) && 1 <= initial <= 2
    ensures 1 <= n <= |incoming| && (n == 1 ==> |incoming| == 1)
    ensures n >= 2 ==> WentOn(script, n - 2) && ServerVersion(incoming[..n - 1]).Some?
    ensures sent == ServerSent(script, incoming[..n], Answered(script, incoming[..n]))
    ensures complete <==> n >= 2 && ServerVersion(incoming[..n]).Some? && script(n - 2).major.Complete?
                          && !script(n - 2).sending.Failed?
    ensures complete ==> ServerVersion(incoming[..n]) == Some(protocol) && 1 <= protocol <= 2
    ensures (n >= 2 && ServerVersion(incoming[..n]).Some? && script(n - 2).major.ContinueNeeded?
             && !script(n - 2).sending.Failed?) ==> n == |incoming|
  {
    complete, protocol, sent, n := false, initial, [], 1;
    assert WentOn(script, 0) && sent == ServerSent(script, incoming[..1], 0);
    hide ServerVersion, ServerSent, WentOn, ContextFlags, Acceptable, Carries;
    while n < |incoming|
      invariant !complete && 1 <= n <= |incoming| && WentOn(script, n - 1)
      invariant ServerVersion(incoming[..n]) == Some(protocol) && 1 <= protocol <= 2
      invariant sent == ServerSent(script, incoming[..n], n - 1)
      invariant n >= 2 ==> ServerVersion(incoming[..n - 1]).Some? && WentOn(script, n - 2)
                           && script(n - 2).major.ContinueNeeded? && !script(n - 2).sending.Failed?
    {
      ServerPass(script, incoming, n);
      var flags, step := incoming[n], script(n - 1);
      n := n + 1;
      if flags == TOKEN_CONTEXT {
        protocol := 1;
      } else if flags != CONTEXT_V2 {
        return;
      }
      if step.sending.Failed? {
        return;
      }
      if step.sending.Sent? {
        sent := sent + [ContextFlags(protocol)];
      }
      if !step.major.ContinueNeeded? {
        complete := step.major.Complete?;
        return;
      }
    }
  }

  /** `server_new_client`: the initial token and the loop that accepts the context, n tokens read in all. */
  method ServerNewClient(script: Script, incoming: seq<bv8>, acceptableFlags: bool)
    returns (version: Option<nat>, sent: seq<bv8>, n: nat)
    ensures n <= |incoming| && (n == 0 ==> incoming == [])
    ensures n >= 2 ==> WentOn(script, n - 2) && ServerVersion(incoming[..n - 1]).Some?
    ensures sent == ServerSent(script, incoming[..n], Answered(script, incoming[..n]))
    ensures version.Some? <==> n >= 2 && ServerVersion(incoming[..n]).Some? && script(n - 2).major.Complete?
                               && !script(n - 2).sending.Failed?
                               && (ServerVersion(incoming[..n]) == Some(2) ==> acceptableFlags)
    ensures version.Some? ==> version == ServerVersion(incoming[..n])
    ensures n == 1 && ServerVersion(incoming[..1]).Some? ==> |incoming| == 1
    ensures (n >= 2 && ServerVersion(incoming[..n]).Some? && script(n - 2).major.ContinueNeeded?
             && !script(n - 2).sending.Failed?) ==> n == |incoming|
  {
    sent, n, version := [], 0, None;
    if incoming == [] {
      return;
    }
    assert incoming[..1] == [incoming[0]];
    ServerStarts(incoming[0]);
    var protocol;
    if incoming[0] == INITIAL {
      protocol := 2;
    } else if incoming[0] == INITIAL_V1 {
      protocol := 1;
    } else {
      n := 1;
      return;
    }
    hide ServerVersion, ServerSent, WentOn;
    var complete;
    complete, protocol, sent, n := AcceptContext(script, incoming, protocol);
    if complete && (protocol == 1 || acceptableFlags) {
      version := Some(protocol);
    }
  }

  /** Against any peer the client never rises, and keeps its version exactly while every token carries the flag. */
  lemma ClientAgainstAnyPeer(preset: nat, heard: seq<bv8>, n: nat)
    requires n <= |heard|
    ensures ClientVersion(preset, heard) <= ClientVersion(preset, heard[..n]) <= Start(preset)
    ensures ClientVersion(preset, heard) == Start(preset) <==>
      preset == 1 || forall k :: 0 <= k < |heard| ==> Carries(heard[k])
  {
    if k: nat :| k < n && !Carries(heard[..n][k]) {
      assert !Carries(heard[k]);
    }
  }

  lemma ServerAgainstAnyPeer(heard: seq<bv8>, n: nat)
    requires 1 <= n <= |heard| && ServerVersion(heard).Some?
    ensures ServerVersion(heard[..n]).Some? && ServerVersion(heard).value <= ServerVersion(heard[..n]).value
    ensures ServerVersion(heard) == Some(2) <==> forall k :: 0 <= k < |heard| ==> Carries(heard[k])
  {
    assert forall k :: 0 <= k < n ==> heard[..n][k] == heard[k];
  }

  lemma FlagsCarry(version: nat)
    ensures Carries(ContextFlags(version)) <==> version > 1
    ensures Acceptable(ContextFlags(version), 1) && Carries(INITIAL)
  {
  }

  lemma {:induction false} ClientSentShape(preset: nat, script: Script, heard: seq<bv8>, m: nat, i: nat)
    requires m <= |heard| + 1 && i < |ClientSent(preset, script, heard, m)|
    ensures var flags := ClientSent(preset, script, heard, m)[i];
            && Acceptable(flags, i)
            && (i == 0 ==> Carries(flags))
            && (preset == 1 && i > 0 ==> !Carries(flags))
            && (!Carries(flags) ==> ClientVersion(preset, heard) <= 1)
  {
    FlagsCarry(1);
    if m > 0 {
      if i < |ClientSent(preset, script, heard, m - 1)| {
        ClientSentShape(preset, script, heard, m - 1, i);
      } else {
        assert i > 0 by { ClientSentNotEmpty(preset, script, heard, m - 1); }
        FlagsCarry(ClientVersion(preset, heard[..m - 1]));
        if preset != 1 {
          ClientAgainstAnyPeer(preset, heard, m - 1);
        }
      }
    }
  }

  lemma {:induction false} ClientSentNotEmpty(preset: nat, script: Script, heard: seq<bv8>, m: nat)
    requires m <= |heard| + 1
    ensures |ClientSent(preset, script, heard, m)| > 0
  {
    if m > 0 {
      ClientSentNotEmpty(preset, script, heard, m - 1);
    }
  }

  lemma {:induction false} ServerSentShape(script: Script, heard: seq<bv8>, m: nat, i: nat)
    requires m < |heard| && i < |ServerSent(script, heard, m)| && ServerVersion(heard).Some?
    ensures !Carries(ServerSent(script, heard, m)[i]) ==> ServerVersion(heard) == Some(1)
  {
    if i < |ServerSent(script, heard, m - 1)| {
      ServerSentShape(script, heard, m - 1, i);
    } else {
      ServerAgainstAnyPeer(heard, m + 1);
      FlagsCarry(ServerVersion(heard[..m + 1]).value);
    }
  }

  /** A client and a server that hear what the other one sent agree, whatever their calls bring. */
  lemma Agreement(preset: nat, client: Script, server: Script, toClient: seq<bv8>, toServer: seq<bv8>, m: nat, n: nat)
    requires preset <= 2 && m <= |toClient| + 1 && n < |toServer| && |toServer| >= 2
    requires toServer <= ClientSent(preset, client, toClient, m)
    requires toClient <= ServerSent(server, toServer, n)
    ensures ServerVersion(toServer) == Some(ClientVersion(preset, toClient))
  {
    forall i: nat | i < |toServer|
      ensures Acceptable(toServer[i], i)
      ensures preset == 1 && i > 0 ==> !Carries(toServer[i])
      ensures !Carries(toServer[i]) ==> ClientVersion(preset, toClient) <= 1
    {
      ClientSentShape(preset, client, toClient, m, i);
    }
    assert preset == 1 ==> !Carries(toServer[1]);
    forall i: nat | i < |toClient|
      ensures !Carries(toClient[i]) ==> ServerVersion(toServer) == Some(1)
    {
      ServerSentShape(server, toServer, n, i);
    }
  }

  /** Both ends and what is under way between them. */
  datatype Net = Net(heardByClient: seq<bv8>, heardByServer: seq<bv8>, sentByClient: seq<bv8>, sentByServer: seq<bv8>)

  ghost predicate NetStep(preset: nat, a: Net, b: Net)
  {
    || b == a.(sentByClient := a.sentByClient + [ContextFlags(ClientVersion(preset, a.heardByClient))])
    || (|a.heardByClient| < |a.sentByServer|
        && b == a.(heardByClient := a.heardByClient + [a.sentByServer[|a.heardByClient|]]))
    || (|a.heardByServer| < |a.sentByClient|
        && b == a.(heardByServer := a.heardByServer + [a.sentByClient[|a.heardByServer|]]))
    || (|a.heardByServer| >= 2 && b == a.(sentByServer := a.sentByServer + [ServerSays(a.heardByServer)]))
  }

  /** Any number of rounds, the two ends taking turns in any order. */
  ghost predicate IsHandshake(preset: nat, run: seq<Net>)
  {
    && run != []
    && run[0] == Net([], [], [INITIAL], [])
    && forall i :: 0 <= i < |run| - 1 ==> NetStep(preset, run[i], run[i + 1])
  }

  ghost predicate NetInvariant(preset: nat, s: Net)
  {
    && s.heardByClient <= s.sentByServer && s.heardByServer <= s.sentByClient
    && s.sentByClient != [] && s.sentByClient[0] == INITIAL
    && (forall i :: 1 <= i < |s.sentByClient| ==> s.sentByClient[i] == ContextFlags(Start(preset)))
    && (forall i :: 0 <= i < |s.sentByServer| ==> s.sentByServer[i] == ContextFlags(Start(preset)))
  }

  /** What both ends hold in a state of the invariant. */
  lemma NetVersions(preset: nat, s: Net)
    requires NetInvariant(preset, s)
    ensures ClientVersion(preset, s.heardByClient) == Start(preset)
    ensures |s.heardByServer| >= 2 ==> ServerVersion(s.heardByServer) == Some(if preset == 1 then 1 else 2)
  {
    FlagsCarry(Start(preset));
    assert forall i :: 0 <= i < |s.heardByClient| ==> s.heardByClient[i] == s.sentByServer[i];
    assert forall i :: 0 <= i < |s.heardByServer| ==> s.heardByServer[i] == s.sentByClient[i];
    if |s.heardByServer| >= 2 {
      assert Carries(s.heardByServer[1]) <==> preset != 1;
    }
  }

  lemma {:induction false} NetInvariantHolds(preset: nat, run: seq<Net>, i: nat)
    requires IsHandshake(preset, run) && i < |run|
    ensures NetInvariant(preset, run[i])
  {
    if i > 0 {
      NetInvariantHolds(preset, run, i - 1);
      NetVersions(preset, run[i - 1]);
      assert NetStep(preset, run[i - 1], run[i - 1 + 1]);
    }
  }

  /**
   * In every handshake, once the server has read a context token, no version ever changes, and both
   * ends hold the same one exactly when the client was not preset to a version the server does not know.
   */
  lemma VersionAgreement(preset: nat, run: seq<Net>, i: nat)
    requires IsHandshake(preset, run) && i < |run| && |run[i].heardByServer| >= 2
    ensures ClientVersion(preset, run[i].heardByClient) == Start(preset)
    ensures ServerVersion(run[i].heardByServer) == Some(if preset == 1 then 1 else 2)
    ensures ServerVersion(run[i].heardByServer) == Some(ClientVersion(preset, run[i].heardByClient)) <==> preset <= 2
  {
    NetInvariantHolds(preset, run, i);
    NetVersions(preset, run[i]);
  }

  /** The client and the server of a handshake for a preset version above 2, which never agree. */
  lemma PresetAboveTwo(preset: nat) returns (run: seq<Net>)
    requires preset > 2
    ensures IsHandshake(preset, run) && |run| == 4
    ensures ServerVersion(run[3].heardByServer) == Some(2) && ClientVersion(preset, run[3].heardByClient) == preset
  {
    FlagsCarry(preset);
    run := [
      Net([], [], [INITIAL], []),
      Net([], [], [INITIAL, CONTEXT_V2], []),
      Net([], [INITIAL], [INITIAL, CONTEXT_V2], []),
      Net([], [INITIAL, CONTEXT_V2], [INITIAL, CONTEXT_V2], [])];
    assert NetStep(preset, run[0], run[1]);
    assert NetStep(preset, run[1], run[2]);
    assert NetStep(preset, run[2], run[3]);
    VersionAgreement(preset, run, 3);
  }
}
