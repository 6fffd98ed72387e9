/** Running a command for a client: checks, authorisation, the process, and the tokens sent back (server/commands.c). */
module RunCommand {
  import opened Bytes
  import opened Protocol
  import opened ServerClient
  import opened Commands
  import Acl

  // Processes.

  /** How a process ends; an internal failure is a failure of the server to start or to read it. */
  datatype End = Exited(code: byte) | Killed | InternalFailure

  datatype Chunk = Chunk(stream: byte, data: Data)

  /** What a process does as far as the server can see. */
  datatype Run = Run(started: bool, chunks: seq<Chunk>, end: End)

  predicate ValidRun(run: Run)
  {
    && (forall i :: 0 <= i < |run.chunks| ==>
         run.chunks[i].stream in {1, 2} && |run.chunks[i].data| <= TOKEN_MAX_OUTPUT)
    && (!run.started ==> run.chunks == [] && run.end.InternalFailure?)
  }

  function OutputEvents(chunks: seq<Chunk>): (events: seq<Event>)
    ensures |events| == |chunks|
  {
    seq(|chunks|, i requires 0 <= i < |chunks| => Sent(OutputToken(chunks[i].stream, chunks[i].data)))
  }

  /** What running a process sends when no send fails. */
  function ProcessEvents(sudo: Data, rule: Rule, argv: seq<Data>, input: Option<Data>, run: Run): (events: seq<Event>)
  {
    (if run.started then [Started(ExecPath(sudo, rule), rule, argv, input)] else [])
    + OutputEvents(run.chunks)
    + (if run.end.InternalFailure? then [Sent(ErrorToken(Internal))] else [])
  }

  lemma ProcessEventsParts(sudo: Data, rule: Rule, argv: seq<Data>, input: Option<Data>, run: Run)
    ensures var begin := if run.started then [Started(ExecPath(sudo, rule), rule, argv, input)] else [];
            var finish := if run.end.InternalFailure? then [Sent(ErrorToken(Internal))] else [];
            ProcessEvents(sudo, rule, argv, input, run) == (begin + OutputEvents(run.chunks)) + finish
  {
  }

  lemma OutputEventsStep(chunks: seq<Chunk>, i: nat)
    requires i < |chunks|
    ensures OutputEvents(chunks[..i + 1])
         == OutputEvents(chunks[..i]) + [Sent(OutputToken(chunks[i].stream, chunks[i].data))]
    ensures OutputEvents(chunks) == OutputEvents(chunks[..i + 1]) + OutputEvents(chunks[i + 1..])
  {
  }

  /** Sends a process's output as it arrives, until a send fails. */
  method SendChunks(client: Client, chunks: seq<Chunk>) returns (ok: bool, ghost events: seq<Event>)
    modifies client`fatal, client`trace
    ensures client.trace == old(client.trace) + events
    ensures UpToFailure(events, OutputEvents(chunks), !ok)
    ensures client.fatal == (old(client.fatal) || !ok)
  {
    var i := 0;
    ok, events := true, [];
    while i < |chunks|
      invariant 0 <= i <= |chunks|
      invariant client.trace == old(client.trace) + events && client.fatal == old(client.fatal)
      invariant events == OutputEvents(chunks[..i])
    {
      OutputEventsStep(chunks, i);
      ghost var before := events;
      var token := OutputToken(chunks[i].stream, chunks[i].data);
      ok := client.Send(token);
      events := events + [if ok then Sent(token) else SendFailed];
      if !ok {
        UpToFailureAppend(before, before, [SendFailed], [Sent(token)], true);
        UpToFailureStops(events, OutputEvents(chunks[..i + 1]), OutputEvents(chunks[i + 1..]));
        return;
      }
      i := i + 1;
    }
    assert chunks[..i] == chunks;
  }

  method AnyRun() returns (run: Run)
    ensures ValidRun(run)
  {
    run := *;
    if !ValidRun(run) {
      run := Run(true, [], Exited(0));
    }
  }

  /** `server_process_run`, over an arbitrary process. */
  method ServerProcessRun(client: Client, sudo: Data, rule: Rule, argv: seq<Data>, input: Option<Data>)
    returns (ok: bool, run: Run, ghost events: seq<Event>, failed: bool)
    modifies client`fatal, client`trace
    ensures ValidRun(run)
    ensures client.trace == old(client.trace) + events
    ensures UpToFailure(events, ProcessEvents(sudo, rule, argv, input, run), failed)
    ensures client.fatal == (old(client.fatal) || failed)
    ensures ok == (!failed && !run.end.InternalFailure?)
  {
    hide UpToFailure, ErrorToken, OutputEvents, ProcessEvents;
    run := AnyRun();
    var begin := if run.started then [Started(ExecPath(sudo, rule), rule, argv, input)] else [];
    ghost var finish := if run.end.InternalFailure? then [Sent(ErrorToken(Internal))] else [];
    ghost var middle := begin + OutputEvents(run.chunks);
    ProcessEventsParts(sudo, rule, argv, input, run);
    client.trace := client.trace + begin;
    var sent;
    ghost var output;
    sent, output := SendChunks(client, run.chunks);
    NoFailure(begin);
    UpToFailureAppend(begin, begin, output, OutputEvents(run.chunks), !sent);
    events, failed := begin + output, !sent;
    EventsAssociative(old(client.trace), begin, output);
    if !sent {
      UpToFailureStops(events, middle, finish);
      return false, run, events, failed;
    }
    ok := !run.end.InternalFailure?;
    ghost var last := [];
    NoFailure([]);
    if run.end.InternalFailure? {
      sent := client.SendError(Internal);
      last := [if sent then Sent(ErrorToken(Internal)) else SendFailed];
    }
    UpToFailureAppend(events, middle, last, finish, !sent);
    EventsAssociative(old(client.trace), events, last);
    events, failed := events + last, !sent;
  }

  // Decisions.

  datatype Decision = Refuse(code: ErrorCode) | Execute(rule: Rule, argv: seq<Data>, input: Option<Data>)

  function Argument(args: seq<Data>, i: nat): Option<Data>
  {
    if i < |args| then Some(args[i]) else None
  }

  /** Neither the command nor the subcommand holds a nul. */
  predicate NamesWithoutNul(args: seq<Data>)
  {
    forall i :: 0 <= i < 2 && i < |args| ==> 0 !in args[i]
  }

  /** The argument that may hold nuls because it goes to standard input. */
  predicate NulAllowed(rule: Option<Rule>, help: bool, i: nat, count: nat)
  {
    rule.Some? && ((!help && i == rule.value.stdinArg) || (i + 1 == count && rule.value.stdinArg == -1))
  }

  predicate NulsAllowed(rule: Option<Rule>, help: bool, args: seq<Data>)
  {
    forall i :: 1 <= i < |args| && !NulAllowed(rule, help, i, |args|) ==> 0 !in args[i]
  }

  /** No rule matches a command named "help": the client asks for a summary or for help on a command. */
  predicate HelpBranch(site: Site, args: seq<Data>)
  {
    && args != [] && NamesWithoutNul(args)
    && FirstMatch(site.rules, Some(args[0]), Argument(args, 1)).None?
    && args[0] == HELP
  }

  /** What the server decides about a command outside the help branch. */
  ghost function Decide(site: Site, who: Acl.Identity, args: seq<Data>): (d: Decision)
    requires ValidSite(site)
  {
    if args == [] || !NamesWithoutNul(args) then
      Refuse(BadCommand)
    else
      var rule := FirstMatch(site.rules, Some(args[0]), Argument(args, 1));
      if !NulsAllowed(rule, false, args) then
        Refuse(BadCommand)
      else if rule.None? then
        Refuse(UnknownCommand)
      else if !Permitted(site, who, rule.value) then
        Refuse(Access)
      else
        var k := StdinIndex(rule.value, |args|);
        Execute(rule.value, ArgvUpTo(site.sudo, rule.value, args, k, |args|), Input(args, k))
  }

  function HelpArgv(rule: Rule, help: Data, subcommand: Option<Data>): seq<Data>
  {
    [Basename(rule.program), help] + if subcommand.Some? then [subcommand.value] else []
  }

  /** What the server decides about a request for help on one command. */
  ghost function DecideHelp(site: Site, who: Acl.Identity, args: seq<Data>): (d: Decision)
    requires ValidSite(site) && |args| >= 2
  {
    var sub := if |args| > 2 then Some(CString(args[2])) else None;
    var rule := FirstMatch(site.rules, Some(args[1]), sub);
    if !NulsAllowed(rule, true, args) then Refuse(BadCommand)
    else if rule.None? then Refuse(UnknownCommand)
    else if !Permitted(site, who, rule.value) then Refuse(Access)
    else if rule.value.help.None? then Refuse(NoHelp)
    else Execute(rule.value, HelpArgv(rule.value, rule.value.help.value, sub), None)
  }

  function ExitStatus(end: End): int
  {
    if end.Exited? then end.code else -1
  }

  /** What a decision leads to when no send fails. */
  function Expected(sudo: Data, d: Decision, run: Run): (events: seq<Event>)
  {
    match d
    case Refuse(code) => [Sent(ErrorToken(code))]
    case Execute(rule, argv, input) =>
      ProcessEvents(sudo, rule, argv, input, run)
      + (if run.end.InternalFailure? then [] else [Sent(StatusToken(ExitStatus(run.end)))])
  }

  method CarryOut(client: Client, sudo: Data, d: Decision)
    returns (run: Run, ghost events: seq<Event>, ghost failed: bool)
    modifies client`fatal, client`trace
    ensures ValidRun(run)
    ensures client.trace == old(client.trace) + events
    ensures UpToFailure(events, Expected(sudo, d, run), failed)
    ensures client.fatal == (old(client.fatal) || failed)
  {
    match d {
      case Refuse(code) =>
        run := AnyRun();
        var sent := client.SendError(code);
        events, failed := [if sent then Sent(ErrorToken(code)) else SendFailed], !sent;
      case Execute(rule, argv, input) =>
        var ok;
        ok, run, events, failed := ServerProcessRun(client, sudo, rule, argv, input);
        ghost var status := [Sent(StatusToken(ExitStatus(run.end)))];
        if ok {
          var sent := client.Send(StatusToken(ExitStatus(run.end)));
          ghost var last := [if sent then Sent(StatusToken(ExitStatus(run.end))) else SendFailed];
          UpToFailureAppend(events, events, last, status, !sent);
          events, failed := events + last, !sent;
        } else if failed {
          UpToFailureStops(events, ProcessEvents(sudo, rule, argv, input, run),
                           if run.end.InternalFailure? then [] else status);
        } else {
          assert ProcessEvents(sudo, rule, argv, input, run) + [] == ProcessEvents(sudo, rule, argv, input, run);
        }
    }
  }

  // Whole commands.

  /** The program of a rule that permits the client, as the server may start it. */
  ghost predicate Authorised(site: Site, who: Acl.Identity, e: Event)
    requires ValidSite(site)
  {
    e.Started? ==> e.rule in site.rules && Permitted(site, who, e.rule)
  }

  /** An event of a reply; the server reads nothing and finishes nothing while it answers. */
  ghost predicate IsReply(site: Site, who: Acl.Identity, events: seq<Event>)
    requires ValidSite(site)
  {
    forall e :: e in events ==> (e.Sent? || e.SendFailed? || e.Started?) && Authorised(site, who, e)
  }

  /** A decision runs nothing but programs the client is permitted to run. */
  ghost predicate Sound(site: Site, who: Acl.Identity, d: Decision)
    requires ValidSite(site)
  {
    d.Execute? ==> d.rule in site.rules && Permitted(site, who, d.rule)
  }

  lemma SoundReply(site: Site, who: Acl.Identity, d: Decision, run: Run, events: seq<Event>, failed: bool)
    requires ValidSite(site) && Sound(site, who, d) && UpToFailure(events, Expected(site.sudo, d, run), failed)
    ensures IsReply(site, who, events)
    ensures SendFailed in events <==> failed
  {
    hide UpToFailure, ErrorToken;
    var expected := Expected(site.sudo, d, run);
    assert forall e :: e in expected ==> (e.Sent? || e.Started?) && Authorised(site, who, e);
    UpToFailureEvents(events, expected, failed);
  }

  method CheckNuls(rule: Option<Rule>, help: bool, args: seq<Data>) returns (ok: bool)
    ensures ok == NulsAllowed(rule, help, args)
  {
    var i := 1;
    while i < |args|
      invariant 1 <= i
      invariant forall j :: 1 <= j < i && j < |args| && !NulAllowed(rule, help, j, |args|) ==> 0 !in args[j]
    {
      var skip := false;
      if rule.Some? {
        skip := (!help && i == rule.value.stdinArg) || (i + 1 == |args| && rule.value.stdinArg == -1);
      }
      if !skip && 0 in args[i] {
        return false;
      }
      i := i + 1;
    }
    return true;
  }

  function SummaryArgv(rule: Rule, summary: Data): seq<Data>
  {
    [Basename(rule.program), summary] +
    if rule.subcommand == ALL || rule.subcommand == EMPTY then [] else [rule.subcommand]
  }

  /**
   * What a summary does about one rule: nothing, or a run of its program, in which a send may fail.  The
   * server waits for the program in any case; `end` is the status it gets then.
   */
  datatype Try = Skipped | Tried(run: Run, failed: bool, end: End)

  /** `server_process_run` succeeded. */
  predicate Counts(t: Try)
  {
    t.Tried? && !t.failed && !t.run.end.InternalFailure?
  }

  predicate ValidTry(t: Try)
  {
    t.Tried? ==> ValidRun(t.run) && !t.end.InternalFailure? && (Counts(t) ==> t.end == t.run.end)
  }

  /** `WEXITSTATUS`: 0 after a signal. */
  function ExitCode(end: End): byte
  {
    if end.Exited? then end.code else 0
  }

  /** The last result that counts and is not 0, if there is one. */
  function StatusAll(tries: seq<Try>): (end: End)
    decreases |tries|
  {
    if tries == [] then
      Exited(0)
    else
      var last := tries[|tries| - 1];
      if Counts(last) && last.end != Exited(0) then last.end else StatusAll(tries[..|tries| - 1])
  }

  /** The process status of the last rule, 0 if that was skipped. */
  function LastStatus(tries: seq<Try>): (end: End)
  {
    if tries == [] || tries[|tries| - 1].Skipped? then Exited(0) else tries[|tries| - 1].end
  }

  /** The status sent after a summary. */
  function SummaryStatus(tries: seq<Try>): (status: int)
  {
    if StatusAll(tries).Exited? then ExitCode(LastStatus(tries)) else -1
  }

  function SummaryToken(tries: seq<Try>): (token: Data)
  {
    if exists i :: 0 <= i < |tries| && tries[i].Tried? then StatusToken(SummaryStatus(tries))
    else ErrorToken(UnknownCommand)
  }

  /**
   * The events about one rule: its program is run with its summary argument exactly if it has one and permits
   * the client.
   */
  ghost predicate TryEvents(site: Site, who: Acl.Identity, rule: Rule, t: Try, events: seq<Event>)
    requires ValidSite(site)
  {
    if Permitted(site, who, rule) && rule.summary.Some? then
      && t.Tried? && ValidTry(t)
      && UpToFailure(events, ProcessEvents(site.sudo, rule, SummaryArgv(rule, rule.summary.value), None, t.run),
                     t.failed)
    else
      t.Skipped? && events == []
  }

  /** The events about the first rules, in configuration order. */
  ghost predicate Summarized(site: Site, who: Acl.Identity, n: nat, tries: seq<Try>, parts: seq<seq<Event>>)
    requires ValidSite(site) && n <= |site.rules|
  {
    |tries| == |parts| == n && forall i :: 0 <= i < n ==> TryEvents(site, who, site.rules[i], tries[i], parts[i])
  }

  /** A summary: every rule in turn, then the status or, if there was nothing to run, an error. */
  ghost predicate IsSummary(site: Site, who: Acl.Identity, events: seq<Event>)
    requires ValidSite(site)
  {
    exists tries, parts ::
      && Summarized(site, who, |site.rules|, tries, parts)
      && (events == AllEvents(parts) + [Sent(SummaryToken(tries))] || events == AllEvents(parts) + [SendFailed])
  }

  lemma TryIsReply(site: Site, who: Acl.Identity, rule: Rule, t: Try, events: seq<Event>)
    requires ValidSite(site) && rule in site.rules && TryEvents(site, who, rule, t, events)
    ensures IsReply(site, who, events)
    ensures SendFailed in events <==> t.Tried? && t.failed
  {
    hide UpToFailure, ErrorToken, SummaryArgv, Permitted;
    if t.Tried? {
      var argv := SummaryArgv(rule, rule.summary.value);
      var expected := ProcessEvents(site.sudo, rule, argv, None, t.run);
      assert forall e :: e in expected ==> e.Sent? || e == Started(ExecPath(site.sudo, rule), rule, argv, None);
      UpToFailureEvents(events, expected, t.failed);
    }
  }

  lemma SummarizedSnoc(site: Site, who: Acl.Identity, n: nat, tries: seq<Try>, parts: seq<seq<Event>>, t: Try,
                       part: seq<Event>)
    requires ValidSite(site) && n < |site.rules|
    requires Summarized(site, who, n, tries, parts) && TryEvents(site, who, site.rules[n], t, part)
    ensures Summarized(site, who, n + 1, tries + [t], parts + [part])
    ensures AllEvents(parts + [part]) == AllEvents(parts) + part
  {
    hide TryEvents;
    AllEventsSnoc(parts, part);
  }

  /** The run counts and its program did not exit with status 0. */
  predicate Failing(t: Try)
  {
    Counts(t) && t.end != Exited(0)
  }

  /** The last failing run is the k-th; -1 if there is none. */
  predicate LastFailing(tries: seq<Try>, k: int)
  {
    && -1 <= k < |tries| && (k >= 0 ==> Failing(tries[k]))
    && forall i :: 0 <= i < |tries| && k < i ==> !Failing(tries[i])
  }

  lemma {:induction false} StatusAllMeaning(tries: seq<Try>) returns (k: int)
    ensures LastFailing(tries, k) && StatusAll(tries) == if k == -1 then Exited(0) else tries[k].end
  {
    if tries == [] {
      k := -1;
    } else if Failing(tries[|tries| - 1]) {
      k := |tries| - 1;
    } else {
      k := StatusAllMeaning(tries[..|tries| - 1]);
      forall i | 0 <= i < |tries| && k < i ensures !Failing(tries[i]) {
        assert i < |tries| - 1 ==> tries[i] == tries[..|tries| - 1][i];
      }
    }
  }

  /** The status that the comment of `server_send_summary` promises: the last that is not 0, otherwise 0. */
  function PromisedStatus(tries: seq<Try>, k: int): int
    requires LastFailing(tries, k)
  {
    if k == -1 then 0 else ExitStatus(tries[k].end)
  }

  /**
   * When the promise is kept, for all summaries.  If the last rule's run counts, or there was none: exactly if
   * no run failed, or the last that failed is that of the last rule or ended by a signal.  If the last rule's
   * run does not count, the exit status of its program has to be the promised one, or a signal the failure.
   */
  lemma SummaryStatusPromise(tries: seq<Try>, k: int)
    requires tries != [] && LastFailing(tries, k) && forall i :: 0 <= i < |tries| ==> ValidTry(tries[i])
    ensures var last := tries[|tries| - 1];
            SummaryStatus(tries) == PromisedStatus(tries, k) <==>
              if last.Skipped? || Counts(last) then k == -1 || k == |tries| - 1 || tries[k].end.Killed?
              else if k == -1 then ExitCode(last.end) == 0
              else tries[k].end.Killed? || last.end == tries[k].end
  {
    var j := StatusAllMeaning(tries);
    assert j == k;
    assert ValidTry(tries[|tries| - 1]);
  }

  /** Two rules, of which the first has a summary for the client to see and the second has none. */
  ghost predicate OneSummary(site: Site, who: Acl.Identity)
    requires ValidSite(site)
  {
    && |site.rules| == 2 && site.rules[1].summary.None?
    && Permitted(site, who, site.rules[0]) && site.rules[0].summary.Some?
  }

  function StartOfSummary(site: Site, rule: Rule): Event
    requires rule.summary.Some?
  {
    Started(ExecPath(site.sudo, rule), rule, SummaryArgv(rule, rule.summary.value), None)
  }

  /** A silent program that ends with this status. */
  function SilentRun(code: byte): Try
  {
    Tried(Run(true, [], Exited(code)), false, Exited(code))
  }

  lemma SilentRunEvents(site: Site, who: Acl.Identity, code: byte)
    requires ValidSite(site) && OneSummary(site, who)
    ensures TryEvents(site, who, site.rules[0], SilentRun(code), [StartOfSummary(site, site.rules[0])])
    ensures TryEvents(site, who, site.rules[1], Skipped, [])
  {
    hide SummaryArgv, ErrorToken, Permitted;
    var rule := site.rules[0];
    var argv := SummaryArgv(rule, rule.summary.value);
    assert ProcessEvents(site.sudo, rule, argv, None, SilentRun(code).run) == [StartOfSummary(site, rule)];
  }

  lemma LostToken(code: byte)
    requires code != 0
    ensures var tries := [SilentRun(code), Skipped];
            LastFailing(tries, 0) && PromisedStatus(tries, 0) == code && SummaryToken(tries) == StatusToken(0)
  {
    hide StatusToken, ErrorToken;
    var tries := [SilentRun(code), Skipped];
    assert tries[..1] == [SilentRun(code)];
    assert StatusAll(tries) == StatusAll([SilentRun(code)]) == Exited(code);
    assert LastStatus(tries) == Exited(0);
    assert tries[0].Tried?;
  }

  lemma OnePart(e: Event)
    ensures AllEvents([[e], []]) == [e]
  {
    AllEventsSnoc([[e]], []);
    AllEventsSnoc([], [e]);
    assert [[e]] + [[]] == [[e], []] && [] + [[e]] == [[e]];
  }

  lemma SummaryIs(site: Site, who: Acl.Identity, tries: seq<Try>, parts: seq<seq<Event>>)
    requires ValidSite(site) && Summarized(site, who, |site.rules|, tries, parts)
    ensures IsSummary(site, who, AllEvents(parts) + [Sent(SummaryToken(tries))])
  {
    hide Summarized, AllEvents, SummaryToken;
  }

  lemma TwoTries(site: Site, who: Acl.Identity, t: Try, part: seq<Event>)
    requires ValidSite(site) && |site.rules| == 2
    requires TryEvents(site, who, site.rules[0], t, part) && TryEvents(site, who, site.rules[1], Skipped, [])
    ensures Summarized(site, who, 2, [t, Skipped], [part, []])
  {
    hide TryEvents;
  }

  /** In every such site a summary program that fails, with whatever status, is reported as a success. */
  lemma SummaryStatusLost(site: Site, who: Acl.Identity, code: byte)
    requires ValidSite(site) && OneSummary(site, who) && code != 0
    ensures var tries, start := [SilentRun(code), Skipped], StartOfSummary(site, site.rules[0]);
            && Summarized(site, who, 2, tries, [[start], []])
            && LastFailing(tries, 0) && PromisedStatus(tries, 0) == code
            && IsSummary(site, who, [start, Sent(StatusToken(0))])
  {
    hide TryEvents, Summarized, IsSummary, AllEvents, SummaryToken, StatusToken, SilentRun, StartOfSummary;
    hide LastFailing, PromisedStatus, Permitted;
    var t, start := SilentRun(code), StartOfSummary(site, site.rules[0]);
    SilentRunEvents(site, who, code);
    LostToken(code);
    TwoTries(site, who, t, [start]);
    SummaryIs(site, who, [t, Skipped], [[start], []]);
    OnePart(start);
    assert [start] + [Sent(StatusToken(0))] == [start, Sent(StatusToken(0))];
  }

  method AnyEnd() returns (end: End)
    ensures !end.InternalFailure?
  {
    end := *;
    if end.InternalFailure? {
      end := Killed;
    }
  }

  /** One turn of the summary loop. */
  method SummarizeRule(client: Client, site: Site, who: Acl.Identity, rule: Rule)
    returns (t: Try, ghost events: seq<Event>)
    requires ValidSite(site) && rule in site.rules
    modifies client`fatal, client`trace
    ensures client.trace == old(client.trace) + events && TryEvents(site, who, rule, t, events)
    ensures client.fatal == (old(client.fatal) || SendFailed in events) && IsReply(site, who, events)
  {
    hide UpToFailure, ProcessEvents, SummaryArgv, ErrorToken, IsReply;
    t, events := Skipped, [];
    var permitted := Acl.ServerConfigAclPermit(site.world, who, rule.acls, rule.file);
    if permitted && rule.summary.Some? {
      var ok, run, failed;
      ok, run, events, failed := ServerProcessRun(client, site.sudo, rule, SummaryArgv(rule, rule.summary.value), None);
      var end := run.end;
      if !ok {
        end := AnyEnd();
      }
      t := Tried(run, failed, end);
    }
    TryIsReply(site, who, rule, t, events);
  }

  /** What the loop of the summary remembers of the rules so far. */
  ghost predicate Tally(tries: seq<Try>, okAny: bool, statusAll: End, process: End)
  {
    && (okAny <==> exists k :: 0 <= k < |tries| && tries[k].Tried?)
    && statusAll == StatusAll(tries) && process == LastStatus(tries)
  }

  lemma TallySnoc(tries: seq<Try>, okAny: bool, statusAll: End, process: End, t: Try)
    requires Tally(tries, okAny, statusAll, process)
    ensures Tally(tries + [t], okAny || t.Tried?, if Counts(t) && t.end != Exited(0) then t.end else statusAll,
                  if t.Tried? then t.end else Exited(0))
  {
    var all := tries + [t];
    assert all[..|tries|] == tries && all[|tries|] == t && forall k :: 0 <= k < |tries| ==> all[k] == tries[k];
  }

  lemma TallyToken(tries: seq<Try>, okAny: bool, statusAll: End, process: End)
    requires Tally(tries, okAny, statusAll, process)
    ensures SummaryToken(tries) ==
            if okAny then StatusToken(if statusAll.Exited? then ExitCode(process) else -1)
            else ErrorToken(UnknownCommand)
  {
  }

  lemma SummaryStart(site: Site, who: Acl.Identity)
    requires ValidSite(site)
    ensures Summarized(site, who, 0, [], []) && AllEvents([]) == [] && Tally([], false, Exited(0), Exited(0))
  {
  }

  lemma ReplyAppend(site: Site, who: Acl.Identity, xs: seq<Event>, ys: seq<Event>)
    requires ValidSite(site) && IsReply(site, who, xs) && IsReply(site, who, ys)
    ensures IsReply(site, who, xs + ys)
    ensures SendFailed in xs + ys <==> SendFailed in xs || SendFailed in ys
  {
  }

  /** `server_send_summary`. */
  method ServerSendSummary(client: Client, site: Site, who: Acl.Identity) returns (ghost events: seq<Event>)
    requires ValidSite(site)
    modifies client`fatal, client`trace
    ensures client.trace == old(client.trace) + events && IsSummary(site, who, events)
    ensures client.fatal == (old(client.fatal) || SendFailed in events) && IsReply(site, who, events)
  {
    hide TryEvents, Permitted, ErrorToken, AllEvents, Tally, Summarized, SummaryToken, UpToFailure;
    var okAny, statusAll, process, i := false, Exited(0), Exited(0), 0;
    ghost var tries, parts := [], [];
    events := [];
    SummaryStart(site, who);
    while i < |site.rules|
      invariant 0 <= i <= |site.rules| && Summarized(site, who, i, tries, parts) && events == AllEvents(parts)
      invariant client.trace == old(client.trace) + events
      invariant client.fatal == (old(client.fatal) || SendFailed in events) && IsReply(site, who, events)
      invariant Tally(tries, okAny, statusAll, process)
    {
      hide IsReply;
      var t;
      ghost var part;
      t, part := SummarizeRule(client, site, who, site.rules[i]);
      TallySnoc(tries, okAny, statusAll, process, t);
      process := Exited(0);
      if t.Tried? {
        okAny, process := true, t.end;
        if Counts(t) && process != Exited(0) {
          statusAll := process;
        }
      }
      SummarizedSnoc(site, who, i, tries, parts, t, part);
      ReplyAppend(site, who, events, part);
      EventsAssociative(old(client.trace), events, part);
      tries, parts, events := tries + [t], parts + [part], events + part;
      i := i + 1;
    }
    TallyToken(tries, okAny, statusAll, process);
    var status := if statusAll.Exited? then ExitCode(process) else -1;
    var token := if okAny then StatusToken(status) else ErrorToken(UnknownCommand);
    var sent := client.Send(token);
    ghost var last := [if sent then Sent(token) else SendFailed];
    ReplyAppend(site, who, events, last);
    EventsAssociative(old(client.trace), events, last);
    events := events + last;
  }

  /** Lookup, checks and authorisation up to the decision; the rule has been found already. */
  method Authorise(site: Site, who: Acl.Identity, rule: Option<Rule>, help: bool, args: seq<Data>)
    returns (refusal: Option<ErrorCode>)
    requires ValidSite(site)
    ensures refusal == if !NulsAllowed(rule, help, args) then Some(BadCommand)
                       else if rule.None? then Some(UnknownCommand)
                       else if !Permitted(site, who, rule.value) then Some(Access)
                       else None
  {
    var ok := CheckNuls(rule, help, args);
    if !ok {
      return Some(BadCommand);
    }
    if rule.None? {
      return Some(UnknownCommand);
    }
    var permitted := Acl.ServerConfigAclPermit(site.world, who, rule.value.acls, rule.value.file);
    return if permitted then None else Some(Access);
  }

  method MakeDecision(site: Site, who: Acl.Identity, args: seq<Data>) returns (d: Decision)
    requires ValidSite(site)
    ensures d == Decide(site, who, args) && Sound(site, who, d)
  {
    if args == [] || !NamesWithoutNul(args) {
      return Refuse(BadCommand);
    }
    var rule := FindConfigLine(site.rules, Some(args[0]), Argument(args, 1));
    var refusal := Authorise(site, who, rule, false, args);
    if refusal.Some? {
      return Refuse(refusal.value);
    }
    var argv, input := CreateArgvCommand(site.sudo, rule.value, args);
    return Execute(rule.value, argv, input);
  }

  method MakeHelpDecision(site: Site, who: Acl.Identity, args: seq<Data>) returns (d: Decision)
    requires ValidSite(site) && |args| >= 2
    ensures d == DecideHelp(site, who, args) && Sound(site, who, d)
  {
    var sub := if |args| > 2 then Some(CString(args[2])) else None;
    var rule := FindConfigLine(site.rules, Some(args[1]), sub);
    var refusal := Authorise(site, who, rule, true, args);
    if refusal.Some? {
      return Refuse(refusal.value);
    }
    if rule.value.help.None? {
      return Refuse(NoHelp);
    }
    return Execute(rule.value, HelpArgv(rule.value, rule.value.help.value, sub), None);
  }

  /** The number of complaints about superfluous arguments that precede the help on a command. */
  function Complaints(site: Site, args: seq<Data>): nat
  {
    if HelpBranch(site, args) && |args| > 3 then 1 else 0
  }

  /**
   * The reply to a command.  Outside the help branch it is that of the decision, up to the first failed
   * send.  Help on a command is the same after an optional complaint; a summary runs permitted rules.
   */
  ghost predicate Answers(site: Site, who: Acl.Identity, args: seq<Data>, reply: seq<Event>, run: Run)
    requires ValidSite(site)
  {
    && IsReply(site, who, reply) && ValidRun(run)
    && if !HelpBranch(site, args) then
         UpToFailure(reply, Expected(site.sudo, Decide(site, who, args), run), SendFailed in reply)
       else if |args| > 1 then
         && Complaints(site, args) <= |reply|
         && (Complaints(site, args) == 1 ==> reply[0] == Sent(ErrorToken(TooManyArgs)) || reply[0] == SendFailed)
         && var main := reply[Complaints(site, args)..];
            UpToFailure(main, Expected(site.sudo, DecideHelp(site, who, args), run), SendFailed in main)
       else
         IsSummary(site, who, reply)
  }

  /** Requests answered by one reply: all but summaries and help with superfluous arguments. */
  predicate SingleReply(site: Site, args: seq<Data>)
  {
    !HelpBranch(site, args) || 2 <= |args| <= 3
  }

  /** The decision on such a request. */
  ghost function Verdict(site: Site, who: Acl.Identity, args: seq<Data>): (d: Decision)
    requires ValidSite(site) && SingleReply(site, args)
  {
    if HelpBranch(site, args) then DecideHelp(site, who, args) else Decide(site, who, args)
  }

  lemma SingleAnswer(site: Site, who: Acl.Identity, args: seq<Data>, reply: seq<Event>, run: Run)
    requires ValidSite(site) && SingleReply(site, args) && Answers(site, who, args, reply, run)
    ensures ValidRun(run)
    ensures UpToFailure(reply, Expected(site.sudo, Verdict(site, who, args), run), SendFailed in reply)
  {
    hide Decide, DecideHelp, Expected, UpToFailure, IsReply;
    if HelpBranch(site, args) {
      assert reply[0..] == reply;
    }
  }

  /** `server_run_command`. */
  method ServerRunCommand(client: Client, site: Site, who: Acl.Identity, args: seq<Data>)
    returns (run: Run, ghost reply: seq<Event>)
    requires ValidSite(site)
    modifies client`fatal, client`trace
    ensures client.trace == old(client.trace) + reply
    ensures client.fatal == (old(client.fatal) || SendFailed in reply)
    ensures Answers(site, who, args, reply, run)
  {
    var help := false;
    if args != [] && NamesWithoutNul(args) {
      var rule := FindConfigLine(site.rules, Some(args[0]), Argument(args, 1));
      help := rule.None? && args[0] == HELP;
    }
    if help {
      run, reply := RunHelp(client, site, who, args);
      return;
    }
    var d := MakeDecision(site, who, args);
    ghost var failed;
    run, reply, failed := CarryOut(client, site.sudo, d);
    SoundReply(site, who, d, run, reply, failed);
  }

  method RunHelp(client: Client, site: Site, who: Acl.Identity, args: seq<Data>)
    returns (run: Run, ghost reply: seq<Event>)
    requires ValidSite(site) && HelpBranch(site, args)
    modifies client`fatal, client`trace
    ensures client.trace == old(client.trace) + reply
    ensures client.fatal == (old(client.fatal) || SendFailed in reply)
    ensures Answers(site, who, args, reply, run)
  {
    hide Decide, DecideHelp, Expected, ErrorToken, FirstMatch, IsSummary, UpToFailure, NamesWithoutNul;
    if |args| == 1 {
      run := AnyRun();
      reply := ServerSendSummary(client, site, who);
      return;
    }
    ghost var complaint := [];
    if |args| > 3 {
      var sent := client.SendError(TooManyArgs);
      complaint := [if sent then Sent(ErrorToken(TooManyArgs)) else SendFailed];
    }
    var d := MakeHelpDecision(site, who, args);
    ghost var main, failed;
    run, main, failed := CarryOut(client, site.sudo, d);
    SoundReply(site, who, d, run, main, failed);
    reply := complaint + main;
    HelpAnswers(site, who, args, complaint, main, run);
  }

  lemma HelpAnswers(site: Site, who: Acl.Identity, args: seq<Data>, complaint: seq<Event>, main: seq<Event>, run: Run)
    requires ValidSite(site) && HelpBranch(site, args) && |args| > 1 && IsReply(site, who, main) && ValidRun(run)
    requires |complaint| == Complaints(site, args)
    requires complaint != [] ==> complaint[0] == Sent(ErrorToken(TooManyArgs)) || complaint[0] == SendFailed
    requires UpToFailure(main, Expected(site.sudo, DecideHelp(site, who, args), run), SendFailed in main)
    ensures Answers(site, who, args, complaint + main, run)
  {
    var reply := complaint + main;
    assert reply[|complaint|..] == main;
    assert forall e :: e in reply ==> e in complaint || e in main;
    assert complaint != [] ==> reply[0] == complaint[0];
  }
}
