/** What the server promises about the programs it runs and the tokens it answers with. */
module RunTheorems {
  import opened Bytes
  import opened Protocol
  import opened ServerClient
  import opened Commands
  import opened RunCommand
  import Acl
  import AclTheorems

  /** A program started belongs to a rule one of whose entries grants, through includes alone, after silent entries. */
  lemma AuthorisedExecution(site: Site, who: Acl.Identity, e: Event) returns (i: nat)
    requires ValidSite(site) && e.Started? && Authorised(site, who, e)
    ensures e.rule in site.rules && i < |e.rule.acls|
    ensures AclTheorems.Grants(site.world, who, e.rule.acls[i], Acl.FileDefault, e.rule.file)
    ensures forall j :: 0 <= j < i ==>
      Acl.CheckEntry(site.world, who, e.rule.acls[j], Acl.FileDefault, e.rule.file).NoMatch?
  {
    i := AclTheorems.PermitRestsOnGrant(site.world, who, e.rule.acls, e.rule.file);
  }

  lemma {:induction false} FirstMatchIndex(rules: seq<Rule>, command: Option<Data>, subcommand: Option<Data>)
    returns (i: nat)
    requires FirstMatch(rules, command, subcommand).Some?
    ensures i < |rules| && FirstMatch(rules, command, subcommand) == Some(rules[i])
    ensures LineMatches(rules[i], command, subcommand)
    ensures forall j :: 0 <= j < i ==> !LineMatches(rules[j], command, subcommand)
  {
    if LineMatches(rules[0], command, subcommand) {
      i := 0;
    } else {
      var k := FirstMatchIndex(rules[1..], command, subcommand);
      i := k + 1;
      forall j | 0 <= j < i ensures !LineMatches(rules[j], command, subcommand) {
        assert j > 0 ==> rules[j] == rules[1..][j - 1];
      }
    }
  }

  /**
   * The rule of a command that is run is the first in configuration order that matches it, and it permits the
   * client.
   */
  lemma DirectRule(site: Site, who: Acl.Identity, args: seq<Data>) returns (i: nat)
    requires ValidSite(site) && Decide(site, who, args).Execute?
    ensures i < |site.rules| && site.rules[i] == Decide(site, who, args).rule
    ensures LineMatches(site.rules[i], Some(args[0]), Argument(args, 1))
    ensures forall j :: 0 <= j < i ==> !LineMatches(site.rules[j], Some(args[0]), Argument(args, 1))
    ensures Permitted(site, who, site.rules[i])
  {
    i := FirstMatchIndex(site.rules, Some(args[0]), Argument(args, 1));
  }

  lemma {:induction false} CStringWhole(d: Data)
    requires 0 !in d
    ensures CString(d) == d
  {
    if d != [] {
      CStringWhole(d[1..]);
    }
  }

  /** No argument but the one for standard input holds a nul. */
  lemma KeptWithoutNul(site: Site, who: Acl.Identity, args: seq<Data>, i: nat)
    requires ValidSite(site) && Decide(site, who, args).Execute?
    requires 1 <= i < |args| && i != StdinIndex(Decide(site, who, args).rule, |args|)
    ensures 0 !in args[i]
  {
    var rule := FirstMatch(site.rules, Some(args[0]), Argument(args, 1));
    assert !NulAllowed(rule, false, i, |args|);
  }

  /**
   * The program gets the client's arguments 1.. in order and whole, except at most one, the configured
   * argument, which it gets whole on standard input.
   */
  lemma ArgumentConservation(site: Site, who: Acl.Identity, args: seq<Data>) returns (kept: seq<Data>)
    requires ValidSite(site) && Decide(site, who, args).Execute?
    ensures var d := Decide(site, who, args);
            && d.argv == Prefix(site.sudo, d.rule) + kept
            && match d.input
               case None => kept == args[1..]
               case Some(input) =>
                 var k := StdinIndex(d.rule, |args|);
                 1 <= k < |args| && input == args[k] && args[1..] == kept[..k - 1] + [input] + kept[k - 1..]
  {
    var d := Decide(site, who, args);
    kept := Without(args, StdinIndex(d.rule, |args|), |args|);
    KeptWhole(site, who, args);
    hide CString, Prefix;
    SpliceBack(args, StdinIndex(d.rule, |args|));
  }

  /** No kept argument is shortened. */
  lemma KeptWhole(site: Site, who: Acl.Identity, args: seq<Data>)
    requires ValidSite(site) && Decide(site, who, args).Execute?
    ensures args != [] &&
            var kept := Without(args, StdinIndex(Decide(site, who, args).rule, |args|), |args|); Strings(kept) == kept
  {
    assert args != [];
    var k := StdinIndex(Decide(site, who, args).rule, |args|);
    var kept := Without(args, k, |args|);
    forall i | 0 <= i < |kept| ensures CString(kept[i]) == kept[i] {
      var at := if 1 <= k < |args| && i >= k - 1 then i + 2 else i + 1;
      assert kept[i] == args[at];
      hide Decide, StdinIndex;
      KeptWithoutNul(site, who, args, at);
      CStringWhole(kept[i]);
    }
  }

  lemma SpliceBack(args: seq<Data>, k: int)
    requires args != []
    ensures var kept := Without(args, k, |args|);
            if 1 <= k < |args| then args[1..] == kept[..k - 1] + [args[k]] + kept[k - 1..] else kept == args[1..]
  {
    if 1 <= k < |args| {
      var kept := Without(args, k, |args|);
      assert kept[..k - 1] == args[1..k] && kept[k - 1..] == args[k + 1..];
    }
  }

  // Replies.

  /** The tokens sent. */
  function Replies(events: seq<Event>): (tokens: seq<Data>)
  {
    if events == [] then []
    else (if events[0].Sent? then [events[0].token] else []) + Replies(events[1..])
  }

  lemma {:induction false} RepliesAppend(xs: seq<Event>, ys: seq<Event>)
    ensures Replies(xs + ys) == Replies(xs) + Replies(ys)
  {
    if xs == [] {
      assert xs + ys == ys;
    } else {
      RepliesAppend(xs[1..], ys);
      assert (xs + ys)[1..] == xs[1..] + ys;
    }
  }

  function OutputTokens(chunks: seq<Chunk>): (tokens: seq<Data>)
    ensures |tokens| == |chunks|
  {
    seq(|chunks|, i requires 0 <= i < |chunks| => OutputToken(chunks[i].stream, chunks[i].data))
  }

  lemma {:induction false} RepliesOfOutput(chunks: seq<Chunk>)
    ensures Replies(OutputEvents(chunks)) == OutputTokens(chunks)
  {
    if chunks != [] {
      RepliesOfOutput(chunks[1..]);
      assert OutputEvents(chunks)[1..] == OutputEvents(chunks[1..]);
    }
  }

  /** The chunks of output of a command, none if it is refused. */
  function Output(d: Decision, run: Run): seq<Chunk>
  {
    if d.Refuse? then [] else run.chunks
  }

  /** The token that ends the reply. */
  function LastToken(d: Decision, run: Run): (token: Data)
    ensures |token| <= TOKEN_MAX_DATA
  {
    match d
    case Refuse(code) => ErrorToken(code)
    case Execute(_, _, _) => if run.end.InternalFailure? then ErrorToken(Internal) else StatusToken(ExitStatus(run.end))
  }

  /** A command outside the help branch is answered by its output and then exactly one STATUS or ERROR. */
  lemma ResponseShape(sudo: Data, d: Decision, run: Run)
    requires d.Execute? ==> ValidRun(run)
    ensures Replies(Expected(sudo, d, run)) == OutputTokens(Output(d, run)) + [LastToken(d, run)]
    ensures forall i :: 0 <= i < |Output(d, run)| ==>
      var token := OutputTokens(Output(d, run))[i]; token[1] == MESSAGE_OUTPUT && |token| <= TOKEN_MAX_DATA
    ensures var last := LastToken(d, run); |last| >= 2 && last[1] in {MESSAGE_STATUS, MESSAGE_ERROR}
  {
    match d {
      case Refuse(code) =>
        assert Expected(sudo, d, run) == [Sent(ErrorToken(code))] + [];
      case Execute(rule, argv, input) =>
        var begin := if run.started then [Started(ExecPath(sudo, rule), rule, argv, input)] else [];
        var finish := [Sent(LastToken(d, run))];
        assert Expected(sudo, d, run) == begin + OutputEvents(run.chunks) + finish;
        RepliesAppend(begin + OutputEvents(run.chunks), finish);
        RepliesAppend(begin, OutputEvents(run.chunks));
        RepliesOfOutput(run.chunks);
        assert finish[1..] == [] && Replies(finish) == [LastToken(d, run)] && Replies(begin) == [];
    }
  }

  // Starts.

  /** The programs started, in order. */
  function Starts(events: seq<Event>): seq<Event>
  {
    if events == [] then [] else (if events[0].Started? then [events[0]] else []) + Starts(events[1..])
  }

  lemma {:induction false} StartsAppend(xs: seq<Event>, ys: seq<Event>)
    ensures Starts(xs + ys) == Starts(xs) + Starts(ys)
  {
    if xs == [] {
      assert xs + ys == ys;
    } else {
      StartsAppend(xs[1..], ys);
      assert (xs + ys)[1..] == xs[1..] + ys;
      EventsAssociative(if xs[0].Started? then [xs[0]] else [], Starts(xs[1..]), Starts(ys));
    }
  }

  lemma {:induction false} NoStarts(events: seq<Event>)
    requires forall e :: e in events ==> !e.Started?
    ensures Starts(events) == []
  {
    if events != [] {
      assert events[0] in events;
      NoStarts(events[1..]);
    }
  }

  /** A process that comes into being is started once, before anything is sent, with its arguments and its input. */
  lemma ProcessStarts(sudo: Data, rule: Rule, argv: seq<Data>, input: Option<Data>, run: Run)
    ensures var events := ProcessEvents(sudo, rule, argv, input, run);
            var path := if rule.sudoUser.None? then rule.program else sudo;
            && Starts(events) == (if run.started then [Started(path, rule, argv, input)] else [])
            && (run.started ==> events != [] && events[0].Started?)
  {
    var begin := if run.started then [Started(ExecPath(sudo, rule), rule, argv, input)] else [];
    ProcessEventsParts(sudo, rule, argv, input, run);
    hide ProcessEvents, ErrorToken;
    var finish := if run.end.InternalFailure? then [Sent(ErrorToken(Internal))] else [];
    StartsAppend(begin + OutputEvents(run.chunks), finish);
    StartsAppend(begin, OutputEvents(run.chunks));
    NoStarts(OutputEvents(run.chunks));
    NoStarts(finish);
    assert begin != [] ==> begin[1..] == [];
  }

  /** A refused command starts nothing; an executed one starts its program. */
  lemma DecisionStarts(sudo: Data, d: Decision, run: Run)
    ensures Starts(Expected(sudo, d, run)) ==
            if d.Execute? && run.started then
              [Started(if d.rule.sudoUser.None? then d.rule.program else sudo, d.rule, d.argv, d.input)]
            else []
  {
    match d {
      case Refuse(code) =>
        NoStarts([Sent(ErrorToken(code))]);
      case Execute(rule, argv, input) =>
        var last := if run.end.InternalFailure? then [] else [Sent(StatusToken(ExitStatus(run.end)))];
        ProcessStarts(sudo, rule, argv, input, run);
        assert Expected(sudo, d, run) == ProcessEvents(sudo, rule, argv, input, run) + last;
        hide ProcessEvents, Expected;
        StartsAppend(ProcessEvents(sudo, rule, argv, input, run), last);
        NoStarts(last);
    }
  }

  /** A summary runs exactly the rules that permit the client and have a summary argument, each in its turn. */
  lemma SummaryRuns(site: Site, who: Acl.Identity, tries: seq<Try>, parts: seq<seq<Event>>, i: nat)
    requires ValidSite(site) && Summarized(site, who, |site.rules|, tries, parts) && i < |site.rules|
    ensures var rule := site.rules[i];
            && (tries[i].Tried? <==> Acl.Permits(site.world, who, rule.acls, rule.file) && rule.summary.Some?)
            && (tries[i].Skipped? ==> parts[i] == [])
            && (tries[i].Tried? && tries[i].run.started && !tries[i].failed ==>
                  Starts(parts[i]) == [Started(if rule.sudoUser.None? then rule.program else site.sudo, rule,
                                               SummaryArgv(rule, rule.summary.value), None)])
  {
    var rule := site.rules[i];
    assert TryEvents(site, who, rule, tries[i], parts[i]);
    hide ProcessEvents, SummaryArgv;
    if tries[i].Tried? {
      ProcessStarts(site.sudo, rule, SummaryArgv(rule, rule.summary.value), None, tries[i].run);
    }
  }

  /** If no rule has a summary for the client, the answer is that the command is unknown, and nothing else. */
  lemma NothingToSummarize(site: Site, who: Acl.Identity, events: seq<Event>)
    requires ValidSite(site) && IsSummary(site, who, events)
    requires forall i :: 0 <= i < |site.rules| ==>
      !Acl.Permits(site.world, who, site.rules[i].acls, site.rules[i].file) || site.rules[i].summary.None?
    ensures events == [Sent(ErrorToken(UnknownCommand))] || events == [SendFailed]
  {
    hide ErrorToken;
    var tries: seq<Try>, parts: seq<seq<Event>> :|
      && Summarized(site, who, |site.rules|, tries, parts)
      && (events == AllEvents(parts) + [Sent(SummaryToken(tries))] || events == AllEvents(parts) + [SendFailed]);
    forall i | 0 <= i < |site.rules| ensures tries[i].Skipped? && parts[i] == [] {
      SummaryRuns(site, who, tries, parts, i);
    }
    EmptyParts(parts);
  }

  lemma {:induction false} EmptyParts(parts: seq<seq<Event>>)
    requires forall i :: 0 <= i < |parts| ==> parts[i] == []
    ensures AllEvents(parts) == []
  {
    if parts != [] {
      EmptyParts(parts[1..]);
    }
  }

  /** If some rule has one, the answer ends with a status. */
  lemma SomethingToSummarize(tries: seq<Try>, i: nat)
    requires i < |tries| && tries[i].Tried?
    ensures SummaryToken(tries) == StatusToken(SummaryStatus(tries))
  {
  }

  // How many replies a request gets.

  predicate IsTerminal(token: Data)
  {
    |token| >= 2 && token[1] in {MESSAGE_STATUS, MESSAGE_ERROR}
  }

  /** The number of tokens that end a reply. */
  function Terminals(tokens: seq<Data>): (n: nat)
  {
    if tokens == [] then 0 else (if IsTerminal(tokens[0]) then 1 else 0) + Terminals(tokens[1..])
  }

  lemma {:induction false} TerminalsAppend(xs: seq<Data>, ys: seq<Data>)
    ensures Terminals(xs + ys) == Terminals(xs) + Terminals(ys)
  {
    if xs == [] {
      assert xs + ys == ys;
    } else {
      TerminalsAppend(xs[1..], ys);
      assert (xs + ys)[1..] == xs[1..] + ys;
    }
  }

  lemma OneToken(token: Data)
    ensures Replies([Sent(token)]) == [token] && Terminals([token]) == if IsTerminal(token) then 1 else 0
  {
    var tokens: seq<Data> := [token];
    assert tokens[1..] == [] && [Sent(token)][1..] == [];
  }

  lemma {:induction false} TerminalsOfOutput(chunks: seq<Chunk>)
    ensures Terminals(OutputTokens(chunks)) == 0
  {
    if chunks != [] {
      TerminalsOfOutput(chunks[1..]);
      assert OutputTokens(chunks)[1..] == OutputTokens(chunks[1..]);
    }
  }

  lemma TerminalsOfDecision(sudo: Data, d: Decision, run: Run)
    requires d.Execute? ==> ValidRun(run)
    ensures Terminals(Replies(Expected(sudo, d, run))) == 1
  {
    ResponseShape(sudo, d, run);
    hide Expected, LastToken, Output;
    TerminalsAppend(OutputTokens(Output(d, run)), [LastToken(d, run)]);
    TerminalsOfOutput(Output(d, run));
    OneToken(LastToken(d, run));
  }

  /** A run of a summary: its output, and an error if the server failed. */
  lemma TerminalsOfProcess(sudo: Data, rule: Rule, argv: seq<Data>, input: Option<Data>, run: Run)
    ensures Terminals(Replies(ProcessEvents(sudo, rule, argv, input, run))) == if run.end.InternalFailure? then 1 else 0
  {
    var begin := if run.started then [Started(ExecPath(sudo, rule), rule, argv, input)] else [];
    var finish := if run.end.InternalFailure? then [Sent(ErrorToken(Internal))] else [];
    ProcessEventsParts(sudo, rule, argv, input, run);
    hide ProcessEvents, OutputEvents;
    assert begin != [] ==> begin[1..] == [];
    assert IsTerminal(ErrorToken(Internal));
    OneToken(ErrorToken(Internal));
    hide ErrorToken;
    RepliesAppend(begin + OutputEvents(run.chunks), finish);
    RepliesAppend(begin, OutputEvents(run.chunks));
    RepliesOfOutput(run.chunks);
    TerminalsOfOutput(run.chunks);
    assert Replies(begin) == [] && [] + OutputTokens(run.chunks) == OutputTokens(run.chunks);
    TerminalsAppend(OutputTokens(run.chunks), Replies(finish));
  }

  /** The number of runs of a summary in which the server failed. */
  function Breakdowns(tries: seq<Try>): (n: nat)
  {
    if tries == [] then 0
    else (if tries[0].Tried? && tries[0].run.end.InternalFailure? then 1 else 0) + Breakdowns(tries[1..])
  }

  lemma {:induction false} TerminalsOfParts(site: Site, who: Acl.Identity, rules: seq<Rule>, tries: seq<Try>,
                                            parts: seq<seq<Event>>)
    requires ValidSite(site) && |tries| == |parts| == |rules|
    requires forall i :: 0 <= i < |rules| ==> TryEvents(site, who, rules[i], tries[i], parts[i])
    requires forall i :: 0 <= i < |tries| ==> tries[i].Tried? ==> !tries[i].failed
    ensures Terminals(Replies(AllEvents(parts))) == Breakdowns(tries)
    decreases |rules|
  {
    if rules != [] {
      var later := AllEvents(parts[1..]);
      var rule := rules[0];
      if tries[0].Tried? {
        TerminalsOfProcess(site.sudo, rule, SummaryArgv(rule, rule.summary.value), None, tries[0].run);
      }
      assert Terminals(Replies(parts[0])) == if tries[0].Tried? && tries[0].run.end.InternalFailure? then 1 else 0;
      hide TryEvents;
      TerminalsOfParts(site, who, rules[1..], tries[1..], parts[1..]);
      RepliesAppend(parts[0], later);
      TerminalsAppend(Replies(parts[0]), Replies(later));
    }
  }

  /** A summary whose tokens all get through is answered by one reply exactly if the server did not fail in any run. */
  lemma SummaryTerminals(site: Site, who: Acl.Identity, tries: seq<Try>, parts: seq<seq<Event>>)
    requires ValidSite(site) && Summarized(site, who, |site.rules|, tries, parts)
    requires forall i :: 0 <= i < |tries| ==> tries[i].Tried? ==> !tries[i].failed
    ensures Terminals(Replies(AllEvents(parts) + [Sent(SummaryToken(tries))])) == 1 + Breakdowns(tries)
  {
    var last := SummaryToken(tries);
    assert IsTerminal(last);
    hide SummaryToken;
    TerminalsOfParts(site, who, site.rules, tries, parts);
    RepliesAppend(AllEvents(parts), [Sent(last)]);
    OneToken(last);
    TerminalsAppend(Replies(AllEvents(parts)), [last]);
  }

  /**
   * Every other request whose tokens all get through is answered by one reply exactly if it is not help with too
   * many arguments.
   */
  lemma CommandTerminals(site: Site, who: Acl.Identity, args: seq<Data>, reply: seq<Event>, run: Run)
    requires ValidSite(site) && Answers(site, who, args, reply, run) && SendFailed !in reply
    requires HelpBranch(site, args) ==> |args| > 1
    ensures Terminals(Replies(reply)) == if SingleReply(site, args) then 1 else 2
  {
    hide Decide, DecideHelp, Expected, HelpBranch, ErrorToken;
    if SingleReply(site, args) {
      SingleAnswer(site, who, args, reply, run);
      TerminalsOfDecision(site.sudo, Verdict(site, who, args), run);
    } else {
      var complaint, main := ErrorToken(TooManyArgs), reply[1..];
      assert reply[0] in reply && forall e :: e in main ==> e in reply;
      assert reply == [Sent(complaint)] + main;
      OneToken(complaint);
      ComplaintIsTerminal();
      TerminalsOfDecision(site.sudo, DecideHelp(site, who, args), run);
      RepliesAppend([Sent(complaint)], main);
      TerminalsAppend([complaint], Replies(main));
    }
  }

  lemma ComplaintIsTerminal()
    ensures IsTerminal(ErrorToken(TooManyArgs))
  {
  }
}
