/** What holds of every program started in a whole connection. */
module Connection {
  import opened Bytes
  import opened CommandCodec
  import opened ServerClient
  import opened Reassembly
  import opened Commands
  import opened RunCommand
  import opened RunTheorems
  import opened ServerV2
  import Acl
  import AclTheorems

  // Turns.

  /** What can be read when turn j begins. */
  function InputAt(input: seq<ReadResult>, j: nat): (now: seq<ReadResult>)
    requires AllLongEnough(input)
    ensures AllLongEnough(now)
    decreases j
  {
    if j == 0 then input else InputAt(InputAfter(input), j - 1)
  }

  lemma {:induction false} TurnOf(site: Site, who: Acl.Identity, input: seq<ReadResult>, turns: seq<seq<Event>>,
                                  now: seq<ReadResult>, j: nat)
    requires ValidSite(site) && AllLongEnough(input) && WellSized(input)
    requires Conversation(site, who, input, turns, now) && j < |turns|
    ensures WellSized(InputAt(input, j)) && IsTurn(site, who, InputAt(input, j), turns[j])
    decreases j
  {
    hide IsTurn, WellSized, AllLongEnough, InputAfter;
    WellSizedNext(input);
    if j > 0 {
      TurnOf(site, who, InputAfter(input), turns[1..], now, j - 1);
    }
  }

  lemma {:induction false} EventInTurn(turns: seq<seq<Event>>, n: nat) returns (j: nat, k: nat)
    requires n < |AllEvents(turns)|
    ensures j < |turns| && k < |turns[j]| && AllEvents(turns)[n] == turns[j][k]
  {
    if n < |turns[0]| {
      j, k := 0, n;
    } else {
      var i, m := EventInTurn(turns[1..], n - |turns[0]|);
      j, k := i + 1, m;
    }
  }

  /** The command that a turn on this input completes, if it completes one that can be parsed. */
  function CommandOf(input: seq<ReadResult>): (args: Option<seq<Data>>)
    requires AllLongEnough(input)
  {
    var r := Next(input);
    if r.Token? && IsCommand(r.data) then
      var a := Assemble(r.data, Rest(input), false, []);
      if a.Complete? && |a.payload| >= 4 && ParseCommand(a.payload).Command? then
        Some(ParseCommand(a.payload).argv)
      else
        None
    else
      None
  }

  // Starts.

  function StartOf(site: Site, d: Decision): Event
    requires d.Execute?
  {
    Started(ExecPath(site.sudo, d.rule), d.rule, d.argv, d.input)
  }

  /** What a command may start: what is decided about it, or the summary of a rule that permits the client. */
  ghost predicate StartedBy(site: Site, who: Acl.Identity, args: seq<Data>, e: Event)
    requires ValidSite(site)
  {
    if !HelpBranch(site, args) then
      var d := Decide(site, who, args);
      d.Execute? && e == StartOf(site, d)
    else if |args| > 1 then
      var d := DecideHelp(site, who, args);
      d.Execute? && e == StartOf(site, d)
    else
      && e.Started? && e.rule in site.rules && Permitted(site, who, e.rule)
      && e.rule.summary.Some? && e == StartOfSummary(site, e.rule)
  }

  lemma StartInExpected(site: Site, d: Decision, run: Run, events: seq<Event>, failed: bool, k: nat)
    requires UpToFailure(events, Expected(site.sudo, d, run), failed) && k < |events| && events[k].Started?
    ensures d.Execute? && events[k] == StartOf(site, d)
  {
    hide UpToFailure, ErrorToken;
    var expected := Expected(site.sudo, d, run);
    assert forall e :: e in expected ==> e.Sent? || (d.Execute? && e == StartOf(site, d));
    UpToFailureEvents(events, expected, failed);
    assert events[k] in events;
  }

  lemma StartInSummary(site: Site, who: Acl.Identity, events: seq<Event>, k: nat)
    requires ValidSite(site) && IsSummary(site, who, events) && k < |events| && events[k].Started?
    ensures events[k].rule in site.rules && Permitted(site, who, events[k].rule)
    ensures events[k].rule.summary.Some? && events[k] == StartOfSummary(site, events[k].rule)
  {
    hide TryEvents, AllEvents;
    var tries, parts :|
      && Summarized(site, who, |site.rules|, tries, parts)
      && (events == AllEvents(parts) + [Sent(SummaryToken(tries))] || events == AllEvents(parts) + [SendFailed]);
    var j, m := EventInTurn(parts, k);
    StartInTry(site, who, site.rules[j], tries[j], parts[j], m);
  }

  lemma StartInTry(site: Site, who: Acl.Identity, rule: Rule, t: Try, events: seq<Event>, k: nat)
    requires ValidSite(site) && TryEvents(site, who, rule, t, events) && k < |events| && events[k].Started?
    ensures Permitted(site, who, rule) && rule.summary.Some? && events[k] == StartOfSummary(site, rule)
  {
    hide UpToFailure, ErrorToken, SummaryArgv, Permitted;
    var argv := SummaryArgv(rule, rule.summary.value);
    var expected := ProcessEvents(site.sudo, rule, argv, None, t.run);
    assert forall e :: e in expected ==> e.Sent? || e == StartOfSummary(site, rule);
    UpToFailureEvents(events, expected, t.failed);
    assert events[k] in events;
  }

  lemma StartInAnswer(site: Site, who: Acl.Identity, args: seq<Data>, reply: seq<Event>, run: Run, k: nat)
    requires ValidSite(site) && Answers(site, who, args, reply, run) && k < |reply| && reply[k].Started?
    ensures StartedBy(site, who, args, reply[k])
  {
    hide Decide, DecideHelp, Expected, IsSummary, UpToFailure, IsReply;
    if !HelpBranch(site, args) {
      StartInExpected(site, Decide(site, who, args), run, reply, SendFailed in reply, k);
    } else if |args| > 1 {
      var c := Complaints(site, args);
      var main := reply[c..];
      assert k >= c && main[k - c] == reply[k];
      StartInExpected(site, DecideHelp(site, who, args), run, main, SendFailed in main, k - c);
    } else {
      StartInSummary(site, who, reply, k);
    }
  }

  lemma StartInTurn(site: Site, who: Acl.Identity, input: seq<ReadResult>, events: seq<Event>, k: nat)
    returns (args: seq<Data>)
    requires ValidSite(site) && AllLongEnough(input) && WellSized(input)
    requires IsTurn(site, who, input, events) && k < |events| && events[k].Started?
    ensures CommandOf(input) == Some(args) && StartedBy(site, who, args, events[k])
  {
    hide Assemble, AssembleReads, ParseCommand, StartedBy, Answers, UpToFailure, WellSized;
    WellSizedNext(input);
    var handled := events[1..];
    assert handled[k - 1] == events[k] && handled[k - 1] in handled;
    assert Next(input).Token? && IsCommand(Next(input).data);
    var token := Next(input).data;
    var a, taken := Assemble(token, Rest(input), false, []), AssembleReads(token, Rest(input), false, []);
    var reply, run :| Handled(site, who, a, taken, handled, reply, run);
    var m := k - 1 - |taken|;
    assert 0 <= m < |reply| by { assert forall h :: 0 <= h < |taken| ==> handled[h] == ReadEvents(taken)[h]; }
    assert handled[k - 1] == reply[m] && reply[m] in reply;
    args := ParseCommand(a.payload).argv;
    StartInAnswer(site, who, args, reply, run, m);
  }

  lemma StartIsAuthorised(site: Site, who: Acl.Identity, args: seq<Data>, e: Event)
    requires ValidSite(site) && StartedBy(site, who, args, e)
    ensures e.Started? && Authorised(site, who, e)
  {
  }

  /**
   * Every program started in a connection, over all inputs and all runs, is what the command of its turn
   * calls for, and its rule rests on a leaf check that grants outside any deny, after entries that are silent.
   */
  lemma EveryStart(site: Site, who: Acl.Identity, input: seq<ReadResult>, turns: seq<seq<Event>>, now: seq<ReadResult>,
                   n: nat) returns (j: nat, args: seq<Data>, i: nat)
    requires ValidSite(site) && AllLongEnough(input) && WellSized(input)
    requires Conversation(site, who, input, turns, now) && n < |AllEvents(turns)| && AllEvents(turns)[n].Started?
    ensures j < |turns| && CommandOf(InputAt(input, j)) == Some(args)
    ensures var e := AllEvents(turns)[n];
            && StartedBy(site, who, args, e)
            && e.rule in site.rules && i < |e.rule.acls|
            && AclTheorems.Grants(site.world, who, e.rule.acls[i], Acl.FileDefault, e.rule.file)
            && forall h :: 0 <= h < i ==>
                 Acl.CheckEntry(site.world, who, e.rule.acls[h], Acl.FileDefault, e.rule.file).NoMatch?
  {
    hide IsTurn, StartedBy, Conversation, AllEvents, CommandOf, WellSized, InputAt;
    var k;
    j, k := EventInTurn(turns, n);
    TurnOf(site, who, input, turns, now, j);
    args := StartInTurn(site, who, InputAt(input, j), turns[j], k);
    StartIsAuthorised(site, who, args, AllEvents(turns)[n]);
    i := AuthorisedExecution(site, who, AllEvents(turns)[n]);
  }

  /** Outside the help branch the program belongs to the first rule in configuration order that matches the command. */
  lemma FirstRuleStarts(site: Site, who: Acl.Identity, args: seq<Data>, e: Event) returns (i: nat)
    requires ValidSite(site) && StartedBy(site, who, args, e) && !HelpBranch(site, args)
    ensures args != [] && i < |site.rules| && e.rule == site.rules[i]
    ensures LineMatches(site.rules[i], Some(args[0]), Argument(args, 1))
    ensures forall h :: 0 <= h < i ==> !LineMatches(site.rules[h], Some(args[0]), Argument(args, 1))
  {
    i := DirectRule(site, who, args);
  }

  // What is executed.

  /** The rule's program is executed, through sudo and as the configured user if there is one. */
  predicate RunsItsProgram(site: Site, e: Event)
    requires e.Started?
  {
    match e.rule.sudoUser
    case None => e.path == e.rule.program
    case Some(user) => e.path == site.sudo && [site.sudo, SUDO_USER, user, SUDO_END, e.rule.program] <= e.argv
  }

  /**
   * The program of the rule is executed on the direct path, and on the help and summary paths exactly if the
   * rule does not use sudo; with sudo those hand it the help or summary argument in place of a program.
   */
  lemma ProgramExecuted(site: Site, who: Acl.Identity, args: seq<Data>, e: Event)
    requires ValidSite(site) && StartedBy(site, who, args, e)
    ensures RunsItsProgram(site, e) <==> !HelpBranch(site, args) || e.rule.sudoUser.None?
    ensures HelpBranch(site, args) && e.rule.sudoUser.Some? ==>
      && e.path == site.sudo && |e.argv| >= 2
      && Some(e.argv[1]) == if |args| > 1 then e.rule.help else e.rule.summary
  {
    if HelpBranch(site, args) {
      assert |e.argv| <= 3;
    } else {
      var kept := ArgumentConservation(site, who, args);
      assert e.argv == Prefix(site.sudo, e.rule) + kept;
    }
  }

  /** A rule that permits one client and runs its program through sudo. */
  function SudoRule(who: Acl.Identity, command: Data, program: Data, user: Data, argument: Data): Rule
  {
    Rule(command, ALL, program, 0, Some(user), Some(argument), Some(argument), ["princ:" + who.user], "conf")
  }

  lemma OwnPrincipal(world: Acl.World, who: Acl.Identity, file: string)
    requires Acl.Acyclic(world)
    ensures Acl.Permits(world, who, ["princ:" + who.user], file)
  {
    Acl.DispatchPrinc(who.user, Acl.FileDefault);
    hide Acl.Dispatch;
    assert Acl.CheckEntry(world, who, "princ:" + who.user, Acl.FileDefault, file).Success?;
  }

  /** In the site of that one rule, help on the command and a summary make sudo run the argument, not the program. */
  lemma SudoRunsArgument(world: Acl.World, who: Acl.Identity, sudo: Data, command: Data, program: Data, user: Data,
                         argument: Data)
    requires Acl.Acyclic(world) && command != ALL && command != HELP && 0 !in command
    ensures var rule := SudoRule(who, command, program, user, argument);
            var site := Site(world, [rule], sudo);
            var help := Started(sudo, rule, HelpArgv(rule, argument, None), None);
            var summary := Started(sudo, rule, SummaryArgv(rule, argument), None);
            && ValidSite(site)
            && HelpBranch(site, [HELP, command]) && StartedBy(site, who, [HELP, command], help)
            && HelpBranch(site, [HELP]) && StartedBy(site, who, [HELP], summary)
            && !RunsItsProgram(site, help) && !RunsItsProgram(site, summary)
            && help.argv[1] == summary.argv[1] == argument
  {
    OwnPrincipal(world, who, "conf");
    var rule := SudoRule(who, command, program, user, argument);
    var site := Site(world, [rule], sudo);
    assert 0 !in HELP;
    assert Permitted(site, who, rule);
    hide Permitted, Basename;
    assert FirstMatch([rule][1..], Some(HELP), Some(command)).None? && FirstMatch([rule][1..], Some(HELP), None).None?;
    assert FirstMatch([rule], Some(command), None) == Some(rule);
    assert NulsAllowed(Some(rule), true, [HELP, command]);
  }
}
