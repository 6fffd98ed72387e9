/** What the server decides about a command, in terms of the configuration and the arguments alone. */
module RuleMeaning {
  import opened Bytes
  import opened Protocol
  import opened ServerClient
  import opened Commands
  import opened RunCommand
  import Acl

  // Rules.

  lemma Keywords()
    ensures ALL == Ascii("ALL") && EMPTY == Ascii("EMPTY") && HELP == Ascii("help")
    ensures SUDO_USER == Ascii("-u") && SUDO_END == Ascii("--")
  {
  }

  /** The rule is for the command, and for its subcommand or for its having none. */
  predicate Serves(rule: Rule, command: Data, subcommand: Option<Data>)
  {
    && (rule.command == Ascii("ALL") || rule.command == command)
    && match subcommand
       case None => rule.subcommand == Ascii("ALL") || rule.subcommand == Ascii("EMPTY")
       case Some(name) => rule.subcommand == Ascii("ALL") || rule.subcommand == name
  }

  /** Rule i is the first that serves; -1 if none does. */
  predicate FirstServing(rules: seq<Rule>, command: Data, subcommand: Option<Data>, i: int)
  {
    && -1 <= i < |rules| && (i >= 0 ==> Serves(rules[i], command, subcommand))
    && forall j :: 0 <= j < (if i >= 0 then i else |rules|) ==> !Serves(rules[j], command, subcommand)
  }

  lemma ServesMeaning(rule: Rule, command: Data, subcommand: Option<Data>)
    ensures LineMatches(rule, Some(command), subcommand) <==> Serves(rule, command, subcommand)
  {
    Keywords();
    hide Ascii;
  }

  lemma {:induction false} Lookup(rules: seq<Rule>, command: Data, subcommand: Option<Data>) returns (i: int)
    ensures FirstServing(rules, command, subcommand, i)
    ensures FirstMatch(rules, Some(command), subcommand) == if i == -1 then None else Some(rules[i])
  {
    hide LineMatches, Serves;
    if rules == [] {
      i := -1;
    } else {
      ServesMeaning(rules[0], command, subcommand);
      if LineMatches(rules[0], Some(command), subcommand) {
        i := 0;
      } else {
        var k := Lookup(rules[1..], command, subcommand);
        i := if k == -1 then -1 else k + 1;
        assert forall j :: 1 <= j < |rules| ==> rules[j] == rules[1..][j - 1];
      }
    }
  }

  lemma FirstServingUnique(rules: seq<Rule>, command: Data, subcommand: Option<Data>, i: int, j: int)
    requires FirstServing(rules, command, subcommand, i) && FirstServing(rules, command, subcommand, j)
    ensures i == j
  {
    hide Serves;
  }

  // Programs.

  /** The last component of a path. */
  predicate IsBasename(path: Data, name: Data)
  {
    && 0x2F !in name && |name| <= |path| && path[|path| - |name|..] == name
    && (name == path || path[|path| - |name| - 1] == 0x2F)
  }

  lemma BasenameMeaning(path: Data)
    ensures IsBasename(path, Basename(path))
  {
    var name := Basename(path);
    assert |name| == |path| ==> path[0..] == path;
  }

  /** What comes before the client's arguments: the name of the program, or a call of sudo. */
  predicate IsPrefix(sudo: Data, rule: Rule, prefix: seq<Data>)
  {
    match rule.sudoUser
    case None => |prefix| == 1 && IsBasename(rule.program, prefix[0])
    case Some(user) => prefix == [sudo, Ascii("-u"), user, Ascii("--"), rule.program]
  }

  /** The argument that goes to standard input by a rule's configuration: none, a numbered one, or the last. */
  function StdinArgument(configured: int, count: nat): (k: Option<nat>)
  {
    if configured == -1 then if count > 1 then Some(count - 1) else None
    else if 0 < configured < count then Some(configured)
    else None
  }

  /** The argument vector and the standard input for the client's arguments. */
  predicate IsCall(sudo: Data, rule: Rule, args: seq<Data>, argv: seq<Data>, input: Option<Data>)
    requires args != []
  {
    var n := if rule.sudoUser.None? then 1 else 5;
    && n <= |argv| && IsPrefix(sudo, rule, argv[..n])
    && match StdinArgument(rule.stdinArg, |args|)
       case None => argv[n..] == Strings(args[1..]) && input == None
       case Some(k) =>
         1 <= k < |args| && argv[n..] == Strings(args[1..k]) + Strings(args[k + 1..]) && input == Some(args[k])
  }

  lemma StringsAppend(xs: seq<Data>, ys: seq<Data>)
    ensures Strings(xs + ys) == Strings(xs) + Strings(ys)
  {
  }

  lemma PrefixMeaning(sudo: Data, rule: Rule)
    ensures IsPrefix(sudo, rule, Prefix(sudo, rule))
  {
    Keywords();
    BasenameMeaning(rule.program);
    hide Basename, Ascii, IsBasename;
  }

  lemma CallMeaning(sudo: Data, rule: Rule, args: seq<Data>)
    requires args != [] && rule.stdinArg >= -1
    ensures var k := StdinIndex(rule, |args|);
            IsCall(sudo, rule, args, ArgvUpTo(sudo, rule, args, k, |args|), Input(args, k))
  {
    PrefixMeaning(sudo, rule);
    hide IsPrefix, Prefix, CString;
    var k, prefix := StdinIndex(rule, |args|), Prefix(sudo, rule);
    var argv := ArgvUpTo(sudo, rule, args, k, |args|);
    var kept := Without(args, k, |args|);
    assert argv == prefix + Strings(kept);
    assert argv[..|prefix|] == prefix && argv[|prefix|..] == Strings(kept);
    if 1 <= k < |args| {
      assert args[k + 1..|args|] == args[k + 1..];
      StringsAppend(args[1..k], args[k + 1..]);
    } else {
      assert args[1..|args|] == args[1..];
    }
  }

  /** The program's own loop, so read. */
  method BuildCall(sudo: Data, rule: Rule, args: seq<Data>) returns (argv: seq<Data>, input: Option<Data>)
    requires args != [] && rule.stdinArg >= -1
    ensures IsCall(sudo, rule, args, argv, input)
  {
    CallMeaning(sudo, rule, args);
    argv, input := CreateArgvCommand(sudo, rule, args);
  }

  // Decisions.

  /** Nuls are only in the argument that goes to standard input. */
  predicate NulsOnlyIn(args: seq<Data>, exempt: Option<nat>)
  {
    forall j :: 1 <= j < |args| && 0 in args[j] ==> exempt == Some(j)
  }

  predicate NamesClean(args: seq<Data>)
  {
    args != [] && 0 !in args[0] && (|args| > 1 ==> 0 !in args[1])
  }

  function Subcommand(args: seq<Data>): Option<Data>
  {
    if |args| > 1 then Some(args[1]) else None
  }

  /**
   * The decision on a command: refused for nuls, for want of a rule or of permission, in this order, and
   * otherwise the program of the first rule that serves it is run on its arguments.
   */
  ghost predicate IsDecision(site: Site, who: Acl.Identity, args: seq<Data>, i: int, d: Decision)
    requires ValidSite(site)
  {
    if !NamesClean(args) then
      d == Refuse(BadCommand)
    else
      && FirstServing(site.rules, args[0], Subcommand(args), i)
      && if !NulsOnlyIn(args, if i == -1 then None else StdinArgument(site.rules[i].stdinArg, |args|)) then
           d == Refuse(BadCommand)
         else if i == -1 then
           d == Refuse(UnknownCommand)
         else if !Acl.Permits(site.world, who, site.rules[i].acls, site.rules[i].file) then
           d == Refuse(Access)
         else
           d.Execute? && d.rule == site.rules[i] && IsCall(site.sudo, d.rule, args, d.argv, d.input)
  }

  lemma NulsMeaning(rule: Option<Rule>, args: seq<Data>)
    requires rule.Some? ==> rule.value.stdinArg >= -1
    ensures NulsAllowed(rule, false, args) <==>
              NulsOnlyIn(args, if rule.None? then None else StdinArgument(rule.value.stdinArg, |args|))
  {
    var exempt := if rule.None? then None else StdinArgument(rule.value.stdinArg, |args|);
    assert forall j: nat :: 1 <= j < |args| ==> (NulAllowed(rule, false, j, |args|) <==> exempt == Some(j));
  }

  lemma DecisionMeaning(site: Site, who: Acl.Identity, args: seq<Data>) returns (i: int)
    requires ValidSite(site)
    ensures IsDecision(site, who, args, i, Decide(site, who, args))
  {
    i := -1;
    assert NamesClean(args) <==> args != [] && NamesWithoutNul(args);
    if NamesClean(args) {
      i := Lookup(site.rules, args[0], Subcommand(args));
      var rule := FirstMatch(site.rules, Some(args[0]), Argument(args, 1));
      NulsMeaning(rule, args);
      hide NulsAllowed, NulsOnlyIn, FirstServing, FirstMatch, IsCall, ArgvUpTo, Input, Acl.Permits, StdinIndex;
      if rule.Some? {
        CallMeaning(site.sudo, rule.value, args);
      }
    }
  }

  /**
   * A command is executed exactly if its names are clean, a rule serves it, nuls are where they may be, and it
   * is permitted.
   */
  lemma ExecutedExactly(site: Site, who: Acl.Identity, args: seq<Data>)
    requires ValidSite(site)
    ensures Decide(site, who, args).Execute? <==>
      (NamesClean(args) && exists i ::
         && 0 <= i < |site.rules| && FirstServing(site.rules, args[0], Subcommand(args), i)
         && NulsOnlyIn(args, StdinArgument(site.rules[i].stdinArg, |args|))
         && Acl.Permits(site.world, who, site.rules[i].acls, site.rules[i].file))
  {
    var i := DecisionMeaning(site, who, args);
    hide Decide, Serves, NulsOnlyIn, IsCall, Acl.Permits;
    if NamesClean(args) {
      forall j | 0 <= j < |site.rules| && FirstServing(site.rules, args[0], Subcommand(args), j) ensures i == j {
        FirstServingUnique(site.rules, args[0], Subcommand(args), i, j);
      }
    }
  }

  // Help.

  /** A command named help that no rule serves. */
  lemma HelpMeaning(site: Site, args: seq<Data>)
    ensures HelpBranch(site, args) <==>
      NamesClean(args) && args[0] == Ascii("help")
      && forall i :: 0 <= i < |site.rules| ==> !Serves(site.rules[i], args[0], Subcommand(args))
  {
    Keywords();
    hide Ascii, Serves;
    assert NamesClean(args) <==> args != [] && NamesWithoutNul(args);
    if NamesClean(args) {
      var i := Lookup(site.rules, args[0], Subcommand(args));
    }
  }

  /** The subcommand help is asked for, as a C string. */
  function HelpSubcommand(args: seq<Data>): Option<Data>
  {
    if |args| > 2 then Some(CString(args[2])) else None
  }

  /** The program's name, the help argument and the subcommand if there is one. */
  predicate IsHelpCall(rule: Rule, args: seq<Data>, argv: seq<Data>)
  {
    && |argv| == (if |args| > 2 then 3 else 2) && IsBasename(rule.program, argv[0])
    && Some(argv[1]) == rule.help && (|args| > 2 ==> argv[2] == CString(args[2]))
  }

  /** The last argument, if the rule takes that for standard input. */
  function LastStdin(configured: int, args: seq<Data>): Option<nat>
    requires args != []
  {
    if configured == -1 then Some(|args| - 1) else None
  }

  /**
   * The decision on help for args[1]: refused for nuls, for want of a rule, of permission or of a help
   * argument, in this order; otherwise the rule's program is called with the help argument and the subcommand.
   */
  ghost predicate IsHelpDecision(site: Site, who: Acl.Identity, args: seq<Data>, i: int, d: Decision)
    requires ValidSite(site) && |args| >= 2
  {
    && FirstServing(site.rules, args[1], HelpSubcommand(args), i)
    && if !NulsOnlyIn(args, if i == -1 then None else LastStdin(site.rules[i].stdinArg, args)) then
         d == Refuse(BadCommand)
       else if i == -1 then
         d == Refuse(UnknownCommand)
       else if !Acl.Permits(site.world, who, site.rules[i].acls, site.rules[i].file) then
         d == Refuse(Access)
       else if site.rules[i].help.None? then
         d == Refuse(NoHelp)
       else
         d.Execute? && d.rule == site.rules[i] && d.input == None && IsHelpCall(d.rule, args, d.argv)
  }

  lemma HelpNulsMeaning(rule: Option<Rule>, args: seq<Data>)
    requires args != []
    ensures NulsAllowed(rule, true, args) <==>
              NulsOnlyIn(args, if rule.None? then None else LastStdin(rule.value.stdinArg, args))
  {
  }

  lemma HelpCallMeaning(rule: Rule, args: seq<Data>)
    requires |args| >= 2 && rule.help.Some?
    ensures IsHelpCall(rule, args, HelpArgv(rule, rule.help.value, HelpSubcommand(args)))
  {
    BasenameMeaning(rule.program);
    hide Basename, IsBasename, CString;
  }

  lemma HelpDecisionMeaning(site: Site, who: Acl.Identity, args: seq<Data>) returns (i: int)
    requires ValidSite(site) && |args| >= 2
    ensures IsHelpDecision(site, who, args, i, DecideHelp(site, who, args))
  {
    i := Lookup(site.rules, args[1], HelpSubcommand(args));
    var rule := FirstMatch(site.rules, Some(args[1]), HelpSubcommand(args));
    HelpNulsMeaning(rule, args);
    if rule.Some? && rule.value.help.Some? {
      HelpCallMeaning(rule.value, args);
    }
    hide CString, HelpArgv, FirstMatch, NulsAllowed, NulsOnlyIn, FirstServing, Acl.Permits, IsHelpCall, LastStdin;
  }

  /** The call of a summary: the program, the summary argument, and the subcommand unless it is a keyword. */
  lemma SummaryMeaning(rule: Rule, summary: Data)
    ensures var argv := SummaryArgv(rule, summary);
            && |argv| == (if rule.subcommand == Ascii("ALL") || rule.subcommand == Ascii("EMPTY") then 2 else 3)
            && IsBasename(rule.program, argv[0]) && argv[1] == summary && (|argv| == 3 ==> argv[2] == rule.subcommand)
  {
    Keywords();
    BasenameMeaning(rule.program);
    hide Ascii, Basename, IsBasename;
  }
}
