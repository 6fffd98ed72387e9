/** Finding the rule for a command, building the argument vector of its program and running it (server/commands.c). */
module Commands {
  import opened Bytes
  import opened ServerClient
  import Acl

  const ALL: Data := [0x41, 0x4C, 0x4C]
  const EMPTY: Data := [0x45, 0x4D, 0x50, 0x54, 0x59]
  const HELP: Data := [0x68, 0x65, 0x6C, 0x70]
  const SLASH: byte := 0x2F
  const SUDO_USER: Data := [0x2D, 0x75]
  const SUDO_END: Data := [0x2D, 0x2D]

  /** The configuration, the world its ACLs are checked in, and the path of sudo the server was built with. */
  datatype Site = Site(world: Acl.World, rules: seq<Rule>, sudo: Data)

  ghost predicate ValidSite(site: Site)
  {
    Acl.Acyclic(site.world) && forall i :: 0 <= i < |site.rules| ==> site.rules[i].stdinArg >= -1
  }

  ghost predicate Permitted(site: Site, who: Acl.Identity, rule: Rule)
    requires ValidSite(site)
  {
    Acl.Permits(site.world, who, rule.acls, rule.file)
  }

  // Lookup.

  predicate LineMatches(rule: Rule, command: Option<Data>, subcommand: Option<Data>)
  {
    && (rule.command == ALL || command == Some(rule.command) || (command.None? && rule.command == EMPTY))
    && (rule.subcommand == ALL || subcommand == Some(rule.subcommand) || (subcommand.None? && rule.subcommand == EMPTY))
  }

  function FirstMatch(rules: seq<Rule>, command: Option<Data>, subcommand: Option<Data>): (r: Option<Rule>)
    ensures r.Some? ==> r.value in rules && LineMatches(r.value, command, subcommand)
  {
    if rules == [] then None
    else if LineMatches(rules[0], command, subcommand) then Some(rules[0])
    else FirstMatch(rules[1..], command, subcommand)
  }

  /** The rule used is the first in configuration order that matches, and there is one if any matches. */
  lemma {:induction false} FirstMatchIsFirst(rules: seq<Rule>, command: Option<Data>, subcommand: Option<Data>, i: nat)
    requires i < |rules| && LineMatches(rules[i], command, subcommand)
    requires forall j :: 0 <= j < i ==> !LineMatches(rules[j], command, subcommand)
    ensures FirstMatch(rules, command, subcommand) == Some(rules[i])
  {
    if i > 0 {
      FirstMatchIsFirst(rules[1..], command, subcommand, i - 1);
    }
  }

  method FindConfigLine(rules: seq<Rule>, command: Option<Data>, subcommand: Option<Data>) returns (r: Option<Rule>)
    ensures r == FirstMatch(rules, command, subcommand)
    ensures r.None? ==> forall i :: 0 <= i < |rules| ==> !LineMatches(rules[i], command, subcommand)
  {
    hide LineMatches;
    var i := 0;
    while i < |rules|
      invariant 0 <= i <= |rules|
      invariant forall j :: 0 <= j < i ==> !LineMatches(rules[j], command, subcommand)
      invariant FirstMatch(rules, command, subcommand) == FirstMatch(rules[i..], command, subcommand)
    {
      if LineMatches(rules[i], command, subcommand) {
        return Some(rules[i]);
      }
      assert rules[i..][1..] == rules[i + 1..];
      i := i + 1;
    }
    return None;
  }

  // The argument vector.

  /** The part of a path after its last slash. */
  function Basename(path: Data): (name: Data)
    ensures SLASH !in name && |name| <= |path| && name == path[|path| - |name|..]
    ensures |name| == |path| || path[|path| - |name| - 1] == SLASH
  {
    if path == [] || path[|path| - 1] == SLASH then [] else Basename(path[..|path| - 1]) + [path[|path| - 1]]
  }

  /** What comes before the client's arguments. */
  function Prefix(sudo: Data, rule: Rule): (argv: seq<Data>)
    ensures |argv| == if rule.sudoUser.None? then 1 else 5
  {
    if rule.sudoUser.Some? then
      [sudo, SUDO_USER, rule.sudoUser.value, SUDO_END, rule.program]
    else
      [Basename(rule.program)]
  }

  /** The path given to `execv`. */
  function ExecPath(sudo: Data, rule: Rule): Data
  {
    if rule.sudoUser.None? then rule.program else sudo
  }

  /** The argument that goes to standard input, if it is one of 1 .. count - 1. */
  function StdinIndex(rule: Rule, count: nat): int
  {
    if rule.stdinArg == -1 then count - 1 else rule.stdinArg
  }

  /** Arguments 1 .. n - 1 without argument k. */
  function Without(args: seq<Data>, k: int, n: nat): (kept: seq<Data>)
    requires 1 <= n <= |args|
  {
    if 1 <= k < n then args[1..k] + args[k + 1..n] else args[1..n]
  }

  function Input(args: seq<Data>, k: int): (input: Option<Data>)
  {
    if 1 <= k < |args| then Some(args[k]) else None
  }

  /** Copies of arguments as C strings. */
  function Strings(args: seq<Data>): (strings: seq<Data>)
    ensures |strings| == |args|
  {
    seq(|args|, i requires 0 <= i < |args| => CString(args[i]))
  }

  /** What a program sees of an argument array: everything before the first null pointer. */
  function UntilNull(a: seq<Option<Data>>): (argv: seq<Data>)
  {
    if a == [] || a[0].None? then [] else [a[0].value] + UntilNull(a[1..])
  }

  function Pointers(argv: seq<Data>): (a: seq<Option<Data>>)
    ensures |a| == |argv|
  {
    seq(|argv|, i requires 0 <= i < |argv| => Some(argv[i]))
  }

  lemma {:induction false} UntilNullOfPointers(argv: seq<Data>, rest: seq<Option<Data>>)
    requires rest != [] && rest[0].None?
    ensures UntilNull(Pointers(argv) + rest) == argv
  {
    var a := Pointers(argv) + rest;
    if argv != [] {
      assert a[1..] == Pointers(argv[1..]) + rest;
      UntilNullOfPointers(argv[1..], rest);
    } else {
      assert a == rest;
    }
  }

  lemma WithoutStep(args: seq<Data>, k: int, n: nat)
    requires 1 <= n < |args|
    ensures Without(args, k, n + 1) == if n == k then Without(args, k, n) else Without(args, k, n) + [args[n]]
  {
    if 1 <= k < n {
      assert args[k + 1..n + 1] == args[k + 1..n] + [args[n]];
    } else if n == k {
      assert args[k + 1..n + 1] == [];
    } else {
      assert args[1..n + 1] == args[1..n] + [args[n]];
    }
  }

  lemma PointersSnoc(argv: seq<Data>, arg: Data)
    ensures Pointers(argv + [arg]) == Pointers(argv) + [Some(arg)]
  {
  }

  lemma StringsSnoc(args: seq<Data>, arg: Data)
    ensures Strings(args + [arg]) == Strings(args) + [CString(arg)]
  {
  }

  /** Stores one pointer behind those already in the array. */
  method Store(a: array<Option<Data>>, j: nat, ghost stored: seq<Data>, arg: Data)
    requires j == |stored| < a.Length && a[..j] == Pointers(stored)
    modifies a
    ensures a[..j + 1] == Pointers(stored + [arg])
  {
    a[j] := Some(arg);
    PointersSnoc(stored, arg);
    assert a[..j + 1] == a[..j] + [a[j]];
  }

  method StorePrefix(a: array<Option<Data>>, sudo: Data, rule: Rule) returns (j: nat)
    requires a.Length >= if rule.sudoUser.None? then 1 else 5
    modifies a
    ensures j == |Prefix(sudo, rule)| <= a.Length && a[..j] == Pointers(Prefix(sudo, rule))
  {
    hide Pointers, Basename;
    assert a[..0] == Pointers([]) by { NoPointers(); }
    if rule.sudoUser.Some? {
      var user := rule.sudoUser.value;
      Store(a, 0, [], sudo);
      Store(a, 1, [] + [sudo], SUDO_USER);
      Store(a, 2, [] + [sudo] + [SUDO_USER], user);
      Store(a, 3, [] + [sudo] + [SUDO_USER] + [user], SUDO_END);
      Store(a, 4, [] + [sudo] + [SUDO_USER] + [user] + [SUDO_END], rule.program);
      assert [] + [sudo] + [SUDO_USER] + [user] + [SUDO_END] + [rule.program] == Prefix(sudo, rule);
      j := 5;
    } else {
      Store(a, 0, [], Basename(rule.program));
      assert [] + [Basename(rule.program)] == Prefix(sudo, rule);
      j := 1;
    }
  }

  lemma NoPointers()
    ensures Pointers([]) == []
  {
  }

  /** The argument vector with the client's arguments 1 .. n - 1, argument k spliced out. */
  function ArgvUpTo(sudo: Data, rule: Rule, args: seq<Data>, k: int, n: nat): (argv: seq<Data>)
    requires 1 <= n <= |args|
    ensures |argv| < |Prefix(sudo, rule)| + n
  {
    Prefix(sudo, rule) + Strings(Without(args, k, n))
  }

  lemma ArgvUpToStart(sudo: Data, rule: Rule, args: seq<Data>, k: int)
    requires args != []
    ensures ArgvUpTo(sudo, rule, args, k, 1) == Prefix(sudo, rule)
  {
    assert Without(args, k, 1) == [];
  }

  lemma ArgvUpToStep(sudo: Data, rule: Rule, args: seq<Data>, k: int, n: nat)
    requires 1 <= n < |args|
    ensures ArgvUpTo(sudo, rule, args, k, n + 1)
         == if n == k then ArgvUpTo(sudo, rule, args, k, n) else ArgvUpTo(sudo, rule, args, k, n) + [CString(args[n])]
  {
    WithoutStep(args, k, n);
    StringsSnoc(Without(args, k, n), args[n]);
  }

  /** `create_argv_command`: fills an array that has room for every argument and the final null pointer. */
  method CreateArgvCommand(sudo: Data, rule: Rule, args: seq<Data>) returns (argv: seq<Data>, input: Option<Data>)
    requires args != [] && rule.stdinArg >= -1
    ensures argv == ArgvUpTo(sudo, rule, args, StdinIndex(rule, |args|), |args|)
    ensures input == Input(args, StdinIndex(rule, |args|))
  {
    hide ArgvUpTo, CString, Prefix, Pointers, UntilNull;
    var count := |args|;
    var reqArgv := new Option<Data>[if rule.sudoUser.None? then count + 1 else count + 5](_ => None);
    var j := StorePrefix(reqArgv, sudo, rule);
    var stdinArg := if rule.stdinArg == -1 then count - 1 else rule.stdinArg;
    input := None;
    ghost var stored := ArgvUpTo(sudo, rule, args, stdinArg, 1);
    ArgvUpToStart(sudo, rule, args, stdinArg);
    var i := 1;
    while i < count
      invariant 1 <= i <= count
      invariant stored == ArgvUpTo(sudo, rule, args, stdinArg, i)
      invariant j == |stored| && reqArgv[..j] == Pointers(stored)
      invariant input == if 1 <= stdinArg < i then Some(args[stdinArg]) else None
    {
      ArgvUpToStep(sudo, rule, args, stdinArg, i);
      if i == stdinArg {
        input := Some(args[i]);
      } else {
        Store(reqArgv, j, stored, CString(args[i]));
        stored := stored + [CString(args[i])];
        j := j + 1;
      }
      i := i + 1;
    }
    reqArgv[j] := None;
    argv := Finish(reqArgv, j, stored);
  }

  method Finish(a: array<Option<Data>>, j: nat, ghost stored: seq<Data>) returns (argv: seq<Data>)
    requires j == |stored| < a.Length && a[..j] == Pointers(stored) && a[j].None?
    ensures argv == stored
  {
    assert a[..] == Pointers(stored) + a[j..];
    UntilNullOfPointers(stored, a[j..]);
    argv := UntilNull(a[..]);
  }
}
