# remctl: the command path, modelled and verified

remctl lets a client run a command on a server that decides, from ACLs, who may run what. This project
models the path a command takes, as a small distributed protocol, and proves what the program promises
about it for all commands, all connections, all ACL trees and all schedules of the system calls below:

* a client cuts a command into tokens (`ClientV2`, `ClientV1` and `Java` in `OtherClients.dfy`);
* tokens travel over a byte stream under partial reads and writes (`XWrite`, `TokenStream`);
* the server reassembles and parses the command (`Reassembly`, `CommandCodec`, `ServerV2`);
* it finds the rule (`Commands`), checks the ACL (`Acl`, with theorems in `AclTheorems`, `AclOrder`,
  `AclPolarity` and `AclDenyLines`), builds the argument vector, runs the program and answers (`RunCommand`); a
  whole connection is watched by `Monitor`;
* the client takes the answer apart (`ClientOutput`);
* `EndToEnd` puts both ways together, `Wire` and `Exchange` add the octets in between, and `Connection` and
  `Session` speak of whole connections;
* `AclMeaning`, `RuleMeaning`, `ReplyMeaning` and `Formats` say what the specifications mean, in terms of the
  inputs and literal octets alone;
* beside that path: the version negotiation (`Negotiation`), the parser for commands that come by ssh
  (`Ssh`) and the string vectors (`Vector`).

Loops and objects of the program are methods and classes with loops and fields; each is proved against a
function or a predicate on values, and the theorems are lemmas about those. `dafny verify dfyconfig.toml`
checks everything.

How to read the model:

* Octets are `byte`, octet strings `Data`. C `char` is signed, as on the platforms remctl is built for
  most: a continue status of 128 or more is negative for the server, an exit status of 128 or more
  arrives as a negative number at the client.
* A connection has a trace of events: tokens received and sent, failed sends, programs started, commands
  finished or abandoned. A send may fail at any time. A running program is any list of chunks of output,
  none longer than TOKEN_MAX_OUTPUT, with an exit status, a signal or an internal failure at the end.
* An ACL world gives the kind and content of each path and the answer of each foreign check. Files are
  ranked so that includes of other files are acyclic; a file that includes itself is an error, as in the program.
* `UpToFailure` and `Replied` mean: exactly the expected events, or these up to the first send that failed.

What the proofs say about places where the code and its comments or the protocol disagree:

* The server lets status 0 end a continued command, which the protocol ends with 3 (`CServerLanguage`).
* After a summary the server sends the exit status of the last configured rule rather than the last
  failure its comment promises (`SummaryStatusPromise` says exactly when the two agree, `SummaryStatusLost`
  shows failures reported as success).
* Below a `deny:` entry, the order in which a directory is listed can decide (`OrderMattersUnderDeny`); for any
  list of entries it does exactly if one order permits and another one ends in an error (`OrderMattersExactly`),
  and for one directory that can be read off its files (`DenyDirectoryExact`).
* Below a `deny:` entry, adding a `deny:` line can give access (`DenyUnderDenyGivesAccess`); `DenyLineExact` says
  exactly when.
* For a rule that uses sudo, help and summary requests do not execute the rule's program but hand sudo the help
  or summary argument in its place (`ProgramExecuted`, `SudoRunsArgument`).
* An exit status of 128 or more does not arrive as it was sent (`StatusArrives`).
* A client preset to a version above 2 does not agree with the server (`VersionAgreement`,
  `PresetAboveTwo`).
* Help with superfluous arguments is answered twice (`CommandTerminals`), and a summary once more for every run in
  which the server failed (`SummaryTerminals`).

## Model

| member | source | states |
|---|---|---|
| `CommandCodec.ParserExact` | server/generic.c:229-300 | a payload is accepted with some arguments exactly if it is the encoding of those arguments and there are 1 to 4096 of them: encoder and parser are inverse to each other on all payloads |
| `CommandCodec.ParseEncodedArgs` | server/generic.c:258-297 | packed arguments are read back, for every list whose lengths fit in 32 bits |
| `CommandCodec.EncodeParsedArgs` | server/generic.c:258-297 | octets that are read as arguments are exactly the encoding of those arguments |
| `CommandCodec.EncodeInjective` | client/client-v1.c:53-84 | two different commands never have the same payload |
| `Formats.NumberOctets` | client/client-v1.c:68-83 | numbers stand with the most significant octet first |
| `Formats.TwoArguments` | client/client-v1.c:65-84 | a payload spelled out: the count, then each length and its octets |
| `ServerV2.ServerParseCommand` | server/generic.c:229-300 | the loop over the buffer returns the arguments without a word to the client, or nothing after exactly one error with the right code |
| `ServerV2.FillArgv` | server/generic.c:256-297 | the array of argc entries is filled in bounds, with all the packed arguments, or the payload is malformed or has another number of them |
| `ClientV1.CommandV` | client/client-v1.c:37-97 | on success exactly the encoding of the command went out as one token within TOKEN_MAX_DATA and a reply is awaited; it fails only if a number does not fit or sending fails |
| `ClientV1.BuildToken` | client/client-v1.c:46-84 | the sizing loop and the filling loop build exactly the encoding, or nothing if a count or length does not fit |
| `ClientV2.Remctl.CommandV` | client/client-v2.c:43-175 | on success the tokens are a cut of the encoding into non-empty pieces labelled 0 or 1 2* 3, no length field is split or separated from its first octet, all but the last token are full up to four octets; it fails only if a number does not fit or a send fails, and then a proper prefix was sent and announced as such |
| `ClientV2.SendStep` | client/client-v2.c:83-172 | after every token the payloads sent so far are exactly the first octets of the encoding, up to a place where a token may end |
| `ClientV2.BuildToken` | client/client-v2.c:86-172 | one token carries at least one octet, exactly the next ones, is within the limit and correctly labelled, and iov and offset stand where it ends |
| `ClientV2.FillToken` | client/client-v2.c:125-159 | the inner loop writes the payload from where it stands and stops early only if fewer than five octets are left and more is to come |
| `ClientV2.PutArg` | client/client-v2.c:132-159 | an argument is written from its offset on, its length first and only with room for an octet behind it |
| `ClientV2.StatusIsRight` | client/client-v2.c:86-114 | the continue status, chosen before the token is trimmed, is right after trimming |
| `Java.BuildMessage` | java/org/eyrie/eagle/remctl/RemctlClient.java:422-447 | the two loops over the arguments build the token header and the same payload as the C clients |
| `Java.RemctlClient.ProcessRequest` | java/org/eyrie/eagle/remctl/RemctlClient.java:422-472 | the Java client sends a correctly labelled cut of the same encoding |
| `Java.StepTable` | java/org/eyrie/eagle/remctl/RemctlServer.java:186-195 | the bit arithmetic on all 256 statuses is the table in its comment |
| `Java.JavaServerLanguage` | java/org/eyrie/eagle/remctl/RemctlServer.java:186-208 | the automaton completes exactly the status sequences 0 and 1 2* 3 |
| `Java.ServeStatuses` | java/org/eyrie/eagle/remctl/RemctlServer.java:186-208 | the loop takes tokens up to the end of a sequence of that language, and fails if no beginning of the input is one |
| `Java.JavaWithinC` | server/server-v2.c:389-435 | every sequence the Java server completes, the C server completes |
| `Java.ClientsWithinJava` | java/org/eyrie/eagle/remctl/RemctlServer.java:186-208 | every cut made by a client is completed by both servers |
| `Reassembly.CServerLanguage` | server/server-v2.c:375-441 | the C server completes exactly 0 and 1 2* (3 or 0), with the concatenation of the pieces |
| `Reassembly.CutIsForgotten` | server/server-v2.c:375-441 | however a payload below the limit is cut, exactly it is reassembled and the input behind it is untouched |
| `ServerV2.ReadContinuation` | server/server-v2.c:322-347 | the next command token, or nothing and the reply the kind of failure calls for |
| `ServerV2.Reassemble` | server/server-v2.c:375-441 | for every input, the loop reads and answers what the specification says, the buffer stays below COMMAND_MAX_DATA, and keep-alive is that of the last token |
| `ServerV2.HandleCommand` | server/server-v2.c:356-455 | a command is completed and answered, refused or abandoned as its tokens demand; the result says whether the connection may go on |
| `ServerV2.HandleToken` | server/server-v2.c:465-495 | each message type gets its reply and nothing else, and QUIT closes |
| `ServerV2.React` | server/server-v2.c:465-495 | the replies to tokens that are no commands, and what each does to the connection |
| `ServerV2.HandleMessages` | server/server-v2.c:504-523 | for every input, the trace is turn by turn what the tokens call for, nothing is read once the connection is to be closed, it ends for no other reason, and every program started is authorised |
| `ReplyMeaning.TurnMeaning` | server/server-v2.c:465-523 | what is answered to each version and message type between commands, octet by octet, and to each kind of failed read |
| `ReplyMeaning.GivenUpMeaning` | server/server-v2.c:322-347 | what is answered to whatever ends a command that is to be continued |
| `ReplyMeaning.ParserErrors` | server/generic.c:236-297 | which error each payload gets that is not the encoding of 1 to 4096 arguments |
| `Monitor.SafeMeansNoReadAfterClose` | server/server-v2.c:322-523 | what the watch means: no token is read after QUIT, a failed read or send, an abandoned command, or a command whose last token clears keep-alive |
| `Acl.AclCheck` | server/config.c:1252-1290 | the dispatch and the recursive deny check return the specified status |
| `Acl.HandleInclude` | server/config.c:140-196 | the loop over a directory returns the first refusal, otherwise the greatest status of its valid members |
| `Acl.AclCheckFileInternal` | server/config.c:608-676 | the loop over the lines of a file returns the first status that is not a miss |
| `Acl.ServerConfigAclPermit` | server/config.c:1340-1356 | the loop over the list permits exactly if the first entry that says anything grants |
| `AclMeaning.BareEntry` | server/config.c:1263-1283 | an entry without a scheme is a path in the list of a rule or behind an include, and a principal in a file |
| `AclMeaning.PrincEntry` | server/config.c:714-719 | princ: matches exactly the client's own principal |
| `AclMeaning.AnyUserEntry` | server/config.c:730-743 | ANYUSER is anyuser:auth, which matches exactly the clients that are not anonymous; anyuser:anonymous matches every client, and every other anyuser: is an error |
| `AclMeaning.DenyEntry` | server/config.c:769-787 | deny: refuses exactly whom the rest of the entry matches, reports its errors, and says nothing otherwise |
| `AclMeaning.ForeignEntry` | server/config.c:1206-1242 | the foreign checks match, say nothing or report an error as they grant, do not grant or fail |
| `AclMeaning.UnknownEntry` | server/config.c:1263-1279 | every other scheme is an error |
| `AclMeaning.IncludeMeaning` | server/config.c:140-196 | file: is an error for the including file itself, for what is missing and for a directory that cannot be opened; otherwise the result of the file, or the first refusal among the members of the directory, or success if one of them succeeds |
| `AclMeaning.DirectoryMembers` | server/config.c:104-122 | the members of a directory are the names made of letters, digits, underscores and hyphens |
| `AclMeaning.MembersInOrder` | server/config.c:178-194 | and they come in the order of the listing |
| `AclMeaning.FileMeaning` | server/config.c:608-676 | a file says what its first line says that says anything; a line that cannot be parsed and a file that cannot be read are errors |
| `AclMeaning.PermitMeaning` | server/config.c:1340-1356 | a client is permitted exactly if some entry of the list grants and all before it say nothing |
| `AclTheorems.PermitRestsOnGrant` | server/config.c:1340-1356 | a permit rests on a leaf check that grants, reached through includes alone and never through deny, after entries that say nothing |
| `AclTheorems.SuccessIsGrant` | server/config.c:608-676 | success anywhere in the include tree comes from such a leaf |
| `AclTheorems.SelfIncludeIsError` | server/config.c:147-152 | an entry that includes the file it stands in is an error |
| `AclTheorems.SelfIncludingIsAcyclic` | server/config.c:147-152 | worlds with such files are among those considered, and checking such a file reports an error |
| `AclOrder.MergeMeaning` | server/config.c:178-194 | the result of a directory depends only on which results occur in it, except for which refusal wins |
| `AclOrder.OrderIndependence` | server/config.c:140-196 | the decision is the same for every order of every directory at any depth, if no check below a deny entry reports an error |
| `AclOrder.CleanIsCleanUnderDeny` | server/config.c:140-196 | in particular if no check in the include tree reports an error |
| `AclOrder.OrderMattersUnderDeny` | server/config.c:769-787 | a concrete directory with an unreadable file and a file that denies, whose order decides below one deny and below any number of them |
| `AclOrder.DirectoryOrderExact` | server/config.c:178-194 | the result of a set of files is the same for all orders exactly if there are not both a file that reports an error and a file that denies among them |
| `AclOrder.OrderExact` | server/config.c:140-196 | for every list of entries and any two listings of all directories, the decisions are the same exactly if it is not the case that one permits while in the other the first entry that says anything reports an error |
| `AclOrder.DecisionSameOrError` | server/config.c:769-787 | another order leaves the result of a list as it is or turns it into an error or an error into it, at any depth and below any denies |
| `AclOrder.OrderWithoutErrors` | server/config.c:140-196 | two evaluations that do not end in an error agree |
| `AclOrder.OrderMattersExactly` | server/config.c:1340-1356 | order matters to a list of entries exactly if one order of the directories permits and another one ends in an error |
| `AclOrder.DenyDirectoryExact` | server/config.c:769-787 | read off the files: for a directory below any number of denies, between entries for which order does not matter, the decision is the same for every listing exactly if no file reports an error, or none denies, or the other entries decide |
| `AclOrder.AcyclicInAnyOrder` | server/config.c:140-196 | listing directories in another order never makes includes cyclic |
| `AclPolarity.DoubleDeny` | server/config.c:769-787 | deny:deny:X never matches and never denies; it reports an error exactly if X does |
| `AclPolarity.DenyInListOnlyTakesAway` | server/config.c:1340-1356 | a deny entry at any place of a list never enlarges the set of permitted clients |
| `AclPolarity.DoubleDenyInList` | server/config.c:1340-1356 | deny:deny:X without error can be added to or removed from any place of a list |
| `AclPolarity.DenyInFileOnlyTakesAway` | server/config.c:608-676 | the same for a deny line in a file that no deny entry leads to |
| `AclPolarity.SilentLineChangesNothing` | server/config.c:608-676 | a line that matches nothing can be added to any file, even below deny, without any change |
| `AclPolarity.DoubleDenyInFile` | server/config.c:608-676 | so can deny:deny:X without error |
| `AclPolarity.DenyUnderDenyGivesAccess` | server/config.c:769-787 | a concrete file below a deny entry in which an added deny line gives access |
| `AclDenyLines.DenyLineExact` | server/config.c:769-787 | for a path below any number of denies, between entries that do not lead to the file: an added deny line gives nobody access exactly if it is not reached, or does not deny, or what the path said before was silent below the denies, or the other entries decide |
| `AclDenyLines.DenyLineInFile` | server/config.c:608-676 | the same for a file that one deny entry includes directly: it gives access exactly if the lines before say nothing, it denies, the lines after grant or report an error, and the other entries permit |
| `AclDenyLines.DenyLineAnywhere` | server/config.c:1340-1356 | for every list of entries and any include tree: an added deny line gives access exactly to a client that is permitted afterwards and was refused before; a client nothing was said about gains nothing |
| `Commands.FirstMatchIsFirst` | server/commands.c:42-81 | lookup finds the first matching rule in configuration order |
| `Commands.FindConfigLine` | server/commands.c:71-81 | the loop does that, and finds nothing only if no rule matches |
| `RuleMeaning.Lookup` | server/commands.c:42-81 | the rule found is the first whose command is ALL or that of the client and whose subcommand is ALL, that of the client, or EMPTY if the client gave none; there is none exactly if no rule is so |
| `Commands.CreateArgvCommand` | server/commands.c:195-257 | every store is within the array, with and without sudo; the argument vector and the standard input are those of the arguments with the configured one spliced out |
| `RuleMeaning.CallMeaning` | server/commands.c:204-256 | in terms of the configured number alone: with 0 or a number past the end all arguments are kept and there is no input, with -1 the last of several arguments is the input, with k argument k; before them stands the name of the program or the call of sudo |
| `RuleMeaning.BuildCall` | server/commands.c:195-257 | the program's own loop does that |
| `RunCommand.ServerProcessRun` | server/process.c:372-473 | over any program, the path executed is the program or sudo, its output goes out chunk by chunk, with one error if the server fails, up to the first failed send |
| `RunCommand.ServerSendSummary` | server/commands.c:93-183 | every rule in order is run with its summary arguments exactly if it has a summary and permits the client, and the final status or error is the one the code computes |
| `RunCommand.SummaryStatusPromise` | server/commands.c:160-177 | for all summaries, the status its comment promises is sent exactly if no run failed, or the last to fail is the last rule or ended by a signal; and what it takes if the last run was broken off |
| `RunCommand.StatusAllMeaning` | server/commands.c:155-173 | the status kept by the loop is that of the last run that counts and failed |
| `RunCommand.SummaryStatusLost` | server/commands.c:160-177 | in every site whose only summary fails before a rule without one, the reply is status 0 |
| `RunCommand.ServerRunCommand` | server/commands.c:311-474 | every command is answered as decided from the rules, the ACLs and its arguments, including help and summary |
| `RunCommand.MakeDecision` | server/commands.c:337-444 | the checks for nuls, the rule and the ACL, in that order, and only programs of permitting rules are run |
| `RunCommand.MakeHelpDecision` | server/commands.c:374-441 | the same for help on a command |
| `RuleMeaning.DecisionMeaning` | server/commands.c:337-444 | a command is refused for nuls, for want of a rule and of permission, in this order, and otherwise the program of the first rule that serves it is called on its arguments |
| `RuleMeaning.ExecutedExactly` | server/commands.c:337-444 | exactly when a command is executed |
| `RuleMeaning.HelpMeaning` | server/commands.c:363-383 | help is asked for exactly by a command named help that no rule serves |
| `RuleMeaning.HelpDecisionMeaning` | server/commands.c:374-441 | the same for help on a command, with its own reasons to refuse and its own call of the program |
| `RuleMeaning.SummaryMeaning` | server/commands.c:129-149 | the call of a summary: the name of the program, the summary argument, and the subcommand unless it is ALL or EMPTY |
| `RunTheorems.AuthorisedExecution` | server/commands.c:119-155 | a program whose start is authorised belongs to a configured rule that permits the client through a granting leaf outside deny |
| `Connection.EveryStart` | server/server-v2.c:504-523 | over all inputs and all runs, every program started in a connection is what the command of its turn calls for, on the direct, help or summary path, and its rule permits the client through a granting leaf outside deny, after entries that say nothing |
| `Connection.FirstRuleStarts` | server/commands.c:363-450 | outside the help branch it belongs to the first rule in configuration order that matches the command |
| `Connection.ProgramExecuted` | server/process.c:293-298 | the program executed is that of the rule, through sudo if configured, on the direct path always, on the help and summary paths exactly if the rule does not use sudo; with sudo those hand it the help or summary argument |
| `Connection.SudoRunsArgument` | server/process.c:293-298 | a concrete site in which a help request and a summary make sudo run the help or summary argument instead of the program |
| `RunTheorems.DirectRule` | server/commands.c:363-450 | on the direct path that rule is the first match in configuration order |
| `RunTheorems.ArgumentConservation` | server/commands.c:204-256 | the program gets the client's arguments in order and whole, except at most the configured one, which it gets whole on standard input |
| `RunTheorems.KeptWithoutNul` | server/commands.c:385-402 | no argument of a program that is run holds a nul |
| `RunTheorems.ResponseShape` | server/server-v2.c:36-219 | the reply to a command is its tokens of type OUTPUT and then exactly one of type STATUS or ERROR, each within TOKEN_MAX_DATA |
| `RunTheorems.DecisionStarts` | server/commands.c:444-456 | a refused command starts nothing; an executed one starts its program once, if a process comes into being |
| `RunTheorems.SummaryRuns` | server/commands.c:119-155 | a summary runs exactly the rules that permit the client and have a summary argument, each in its turn |
| `RunTheorems.NothingToSummarize` | server/commands.c:174-180 | if there is no such rule, the answer is that the command is unknown, and nothing else |
| `RunTheorems.CommandTerminals` | server/commands.c:363-458 | a command or a request for help on one gets exactly one STATUS or ERROR, or exactly two if it is help with superfluous arguments |
| `RunTheorems.SummaryTerminals` | server/commands.c:93-183 | a summary gets one, and one more for every run in which the server failed |
| `RunCommand.SingleAnswer` | server/commands.c:311-474 | every request but a summary and help with superfluous arguments is answered by the reply to one decision |
| `ServerClient.Client.ReadToken` | server/server-v2.c:295-309 | a failed read is answered with an error unless the other end has gone |
| `ServerClient.Client.SendError` | server/server-v2.c:179-219 | the error token goes out, or the connection is marked fatal |
| `ClientOutput.Remctl.ReadToken` | client/client-v2.c:206-242 | a token is returned exactly if its flags, length and version are right, and after the end of the stream or a timeout nothing more is read |
| `ClientOutput.Remctl.V2Output` | client/client-v2.c:283-366 | each call returns and leaves what the specification of one poll says |
| `ClientOutput.Remctl.CollectAll` | client/api.c:139-184 | the loop returns what collecting the outputs up to the first that ends gives, or fails |
| `EndToEnd.CommandArrives` | server/server-v2.c:375-441 | any cut of a command of 1 to 4096 arguments below the size limit is reassembled and parsed as exactly that command |
| `EndToEnd.ClientV2Arrives` | client/client-v2.c:83-172 | so is what the C client sends |
| `EndToEnd.ClientsAgree` | java/org/eyrie/eagle/remctl/RemctlClient.java:422-472 | two clients that cut a command differently hand the server the same payload and the same arguments |
| `Wire.ClientsAgree` | client/client-v1.c:37-97 | the v1, v2 and Java clients, each followed by the server's reassembly and parser, all give the command itself if it is within the limits, and otherwise none of them gives anything |
| `Wire.CutExactly` | server/server-v2.c:375-441 | a cut of a command of any size is read as that command if it has 1 to 4096 arguments and is below the size limit, and otherwise refused with the error the code gives |
| `Wire.CommandOverTheWire` | client/client-v2.c:43-175 | a command cut by the client, sent as octets, received, reassembled and parsed gives exactly the command if the client succeeds, the network lets everything through and the command is within the limits, and nothing in all other cases |
| `Exchange.CommandAndReply` | client/api.c:139-184 | a command of any size and its reply, both over octets: the client gets the outcome of the server's decision exactly if everything got through in both directions, and otherwise an error |
| `Exchange.SessionOverTheWire` | server/server-v2.c:504-523 | the same for any number of commands on one connection: the results are the outcomes of the decisions, in order |
| `EndToEnd.DecodeOutput` | client/client-v2.c:316-329 | the client decodes every output token the server builds |
| `EndToEnd.DecodeError` | client/client-v2.c:341-352 | and every error token |
| `Formats.OutputExactly` | client/client-v2.c:316-329 | a token is taken for output exactly if it is an output token of version 2 or 3 for one of the two streams, its length that of the rest |
| `Formats.StatusExactly` | client/client-v2.c:331-339 | for a status exactly if it is a status token of three octets, the last one signed |
| `Formats.ErrorExactly` | client/client-v2.c:341-352 | for an error exactly if it is an error token whose text fills the rest |
| `Formats.PollMeaning` | client/client-v2.c:206-366 | one poll spelled out: what each kind of token and each failure gives and leaves, and when the reply is over |
| `EndToEnd.StatusArrives` | client/client-v2.c:331-339 | an exit status arrives unchanged exactly if it is below 128 |
| `EndToEnd.ClientSeesReply` | client/client-v2.c:283-366 | polling returns the reply token by token and then DONE on every later call |
| `EndToEnd.CollectReply` | client/api.c:75-184 | remctl ends with the in-order concatenation of each stream's chunks and the final status or error |
| `EndToEnd.OutcomeStreams` | client/api.c:75-130 | the standard output and standard error of the result are the in-order concatenations of the chunks of each stream |
| `EndToEnd.OutcomeStatus` | client/api.c:166-181 | the result has the program's exit status as a signed octet, or -1 after a signal, and no error; or the text of the error and status 0 |
| `EndToEnd.LeftoverOfReply` | client/api.c:139-184 | and has read exactly the reply |
| `EndToEnd.WholeExchange` | server/server-v2.c:356-455 | a command or a request for help on one, cut by a client and handled without a failed send comes back as the outcome of the server's decision on exactly the client's arguments |
| `Session.WholeSession` | server/server-v2.c:504-523 | any number of commands on one connection that is kept alive: if no send fails, collecting the outputs command by command gives the outcomes of the server's decisions on exactly these commands, in order |
| `Session.TurnsOfRequests` | server/server-v2.c:504-523 | each of them is served in a turn of its own, and the server does not stop before the last |
| `Session.ServeRequests` | server/server-v2.c:504-523 | the connection loop does that for requests that have all arrived |
| `XWrite.XWrite` | util/xwrite.c:79-103 | over every schedule of results a prefix of the buffer goes out, once and in order, all of it exactly if the size is returned; it gives up only after ten idle calls or a failure, and then at once |
| `XWrite.XWritev` | util/xwrite.c:136-230 | the same for the concatenation of an iovec array |
| `XWrite.SkipWritten` | util/xwrite.c:186-191 | the skip loop stays within the array and finds the first octet left |
| `XWrite.SkipAndTrim` | util/xwrite.c:208-214 | so does the one in the second loop, which then shortens the entry in place |
| `XWrite.PatientMeaning` | util/xwrite.c:161-226 | among any eleven calls in a row one makes progress, and only the last call can have failed for good |
| `XWrite.GivesUpMeaning` | util/xwrite.c:79-227 | a write is given up exactly after a failure other than an interruption or ten calls in a row without progress |
| `TokenStream.TokenPrefixUnique` | util/tokens.c:59-141 | a stream that begins with a token begins with no other |
| `TokenStream.StreamUnique` | util/tokens.c:59-141 | two lists of as many tokens with the same octets are the same: the framing can be decoded in one way only |
| `TokenStream.TokenRecovered` | util/tokens.c:109-141 | one token within the limit is received exactly if the schedule lets it through, and nothing behind it is touched |
| `TokenStream.Reader.RecvAll` | util/tokens.c:109-141 | from a stream of any tokens within the limit, empty ones included, under any schedules, exactly these tokens are received in order, up to the first that the schedule does not let through; a token that was cut off is never received |
| `TokenStream.SendAll` | util/tokens.c:59-84 | what goes out is the octets of the tokens in order, up to a proper part of the first that fails, and with timeouts that is the first whose schedule does not move it |
| `TokenStream.Transfer` | util/tokens.c:59-141 | tokens sent by one end and received by the other under any schedules: always a prefix of what was sent, and all of it exactly if every send and every read goes through |
| `TokenStream.TokenSend` | util/tokens.c:59-84 | a prefix of the octets of the token goes out, and all of them exactly on success |
| `TokenStream.Reader.TokenRecv` | util/tokens.c:109-141 | a token is returned exactly if it is there, within the limit and let through; just its octets are consumed; too large a token is told apart |
| `TokenStream.Reader.NetworkRead` | util/network.c:686-739 | the octets read are a prefix of the stream, and the read succeeds exactly if there are enough and the schedule moves them |
| `TokenStream.Reader.SocketXread` | util/network.c:651-676 | the same without a timeout, where a hundred idle turns end the read |
| `TokenStream.PatienceOfReads` | util/network.c:661-674 | without a timeout a read goes through exactly if some number of turns moves what it needs, each an interruption or a move, with no hundred interruptions in a row in front of one of them |
| `TokenStream.MovesMeaning` | util/network.c:704-738 | with a timeout exactly if such turns come before the time is up |
| `TokenStream.NetworkWrite` | util/network.c:749-806 | a prefix of the buffer goes out, in order, all of it exactly on success |
| `Negotiation.InternalOpen` | client/open.c:207-280 | over any peer and any results of the library, the version, the tokens sent and the reason to stop |
| `Negotiation.ServerNewClient` | server/generic.c:86-149 | the same for the server, including the flags it refuses |
| `Negotiation.AcceptContext` | server/generic.c:104-149 | its loop |
| `Negotiation.ClientAgainstAnyPeer` | client/open.c:237-280 | against any peer the client's version never rises and is kept exactly if it is 1 from the start or every token carries TOKEN_PROTOCOL |
| `Negotiation.ServerAgainstAnyPeer` | server/generic.c:86-149 | the server's version never rises and is 2 exactly if every token carried TOKEN_PROTOCOL |
| `Negotiation.Agreement` | client/open.c:207-280 | a client and a server that hear what the other one sent, in any number of calls, end with the same version |
| `Negotiation.VersionAgreement` | server/generic.c:86-149 | in every reachable state of a handshake the versions are the initial ones, and equal exactly if the preset version is at most 2 |
| `Negotiation.PresetAboveTwo` | client/open.c:207-208 | a handshake for every preset version above 2 in which the two ends differ |
| `Ssh.ServerSshParseCommand` | server/server-ssh.c:38-145 | the character loop returns what the scanner specification gives |
| `Ssh.ParseFailsInOpenQuote` | server/server-ssh.c:62-139 | parsing fails exactly if the line ends inside an open quote, tracked by quotes and escapes alone |
| `Ssh.QuotingRoundTrip` | server/server-ssh.c:62-139 | arguments in either quotes, escaped and separated by any white space, are parsed back, empty ones included |
| `Ssh.CommandLineWithoutNul` | server/server-ssh.c:62-139 | such a line holds no nul if the arguments hold none |
| `Ssh.ParseQuoted` | server/server-ssh.c:38-145 | so the program itself parses it back |
| `Ssh.WordsRoundTrip` | server/server-ssh.c:62-139 | words made of plain runs, escaped octets and quoted texts in any order, separated by white space, are parsed to their contents; a lone backslash at the end of the line is kept |
| `Ssh.EveryLine` | server/server-ssh.c:62-139 | every line that does not end inside a quote is such a line |
| `Ssh.ParseWords` | server/server-ssh.c:38-145 | the program's own loop on such lines |
| `Vector.SplitCount` | util/vector.c:230-242 | one more than the number of separators |
| `Vector.Strings.Split` | util/vector.c:251-274 | every store is in bounds, the strings hold no separator and give the original back when joined with it, and there are as many as predicted |
| `Vector.SplitUnique` | util/vector.c:251-274 | only one list of strings does that, so splitting also undoes joining |
| `Vector.SplitMultiCount` | util/vector.c:319-344 | the number of runs ended by a separator, and one more if the string ends in a run |
| `Vector.Strings.SplitMulti` | util/vector.c:352-381 | every store is in bounds, and the strings are exactly the maximal separator-free runs, in order and as many as predicted |
| `Vector.RunsUnique` | util/vector.c:352-381 | that determines them |
| `Vector.Strings.JoinWith` | util/vector.c:457-495 | the buffer sized by the first pass is filled exactly by the second with the strings and the separator between them |
| `Vector.Strings.Resize` | util/vector.c:79-94 | at least one entry is allocated and what fits is kept |

## Left out

- GSS-API wrapping and Kerberos: wrap and unwrap are the identity, context establishment is any sequence of library results.
- The leaf checks gput, localgroup, pcre and regex: any function of client, scheme and data that grants, does not grant or fails; a scheme that was not compiled in is one that fails.
- Processes, libevent, fork and signals (server/process.c): any run, as described above; nothing is said about time or about a program's own standard input handling.
- Reading the text of configuration and ACL files: a line is given as blank, malformed or an entry with its default scheme.
- ServerV2.HandleMessages: tokens must be long enough for the fields the server reads without looking at the length (two octets, four for a command), and a completed payload must hold the argument count; what the C code reads behind a shorter token is undefined.
- ServerV2.HandleToken: the same for one token.
- ServerV2.HandleCommand: the same for the tokens and the payload of one command.
- ServerV2.Reassemble: the same for continuation tokens.
- ServerV2.ReadContinuation: the same for the next token.
- ServerV2.ServerParseCommand: needs the four octets of the argument count, which the code reads unconditionally.
- Acl.ServerConfigAclPermit: includes are acyclic but for a file that includes itself directly; the program recurses without end on a longer cycle.
- Acl.AclCheck: includes are acyclic in the same sense.
- Acl.HandleInclude: includes are acyclic in the same sense.
- Acl.AclCheckFileInternal: includes are acyclic in the same sense.
- AclOrder.DenyDirectoryExact: one directory at a time; for any number of them the exact condition (OrderExact, OrderMattersExactly) speaks of the results of two evaluations and not of single files.
- AclDenyLines.DenyLineExact: one included path at a time; for any include tree the exact condition (DenyLineAnywhere) speaks of the results before and after.
- EndToEnd.WholeExchange: summaries and help with superfluous arguments, which get more than one reply.
- Session.WholeSession: the same requests.
- Session.TurnsOfRequests: the same requests.
- Session.ServeRequests: the same requests.
- Exchange.CommandAndReply: the same requests.
- Exchange.SessionOverTheWire: the same requests.
- RunCommand.ServerRunCommand: the help request with superfluous arguments sends the generic text of its error code instead of its own wording.
- Java.RemctlClient.ProcessRequest: messages of 2 GB and more, where Java integers overflow.
- Java.ServeStatuses: only the continuation automaton of the Java server, not the growth of its buffer.
- TokenStream.Reader.NetworkRead: time is part of the schedule; a schedule that ends counts as a timeout.
- Negotiation.InternalOpen: a token is its flags alone; what the library puts into it is not modelled.
- Allocation failures, overflow of size_t and ssize_t, and wrap-around of counters.
- Messages of the v1 server, output polling and truncation in protocol v1.
- Error wording, logging and memory management.
- remctld, remctl-shell and the remctl program, the Perl, PHP, Python and Ruby bindings, and portable/.
