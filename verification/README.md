# bdep, verified

A Dafny model of the hard parts of `bdep`, the build2 project dependency manager, with proofs of
what they promise. `dafny verify dfyconfig.toml` checks all of it.

Four parts are modelled.

- **The control branch of `bdep publish`** (`ControlBranch`, `ControlProtocol`, `ControlRepository`):
  any number of publishers, each with a local and a remote-tracking `build2-control` branch, share one
  remote. Histories are sequences of commits, fast-forwarding and push acceptance are prefix tests,
  and a commit's tree is its set of authorization file names. The stages of an attempt are functions;
  a state machine interleaves them with fetches, rejected, lost and half-delivered pushes, failing git
  commands and crashes; and the command itself is a class whose methods refine the functions.
- **The command line** (`ArgvScanner`, `OptionsFile`, `OptionsFileText`, `LoadFailures`, `FileScanner`, `Groups`,
  `GroupScanner`, `OptionParser`, `OptionValues`, `NestedValues`, `CommandLine`, `CommandChunks`,
  `Interleaving`, `CommandInvocation`): the stack of scanners from the erasing argument vector through lazily expanded
  options files to grouped arguments, the option parse loop with its merge, the loop that takes a
  command's line apart, and how far the order of a line matters.
- **The configuration database** (`ConfigDb`, `InitPackages`, `ConfigRuns`, `ConfigDatabase`, `ConfigCommands`): the rows
  of a project's configurations under `config add/set/move/rename/remove`, `init` and `deinit`, with
  their transactions, and `find_configurations`.
- **Two smaller loops** (`ProjectDiscovery`, `GitStatus`): walking up to the project and package of a
  directory, and reading `git status` with an early way out.

Objects that the program changes in place are classes here, and loops are loops; every method is proved
against a function or a property, and the theorems are about those. External commands (git, bpkg, the
network) are modelled by their effect or by an outcome handed in; errors that the program throws are
returned as values. `common_options`, `project_options` and the like are instances of one abstract table
of option names: all generated parsers run the same loop.

## Findings

Some statements one would expect hold only under a condition. Each has a lemma giving the condition.

- A control branch left with only its root commit, as after an interruption between
  bdep/bdep/publish.cxx:526 and the commit at bdep/bdep/publish.cxx:705, blocks every later attempt:
  the checkout has no `submit` directory to write to, and once a remote branch has been fetched the
  two are unrelated (`AbandonedRootIsReached`, `AbandonedRootBlocks`; `PrepareExact` says exactly which
  clones can be prepared).
- `@name` and the option `--config-name|-n` fill one list (bdep/bdep/bdep.cxx:122), so their order
  matters to each other, though to nothing else on the line (`InterleavingExactly`). `config rename`
  acts on it: `-n a @b` renames `a` to `b`, and `@b -n a` renames `b` to `a` (`RenameDependsOnOrder`).
- `config rename @name -n ""` stores an empty name, which is refused everywhere else: only the
  argument is checked (bdep/bdep/config.cxx:532-538; `EmptyNewNameExactly`, `EmptyNameIsStored`).
- `-@name` is understood everywhere but right behind an option, where the option loop sees it first and
  rejects it (`LineIsTakenApart`, `DashAtNameDependsOnOrder`).
- In `-ab=v`, with `a` and `b` flags, the value is dropped silently, and `-=v` is ignored altogether
  (`ValueDroppedExactly`).
- An options file line ending in `=` right behind an option name makes the loader read before the start
  of an empty string (bdep/bdep/common-options.cxx:535); the model reports an error of its own,
  `EmptyValue` (`EmptyValueLine`, `EmptyValueExactly`).
- A file that names itself, directly or through others, on the way the loader takes is loaded for ever;
  the model reports `Endless` exactly then (`CircleExactly`, `EndlessExactly`, `SelfNamingFile`).
- The test for a configuration's own row in `init` (bdep/bdep/init.cxx:107) compares objects that are
  loaded at different times and may never succeed; `ForwardCheckExact` shows that nothing depends on it.
- A value printed by `scan_argument` survives being scanned again exactly if it is not a backslash
  followed by a group separator, and no scanned value is (`PrintThenParse`, `ScannedIsClean`).

## Model

| member | source | states |
|---|---|---|
| `ControlBranch.PrepareExact` | bdep/bdep/publish.cxx:451-712 | An attempt reaches its push if and only if no stale worktree holds an absent branch, local and tracking branch are related, and the branch is not an empty one it did not make; it then has committed exactly the missing names onto the longer of the two. |
| `ControlBranch.AbandonedRootBlocks` | bdep/bdep/publish.cxx:526-543 | With a local branch of one empty root commit every attempt stops, at the write or at the merge, and changes nothing. |
| `ControlBranch.AttemptExact` | bdep/bdep/publish.cxx:451-769 | From any local state and for any network behaviour: success exactly if prepared, accepted and answered, with local, tracking and remote equal and the first 16 characters of every checksum a name in the tree; after a failed push local is what it was before this run's commit, or absent if made by it, and the worktree is released; the remote only moves forward. |
| `ControlBranch.OneAuthorization` | bdep/bdep/publish.cxx:635-671 | A package asks for one file, named by the first 16 characters of its checksum, and adds just that one. |
| `ControlBranch.CutShortExact` | bdep/bdep/publish.cxx:709-769 | What a push leaves during which the process dies or a guard fails. |
| `ControlProtocol.SubmittedIsAuthorized` | bdep/bdep/publish.cxx:635-678 | In every state of every run in a git repository, with crashes anywhere, during a push included, failing steps and guards, and lost pushes, each package submitted under control has the first 16 characters of its checksum as a name in the remote tree, then and ever after. |
| `ControlProtocol.AnyQuietStartIsHonest` | bdep/bdep/publish.cxx:469-476 | The above starts from any local branches whatever, including one a crash left ahead of the remote, as long as histories drop no file. |
| `ControlProtocol.StagesMakeAttempt` | bdep/bdep/publish.cxx:451-769 | The steps of one publisher, taken without interruption, make up an `Attempt`, and change nobody else. |
| `ControlProtocol.StartWithoutControl` | bdep/bdep/publish.cxx:378 | Without control an attempt is submitting alone. |
| `ControlProtocol.Interruptions` | bdep/bdep/publish.cxx:592-607 | What a crash, a failing git step, a failing post and a fetch leave. |
| `ControlProtocol.CutIsInterruptedPush` | bdep/bdep/publish.cxx:709-769 | What an interrupted push leaves. |
| `ControlProtocol.OnlyPushFailsTheorem` | bdep/bdep/publish.cxx:612-631 | Over every interleaving in which pushes are the only failing steps, each local branch at rest is absent or a prefix of the remote and has a tracking branch, the fast-forward merge and the file writes succeed, and every failed attempt failed at its push. |
| `ControlProtocol.RunSynced` | bdep/bdep/publish.cxx:577-613 | The invariant behind it, local within tracking within remote with the exceptions of each stage, holds along every such run. |
| `ControlProtocol.FailedPushReverts` | bdep/bdep/publish.cxx:709-760 | A failed push that had added authorizations restores the branch of before the commit, or its absence, whatever others did and whatever was fetched in between. |
| `ControlProtocol.FetchAndRetrySucceeds` | bdep/bdep/publish.cxx:745-746 | Fetching and trying again gets the packages authorized, however the steps of others interleave, if none of them pushes meanwhile. |
| `ControlProtocol.ElsewhereKeepsBranch` | bdep/bdep/publish.cxx:436-449 | Steps of others and fetches touch neither a publisher's local branch nor its worktree, and never set the remote back. |
| `ControlProtocol.SubmitsInOrder` | bdep/bdep/publish.cxx:774-809 | Left alone, the submit loop submits every remaining package once, in order, and changes nothing else. |
| `ControlProtocol.AbandonedRootIsReached` | bdep/bdep/publish.cxx:526-543 | An attempt that dies between making the branch and its commit leaves the lone root, and then every later attempt stops whatever others do and whatever is fetched, unless what is fetched continues that commit. |
| `ControlRepository.Local.AddFiles` | bdep/bdep/publish.cxx:633-671 | The loop adds exactly the missing names, the first 16 characters of each checksum, and fails exactly if one is missing and cannot be written. |
| `ControlRepository.Local.PrepareBranch` | bdep/bdep/publish.cxx:477-707 | Branch creation, checkout, merge, file loop and commit together are the stage `Prepare`. |
| `ControlRepository.Local.PushBranch` | bdep/bdep/publish.cxx:709-767 | The push with both guards is the stage `Push`. |
| `ControlRepository.Local.SubmitAll` | bdep/bdep/publish.cxx:774-809 | The submit loop submits the packages in order up to the first that is not taken. |
| `ControlRepository.Local.Publish` | bdep/bdep/publish.cxx:375-809 | The command is an `Attempt` followed by the submit loop: nothing is submitted unless the push went through, the first 16 characters of every checksum are a name in the remote tree by then, and those submitted are the packages up to the first that is not taken. |
| `Groups.ReadGroups` | bdep/bdep/common-options.cxx:665-706 | Reading the groups on one side stops only at an argument, the next one's leading group or the end, and never leaves a leading group without its argument. |
| `Groups.ParseReads` | bdep/bdep/common-options.cxx:651-709 | Whatever the grammar of grouped arguments derives is read to the end, leading and trailing groups concatenated in order. |
| `Groups.AcceptedExactly` | bdep/bdep/common-options.cxx:651-709 | A token sequence is accepted if and only if the grammar derives it. |
| `Groups.GroupedArgumentReads` | bdep/bdep/common-options.cxx:642-709 | `{ body }+ argument +{ tail }` is the argument with the group `body` and then `tail`. |
| `Groups.GroupErrors` | bdep/bdep/common-options.cxx:671-706 | A stray separator, a wrong closing one, a missing one and a missing argument are reported with what was met and what was expected. |
| `Groups.TrailingGroupErrors` | bdep/bdep/common-options.cxx:671-700 | The same behind an argument. |
| `Groups.EscapedExactly` | bdep/bdep/common-options.cxx:658-664 | Exactly `\{`, `\}`, `\+{` and `\}+` stand for what follows the backslash, all else for itself. |
| `Groups.PrintThenParse` | bdep/bdep/utility.cxx:281-298 | Printed items are always read back, and come back unchanged if and only if no value is a backslash and a separator. |
| `Groups.PrintedLiterally` | bdep/bdep/utility.cxx:281-298 | An argument is copied as itself and its group between `+{` and `}`. |
| `Groups.ScannedIsClean` | bdep/bdep/common-options.cxx:668-677 | No scanned value is a backslash and a separator, even when the scan ends in an error. |
| `Groups.GroupRoundTrip` | bdep/bdep/bdep.cxx:196-200 | Scanning, copying over and scanning again gives the same arguments and groups. |
| `GroupScanner.Scanner.More` | bdep/bdep/common-options.cxx:578-593 | True exactly if something is pending; an unread group is reported first. |
| `GroupScanner.Scanner.Peek` | bdep/bdep/common-options.cxx:595-603 | Shows the next argument, or its leading error, without changing what is pending. |
| `GroupScanner.Scanner.Next` | bdep/bdep/common-options.cxx:605-614 | Delivers the first pending item with its whole group, or its error, and leaves the others. |
| `GroupScanner.Scanner.Skip` | bdep/bdep/common-options.cxx:616-623 | Passes over the first pending item and leaves the others. |
| `GroupScanner.Scanner.ScanGroup` | bdep/bdep/common-options.cxx:625-720 | The state machine's one step reads what `ReadGroups` reads, for the side its state selects. |
| `GroupScanner.Scanner.ReadSide` | bdep/bdep/common-options.cxx:661-716 | The loop over groups with its two separator checks. |
| `GroupScanner.Scanner.ReadWords` | bdep/bdep/common-options.cxx:685-700 | The inner loop collects the values up to the first separator and reports it. |
| `GroupScanner.Scanner.NextInGroup` | bdep/bdep/common-options.cxx:290-297 | Reading on in a group changes nothing pending. |
| `GroupScanner.ScanArgument` | bdep/bdep/utility.cxx:281-298 | Copies exactly the printed form of the next item. |
| `GroupScanner.ScanArguments` | bdep/bdep/utility.hxx:292-304 | Draining the scanner gives the printed form of everything read and the error that ended it, if any. |
| `ArgvScanner.Scanner.Next` | bdep/bdep/common-options.cxx:234-258 | Returns the first unread argument; when erasing, closes the gap, drops the count and clears the freed slot, and otherwise leaves the array alone. |
| `ArgvScanner.Scanner.Shift` | bdep/bdep/common-options.cxx:243-244 | Moves the rest of the array down by one. |
| `ArgvScanner.Scanner.Skip` | bdep/bdep/common-options.cxx:260-267 | Moves on, leaving the argument in place. |
| `ArgvScanner.Replay` | bdep/bdep/common-options.cxx:216-267 | Over any run the returned arguments do not depend on the mode; when erasing, the array ends as the skipped arguments in order, then the unread ones, and the count has dropped by those returned. |
| `ArgvScanner.NothingIsLost` | bdep/bdep/common-options.cxx:216-267 | Every argument is returned, skipped or left, none twice. |
| `OptionsFile.ExpandAppend` | bdep/bdep/common-options.cxx:314-378 | The expansion of a vector that expands to the end is unaffected by what follows; only the flag is handed on. |
| `OptionsFile.SkippedIsVerbatim` | bdep/bdep/common-options.cxx:328-350 | Once `--` has been seen nothing is taken for a file option. |
| `OptionsFileText.FileOptionInPlace` | bdep/bdep/common-options.cxx:322-365 | `--option file` and `--option=file` are replaced in place by what the file loads to; a file that is not there and a value that is missing are errors. |
| `OptionsFileText.OrdinaryArgument` | bdep/bdep/common-options.cxx:322-373 | Any other argument is delivered as it stands. |
| `OptionsFileText.SeparatorArgument` | bdep/bdep/common-options.cxx:366-373 | From `--` on, all arguments are delivered verbatim. |
| `OptionsFileText.LineIsTrimmed` | bdep/bdep/common-options.cxx:470-490 | A line is trimmed of exactly the blanks, tabs and carriage returns on both sides. |
| `OptionsFileText.IgnoredExactly` | bdep/bdep/common-options.cxx:491-494 | A line is ignored if and only if nothing is left of it or what is left begins with `#`. |
| `OptionsFileText.IgnoredLineInserted` | bdep/bdep/common-options.cxx:491-494 | Such a line put in anywhere changes nothing but line numbers. |
| `OptionsFileText.ArgumentLine` | bdep/bdep/common-options.cxx:523-545 | A line that gives no option a value is delivered as it stands or without the quotes around it, sets the flag exactly if it is `--`, and is an error with a quote on one side only. |
| `OptionsFileText.ValueLine` | bdep/bdep/common-options.cxx:496-545 | An option on a line has what follows `=` or blanks for its value, without the quotes around it. |
| `OptionsFileText.SeparatorLine` | bdep/bdep/common-options.cxx:523-524 | The line `--` is delivered and ends the file options. |
| `OptionsFileText.SkippedLinesLoad` | bdep/bdep/common-options.cxx:550 | Behind it no line names a file, whatever the files hold. |
| `OptionsFileText.NamedFileInPlace` | bdep/bdep/common-options.cxx:547-565 | A line that names a file is replaced in place by what that file loads to. |
| `LoadFailures.EmptyValueLine` | bdep/bdep/common-options.cxx:496-535 | A line has an empty value, before whose start the program reads, if and only if without the blanks around it it is an option name and `=`. |
| `LoadFailures.LoadFailsExactly` | bdep/bdep/common-options.cxx:445-574 | Loading a file ends in an error if and only if the file options, followed in order, lead to a line at fault in that way: there is a trail of lines, all lines before each loading, to that line. |
| `LoadFailures.EmptyValueExactly` | bdep/bdep/common-options.cxx:532-535 | Loading meets an empty value if and only if such a trail leads to a line `option=`. |
| `LoadFailures.CircleExactly` | bdep/bdep/common-options.cxx:547-565 | Loading meets a file within itself if and only if such a trail leads to a line that names a file still open. |
| `LoadFailures.SelfNamingFile` | bdep/bdep/common-options.cxx:547-565 | A file whose first line names it does. |
| `LoadFailures.EndlessExactly` | bdep/bdep/common-options.cxx:445-574 | The model reports `Endless` if and only if the program, which does not look for circles, would go down into files beyond any depth; otherwise the two agree, at a depth of no more than the number of files. |
| `LoadFailures.ExpandFailsExactly` | bdep/bdep/common-options.cxx:314-378 | Expanding a vector stops with an error if and only if all before some argument is delivered and the file option there fails with it; files not named, or named behind `--`, do not matter. |
| `OptionsFile.PaddingIsIgnored` | bdep/bdep/common-options.cxx:471-491 | Blanks around a line of an options file do not matter. |
| `OptionsFile.SpellingsAgree` | bdep/bdep/common-options.cxx:500-530 | An unquoted value may follow its option after `=` or after blanks. |
| `OptionsFile.QuotingRoundTrip` | bdep/bdep/common-options.cxx:460-573 | Options with values and plain arguments written one per line, each value in quotes, load back as exactly those, with their lines, and never end the options. |
| `OptionsFile.WrittenLineReads` | bdep/bdep/common-options.cxx:496-545 | Each such line is cut after the option name and stripped of exactly its own quotes. |
| `FileScanner.Scanner.LoadFile` | bdep/bdep/common-options.cxx:445-574 | Loading appends what the file and the files it names expand to, in place, and updates the flag. |
| `FileScanner.Scanner.LoadOne` | bdep/bdep/common-options.cxx:493-572 | One line's part in it. |
| `FileScanner.Scanner.More` | bdep/bdep/common-options.cxx:314-378 | Makes the next argument available without changing what is pending, or reports why there is none. |
| `FileScanner.Scanner.Peek` | bdep/bdep/common-options.cxx:380-405 | Shows the first pending argument with its file and line. |
| `FileScanner.Scanner.Next` | bdep/bdep/common-options.cxx:407-421 | Delivers the first pending argument and leaves the others. |
| `FileScanner.Scanner.TakeFileOption` | bdep/bdep/common-options.cxx:322-350 | Recognizes and consumes a file option in either spelling. |
| `FileScanner.Replay` | bdep/bdep/common-options.cxx:314-433 | Any interleaving of more, peek, next and skip returns, in order, the recursive expansion of the argument vector but for what was skipped. |
| `FileScanner.NothingIsLost` | bdep/bdep/common-options.cxx:407-433 | Over any such run every argument of the expansion is returned, skipped or left, none twice. |
| `FileScanner.Scanner.Skip` | bdep/bdep/common-options.cxx:423-433 | Passes over the first pending argument and leaves the others. |
| `OptionParser.Step` | bdep/bdep/project-options.cxx:1305-1453 | Every round that goes on consumes at least one token, so the loop ends. |
| `OptionParser.ParseLetters` | bdep/bdep/project-options.cxx:1368-1385 | The loop over combined flags. |
| `OptionParser.ParseCombined` | bdep/bdep/project-options.cxx:1324-1430 | What becomes of a token that looks like an option and is none. |
| `OptionParser.ParseLoop` | bdep/bdep/project-options.cxx:1295-1456 | The loop computes `Parse`, and says it parsed something exactly if it consumed a token. |
| `OptionParser.ParseMerges` | bdep/bdep/project-options.cxx:1295-1456 | Parsing into options that hold something is parsing afresh and merging. |
| `OptionParser.ParseAppend` | bdep/bdep/project-options.cxx:1305-1453 | Tokens parsed to the end parse the same in front of any others. |
| `OptionParser.ParseHomomorphism` | bdep/bdep/project-options.cxx:1136-1164 | Parsing a concatenation is merging what the parts parse to. |
| `OptionParser.ArgumentStops` | bdep/bdep/project-options.cxx:1434-1450 | What is no option stops the loop or fails it, by the mode for arguments. |
| `OptionParser.UnknownOptionStops` | bdep/bdep/project-options.cxx:1412-1430 | What looks like an option and is none does, by the mode for options. |
| `OptionParser.UnknownLetterStops` | bdep/bdep/project-options.cxx:1368-1401 | Of combined letters those before the first unknown one take effect, which is then reported. |
| `OptionParser.FlagTakesNoValue` | bdep/bdep/project-options.cxx:1335-1345 | A value joined to a flag is refused. |
| `OptionParser.CombinedFlagsDesugar` | bdep/bdep/project-options.cxx:1354-1401 | `-abc` parses as `-a -b -c`. |
| `OptionParser.LetterExactly` | bdep/bdep/project-options.cxx:1356-1364 | The letters that may be combined are the 26 small, the 26 capital ones and the ten digits. |
| `OptionParser.CombinedValueDesugars` | bdep/bdep/project-options.cxx:1326-1352 | `--option=value` parses as `--option value`. |
| `OptionParser.ValueDroppedExactly` | bdep/bdep/project-options.cxx:1326-1401 | For `name=v` that is itself no option: the round goes on without the value, that is, even if no value were acceptable, if and only if `name` is no option and all letters behind its dash are flags. |
| `OptionParser.ValueAfterCombinedFlagsIsDropped` | bdep/bdep/project-options.cxx:1346-1401 | `-abc=v` then parses as `-a -b -c`, for every `v`; and `-=v` as nothing at all. |
| `OptionValues.MergeAssociates` | bdep/bdep/common-options.cxx:948-1066 | Merging is associative over flags, scalars, lists, sets and maps. |
| `OptionValues.MergeUnset` | bdep/bdep/common-options.cxx:911-946 | Unset options are its identity on both sides. |
| `OptionValues.PutValueMerges` | bdep/bdep/common-options.cxx:732-888 | For every kind of option, parsing a value is merging the value parsed alone. |
| `OptionValues.RepeatedOption` | bdep/bdep/common-options.cxx:732-888 | An option given several times leaves exactly the last value, all values in order, their set, or a map of the last value per key, and touches no other field. |
| `OptionValues.FlagIsSet` | bdep/bdep/common-options.cxx:752-761 | A flag sets its field and nothing else. |
| `OptionValues.ValueIsRefused` | bdep/bdep/common-options.cxx:723-745 | A value of the wrong type and a missing value are refused. |
| `OptionValues.PairExactly` | bdep/bdep/common-options.cxx:840-850 | A pair is cut at its first `=`; without one it is all key. |
| `OptionValues.CollectSubTokens` | bdep/bdep/new-parsers.cxx:20-73 | The comma-splitting loop with its checks. |
| `OptionValues.PutNestedMerges` | bdep/bdep/new-parsers.cxx:77-127 | Selecting a variant again accumulates its sub-options as merging does, the last selection winning. |
| `NestedValues.NestedValueReads` | bdep/bdep/new-parsers.cxx:20-127 | `variant,a,b=v` selects the variant and parses exactly `a` and `b v` into what was gathered for it. |
| `NestedValues.PieceExactly` | bdep/bdep/new-parsers.cxx:34-68 | An option of the variant is accepted with a value exactly if it takes one. |
| `NestedValues.NestedValueRefused` | bdep/bdep/new-parsers.cxx:48-112 | An unknown variant or one unsuitable option among others is refused. |
| `NestedValues.ChoiceIsSet` | bdep/bdep/new-parsers.cxx:77-114 | On the command line such a value leaves the choice in its field and nothing else. |
| `OptionValues.MergeFullAssociates` | bdep/bdep/new-parsers.cxx:116-127 | Merging stays associative with nested options. |
| `OptionValues.MergeFullUnset` | bdep/bdep/new-parsers.cxx:116-127 | And keeps its identity. |
| `OptionValues.ParsingIsMerging` | bdep/bdep/project-options.cxx:1136-1164 | The homomorphism for every options class, nested options included. |
| `OptionValues.SubOptionsParseToEnd` | bdep/bdep/new-parsers.cxx:48-73 | Sub-options, being checked first, are never left behind by the nested parse. |
| `CommandLine.StepScanned` | bdep/bdep/project-options.cxx:1305-1453 | One round of the parse loop on the group scanner, with unexpected groups found in the order in which the program finds them, is `ItemStep`. |
| `CommandLine.ParseScanned` | bdep/bdep/project-options.cxx:1295-1456 | The parse loop on the group scanner is `ParseItems`. |
| `CommandLine.TurnStep` | bdep/bdep/bdep.cxx:167-199 | One turn of the loop on the group scanner is `TakeTurn`. |
| `CommandLine.InitLoop` | bdep/bdep/bdep.cxx:163-200 | The loop on the group scanner is `Init`, and fails whenever the tokens do not group. |
| `CommandChunks.LineIsTakenApart` | bdep/bdep/bdep.cxx:163-200 | A line of options, `@name`s, `-@name`s and arguments, then `--` and anything, is accepted if and only if no `-@name` comes right behind an option and no group is attached to a `--` that is dropped; it then comes to what its options and names do in order, its arguments, and what follows `--` verbatim. |
| `CommandChunks.LineThenRest` | bdep/bdep/bdep.cxx:163-200 | Whatever else follows such a line is treated as if it stood alone. |
| `CommandChunks.GroupIsRejected` | bdep/bdep/common-options.cxx:584-590 | A group at an option, at its value or at a name is rejected. |
| `CommandChunks.BadValueIsReported` | bdep/bdep/common-options.cxx:723-745 | A missing or unsuitable value is reported, whatever the group of the value, but the option's own group first. |
| `CommandChunks.UnknownIsReported` | bdep/bdep/project-options.cxx:1424-1427 | What looks like an option and is none is reported, group or no group. |
| `CommandChunks.EmptyNameIsRejected` | bdep/bdep/bdep.cxx:117-120 | `@` and `-@` alone are rejected. |
| `CommandChunks.ArgumentsReachCommand` | bdep/bdep/bdep.cxx:163-346 | Scanning a line, taking it apart and scanning the copied tokens again gives exactly the grouped arguments of the line and all that follows `--`. |
| `CommandInvocation.RunScanners` | bdep/bdep/bdep.cxx:326-346 | The argument vector, options files, groups, the loop and the second scan on top of each other give what expanding, grouping, taking apart and grouping again give, and fail if one of these does. |
| `CommandInvocation.LineReachesCommand` | bdep/bdep/bdep.cxx:326-346 | A vector that expands and groups to a line of such chunks runs its command if and only if the line is acceptable, with the settings of its options and names and exactly its grouped arguments. |
| `CommandChunks.OptionThenRest` | bdep/bdep/bdep.cxx:189-194 | It makes no difference whether the rest of a line is parsed in one go with the options before it, unless it begins with `-@`. |
| `Interleaving.InterleavingExactly` | bdep/bdep/bdep.cxx:116-200 | Two lines with the same arguments and, field by field, the same options, mixed in whatever order, come to the same if and only if they give the configuration names, as `@name` or by `--config-name`, in the same order. |
| `Interleaving.NamesOfLine` | bdep/bdep/bdep.cxx:116-124 | The field of `--config-name` ends up with all names given either way, in the order of the line. |
| `Interleaving.LinePart` | bdep/bdep/project-options.cxx:864-869 | What a line leaves in a field depends only on the options and names that write to it. |
| `Interleaving.FlagOfLine` | bdep/bdep/common-options.cxx:752-761 | After a line a flag is set if and only if it was before or an option on the line sets it. |
| `Interleaving.RenameDependsOnOrder` | bdep/bdep/config.cxx:540-553 | For any names `a` and `b`, `config rename -n a @b` renames `a` to `b` and `config rename @b -n a` renames `b` to `a`. |
| `CommandChunks.DashAtNameDependsOnOrder` | bdep/bdep/bdep.cxx:182-187 | For every option and name, `-@name` before the option is taken and behind it rejected. |
| `ConfigDb.AddExact` | bdep/bdep/config.cxx:167-240 | Adding succeeds if and only if the name is not empty, the id is free and the database with the new row is valid, and that is then the result. |
| `ConfigDb.AddedRow` | bdep/bdep/config.cxx:167-240 | The row added, field by field, under an id asked for or never given out before; all other rows stay. |
| `ConfigDb.AddDefaults` | bdep/bdep/config.cxx:176-197 | The first configuration becomes the default unless told otherwise, later ones do not, and a new default is forwarded unless another row is. |
| `ConfigDb.MoveExact` | bdep/bdep/config.cxx:478-507 | Moving succeeds if and only if the path is another one and the database with it valid, which is then the result. |
| `ConfigDb.RenameExact` | bdep/bdep/config.cxx:561-592 | Renaming succeeds if and only if the name is another one and the database with it valid, which is then the result. |
| `ConfigDb.EmptyNewNameExactly` | bdep/bdep/config.cxx:531-553 | An empty new name is refused as an argument and taken as the last configuration name, exactly if there is no argument and something else to select by. |
| `ConfigDb.EmptyNameIsStored` | bdep/bdep/config.cxx:540-592 | So `config rename @name -n ""` stores an empty name unless a configuration has it already. |
| `ConfigDb.RemoveExact` | bdep/bdep/config.cxx:619-641 | Removing succeeds exactly if all named rows are empty, and takes out exactly those. |
| `ConfigDb.SetExact` | bdep/bdep/config.cxx:684-734 | The sequential checks succeed if and only if setting the flags on all selected rows at once gives a valid database, which is then the result. |
| `ConfigDb.SetConfigsExact` | bdep/bdep/config.cxx:657-736 | The command needs a flag and rows that exist, and then succeeds exactly as above. |
| `ConfigDb.SetFields` | bdep/bdep/config.cxx:684-734 | Each selected row has the values given and keeps the others, its name, path and packages; all other rows stay. |
| `ConfigDb.SetOrderIndependent` | bdep/bdep/config.cxx:684-734 | The order of selection does not matter. |
| `ConfigDb.LookupsAreUnique` | bdep/bdep/project.cxx:40-106 | Queries by default, name and path match at most one row. |
| `InitPackages.ForwardCheckExact` | bdep/bdep/init.cxx:97-121 | The check rejects a package exactly if another forwarded configuration holds it. |
| `InitPackages.AddPackagesExact` | bdep/bdep/init.cxx:82-131 | Adding packages succeeds exactly if none missing is forwarded elsewhere, and appends exactly the missing ones, each once, in order. |
| `InitPackages.InitOneExact` | bdep/bdep/init.cxx:82-154 | One configuration's turn succeeds if and only if no command run besides fails and the database with the missing packages appended to its row is valid. |
| `InitPackages.InitCommitsPrefix` | bdep/bdep/init.cxx:53-155 | However far `init` gets, the database is valid and that of the configurations completed. |
| `InitPackages.InitStopsAt` | bdep/bdep/init.cxx:53-155 | And it stops only at a configuration whose turn fails. |
| `InitPackages.DeinitCommitsPrefix` | bdep/bdep/deinit.cxx:141-217 | The same for `deinit`, including a failure after a commit. |
| `InitPackages.DeinitStopsAt` | bdep/bdep/deinit.cxx:141-217 | It stops at the first failure for a configuration that has packages, after its commit or before it. |
| `InitPackages.DeinitResult` | bdep/bdep/deinit.cxx:126-207 | A completed `deinit` without packages empties the selected rows, with packages takes out exactly those, and leaves all other rows. |
| `InitPackages.UnverifiedExactly` | bdep/bdep/deinit.cxx:121-124 | Packages given pass verification if and only if every configuration has them all. |
| `InitPackages.InitIdempotent` | bdep/bdep/init.cxx:82-95 | `init` repeated succeeds and changes nothing. |
| `InitPackages.InitThenDeinit` | bdep/bdep/deinit.cxx:141-207 | `init`, then `deinit` of packages not there before, restores the database, order of packages included. |
| `InitPackages.InitResult` | bdep/bdep/init.cxx:53-155 | A completed `init` appends to each selected row packages given and nothing else, so that it has them all, and leaves all other rows. |
| `ConfigRuns.EveryReachableIsValid` | bdep/bdep/project-odb.cxx:1565-1584 | Every state any sequence of commands leads to has at most one default, unique paths and names, no package twice in a row and none in two forwarded rows. |
| `ConfigRuns.LookupsStayUnique` | bdep/bdep/project.cxx:40-106 | So no lookup ever matches two rows. |
| `ConfigRuns.RunStep` | bdep/bdep/config.cxx:782-790 | A run is its commands one after another. |
| `ConfigRuns.ExecCommits` | bdep/bdep/config.cxx:240 | What succeeds is committed and what fails changes nothing. |
| `ConfigRuns.ExecGetsThrough` | bdep/bdep/init.cxx:153-154 | `init` and `deinit` leave committed what they got through. |
| `ConfigCommands.Execute` | bdep/bdep/config.cxx:140-736 | Carried out on the database object, each command leaves what runs say. |
| `ConfigDatabase.Database.FindConfigurations` | bdep/bdep/project.cxx:19-127 | Returns the rows mentioned, each once, in order of first mention, or the default if there are none; fails exactly if something mentioned is missing, nothing is left to fall back to, or, where that is to be checked, a directory is gone. |
| `ConfigDatabase.Database.SelectMentioned` | bdep/bdep/project.cxx:46-90 | The same without the default: fails exactly if something mentioned is missing. |
| `ConfigDatabase.WeededPrefix` | bdep/bdep/project.cxx:27-38 | What is mentioned later never comes before or in place of what was mentioned earlier. |
| `ConfigDatabase.Database.SelectNames` | bdep/bdep/project.cxx:46-55 | The rows with these names, each once, in order of first mention, or failure exactly if one is missing. |
| `ConfigDatabase.Database.AddConfig` | bdep/bdep/config.cxx:140-240 | The command is `Add`; on failure nothing is changed. |
| `ConfigDatabase.Database.SetFlags` | bdep/bdep/config.cxx:657-736 | The loop in its transaction is `SetConfigs`; on failure nothing is changed. |
| `ConfigDatabase.Database.MoveConfig` | bdep/bdep/config.cxx:478-507 | The command is `Move`. |
| `ConfigDatabase.Database.RenameConfig` | bdep/bdep/config.cxx:525-592 | The command takes the argument or else the last configuration name as the new name, succeeds exactly if the rest selects one configuration and the name is free, and is then `Rename`; otherwise nothing is changed. |
| `ConfigDatabase.Database.RemoveConfigs` | bdep/bdep/config.cxx:610-641 | The loop in its transaction is `Remove`; on failure nothing is changed. |
| `ConfigDatabase.Database.PushPackages` | bdep/bdep/init.cxx:82-131 | The inner loop is `AddPackages` against the stored rows. |
| `ConfigDatabase.Database.InitConfigs` | bdep/bdep/init.cxx:43-156 | The loop with its commit per configuration is `InitEach`. |
| `ConfigDatabase.Database.Drop` | bdep/bdep/deinit.cxx:180-192 | Removes exactly the given packages and keeps the order. |
| `ConfigDatabase.Database.DeinitConfigs` | bdep/bdep/deinit.cxx:119-217 | The verification and the loop with its commit per configuration are `Unverified` and `DeinitEach`. |
| `ProjectDiscovery.FindAnswers` | bdep/bdep/project.cxx:129-194 | The search returns the nearest enclosing root and the only manifest directory between it and the start. |
| `ProjectDiscovery.FailsOnTwoManifests` | bdep/bdep/project.cxx:143-152 | It fails on several manifests exactly if two lie in that range. |
| `ProjectDiscovery.FindStable` | bdep/bdep/project.cxx:129-194 | The same is found from every directory between the find and the start. |
| `ProjectDiscovery.FindProjectPackage` | bdep/bdep/project.cxx:129-194 | The loop computes `Find`. |
| `GitStatus.EarlyExitIsExact` | bdep/bdep/git.cxx:347-351 | With headers first, stopping early gives the status of all lines. |
| `GitStatus.OidHeader` | bdep/bdep/git.cxx:299-305 | `# branch.oid` gives the commit. |
| `GitStatus.HeadHeader` | bdep/bdep/git.cxx:306-312 | `# branch.head` gives the branch. |
| `GitStatus.UpstreamHeader` | bdep/bdep/git.cxx:313-316 | `# branch.upstream` gives the upstream branch. |
| `GitStatus.CountsHeader` | bdep/bdep/git.cxx:317-326 | `# branch.ab +a -b` tells ahead by `a` and behind by `b`. |
| `GitStatus.OtherHeader` | bdep/bdep/git.cxx:328 | Other headers tell nothing. |
| `GitStatus.ChangeLine` | bdep/bdep/git.cxx:342-348 | A change has a mark for the index and one for the worktree; all else is unstaged. |
| `GitStatus.ChangesOfAll` | bdep/bdep/git.cxx:293-352 | All lines read, something is staged or unstaged if and only if some line says so. |
| `GitStatus.StopsAtPrefix` | bdep/bdep/git.cxx:293-352 | In any case it gives the status of a prefix, left only when further changes have nothing to add. |
| `GitStatus.EarlyExitExactly` | bdep/bdep/git.cxx:293-352 | For any output the early exit misses no change, and gives the status of all lines if and only if the headers behind it have nothing to add; `LateHeaderIsMissed` is an output where they have. |
| `GitStatus.ReadStatus` | bdep/bdep/git.cxx:293-352 | The loop computes it. |

## Left out

- Usage texts, command dispatch, `new` and its templates, `ci`, `release`, `sync`, `status`, `fetch`: text generation, process plumbing or easy members.
- The near-identical generated parsers: one loop over an abstract table stands for all; the lookup in base classes is one lookup in the joint table.
- `OptionParser.Step`: `unknown_mode::skip` for arguments, which no part of the command asks for, is not modelled.
- `OptionParser.ParseLoop`: the same.
- Search functions of file options: the command gives none.
- The two-slot buffers that keep returned strings alive, and the reading of values by `std::istream`: values are strings and a conversion is a predicate.
- `GroupScanner.Scanner.More`: what the scanner does when called again after it has thrown is not described; the same holds for `FileScanner.Scanner.More`.
- `CommandLine.InitLoop`: when the tokens do not group, only that it fails is stated, not whether the program first meets that error or another.
- `CommandInvocation.RunScanners`: reads each scanner to its end before the next, where the program asks for tokens one at a time, so with several errors another may come first; the common options and the command's name in front of the line are left out.
- `ArgvScanner.Scanner.Next`: the null pointer stored in a freed slot is an empty string.
- Paths, versions, URLs and package names as types: paths and names are strings, and package names are taken in one letter case since the program ignores case.
- Checks of directories in `config add`, `translate_path_name`, `verify_configuration_path`, relative paths of rows, and `config list`.
- `find_project_packages` over several directories and the reading of manifests.
- `GitStatus.ReadStatus`: lines that git never prints, too short for the fields read, give empty fields here and an exception in the program.
- Merging of default options files and the `forbid` checks.
- The contents and author data of control-branch commits, and upstream configuration: a push that fails for want of it is a failed push.
- Several publishing runs in one clone at the same time.
