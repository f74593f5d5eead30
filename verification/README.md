# Verified model of the cellframe-node configuration and installation logic

cellframe-node ships a configuration tool (`conftool/`), a patch script (`inline-patches.py`) and macOS installer
scripts (`os/macos/PKGINSTALL/`). This Dafny project models their logic and proves what they are for:

- the line editor over INI-style files behaves like a map from (group, parameter) to value, on the lines in memory and
  on the stored text, and a script of `config` commands behaves like a fold over a plain map;
- setup scripts never alter a user's setting that they do not force, and never move a network, over whole runs; a second
  run, of a script like the one that the package ships, changes no byte;
- the flat interpreter with its condition stack is a walk of the block tree, and what it executes does not depend on files;
- networks are never enabled and disabled at once, never lose their configuration, and obey the last `ensure`;
- variable substitution in passes is simultaneous substitution, and templating commutes with lookup;
- the signature buffers hold the promised bytes, and nodes with the same signatures build the same bytes;
- the merge-conflict resolver is the block-by-block resolution;
- the installer, with a setup script as its setup step, keeps the user's choice of networks and the settings in their
  files, and moves files without overwriting any.

`dafny verify dfyconfig.toml` checks the whole project.

## Layout

| file | content |
|---|---|
| Text.dfy | trimming, tokens, words |
| ConfigLines.dfy | what one line means, which lines are read back |
| ConfigEditor.dfy | scan, structural lookup, `set`, and its laws |
| ConfigStore.dfy | load, save, the laws on stored text |
| ConfigActions.dfy | `config` actions and the plain map |
| ConfigFile.dfy | the configuration file object |
| Placeholders.dfy | variable substitution |
| Templates.dfy | `replace_placeholders` |
| FileOps.dfy | paths and the effects of commands on files |
| Script.dfy | commands, interpreter, plans, block trees |
| CommandRuns.dfy | commands as they are written, run on files |
| UserSettings.dfy | setup scripts and the user's settings |
| Networks.dfy | networks as pairs of files |
| Interpreter.dfy | the tool object that executes commands |
| CommandParsing.dfy | setup files to commands and back |
| SignatureAssembly.dfy | signature buffers |
| MergeConflicts.dfy | conflict resolver |
| PostInstall.dfy | post-install phases |
| SetupStep.dfy | the tool as the setup step of the installer |
| MoveSafely.dfy | `mv_safe` |

Conventions. An exception is an outcome, never a precondition: `None`, `Aborted`, `Stopped`, or a `Fails` answer. The one
undefined behaviour of the scanner, using the first token of a line made only of `=`, is the outcome `NoToken`; popping
an empty condition stack is the outcome `Underflow`. `ConfigEditor` states its laws for any way of reading lines; the
tool's way is `ConfigLines.KindOf`. Where the code differs from its names or comments, the code is modelled: the bare
`if X` holds for an empty X (`Script.BareConditionHoldsIff`), only the innermost condition counts
(`Script.OuterConditionIsIgnored`), `ensure on` leaves a network with two files as it is
(`Networks.EnsureIsExclusiveIff`), `fromtemplate` ignores a disabled file (`Networks.FromTemplateIsExclusiveIff`), and the
installer does not keep a disabled network disabled if its name holds a separator (`PostInstall.DisabledStaysIff`). What a
shell pattern expands to is a parameter of the installer; only words without `*`, `?` and `[` are known to stay themselves.

## Model

| member | source | states |
|---|---|---|
| `ConfigLines.HeaderReadsBack` | conftool/config/CellframeConfigFile.cpp:186-202 | a written group header is recognised as that group if and only if the name is trimmed, non-empty and free of the separators |
| `ConfigLines.SettingReadsBack` | conftool/config/CellframeConfigFile.cpp:208-220 | a written `param=value` line is read as that pair if and only if the pair is readable, the condition being checkable beforehand |
| `ConfigLines.HeaderNameClean` | conftool/config/CellframeConfigFile.cpp:186-202 | every group name that is ever read could have been written |
| `ConfigLines.SettingClean` | conftool/config/CellframeConfigFile.cpp:208-220 | parameter and value read from any line hold no `=` and no `#`, and the parameter is trimmed |
| `ConfigLines.IndentationIsIgnored` | conftool/config/CellframeConfigFile.cpp:230-236 | a line means the same with any white space, character by character that of the C locale, before and behind it |
| `ConfigLines.CommentIsCut` | conftool/config/CellframeConfigFile.cpp:230-236 | everything from the first `#` on and the indentation is cut off, the white space before the comment is not |
| `ConfigLines.GapIsIgnored` | conftool/config/CellframeConfigFile.cpp:208-220 | white space between a parameter and its `=` does not matter |
| `ConfigLines.ValueEndsAtSecondEquals` | conftool/config/CellframeConfigFile.cpp:208-220 | only what is between the first two `=` is the value |
| `ConfigLines.LooseHeaderReads` | conftool/config/CellframeConfigFile.cpp:186-202 | white space inside the brackets of a header and text behind them do not matter |
| `ConfigLines.UnclosedHeaderReads` | conftool/config/CellframeConfigFile.cpp:186-202 | a bracket that is never closed closes at the end of the line |
| `ConfigLines.DefectiveLines` | conftool/config/CellframeConfigFile.cpp:208-220 | text that is neither a header nor a setting, an empty header and a line that is all `=` are defects |
| `ConfigEditor.IndentedFileAnswersAlike` | conftool/config/CellframeConfigFile.cpp:222-277 | however its lines are indented, a file answers every lookup alike |
| `ConfigEditor.CommentLinesSayNothing` | conftool/config/CellframeConfigFile.cpp:230-236 | blank lines and comment lines can be put anywhere without changing any lookup |
| `ConfigEditor.ScanIsStructural` | conftool/config/CellframeConfigFile.cpp:222-277 | the flag-driven scan equals the structural lookup, first section of that name and first parameter in it, with the same line number and the same failures |
| `ConfigEditor.ScanLocatesSet` | conftool/config/CellframeConfigFile.cpp:222-301 | writing by the returned line number replaces the setting, or lands at the end of its group, or at the end of the file |
| `ConfigEditor.SetActsAsMapUpdate` | conftool/config/CellframeConfigFile.cpp:280-301 | `set` fails exactly when the lookup does; else the key reads as the value and every other key gives the outcome it gave before, absence and failures included |
| `ConfigEditor.SetAgain` | conftool/config/CellframeConfigFile.cpp:280-301 | repeating a `set` changes no line; a later `set` of the same key leaves exactly what it alone would have left |
| `ConfigEditor.SetsCommute` | conftool/config/CellframeConfigFile.cpp:280-301 | writes of two different keys commute to the line once one of them is present |
| `ConfigFile.ConfigurationFile.constructor` | conftool/config/CellframeConfigFile.cpp:169-184 | the reading loop yields the lines of the text, a last one without newline included |
| `ConfigFile.ConfigurationFile.Exists` | conftool/config/CellframeConfigFile.cpp:222-277 | the loop with its flag returns the structural lookup, and no line number matters to the answer |
| `ConfigFile.ConfigurationFile.Set` | conftool/config/CellframeConfigFile.cpp:280-301 | the insertions by index make the specified edit, or nothing changes when the scan throws |
| `ConfigFile.ConfigurationFile.ReplacePlaceholders` | conftool/config/CellframeConfigFile.cpp:318-333 | every line is templated in place; blank and comment lines stay as they are |
| `ConfigFile.ConfigurationFile.Save` | conftool/config/CellframeConfigFile.cpp:303-315 | the text written, which loads as the same lines with two blank ones for a lone newline |
| `ConfigStore.StoredLinesKeepTheirMeaning` | conftool/config/CellframeConfigFile.cpp:174-180 | saving and loading keeps every lookup although a lone newline becomes two blank lines; a second save writes the same bytes |
| `ConfigStore.SaveLoad` | conftool/config/CellframeConfigFile.cpp:311-313 | loading then saving any text changes at most a missing final newline |
| `ConfigStore.SetTextActsAsMapUpdate` | conftool/config/CellframeConfigFile.cpp:280-315 | load, `set`, save is a map update on the stored text |
| `ConfigStore.LaterSetTextWins` | conftool/config/CellframeConfigFile.cpp:280-315 | on stored text too, a later write of a key makes the earlier one as if it had never been, byte for byte |
| `ConfigActions.ConfigScriptIsMapFold` | conftool/commands/ConfigCommand.cpp:65-142 | for every text and every sequence of ensure, default and get commands, the final lookup of every key equals folding the commands over a plain map; the sequence throws exactly when it reaches a key whose lookup fails; only what ensure and default write has to be printable |
| `ConfigActions.EveryFileHoldsAMap` | conftool/config/CellframeConfigFile.cpp:222-277 | every text, however broken, holds some finite map outside its failing keys, so the fold applies to all files |
| `ConfigActions.PlaceholderIffUnresolved` | conftool/commands/ConfigCommand.cpp:59-63 | the value `${NAME}` of a command ends as a placeholder if and only if the variable is not stored or stored empty |
| `ConfigActions.DefaultWritesIff` | conftool/commands/ConfigCommand.cpp:59-118 | `default` writes a key that is absent, empty or reads as anything between `$` and `}`, and leaves a text with any other value of the key as it is, one that only starts with `$` included |
| `Placeholders.SubstituteVariables` | conftool/config/CellframeConfigFile.cpp:74-106 | the loop over the variable map computes the substitution in the order of the map keys |
| `Placeholders.MapOrderAscends` | conftool/config/CellframeConfigFile.cpp:66-84 | the passes go through the names in ascending order of their patterns, each once |
| `Placeholders.NamesByCharacters` | conftool/config/CellframeConfigFile.cpp:66-84 | names go by the first character in which they differ, and a longer name before its own beginning, because the closing brace belongs to the key |
| `Placeholders.PassesAreSimultaneous` | conftool/config/CellframeConfigFile.cpp:335-343 | if every `$` opens a reference and no referenced value holds `$`, the passes in any order equal simultaneous substitution, whatever the other variables hold |
| `Placeholders.SubstituteIsIdempotent` | conftool/config/CellframeConfigFile.cpp:335-343 | exactly the references to unknown variables are left, and substituting again changes nothing |
| `Placeholders.AssignmentKeepsStorePlain` | conftool/commands/StorageCommand.cpp:19-23 | `var` keeps the stored values free of `$` when every reference is defined |
| `Placeholders.SubstituteDependsOnMentioned` | conftool/config/CellframeConfigFile.cpp:335-343 | only the variables a text refers to matter to it |
| `Placeholders.NestedReferencesDependOnOrder` | conftool/config/CellframeConfigFile.cpp:74-81 | a nested reference on which two orders of the passes differ |
| `Templates.TemplateKind` | conftool/config/CellframeConfigFile.cpp:318-333 | a templated line is what its comment-free text was, with its value substituted, also when the value vanishes; asked only of what the tokens of the line become |
| `Templates.FittingValuesFit` | conftool/config/CellframeConfigFile.cpp:335-343 | tokens become something fitting whenever the variables they mention are non-empty, trimmed and free of separators |
| `Templates.CommentLinesStay` | conftool/config/CellframeConfigFile.cpp:322-331 | blank lines and comment lines come out of templating as they are, references in them included |
| `Templates.CommentsAreNeutral` | conftool/config/CellframeConfigFile.cpp:327-331 | dropping the comment keeps the meaning of a line if and only if the line is not frayed, that is, unless white space before the comment ends its value or is its only token |
| `Templates.CommentFraysValue` | conftool/config/CellframeConfigFile.cpp:327-331 | the family of commented settings whose value changes when the comment is dropped |
| `Templates.TemplatingCommutesWithLookup` | conftool/config/CellframeConfigFile.cpp:318-343 | after templating, every key reads as the substitution of what it read before, absence and failures included; variables that no line mentions are not constrained |
| `FileOps.PopulatedFileSays` | conftool/commands/FromTemplateCommand.cpp:55-58 | the stored file made from a template answers every lookup with the substituted answer of the template |
| `FileOps.FromTemplateMakesFile` | conftool/commands/FromTemplateCommand.cpp:28-60 | a missing file, or any file under `ensure`, becomes the populated template and nothing else changes; a missing template throws; `default` leaves an existing file alone |
| `FileOps.PopulatesInPlace` | conftool/commands/FromTemplateCommand.cpp:28-60 | with any other argument the existing file becomes its own population, and a missing one throws |
| `FileOps.NetworkThrowsIff` | conftool/commands/NetworkCommand.cpp:65-196 | a `network` command throws if and only if it has to make a file and there is no template |
| `FileOps.ConfigThrowsIff` | conftool/commands/ConfigCommand.cpp:65-142 | a `config` command throws if and only if there is no file to edit or the lookup of its key fails in the file that it picks |
| `FileOps.DryThrowsIff` | conftool/commands/FromTemplateCommand.cpp:28-60 | when a dry command throws: `network` never, `config` when the real one does, `fromtemplate` when the file is not there |
| `FileOps.RunsKeepTemplates` | conftool/config/CellframeConfigFile.cpp:146-167 | no sequence of commands ever changes, makes or removes a template, wherever it stops |
| `FileOps.PathsApart` | conftool/config/CellframeConfigFile.cpp:146-167 | no network shares a file with the node, enabled and disabled paths never meet, and the one determines the other, across base directories |
| `FileOps.OffPath` | conftool/config/CellframeConfigFile.cpp:156-157 | the disabled path is the enabled one with a suffix |
| `FileOps.DryRunChangesNothing` | conftool/commands/NetworkCommand.cpp:129-180 | a dry sequence of operations leaves every file as it is, also when it stops early |
| `Script.RunFollowsPlan` | conftool/main.cpp:250-275 | non-interference: the operations, their values and the final variables are computed from script and initial variables alone; files and the dry-run flag only decide where an exception stops the run |
| `Script.DryRun` | conftool/config/CellframeConfigFile.cpp:306-309 | a dry run of any script leaves every file as it is, however it ends |
| `Script.UnderflowIffNotNested` | conftool/main.cpp:256-262 | a run pops the empty stack exactly when some prefix of the script closes more conditions than it opens and no operation before that point throws |
| `Script.BalancedScriptRunsAsTree` | conftool/main.cpp:250-275 | every well-bracketed script is a block tree, never pops an empty stack, ends with it empty, and equals the recursive walk in which each command is guarded by its innermost condition evaluated at that command |
| `Script.GuardIsOrdinaryIf` | conftool/main.cpp:264-272 | an unnested block whose body does not assign what its own condition mentions is the ordinary `if` |
| `Script.OuterConditionIsIgnored` | conftool/main.cpp:264-268 | an outer condition around a lone inner block has no effect at all |
| `Script.ConditionMeaning` | conftool/commands/ConditionCommand.cpp:48-88 | a condition compares its sides with all defined references replaced at once |
| `Script.BareConditionHoldsIff` | conftool/commands/ConditionCommand.cpp:75-80 | the bare condition on a variable holds if and only if the variable is stored with an empty value |
| `Script.PlanStaysInDirectory` | conftool/config/CellframeConfigFile.cpp:146-167 | every operation of a script that never assigns `CONFIGS_PATH` acts in the directory that is set when the script starts |
| `CommandRuns.EditScriptIsMapFold` | conftool/commands/ConfigCommand.cpp:29-142 | a script of `config` commands for one file, with assignments between them, aborts exactly when it reaches a failing key; else it changes that one file, which then holds the fold of the commands as they are written, group, parameter, action and substituted value |
| `CommandRuns.NetworkCommandRuns` | conftool/commands/NetworkCommand.cpp:65-196 | what a run of one `network` command as it is written makes of the two files of that network and its template, path by path, or that it aborts |
| `CommandRuns.FromTemplateRuns` | conftool/commands/FromTemplateCommand.cpp:28-60 | what a run of `fromtemplate` as it is written makes of the node's own file, with the variables of that moment |
| `CommandRuns.VariableReachesFile` | conftool/commands/StorageCommand.cpp:19-33 | what `var` assigns is what a later `config ensure` that refers to it writes into the file |
| `Interpreter.Tool.ExecuteVar` | conftool/commands/StorageCommand.cpp:19-33 | the variable is stored with its substituted value |
| `Interpreter.Tool.ApplyAction` | conftool/commands/ConfigCommand.cpp:90-142 | the three actions on the file object have the specified effect on the text, and nothing is saved unless altered |
| `Interpreter.Tool.ExecuteConfig` | conftool/commands/ConfigCommand.cpp:65-142 | the enabled file is edited if there is one, else the disabled one; an exception changes no file |
| `Interpreter.Tool.ExecuteNetwork` | conftool/commands/NetworkCommand.cpp:65-196 | the sequence of existence tests, copies and renames has the specified effect |
| `Interpreter.Tool.ExecuteFromTemplate` | conftool/commands/FromTemplateCommand.cpp:28-60 | copy, populate and save have the specified effect |
| `Interpreter.Tool.RunCommands` | conftool/main.cpp:250-275 | the loop with the condition stack realises `Run`, files and variables included |
| `UserSettings.UserSettingsSurvive` | conftool/main.cpp:5-8 | wherever its run ends, a setup script never takes away a file or a setting, never changes a setting that is non-empty, no placeholder and not forced by a `config ensure`, and leaves every network that has a configuration enabled or disabled as it was; a script of default actions forces nothing |
| `UserSettings.UnforcedSettingSurvives` | conftool/main.cpp:5-8 | a setting survives every script, of any commands, in which no operation on its own file forces its key, moves the file or rebuilds it |
| `UserSettings.SecondRunChangesNothing` | conftool/commands/ConfigCommand.cpp:93-142 | after an error-free run of a setup script, `config ensure` included, a second run from the same variables finishes alike and leaves every file byte-identical |
| `UserSettings.SetupOpsAreIdempotent` | conftool/commands/NetworkCommand.cpp:70-133 | the same for any sequence of setup operations, with unresolved placeholders and with several commands for one key |
| `UserSettings.SetupScriptsPlanSetupOps` | conftool/commands/ConfigCommand.cpp:99-142 | the commands of a setup script only ever perform setup operations |
| `Networks.ConcernedOp` | conftool/commands/NetworkCommand.cpp:65-183 | when default, ensure and check throw, and what they do to their network otherwise: place, content, and the template as content where there was none |
| `Networks.UnconcernedOp` | conftool/commands/NetworkCommand.cpp:65-183 | no other command moves a network, and only `config` can change its content |
| `Networks.EnsureIsExclusiveIff` | conftool/commands/NetworkCommand.cpp:136-183 | with a file or a template, `ensure` succeeds and leaves exactly the requested file unless it is `ensure on` for a network with both files |
| `Networks.FromTemplateIsExclusiveIff` | conftool/commands/FromTemplateCommand.cpp:31-46 | `fromtemplate` on a network leaves both files exactly when there was a disabled one |
| `Networks.RunsKeepExclusive` | conftool/commands/NetworkCommand.cpp:70-183 | if no network has both files, none ever does, at any step of any run |
| `Networks.RunsKeepContent` | conftool/commands/NetworkCommand.cpp:70-183 | a network that has a configuration never loses it, and without `config` commands its content never changes |
| `Networks.LastEnsureDecides` | conftool/commands/NetworkCommand.cpp:136-183 | the place of a network is fixed by the last executed `ensure`; without one a place once taken is kept |
| `Networks.ProvidedNetworksAreMade` | conftool/commands/NetworkCommand.cpp:65-196 | where the templates are there, no sequence of `network` commands throws, and every network that one of them names ends with a configuration |
| `Networks.NoEnsureKeepsPlace` | conftool/commands/NetworkCommand.cpp:70-133 | without `ensure` a network stays enabled or disabled as it was, wherever the run stops |
| `Networks.ScriptsKeepNetworks` | conftool/main.cpp:250-275 | exclusiveness, preservation and the last `ensure` for whole scripts |
| `Networks.EditsWorkOnContent` | conftool/commands/ConfigCommand.cpp:70-91 | a sequence of `config` commands edits the text of one file as the plain sequence of actions does, and no other file |
| `Networks.TogglingCommutesWithEditing` | conftool/commands/NetworkCommand.cpp:136-183 | with one configuration file, `ensure` and any sequence of edits commute: same exceptions, same files |
| `CommandParsing.ParseSetupFile` | conftool/main.cpp:222-239 | the reading loop yields the parsed commands, or nothing at the first bad line |
| `CommandParsing.BlankLinesAreSkipped` | conftool/main.cpp:228-236 | blank lines and comment lines, wherever they stand, are skipped and reading goes on behind them |
| `CommandParsing.TrailingCommentIsIgnored` | conftool/main.cpp:232-234 | a comment behind a command changes nothing |
| `CommandParsing.IndentationChangesNothing` | conftool/main.cpp:232-234 | neither does indentation |
| `CommandParsing.GapsChangeNothing` | conftool/commands/AbstractCommand.cpp:7-53 | nor how much white space, and which, is between the words |
| `CommandParsing.RejectedIff` | conftool/main.cpp:222-239 | a file is rejected if and only if some line of it that is not blank is no command |
| `CommandParsing.ParseConcat` | conftool/main.cpp:222-239 | the parts of a file contribute their commands one after the other, and a part that does not parse spoils the whole |
| `CommandParsing.ParsesIff` | conftool/commands/NetworkCommand.cpp:29-62 | tokens are taken as a command if and only if they spell it and the configuration it names is known; further tokens are ignored |
| `CommandParsing.AssignmentParses` | conftool/commands/StorageCommand.cpp:8-17 | an assignment is taken exactly when there are two non-empty sides, however many `=` there are |
| `CommandParsing.ConditionParses` | conftool/commands/ConditionCommand.cpp:16-42 | a condition is taken exactly when there are two non-empty operands, or one and no comparator; one `!=` makes it an inequality |
| `CommandParsing.SetupFileRoundTrip` | conftool/commands/AbstractCommand.cpp:7-53 | writing a script as a setup file and parsing it gives the same commands |
| `CommandParsing.RepresentReadsBack` | conftool/commands/AbstractCommand.cpp:7-53 | tokens joined by spaces come back from the tokenizer |
| `CommandParsing.ConditionReadsBack` | conftool/commands/ConditionCommand.cpp:16-42 | a comparison is parsed into its operator and its two sides |
| `CommandParsing.TokensReadBack` | conftool/commands/ConfigCommand.cpp:29-57 | the constructors rebuild every writable command from its tokens |
| `SignatureAssembly.Assemble` | inline-patches.py:362-382 | the buffer holds the header, the primary's signatures in front, the others in order, and not a byte more, for any signatures |
| `SignatureAssembly.PlaceSign` | inline-patches.py:365-381 | one turn of the loop puts the primary's signature right behind the header and any other at the end |
| `SignatureAssembly.MemMove` | inline-patches.py:375-377 | overlapping regions are moved as if through a copy |
| `SignatureAssembly.AssembleSorted` | inline-patches.py:390-397 | the pure sorted buffer holds the header and the signatures in order |
| `SignatureAssembly.NodesAgree` | inline-patches.py:362-397 | nodes with the same signatures in any order of arrival assemble the same bytes: for the same primary in the original, for any in the sorted version |
| `SignatureAssembly.OnePrimary` | inline-patches.py:371-380 | with one signature per validator, the primary's comes first and the others keep their order |
| `SignatureAssembly.VersionsAgreeIff` | inline-patches.py:362-397 | with one signature per validator, the two versions use the same order if and only if the primary has not signed or sorts first |
| `SignatureAssembly.AttemptsDisagree` | inline-patches.py:383-389 | two primaries whose signatures do not start alike give different bytes in the original version |
| `MergeConflicts.ResolveLines` | inline-patches.py:28-74 | the loop with its two flags is the state machine |
| `MergeConflicts.ResolveConflict` | inline-patches.py:49-66 | the two inner loops resolve one conflict |
| `MergeConflicts.ResolverIsBlockwise` | inline-patches.py:28-77 | on every well-formed conflict file the state machine is the block-by-block resolution and keeps all plain lines and all of theirs in order |
| `MergeConflicts.OursInConflict` | inline-patches.py:47-66 | without a line of theirs that holds the patch word nothing of ours remains; with one, our lines precede theirs in order, the superseded ones gone and every other as often as it was there |
| `MergeConflicts.ResolveIsIdempotent` | inline-patches.py:35-74 | on every text, malformed or not, no start marker comes out and resolving twice is resolving once |
| `MergeConflicts.StrayMarkersStay` | inline-patches.py:35-74 | a separator or an end marker outside a conflict is an ordinary line |
| `MergeConflicts.UnfinishedConflictIsDropped` | inline-patches.py:35-74 | a conflict that never ends takes every line behind its start with it |
| `MergeConflicts.SecondStartBeginsAnew` | inline-patches.py:35-41 | a second start marker discards what was collected since the first |
| `MergeConflicts.StartAmongTheirs` | inline-patches.py:35-74 | a start marker among their lines does not end their side: the next end marker resolves against it |
| `MergeConflicts.ResolvingAFileTwice` | inline-patches.py:17-28 | a file that is globbed twice is the same after the second time |
| `MergeConflicts.SkippingIsAShortcut` | inline-patches.py:25-28 | files that do not hold the marker would come out as they are |
| `PostInstall.Installer.Restore` | os/macos/PKGINSTALL/postinstall:30-80 | in any order that lists a name before its extensions, every network of the user has one file again, the disabled one if there was one, with the text that was backed up; everything else is as the package left it, and exactly the disabled networks are remembered |
| `PostInstall.Installer.Enforce` | os/macos/PKGINSTALL/postinstall:106-120 | the loop enforces each word that the unquoted variable expands to |
| `PostInstall.Installer.RemoveTwins` | os/macos/PKGINSTALL/postinstall:122-133 | exactly the enabled files with a visible disabled twin go |
| `PostInstall.Installer.RemoveWeird` | os/macos/PKGINSTALL/postinstall:135-141 | exactly the files matching the odd pattern go |
| `PostInstall.Installer.PostInstall` | os/macos/PKGINSTALL/postinstall:10-142 | for any package, setup step and expansion of patterns, the setup step is run where no visible network has both files and its result is cleaned up; no visible network ends with both files, no odd name is left, and no network disabled by the user ends enabled, if its name is no pattern and holds no separator; if the setup step keeps places, the user's networks stay enabled or disabled and those of the package come as it brings them, unless the loop comes across them, and the text of each changes only in the way in which the setup step changes texts; other files are the package's, else the user's |
| `PostInstall.CleanedUpNetworks` | os/macos/PKGINSTALL/postinstall:102-142 | after the last phases a network is enabled, or disabled, if and only if a condition on the directory before them holds, with the text it then had |
| `PostInstall.WeirdNames` | os/macos/PKGINSTALL/postinstall:135-141 | no configuration of a network with a dot-free name matches the odd pattern, every longer name of a disabled one does |
| `PostInstall.DisabledStaysIff` | os/macos/PKGINSTALL/postinstall:108-119 | a remembered network whose name is no pattern stays disabled under every behaviour of the setup step and every expansion of patterns if and only if its name holds no space, tab or newline |
| `PostInstall.UnquotedListed` | os/macos/PKGINSTALL/postinstall:50-108 | the loop over the unquoted variable goes through what each name put into it splits and expands to, and nothing else |
| `SetupStep.SetupKeepsPlaces` | os/macos/PKGINSTALL/postinstall:99-100 | a run of the configuration tool without `network ensure` is a setup step that keeps places |
| `SetupStep.SetupKeepsTexts` | os/macos/PKGINSTALL/postinstall:99-100 | a setup script keeps every network where it is and every setting that it does not force |
| `SetupStep.SetupMakesNetwork` | os/macos/PKGINSTALL/postinstall:99-100 | the setup step runs the tool: `network default` in it makes a missing network from its template, in the requested place, and nothing else |
| `SetupStep.InstallWithTool` | os/macos/PKGINSTALL/postinstall:10-142 | the installer with a setup script as its setup step: each network of the user, and each new one of the package, ends with the one file it had, enabled or disabled, and that file keeps every setting that the script does not force |
| `MoveSafely.FreeName` | os/macos/PKGINSTALL/preinstall:22-38 | the name is free: the entry's own, or the first free numbered one; the search ends |
| `MoveSafely.StemAndExtension` | os/macos/PKGINSTALL/preinstall:28-29 | a name is its stem, a dot and a dot-free extension; without a dot both parts are the whole name |
| `MoveSafely.NumberedParts` | os/macos/PKGINSTALL/preinstall:33 | a numbered name has the extension of the name and its stem with the number at the end; a name without a dot is repeated as extension |
| `MoveSafely.NumberedInjective` | os/macos/PKGINSTALL/preinstall:33 | distinct counters give distinct names |
| `MoveSafely.Mover.MoveAll` | os/macos/PKGINSTALL/preinstall:17-42 | nothing in the target is overwritten or lost, each listed entry arrives under exactly one fresh name, its own unless that is taken, nothing else changes |
| `MoveSafely.MovedConserves` | os/macos/PKGINSTALL/preinstall:17-42 | the two directories together hold as many entries as before |

## Left out

- The C++ regular-expression engine: splitting at `=`, at white space and at comparators and the replacement of `${NAME}`
  are defined directly, so variable names are taken as plain identifiers and a `$` in a stored value is not expanded.
- Reading a variable that was never set inserts an empty one in the C++ map; the model reads it as empty without inserting,
  which matters only for a `CONFIGS_PATH` that was never set; paths under an empty one start with a slash in the model.
- Paths are strings: names for the same file that differ as strings (a trailing slash, a link) count as different files.
- Failing writes, missing directories and permissions of the file system; a write always succeeds.
- `service` and `net_list` commands, the `--exec` argument loop, verbose output, platform paths, host name and registry.
- CommandParsing.ParseSetupFile: a setup file with a `service` or `net_list` line, which the program accepts, yields nothing in the model.
- MergeConflicts.ResolveLines: takes the lines of one file; finding the files and the removal of a repeated header field are not modelled.
- SignatureAssembly.NodesAgree: the sorting routine and its comparison are not in the repository, so any sorted arrangement by a strict total order is admitted; running out of memory is not modelled.
- PostInstall.Installer.PostInstall: how a pattern is matched against the working directory is not modelled, any expansion is admitted; permissions, daemon registration and nested directories are not modelled.
- MoveSafely.Mover.MoveAll: takes the visible entries as the shell lists them; an empty directory, for which the shell passes the pattern itself, moves nothing.
- Templates.TemplatingCommutesWithLookup: says nothing of references in group and parameter names, nor of lines in which substitution makes a separator, trailing white space or a missing token, since these change how a line is split.
- ConfigStore.SetTextActsAsMapUpdate: asks for keys and values without a newline, which no token of a script can hold.
- The other source snippets of `inline-patches.py`, the node's C sources, the Android, Windows and packaging files, and the test descriptions.
