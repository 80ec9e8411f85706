# goblinscode core, modelled in Dafny

This project models six pieces of the goblinscode coding agent (a fork of
opencode) and proves properties of them:

- **Terminal replay** (`terminal.dfy`, modules `Terminal` and
  `TerminalProperties`). `renderTerminal` replays captured terminal output into
  the text a screen would show. The model handles carriage return, newline,
  tab stops, backspace, and the cursor, erase and SGR control sequences; it
  skips OSC strings and other escapes, then drops trailing empty lines and
  right-trims each line. `RenderTerminal` is the source's loop over a line
  buffer. It is proved to compute the step-by-step function `Render`, and the
  lemmas state what each character and sequence does to the screen.
- **Line-space normalisation** (`text.dfy`, module `Text`). This is
  `normalizeLineSpaces`, the global rewrite of "\n " to "\n". It is proved equal
  to a one-character look-behind filter, and its length and concrete behaviour
  are stated.
- **The bash tool** (`bash.dfy`, module `BashTool`):
  - how the timeout is validated;
  - which directories, patterns and "always" patterns the parsed command
    produces;
  - the order of the two permission requests;
  - the bounded output buffer fed by process events;
  - the three PTY spawn attempts with their back-off;
  - the `<bash_metadata>` footer.

  The whole `execute` is a method that composes these parts.
- **Release notes** (`changelog.dfy`, module `Changelog`):
  - the git refs;
  - the filter over `git log` lines;
  - the grouping of community contributors by login, in first-seen order;
  - the note list: generated notes, the fallback to raw commit subjects, and
    the thank-you block.
- **Prompt bookkeeping** (`prompt.dfy`, module `Prompt`).
  - The prompt store is a class `PromptStore`. Its fields are the input text,
    the parts, the map from extmark ids to part indices, and the shell mode.
  - Its methods are the two paste handlers, the extmark sync, the content-change
    handler, `submit` and the return from the external editor.
  - The pure parts are functions with lemmas: expansion of pasted text in
    descending start order, dispatch to shell / slash command / message, paste
    normalisation, and the paste summary.
- **DeepWiki answers** (`deepwiki.dfy`, module `DeepWiki`). This is the
  simplified server-sent-events reading `parseSSEResponse`, which takes the
  first `data: ` line without "ping" that decodes, and the choice of the tool's
  output.

Shared support:

- `wrappers.dfy` has `Option` and `Result`.
- `js_text.dfy` (module `JsText`) models the JavaScript string operations the
  sources rely on, with the semantics JavaScript gives them: `trim`,
  `trimEnd`, `slice` with clamping, `startsWith`, `indexOf`, `includes`,
  `split`, `join`, and number-to-string.

Where the code and its comments disagree, the model follows the code:

- The doc comment of `normalizeLineSpaces`
  (packages/opencode/src/util/text.ts:4) says indentation of two or more
  spaces is preserved. The code removes one space after every newline, so two
  spaces become one (`Text.OnlyOneSpaceRemoved`). The test file expects the
  same (packages/opencode/test/util/text.test.ts:14).
- Rendering is not idempotent: "a\n " renders to "a\n", which renders to "a"
  (`TerminalProperties.NotIdempotent`). The first pass tests for empty lines
  before trimming (packages/opencode/src/util/terminal.ts:179-183), so the
  blank line " " is kept, trimmed to "", and the newline survives.

## Model

| member | source | states |
|---|---|---|
| Terminal.Spaces | packages/opencode/src/util/terminal.ts:32 | `" ".repeat(n)` has length n and holds only spaces |
| Terminal.EnsureRow | packages/opencode/src/util/terminal.ts:27-29 | the lines are extended with empty lines until row r exists; existing lines are kept |
| Terminal.BlankAbove | packages/opencode/src/util/terminal.ts:109 | every line above the cursor row becomes empty; the others are kept |
| Terminal.ParamsEnd | packages/opencode/src/util/terminal.ts:70-73 | the parameter scan stops at the first character that is not a digit or `;` |
| Terminal.OscEnd | packages/opencode/src/util/terminal.ts:49-61 | the OSC skip ends within the input |
| Terminal.Step | packages/opencode/src/util/terminal.ts:44-177 | every pass of the loop advances the position, so the replay terminates |
| Terminal.TrimEachEnd | packages/opencode/src/util/terminal.ts:184 | each line is right-trimmed and the number of lines is kept |
| Terminal.EnsureRowInPlace | packages/opencode/src/util/terminal.ts:27-29 | the pushing loop computes `EnsureRow` |
| Terminal.WriteCharAt | packages/opencode/src/util/terminal.ts:36-41 | writing a character in place gives the screen of `WriteChar` |
| Terminal.ApplyControl | packages/opencode/src/util/terminal.ts:152-175 | the in-place handling of `\r`, `\n`, tab, backspace and printable characters gives the screen of `Control` |
| Terminal.ApplyCsi | packages/opencode/src/util/terminal.ts:78-139 | the in-place handling of a CSI command gives the screen of `Csi` |
| Terminal.SkipOsc | packages/opencode/src/util/terminal.ts:48-62 | the skipping loop stops where `OscEnd` says |
| Terminal.ScanParams | packages/opencode/src/util/terminal.ts:66-73 | the loop collects exactly the digits and semicolons up to `ParamsEnd` |
| Terminal.RenderTerminal | packages/opencode/src/util/terminal.ts:22-185 | the imperative renderer returns `Render(input)` |
| TerminalProperties.WriteCharCells | packages/opencode/src/util/terminal.ts:36-41 | writing puts the character at the cursor, pads a short line with spaces, keeps every other cell and line, and advances the column by one |
| TerminalProperties.TabToCells | packages/opencode/src/util/terminal.ts:161-166 | tabbing to a stop writes spaces from the cursor to the stop and keeps the rest |
| TerminalProperties.TabAdvances | packages/opencode/src/util/terminal.ts:161-166 | a tab moves to the next multiple of eight, by one to eight columns, blanking the cells it passes |
| TerminalProperties.PrintableOverwrites | packages/opencode/src/util/terminal.ts:170-173 | a character with code 32 or more overwrites the cell under the cursor and advances by one |
| TerminalProperties.CursorControls | packages/opencode/src/util/terminal.ts:153-169 | `\r` moves to column 0; backspace moves left, stopping at 0; `\n` moves to the next row, which is added when missing, at column 0 |
| TerminalProperties.OtherControlsIgnored | packages/opencode/src/util/terminal.ts:170-174 | other control characters below 32 change nothing |
| TerminalProperties.NoNewlineInSlices | packages/opencode/src/util/terminal.ts:32-39 | slicing, padding and trimming never introduce a newline |
| TerminalProperties.EnsureRowGood | packages/opencode/src/util/terminal.ts:27-29 | adding rows keeps every line free of newlines |
| TerminalProperties.WriteCharGood | packages/opencode/src/util/terminal.ts:36-41 | writing a non-newline keeps the screen valid and its lines free of newlines |
| TerminalProperties.TabToGood | packages/opencode/src/util/terminal.ts:161-166 | tabbing keeps the screen valid and its lines free of newlines |
| TerminalProperties.EraseGood | packages/opencode/src/util/terminal.ts:120-133 | erasing in a line introduces no newline |
| TerminalProperties.EraseDisplayGood | packages/opencode/src/util/terminal.ts:100-119 | erasing in the display keeps the screen valid |
| TerminalProperties.CsiGood | packages/opencode/src/util/terminal.ts:80-139 | every CSI command keeps the screen valid |
| TerminalProperties.ControlGood | packages/opencode/src/util/terminal.ts:152-175 | every plain character keeps the screen valid |
| TerminalProperties.StepGood | packages/opencode/src/util/terminal.ts:44-177 | one loop pass keeps the screen valid |
| TerminalProperties.RunGood | packages/opencode/src/util/terminal.ts:44-177 | the whole replay keeps the screen valid: a line always exists, the cursor row exists, and no line holds a newline |
| TerminalProperties.DropTrailingEmptyShape | packages/opencode/src/util/terminal.ts:180-182 | popping keeps a prefix of at least one line, removes only empty lines, and leaves a non-empty last line unless one line remains |
| TerminalProperties.RenderLines | packages/opencode/src/util/terminal.ts:180-184 | the output, split at newlines, is exactly the right-trimmed kept lines of the final screen |
| TerminalProperties.FinishShape | packages/opencode/src/util/terminal.ts:180-184 | trailing empty lines are dropped, at least one line stays, and splitting the joined output gives back the kept lines right-trimmed |
| TerminalProperties.NumeralPiece | packages/opencode/src/util/terminal.ts:78 | a written number or an empty piece parses back to itself or to the default |
| TerminalProperties.ParamsOfOne | packages/opencode/src/util/terminal.ts:78 | the empty parameter string gives no numbers; one number gives itself |
| TerminalProperties.ParamsOfTwo | packages/opencode/src/util/terminal.ts:78 | `a;b` gives both values, an empty side giving the default |
| TerminalProperties.CursorMoves | packages/opencode/src/util/terminal.ts:81-93 | A, B, C and D move by the count (default 1); up and left clamp at 0; down adds rows |
| TerminalProperties.ExplicitZeroStays | packages/opencode/src/util/terminal.ts:81-93 | an explicit count of 0 moves nothing for A, C and D |
| TerminalProperties.CursorPosition | packages/opencode/src/util/terminal.ts:94-99 | H and f go to the one-based row and column (default 1, clamped at 0) and add rows; no parameters means the home position |
| TerminalProperties.EraseInLine | packages/opencode/src/util/terminal.ts:120-133 | K with 0 cuts the line at the cursor, with 1 blanks up to the cursor, with 2 empties the line; other lines and the cursor are kept |
| TerminalProperties.EraseInDisplay | packages/opencode/src/util/terminal.ts:100-119 | J with 0 cuts the line and drops the rows below, with 1 blanks up to the cursor and empties the rows above, with 2 or 3 resets the screen |
| TerminalProperties.EraseScrollbackAsFull | packages/opencode/src/util/terminal.ts:111-117 | J with 3 is the same as J with 2 |
| TerminalProperties.OtherSequencesIgnored | packages/opencode/src/util/terminal.ts:134-138 | SGR and unknown commands leave the screen as it was |
| TerminalProperties.StepCsi | packages/opencode/src/util/terminal.ts:66-78 | a CSI sequence consumes ESC, `[`, the parameters and the command character, then applies that command |
| TerminalProperties.StepOsc | packages/opencode/src/util/terminal.ts:48-62 | an OSC string ends after BEL or after ESC `\`, or at the end of the input, and changes nothing |
| TerminalProperties.OscSkips | packages/opencode/src/util/terminal.ts:51-61 | characters that end nothing are passed over |
| TerminalProperties.StepOtherEscape | packages/opencode/src/util/terminal.ts:144-149 | any other escape skips itself and one more character |
| TerminalProperties.NotIdempotent | packages/opencode/src/util/terminal.ts:180-184 | rendering the rendered text can change it again |
| TerminalProperties.CarriageReturnOverwrites | packages/opencode/src/util/terminal.ts:152-154 | "ab\rc" renders as "cb" |
| TerminalProperties.TabPadsToColumnEight | packages/opencode/src/util/terminal.ts:161-166 | a tab after one character pads to column eight, and the trailing cells are trimmed |
| Text.LookBehindIrrelevant | packages/opencode/src/util/text.ts:6 | the newline look-behind does not matter before a character that is not a space |
| Text.NormalizeMatchesReference | packages/opencode/src/util/text.ts:5-7 | the global "\n " to "\n" rewrite drops exactly the spaces that follow a newline in the input |
| Text.NormalizeLength | packages/opencode/src/util/text.ts:6 | the result is shorter by the number of "\n " occurrences |
| Text.OccurrencesCount | packages/opencode/src/util/text.ts:6 | there are no occurrences exactly when "\n " occurs nowhere |
| Text.NormalizeUnchanged | packages/opencode/test/util/text.test.ts:22-32 | text without "\n " is returned unchanged |
| Text.KeepsAllWithoutOccurrence | packages/opencode/src/util/text.ts:6 | without "\n " the look-behind filter keeps every character |
| Text.HeadUnchanged | packages/opencode/src/util/text.ts:6 | a prefix without newlines passes through as it is |
| Text.NewlineKept | packages/opencode/src/util/text.ts:6 | a newline not followed by a space is kept |
| Text.NewlineSpaceDropped | packages/opencode/src/util/text.ts:6 | a newline followed by a space loses that space |
| Text.SingleSpaceRemoved | packages/opencode/test/util/text.test.ts:5-8 | a single leading space after a newline is removed |
| Text.OnlyOneSpaceRemoved | packages/opencode/test/util/text.test.ts:13-16 | of two leading spaces only one is removed |
| Text.TabKept | packages/opencode/test/util/text.test.ts:17-20 | a tab after a newline is kept |
| Text.MixedCase | packages/opencode/test/util/text.test.ts:33-35 | the mixed example becomes "a\nb\n c\n\td" |
| BashTool.Configured | packages/opencode/src/tool/bash.ts:26-27 | an unset flag or a flag of 0 gives the default (30000 characters, 120000 ms); any other value is used |
| BashTool.ResolveTimeout | packages/opencode/src/tool/bash.ts:78-81 | a negative timeout is an error with the source's message; a missing one takes the default; any other is used as given |
| BashTool.LiteralTexts | packages/opencode/src/tool/bash.ts:93-107 | the tokens are no more than the children |
| BashTool.LiteralTextsAppend | packages/opencode/src/tool/bash.ts:94-107 | token extraction distributes over the children |
| BashTool.LiteralTextsMembers | packages/opencode/src/tool/bash.ts:94-107 | a token is exactly the text of a present child whose type is command_name, word, string, raw_string or concatenation |
| BashTool.CommandTokens | packages/opencode/src/tool/bash.ts:93-107 | the loop over the children collects `LiteralTexts` |
| BashTool.Backslashed | packages/opencode/src/tool/bash.ts:124 | every `/` becomes `\` and nothing else changes |
| BashTool.WindowsPath | packages/opencode/src/tool/bash.ts:122-125 | a Git Bash path `/x/...` becomes `X:\...` with an upper-case drive letter and backslashes |
| BashTool.OutsidePathOf | packages/opencode/src/tool/bash.ts:111-127 | an argument yields at most one directory: the normalised non-empty realpath outside the project, unless the argument is an option |
| BashTool.OutsidePathsMembers | packages/opencode/src/tool/bash.ts:111-127 | the directories of a command are exactly those of its arguments |
| BashTool.AddOnce | packages/opencode/src/tool/bash.ts:86-88 | set insertion keeps the elements distinct and adds exactly the new one |
| BashTool.AddEachMembers | packages/opencode/src/tool/bash.ts:126 | adding several keeps the elements distinct and holds exactly the old and new ones |
| BashTool.AddEachAppend | packages/opencode/src/tool/bash.ts:126 | adding two lists is adding one after the other |
| BashTool.AddOutsidePaths | packages/opencode/src/tool/bash.ts:110-129 | the argument loop adds the command's outside directories to the set |
| BashTool.AnalyzeCommands | packages/opencode/src/tool/bash.ts:86-136 | the loop over the command nodes computes `Analyze` |
| BashTool.AnalyzeNodesDistinct | packages/opencode/src/tool/bash.ts:86-89 | the three collections stay sets |
| BashTool.DirectoriesMembers | packages/opencode/src/tool/bash.ts:110-129 | a directory is collected exactly when an earlier one had it or some command's argument resolves to it |
| BashTool.PatternsMembers | packages/opencode/src/tool/bash.ts:131-135 | a pattern is collected exactly when some non-`cd` command joins to it |
| BashTool.AlwaysMembers | packages/opencode/src/tool/bash.ts:131-135 | an "always" pattern is collected exactly when it is some non-`cd` command's arity prefix followed by `*` |
| BashTool.DirectoryFromArgs | packages/opencode/src/tool/bash.ts:110-129 | a node contributes a directory exactly when it runs cd, rm, cp, mv, mkdir, touch, chmod or chown and one of its arguments resolves outside the project |
| BashTool.AnalyzeMembers | packages/opencode/src/tool/bash.ts:86-136 | all three are sets; the directories are the working directory when outside the project plus the argument directories; patterns and "always" patterns come from the non-`cd` commands |
| BashTool.CdAddsNoPattern | packages/opencode/src/tool/bash.ts:131-132 | `cd` adds no pattern |
| BashTool.DirectoryAlways | packages/opencode/src/tool/bash.ts:142 | each directory's "always" pattern is its parent followed by `*` |
| BashTool.PermissionAsks | packages/opencode/src/tool/bash.ts:138-154 | external_directory is asked first when there are directories, bash last when there are patterns, and nothing else |
| BashTool.FirstRefused | packages/opencode/src/tool/bash.ts:138-154 | the first refused request is found and every earlier one was granted; none means all were granted |
| BashTool.DirectoryRefusalStops | packages/opencode/src/tool/bash.ts:138-145 | refusing the directory request stops before the bash request |
| BashTool.Appended | packages/opencode/src/tool/bash.ts:166-175 | a chunk is appended only while the buffer is within the limit |
| BashTool.WatchProcess | packages/opencode/src/tool/bash.ts:215-308 | the event loop computes `Replay` of the callbacks |
| BashTool.ReplayFrozen | packages/opencode/src/tool/bash.ts:167 | once past the limit the buffer never changes |
| BashTool.ReplayPrefix | packages/opencode/src/tool/bash.ts:166-175 | the buffer grows by prefixes of the data stream and, while within the limit, is the whole stream |
| BashTool.ReplayEndedOutput | packages/opencode/src/tool/bash.ts:166-175 | when the process ends at an event and everything written before it fits within the limit, the replay ends with all of that output in the buffer |
| BashTool.ReplayBound | packages/opencode/src/tool/bash.ts:166-175 | the buffer never exceeds the limit by more than one chunk |
| BashTool.ReplayPublished | packages/opencode/src/tool/bash.ts:169-173 | the published metadata only grows, and its last entry is the current buffer |
| BashTool.ExitCodeDefault | packages/opencode/src/tool/bash.ts:224-305 | without a PTY, a child exit without a code ends the wait with exit code 0; with or without a PTY and for any output limit, the timer and the abort only set their flags and the wait goes on |
| BashTool.Backoffs | packages/opencode/src/tool/bash.ts:208-211 | the k-th pause is 50·(k+1) ms |
| BashTool.SpawnWithRetries | packages/opencode/src/tool/bash.ts:180-213 | one to three attempts; a PTY is obtained exactly when some attempt succeeds, at the last attempt made, after failures only; pauses follow all failures but the last |
| BashTool.Notes | packages/opencode/src/tool/bash.ts:312-323 | one note per condition among truncation, timeout and abort |
| BashTool.Finish | packages/opencode/src/tool/bash.ts:310-328 | the pushing code computes `FinalOutput` |
| BashTool.FooterIff | packages/opencode/src/tool/bash.ts:310-328 | the output is returned untouched exactly when nothing is noted; otherwise the cut output is followed by a blank line and the footer |
| BashTool.FooterLines | packages/opencode/src/tool/bash.ts:310-328 | the footer is `<bash_metadata>`, the notes in order, and `</bash_metadata>`, joined by newlines; the output is cut to the limit |
| BashTool.Execute | packages/opencode/src/tool/bash.ts:76-337 | a bad timeout or a failed parse throws; otherwise the first refused request is the outcome, and with every request granted the outcome follows the process: still running is `Waiting`, a child error is thrown with its message, and an exit completes the call; a completed call has been granted every request, is titled by the command, and returns the replayed exit code and the footer-formatted output |
| BashTool.RunCommand | packages/opencode/src/tool/bash.ts:180-337 | spawning, watching and formatting never refuses; a process that has not ended gives `Waiting`, a child error is thrown with its message, and an exit gives a run titled by the command with the replayed exit code and the footer-formatted output |
| Changelog.VersionRef | script/changelog.ts:30 | the ref always starts with `v`, and `v` is added only when missing |
| Changelog.ToRef | script/changelog.ts:31 | HEAD is kept; any other ref is treated as a version |
| Changelog.RefsIdempotent | script/changelog.ts:30-31 | the ref conversion is idempotent |
| Changelog.WordRun | script/changelog.ts:34 | `\w+` matches the longest run of word characters |
| Changelog.HashPrefix | script/changelog.ts:34 | a match of `^\w+ ` ends in a space after at least one word character |
| Changelog.HashPrefixOf | script/changelog.ts:34 | for "hash subject", the noise filter looks at the subject's prefix only, case-insensitively |
| Changelog.WordRunOf | script/changelog.ts:34 | a word followed by a non-word character matches exactly the word |
| Changelog.KeptLines | script/changelog.ts:34 | the kept lines are lines of the log, non-empty and not noise |
| Changelog.KeptLinesComplete | script/changelog.ts:34 | every non-empty non-noise line is kept |
| Changelog.KeptLinesAppend | script/changelog.ts:34 | the filter distributes over concatenation, so kept lines stay in log order |
| Changelog.KeptLinesOne | script/changelog.ts:34 | a single line is kept exactly when it is non-empty and not noise |
| Changelog.CommitLinesMembers | script/changelog.ts:29-35 | a commit line is kept exactly when it is a non-empty log line without an ignored prefix |
| Changelog.LoginsSeenMembers | script/changelog.ts:120-131 | the logins are distinct and are exactly those of the counted commits |
| Changelog.TitlesOfAppend | script/changelog.ts:122-130 | a login's titles over two runs of commits are concatenated |
| Changelog.LoginsSeenAppend | script/changelog.ts:122-130 | first-seen order over two runs is folded in sequence |
| Changelog.GroupContributors | script/changelog.ts:115-134 | the map's keys are exactly the counted logins in first-seen order, and each maps to the titles of its commits in order |
| Changelog.GroupStep | script/changelog.ts:127-130 | one commit appends its title to its login only, and unseen logins have no titles |
| Changelog.TitlesOfNonEmpty | script/changelog.ts:127-130 | a login with titles has a counted commit |
| Changelog.ContributorsShape | script/changelog.ts:120-133 | contributors are distinct, are exactly the non-team logins of commits whose title is not skipped, and each has at least one title |
| Changelog.GeneratedNotes | script/changelog.ts:147-152 | only generated lines starting with "- " are kept |
| Changelog.GeneratedNotesComplete | script/changelog.ts:147-152 | every generated line starting with "- " is kept |
| Changelog.GeneratedNotesAppend | script/changelog.ts:148-152 | the filter distributes over concatenation, so kept lines stay in order |
| Changelog.GeneratedNotesOne | script/changelog.ts:149-151 | a single line is kept exactly when it starts with "- " |
| Changelog.FallbackNotes | script/changelog.ts:156-161 | each commit gives "- " and its subject, in order |
| Changelog.TitleLines | script/changelog.ts:171-173 | each title becomes an indented bullet |
| Changelog.BuildNotes | script/changelog.ts:136-178 | the note-building code computes `Notes` |
| Changelog.AddGenerated | script/changelog.ts:147-152 | the generated-text loop keeps exactly the lines starting with `- `, in order |
| Changelog.AddFallback | script/changelog.ts:158-161 | the fallback loop pushes one `- ` line per commit with its hash prefix stripped |
| Changelog.AddThankYou | script/changelog.ts:164-175 | the nested loops append the thank-you block |
| Changelog.AddBlocks | script/changelog.ts:169-174 | the per-contributor loop appends each login line followed by its titles, in first-seen order |
| Changelog.AddTitles | script/changelog.ts:171-173 | the inner loop appends one indented line per title, in order |
| Changelog.FallbackAppend | script/changelog.ts:158-161 | the fallback grows by one line per commit |
| Changelog.NoCommitsNoNotes | script/changelog.ts:140-142 | no commits gives no notes |
| Changelog.FallbackSubject | script/changelog.ts:159-160 | the hash and its space are removed from a commit line |
| Changelog.ThankYouShape | script/changelog.ts:166-175 | the block is present exactly when there are contributors; it starts with a blank line and the header; its length is 2 plus one line per contributor and per title |
| Changelog.BlocksLength | script/changelog.ts:169-174 | the login blocks have one line per login plus one per title |
| Changelog.HeaderPlural | script/changelog.ts:168 | the header says "contributor" for one and "contributors" for more |
| Prompt.Moved | packages/opencode/src/cli/cmd/tui/component/prompt/index.tsx:383-392 | moving a part's source range keeps its kind, text and virtual text |
| Prompt.InsertByStart | packages/opencode/src/cli/cmd/tui/component/prompt/index.tsx:518 | insertion keeps the multiset of extmarks |
| Prompt.InsertSorted | packages/opencode/src/cli/cmd/tui/component/prompt/index.tsx:518 | insertion keeps the order descending by start |
| Prompt.SortByStartDesc | packages/opencode/src/cli/cmd/tui/component/prompt/index.tsx:517-518 | the sort is descending by start and is a permutation |
| Prompt.InsertStartingAt | packages/opencode/src/cli/cmd/tui/component/prompt/index.tsx:518 | the inserted extmark comes first among those with its start, which keeps the sort stable |
| Prompt.SortStable | packages/opencode/src/cli/cmd/tui/component/prompt/index.tsx:518 | the sort is stable: extmarks with equal start keep their order |
| Prompt.ExpandAppend | packages/opencode/src/cli/cmd/tui/component/prompt/index.tsx:520-530 | the expansion leaves text after every extmark untouched |
| Prompt.ExpandIsSplice | packages/opencode/src/cli/cmd/tui/component/prompt/index.tsx:516-530 | for non-overlapping extmarks the sequential rewrite equals splicing each pasted text into its range |
| Prompt.ExpandWithoutReplacements | packages/opencode/src/cli/cmd/tui/component/prompt/index.tsx:520-530 | extmarks that map to no text part leave the input as it is |
| Prompt.ExpandInline | packages/opencode/src/cli/cmd/tui/component/prompt/index.tsx:514-530 | the loop over the sorted extmarks computes `ExpandAll` |
| Prompt.NonTextParts | packages/opencode/src/cli/cmd/tui/component/prompt/index.tsx:533 | a part is kept exactly when it is not a text part |
| Prompt.NonTextPartsAppend | packages/opencode/src/cli/cmd/tui/component/prompt/index.tsx:533 | the filter distributes over concatenation, so kept parts stay in their original order |
| Prompt.NonTextPartsOne | packages/opencode/src/cli/cmd/tui/component/prompt/index.tsx:533 | a single part is kept exactly when it is not a text part |
| Prompt.SlashCommandRoundTrip | packages/opencode/src/cli/cmd/tui/component/prompt/index.tsx:550-567 | a slash command names a known command without spaces, and `/`, the name, a space and the arguments give back the text |
| Prompt.MessageParts | packages/opencode/src/cli/cmd/tui/component/prompt/index.tsx:568-587 | a message sends the text first and then the non-text parts |
| Prompt.CrToLf | packages/opencode/src/cli/cmd/tui/component/prompt/index.tsx:851 | every `\r` becomes `\n`, with the length kept |
| Prompt.CrlfToLfCounts | packages/opencode/src/cli/cmd/tui/component/prompt/index.tsx:851 | replacing CRLF keeps the newlines and removes one `\r` per pair |
| Prompt.CrToLfCounts | packages/opencode/src/cli/cmd/tui/component/prompt/index.tsx:851 | each remaining `\r` becomes a newline |
| Prompt.CrlfToLfWithoutCr | packages/opencode/src/cli/cmd/tui/component/prompt/index.tsx:851 | text without `\r` is unchanged by the first rewrite |
| Prompt.CrToLfWithoutCr | packages/opencode/src/cli/cmd/tui/component/prompt/index.tsx:851 | text without `\r` is unchanged by the second rewrite |
| Prompt.NormalizePastedSpec | packages/opencode/src/cli/cmd/tui/component/prompt/index.tsx:851 | the normalised paste has no `\r`, and one line break for each CRLF, lone CR or LF |
| Prompt.PasteSummarizedIff | packages/opencode/src/cli/cmd/tui/component/prompt/index.tsx:847-891 | a paste is summarised exactly when allowed, non-empty, of three lines or more than 150 characters, and summaries are on; an empty paste triggers the paste command |
| Prompt.FileCountAppend | packages/opencode/src/cli/cmd/tui/component/prompt/index.tsx:650 | the file count grows by one per file part |
| Prompt.PromptStore.constructor | packages/opencode/src/cli/cmd/tui/component/prompt/index.tsx:116-131 | the store starts empty, in normal mode |
| Prompt.PromptStore.PasteText | packages/opencode/src/cli/cmd/tui/component/prompt/index.tsx:613-645 | a text part with its virtual-text range is appended, and the new extmark maps to it |
| Prompt.PromptStore.PasteImage | packages/opencode/src/cli/cmd/tui/component/prompt/index.tsx:647-688 | "[Image n] " is inserted with n one more than the file parts, and a data-URL file part is appended and mapped |
| Prompt.PromptStore.SyncExtmarks | packages/opencode/src/cli/cmd/tui/component/prompt/index.tsx:371-402 | the parts and the map become those of `Synced`: surviving extmarks in order, with their moved ranges |
| Prompt.PromptStore.ContentChanged | packages/opencode/src/cli/cmd/tui/component/prompt/index.tsx:771-776 | the input becomes the text, then the extmarks are synced |
| Prompt.PromptStore.Submit | packages/opencode/src/cli/cmd/tui/component/prompt/index.tsx:493-602 | a disabled prompt, visible autocomplete or empty input is ignored, an exit word exits, a missing model warns, all without change; otherwise the expanded text is dispatched and the store is reset |
| Prompt.PromptStore.EditorReturned | packages/opencode/src/cli/cmd/tui/component/prompt/index.tsx:249-311 | empty content changes nothing; otherwise the input becomes the content, the parts are repositioned, and the extmarks are restored |
| Prompt.Synced | packages/opencode/src/cli/cmd/tui/component/prompt/index.tsx:371-402 | every index in the new map points at a new part |
| Prompt.SyncedValid | packages/opencode/src/cli/cmd/tui/component/prompt/index.tsx:375-400 | distinct extmarks map to distinct parts after the sync |
| Prompt.SyncedParts | packages/opencode/src/cli/cmd/tui/component/prompt/index.tsx:378-397 | a live extmark whose id occurs once finds, through the new map, its old part moved to the extmark's range |
| Prompt.SyncedPartsInOrder | packages/opencode/src/cli/cmd/tui/component/prompt/index.tsx:378-397 | the rebuilt parts are exactly the live extmarks' parts, moved, one per live extmark, in extmark order (an independent front-to-back definition) |
| Prompt.LivePartsSnoc | packages/opencode/src/cli/cmd/tui/component/prompt/index.tsx:378-397 | the reference list grows by the moved part of each further live extmark |
| Prompt.SyncedCount | packages/opencode/src/cli/cmd/tui/component/prompt/index.tsx:393-394 | with distinct extmark ids there are as many new parts as keys in the new map, so each new part is reached by exactly one extmark |
| Prompt.SyncedOrder | packages/opencode/src/cli/cmd/tui/component/prompt/index.tsx:378-397 | with distinct extmark ids, an earlier live extmark maps to an earlier part |
| Prompt.SyncedKeys | packages/opencode/src/cli/cmd/tui/component/prompt/index.tsx:378-397 | an extmark is kept exactly when the old map sent it to an existing part |
| Prompt.Reposition | packages/opencode/src/cli/cmd/tui/component/prompt/index.tsx:259-303 | parts without virtual text are kept, parts whose virtual text vanished are dropped, and the rest move to the first occurrence |
| Prompt.RepositionAppend | packages/opencode/src/cli/cmd/tui/component/prompt/index.tsx:259-303 | repositioning distributes over concatenation, so the parts keep their order |
| Prompt.RepositionOne | packages/opencode/src/cli/cmd/tui/component/prompt/index.tsx:262-300 | a part without virtual text is unchanged; one whose text vanished is dropped; any other keeps kind, text and virtual text, its range set to the first occurrence |
| Prompt.RepositionAtFirstOccurrence | packages/opencode/src/cli/cmd/tui/component/prompt/index.tsx:270-274 | the new start is an occurrence with none before it |
| Prompt.RepositionKeepsAll | packages/opencode/src/cli/cmd/tui/component/prompt/index.tsx:268-303 | nothing is dropped when every virtual text survives |
| Prompt.Restored | packages/opencode/src/cli/cmd/tui/component/prompt/index.tsx:327-369 | each part with virtual text gets its own new extmark, and only those |
| DeepWiki.FirstDataSpec | packages/opencode/src/tool/deepwiki.ts:68-80 | the result is absent exactly when no line is accepted; otherwise it is the decoded payload of the first accepted line |
| DeepWiki.PingSkipped | packages/opencode/src/tool/deepwiki.ts:71 | a line containing "ping" is passed over |
| DeepWiki.UndecodableSkipped | packages/opencode/src/tool/deepwiki.ts:72-76 | a payload that fails to decode is passed over |
| DeepWiki.PayloadAfterPrefix | packages/opencode/src/tool/deepwiki.ts:73 | the payload is what follows `data: ` |
| DeepWiki.SelectOutputSpec | packages/opencode/src/tool/deepwiki.ts:147-163 | an error in the response throws; otherwise the first content text, or the "no documentation" message, under the title "DeepWiki: repo" |
| DeepWiki.NoDataNoDocumentation | packages/opencode/src/tool/deepwiki.ts:145-163 | a response without an accepted line gives the "no documentation" answer |
| JsText.TrimEnd | packages/opencode/src/util/terminal.ts:184 | `trimEnd` removes exactly the trailing whitespace |
| JsText.Trim | packages/opencode/src/cli/cmd/tui/component/prompt/index.tsx:852 | `trim` returns the slice of its input with only white space before and after it, and leaves no white space at either end |
| JsText.SliceTo | packages/opencode/src/util/terminal.ts:39 | `slice(0, n)` is the prefix of length n, clamped to the string |
| JsText.SliceFrom | packages/opencode/src/util/terminal.ts:39 | `slice(n)` is the suffix from n, empty past the end |
| JsText.IndexOfFrom | packages/opencode/src/cli/cmd/tui/component/prompt/index.tsx:270 | `indexOf` finds the first occurrence, or reports none |
| JsText.ContainsIff | packages/opencode/src/tool/deepwiki.ts:71 | `includes` holds exactly when the needle occurs somewhere |
| JsText.SplitPieces | packages/opencode/src/cli/cmd/tui/component/prompt/index.tsx:883 | a string splits into one more piece than it has separators, and no piece holds one |
| JsText.JoinSplit | packages/opencode/src/cli/cmd/tui/component/prompt/index.tsx:558-562 | joining the pieces of a split gives back the string |
| JsText.SplitJoin | packages/opencode/src/cli/cmd/tui/component/prompt/index.tsx:558-562 | splitting a join of separator-free pieces gives back the pieces |
| JsText.SplitFirst | script/changelog.ts:124 | the first piece is the text up to the first separator |
| JsText.NatToStringValue | script/changelog.ts:168 | the decimal numeral reads back as the number |

## Left out

- JavaScript strings are sequences of UTF-16 code units; the model uses
  `char` for one code unit and does not model surrogate pairs.
- JavaScript numbers are unbounded `int`/`nat` here. Counts, offsets and
  timeouts never reach 2^53 in practice.
- BashTool.ResolveTimeout: the timeout parameter is a JavaScript number
  (packages/opencode/src/tool/bash.ts:68), so fractional values are accepted:
  1500.5 is used as given, and -0.5 throws. The model takes an integer and
  does not represent fractional timeouts.
- CSI parameters are unbounded numbers here. In the source they come from
  arbitrary terminal output: `parseInt` of a long digit run loses precision or
  gives Infinity, and a huge column makes `" ".repeat`
  (packages/opencode/src/util/terminal.ts:32) throw a RangeError. The model
  pads with that many spaces instead of throwing.
- The bash tree-sitter parser, `realpath`, `Filesystem.contains`,
  `BashArity.prefix`, `path.dirname` and the platform test are inputs (the
  `Host` of `BashTool`). The parse tree is given as the command nodes, in the
  order `descendantsOfType` returns them.
- `Host.root` and `Execute`'s `instanceDir` are independent inputs. In the
  source both are `Instance.directory`
  (packages/opencode/src/tool/bash.ts:77,87,126); the model's contracts hold
  for any pair, and so in particular for equal ones.
- The process is not run. Spawning, the PTY, the child process, timers and the
  abort signal are a sequence of events. `kill` and `Shell.killTree` are not
  modelled: they only end the process, which shows as its exit event.
- `ctx.ask` is a function telling whether a request is granted; a refusal
  ends the call (`Refused`). `ctx.metadata` is the `published` list of the
  replay. Logging is left out.
- BashTool.Execute: the metadata published while the process runs are stated
  by `ReplayPublished`, not by `Execute`'s own contract; a process that has
  not ended within the given events is reported as `Waiting`.
- Terminal.Step: its contract states only that the position advances; what a
  step does is stated by the `TerminalProperties` lemmas.
- Tool registration, the description text, the parameter schema and the
  shell choice (`Shell.acceptable`) are configuration.
- `getLatestRelease`, `generateChangelog` (which asks a model session for a
  changelog), the CLI entry point and the `git log` / `gh api` calls are not
  part of this model. Their outputs are inputs: the log text, the commit
  records and the generated text. The two-minute race against generation is
  the generated text being absent.
- `JSON.parse` of the `gh api` lines and of the DeepWiki payloads is an input:
  a decoded `CommitInfo`, or a partial function `parse` whose `None` stands
  for a rejected payload.
- DeepWiki's permission request, session initialisation, HTTP status errors,
  the 60-second abort and the catch that rethrows are left out: they are
  network I/O. The model starts from the response text.
- The prompt component's rendering, key bindings, autocomplete, history,
  stash, shell-mode toggling by key, toasts, session creation, navigation and
  the SDK calls are left out. `Submit` returns the call it would make as a
  `Submission` value.
- Prompt.PromptStore.Submit: the history entry appended before the reset is
  not modelled.
- The text area itself is not modelled. Inserting text changes the store only
  through `ContentChanged`, and the extmarks are the list the text area
  reports, passed to the methods that read them. Extmark ids for new pastes
  and for the restore after an edit are parameters.
- The editor text built from the parts before opening the external editor
  (packages/opencode/src/cli/cmd/tui/component/prompt/index.tsx:240-247) is
  not modelled. The editor's result is the `content` parameter.
- The image-file branch of the paste handler
  (packages/opencode/src/cli/cmd/tui/component/prompt/index.tsx:857-882),
  which reads the file through `Bun.file`, is a file-system call. `OnPaste`
  covers the text path; `PasteImage` models what happens once the image is
  read.
- A file part's `mime`, `filename` and `source.path`
  (packages/opencode/src/cli/cmd/tui/component/prompt/index.tsx:665-678) are
  not fields of `Prompt.Part`; the model keeps the kind, the url text and the
  virtual-text span, which are all that syncing, expansion and dispatch read.
- A file part whose source has no `text` is modelled as a part without a
  source: it has no virtual text, exactly as the component treats it.
- Prompt.PromptStore.Valid: the map from extmarks to parts is kept injective
  as a class invariant. The source does not check this; it holds because each
  extmark id is fresh when it is created.
