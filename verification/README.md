# AliasDeck, modelled and verified in Dafny

AliasDeck turns alias definitions into shell text, writes that text into files it must later be able
to migrate, re-read and remove exactly, and lets devices enrol with a server and pull their aliases
from it. This project models that behaviour and proves what it is for. `dafny verify dfyconfig.toml`
checks the whole project.

- **Shell text** (`Posix`, `FileFacts`, `Legacy`, `Migration`, `OldFormat`, `StrictFormat`, `LineSearch`). The
  bash and zsh renderer, the strict parser of the old file format, and the marker that carries an old file's
  names inside a new file. Printer and parsers are inverse to each other over all strings, and the texts that
  either parser accepts are described without it.
- **Reading shell text** (`Lexer`, `Importer`, `Statements`, `RoundTrip`, `OwnBlock`). The lexer of shell words,
  the importer of startup files, both described on all inputs by an independent grammar, and what importing
  AliasDeck's own output gives back.
- **The sync step** (`Sync`). A state machine over the generated files and the state record, in which
  any file operation may fail. A successful sync is a fixpoint, and migrated names survive every run.
- **What the shell ends up with** (`FieldSplitting`, `Sourcing`, `SourcingRuns`, `ZshPrompt`). A small semantics
  of the bash and zsh statements that generated files consist of, and what sourcing any sequence of them leaves:
  from an old file, through any run of syncs, a shell that splits the recorded lists has exactly the last
  configuration's aliases and the user's own. A zsh that sourced its file once follows it from prompt to prompt.
- **The block in the rc file** (`Bootstrap`). Byte-exact insertion and removal, and the scan that removes
  a block that was edited, with LF and with CRLF.
- **Resolution and validation** (`Domain`, `Validate`, `Agreement`). Targeting, the stable sort, the
  revision, the filter that makes rendering possible, and the client's agreement with the server.
- **Credentials** (`Timestamps`, `Auth`, `TokenStore`, `Handlers`). The fixed-width timestamps the
  database compares as text, the wire format of tokens, the store's transactions as atomic steps that
  interleave freely, and the handlers as sequences of steps that may stop anywhere.
- **Merging an import** (`ImportMerge`, `OwnFile`). The accounting of one import, the meaning of the merged
  document, and importing a second time.
- **The local setup tokens** (`SetupTokens`). A bounded one-time table.

`Text` holds the string functions of Go's standard library that the source uses.

Code that changes state in the source is a class or a method with loops here, and its contract equates
the new state with a function of the old one; the lemmas are about those functions.

## How to read it

- A file is one value that a write replaces or leaves alone. A database transaction is one step. A
  handler, or a sync, may stop between two such operations. A lookup whose failure the handler ignores is
  no such operation.
- SHA-256 is an arbitrary function to 32 bytes. No lemma takes it to be injective; where the sync needs
  that texts do not collide, the lemma says so of the finitely many texts of that run (`Sync.CollisionFree`).
- The hash of a token's secret, the PowerShell renderer and the line that AddBootstrap inserts are
  parameters.
- Strings are sequences of characters, and the clock is a count of nanoseconds that each operation is
  given.
- Quoting, field splitting (with IFS among the shell's variables) and word rules are those of the Shell Command
  Language volume of POSIX.1-2017, sections 2.2 and 2.6.5; for zsh its option SH_WORD_SPLIT decides whether
  expansions are split at all. Timestamps sort as section 5.1 of RFC 3339 says.

## Where a promise has a condition

The results below are exact: they say when the code does what it promises and that it does not otherwise.
The lemmas of module `Failures` give inputs on which it does not.

- The import of a generated file is complete if and only if no printed description starts like the begin
  marker of AliasDeck's own block: such a comment line makes the importer skip what follows
  (`RoundTrip.FileRoundTrip`, `Failures.DisguisedDescription`).
- An old file is recognised if and only if its device name and descriptions are free of Unicode control
  characters; the renderer only removes the ASCII ones (`OldFormat.LegacyRecognised`,
  `Failures.UnrecognisedOldFile`, `Failures.UnrecognisedDevice`).
- `FilterValid` makes rendering possible if and only if the device is known, no alias is unnamed and at most
  the maximum number is kept (`Validate.FilterMakesRenderable`). The comment on it promises that no single
  malformed entry takes down the whole file; an unnamed entry does, because its issues block nothing
  (`Failures.UnnamedAlias`, `Failures.UnknownDevice`, `Failures.TooMany`).
- Sourcing a file removes the aliases of the previous one if and only if the shell splits the list of their
  names: there is a single name, or a blank is in IFS, and no character of a name is
  (`SourcingRuns.ReplacedExactly`, `Sourcing.ManagedBlockExactly`). bash with its default IFS does
  (`Sourcing.OrdinaryRecovers`); with an IFS that is a line break it does not
  (`Failures.LineShellKeepsAliases`). The results about sequences of files take it as a hypothesis.
- zsh splits no unquoted expansion unless its option SH_WORD_SPLIT is set. With its default options it keeps all
  aliases of an earlier file that has two or more (`ZshPrompt.ZshReplacedExactly`,
  `Failures.DefaultZshKeepsAliases`), although `internal/renderers/posix.go:33-35` and
  `internal/renderers/shell_integration_test.go:111-145` promise the removal for both shells. The script of that
  test ends with the status of its last command, which is another one.
- Uninstalling restores an rc file that nobody else edits byte for byte (a missing one that got a block is left
  empty) if and only if it was marked from the start, no installation could add the block, or the one that did
  could record it (`Bootstrap.InstallUninstall`, `Failures.UnsavedInstallation`).
- If a sync writes the file and then fails to save the state, the migrated names are lost at the next sync
  unless the stale state happens to record the same file (`Sync.SaveFailure`, and over whole runs
  `Sync.RunCarriesExactly`; `Failures.UnsavedMigration`).
- However the handlers' transactions interleave, every device has at most one live token and every live token
  an existing device, all along, if and only if each insertion of a device token finds its device present
  and without a live token and each deletion finds none (`Handlers.InterleavingExactly`). Whole handlers in
  sequence always meet this (`Handlers.RunsGuarded`); two rotations, or a rotation and a deletion, that
  interleave need not (`Handlers.InterleavedRotations`, `Handlers.RotationOvertakenByDeletion`). A device
  token that a revocation by subject finds never authenticates again, however handlers interleave
  (`Handlers.RevokedForEver`).

Five more things a reader of the code may not expect:

- Removing an edited block keeps the line ending that was added to an unterminated last line
  (`Bootstrap.FallbackRemoval`).
- Import claims each new name so that a later definition in the same file sees it as taken; that never
  happens, because only the last definition of a name is looked at (`ImportMerge.Classify`).
- The letter in a token's wire form plays no part in authentication: the middleware compares the stored kind
  with the required one, and so does `Handlers.Authenticate`. Only enrolment compares the letter.
- The count in an old file's banner may carry a sign: the parser only refuses a leading zero
  (`StrictFormat.ParsedLegacyExactly`).
- A few names that the generated files use as commands, such as `unset`, are accepted as alias names
  (`Sourcing.HarmlessExactly`, `Sourcing.CommandNamesAccepted`).

## Model

| member | source | states |
|---|---|---|
| `Posix.Render` | internal/renderers/posix.go:22-80 | for every configuration the render loops write exactly the lines of the specified file, and nothing at all for one the guard refuses |
| `Posix.WriteHeader` | internal/renderers/header.go:21-50 | the banner appended to the builder is the specified banner, whatever the builder held |
| `Posix.WriteIdentity` | internal/renderers/header.go:31-44 | appends exactly the lines that name the file, its device and its revision |
| `Posix.WriteNotice` | internal/renderers/header.go:45-49 | appends exactly the count and the two usage lines |
| `Posix.WriteManagedBlock` | internal/renderers/posix.go:36-48 | appends the block that removes what the previous file recorded, then the record of this file's own names |
| `Posix.WriteParagraph` | internal/renderers/posix.go:51-61 | appends one alias: blank line, comment unless its sanitized description is empty, definition |
| `Posix.WriteAliases` | internal/renderers/posix.go:50-62 | appends the paragraphs of all aliases in order |
| `Posix.CollectNames` | internal/renderers/posix.go:41-44 | the recorded names are those of the aliases, in order |
| `Posix.UnescapeEscape` | internal/renderers/posix.go:92-94 | undoing the escapes of embedded quotes recovers every string |
| `Posix.DecodeExactlyQuoted` | internal/renderers/legacy_posix.go:164-170 | decoding succeeds with s exactly on the quoted form of s: both directions, all strings |
| `Posix.SanitizeSafe` | internal/renderers/posix.go:103-114 | no comment text can end its line, whatever the description |
| `Posix.CleanedExactly` | internal/renderers/posix.go:103-114 | what becomes of every character of a description: control characters go, tabs become blanks, all others stay in order, and nothing else appears |
| `Text.TrimSpaceParts` | internal/renderers/posix.go:103-114 | trimming a description takes away white space at both ends and nothing else |
| `FileFacts.FileShape` | internal/renderers/posix.go:22-80 | where the fixed lines of every generated file stand, with or without a migration block |
| `FileFacts.FileFree` | internal/renderers/posix.go:22-80 | no line of a generated file contains a line break, so the text splits into exactly the lines written |
| `FileFacts.FileIndented` | internal/renderers/legacy_posix.go:53-60 | only a migration block has a line that starts like its assignment |
| `FileFacts.BannerShows` | internal/renderers/header.go:31-45 | read back from the text of any generated file, the banner shows the device, the revision or its absence, and the number of aliases |
| `LineSearch.WholeLineIndex` | internal/renderers/legacy_posix.go:53-60 | the text search for a whole line stops in front of the first equal line |
| `LineSearch.SpanIndex` | internal/renderers/legacy_posix.go:182-190 | a pattern that spans two lines is found exactly at the one place where the lines are |
| `LineSearch.SpanCount` | internal/renderers/legacy_posix.go:182-190 | and it is counted exactly once |
| `LineSearch.NoSpan` | internal/renderers/legacy_posix.go:182-190 | it does not occur when no line starts with its second half |
| `Migration.InjectFile` | internal/renderers/legacy_posix.go:53-60 | injecting names into a freshly rendered file yields the canonical file that carries them |
| `Migration.MarkerRoundTrip` | internal/renderers/legacy_posix.go:181-206 | parsing the marker of a file that carries N recovers exactly N, for every valid, strictly increasing, non-empty N |
| `Migration.NoMarker` | internal/renderers/legacy_posix.go:181-206 | a file that carries nothing parses to no names |
| `Migration.ParsedMigrationValid` | internal/renderers/legacy_posix.go:192-205 | whatever text is parsed, what comes out is a valid, strictly increasing list |
| `Migration.ParsedLegacyValid` | internal/renderers/legacy_posix.go:62-109 | the same for the old-format parser |
| `StrictFormat.ParsedMigrationExactly` | internal/renderers/legacy_posix.go:181-206 | names are read from a text if and only if they form a non-empty, valid, increasing list, the marker's beginning occurs once, and the marker of exactly these names stands there in front of the managed block |
| `StrictFormat.ParsedLegacyExactly` | internal/renderers/legacy_posix.go:62-162 | a text is read as an old file with given names if and only if it is, byte for byte, the old file of some device, revision and count text and of valid entries with these names in increasing order |
| `StrictFormat.ParagraphsComplete` | internal/renderers/legacy_posix.go:81-108 | the paragraphs of any valid, increasing list of entries are read as its names |
| `StrictFormat.ParagraphsSound` | internal/renderers/legacy_posix.go:81-108 | and whatever is read consists of the paragraphs of such a list |
| `Migration.NeverLegacy` | internal/renderers/legacy_posix.go:62-109 | no generated file, migrated or not, ever passes for an old-format file, in any shell |
| `Legacy.ParseCurrentLegacyMigration` | internal/renderers/legacy_posix.go:181-206 | the offset-and-loop parser returns exactly the specified names |
| `Legacy.ParseLegacyPOSIXAliases` | internal/renderers/legacy_posix.go:62-109 | the line-cursor parser accepts exactly the specified files and returns their names |
| `Legacy.ParseBody` | internal/renderers/legacy_posix.go:81-108 | the cursor loop below the banner does what the recursive specification of paragraphs says |
| `Legacy.StaysExactly` | internal/renderers/legacy_posix.go:26-60 | PowerShell files, files without the managed block, and successors of texts from which no names are read stay as they are |
| `OldFormat.LegacyRecognised` | internal/renderers/legacy_posix.go:62-162 | the old file of an accepted configuration parses to its sorted names exactly when device name and descriptions are free of Unicode control characters; otherwise it is not recognised |
| `OldFormat.ParagraphsParse` | internal/renderers/legacy_posix.go:81-108 | the same for the alias paragraphs alone, by induction over the list |
| `OldFormat.SortedIncreasing` | internal/domain/resolved.go:56-60 | in bash and zsh every accepted configuration sorts into strictly increasing names, as the old-format parser demands |
| `Sync.Workspace.SyncWithContext` | internal/app/sync.go:61-176 | one run, with every early exit and every failing file operation, changes files and state exactly as the step function says |
| `Sync.NextIsFile` | internal/app/sync.go:82-96 | from any disk content the text to write is the canonical file carrying a definite list of names |
| `Sync.CarriedValid` | internal/app/sync.go:82-96 | those names are always valid and strictly increasing |
| `Sync.RewrittenNames` | internal/app/sync.go:82-96 | carry-forward finds the names of a file it wrote itself exactly when the state records that file |
| `Sync.SyncFixpoint` | internal/app/sync.go:82-148 | after one successful sync from any disk content, a second one with the same configuration is skipped and changes neither file nor state |
| `Sync.StepCarries` | internal/app/sync.go:82-148 | one attempt, successful or not, keeps the file carrying exactly the migrated names |
| `Sync.RunCarries` | internal/app/sync.go:61-176 | over every run of attempts in one shell, the file is always the one of the last successful configuration, carrying exactly the migrated names |
| `Sync.MigrationStarts` | internal/app/sync.go:82-148 | the first successful sync over an old-format file starts such a run with that file's names |
| `Sync.SaveFailure` | internal/app/sync.go:150-173 | when the file is written and the state is not saved, the names survive exactly when the stale state happens to record this very file |
| `Sync.StepExactly` | internal/app/sync.go:61-176 | one attempt, whatever fails, leaves a recorded file with the names, or nothing to carry if it wrote a file that the state does not record |
| `Sync.RunCarriesExactly` | internal/app/sync.go:61-176 | over every run in one shell, whatever fails, the next sync carries exactly the names if every attempt whose save failed had written a file the state already recorded, and none otherwise |
| `Sync.SyncedExactly` | internal/app/sync.go:98-176 | after every successful sync the generated file is on disk with the recorded hash, the state is of this revision, no other file changed, and a skipped sync changed nothing |
| `Sync.SkippedExactly` | internal/app/sync.go:134-148 | a sync is skipped if and only if revision and hash are the recorded ones and the file on disk exists, can be read and has that hash |
| `Sync.SyncedText` | internal/app/sync.go:82-148 | in bash and zsh that file has the hash of the canonical file with the carried names, and is that very text when it was written |
| `Sync.RecordExactly` | internal/app/sync.go:154-173 | a sync that writes records platform, shell, alias count, source and time of the configuration and keeps what was recorded about the rc file |
| `Sync.FailedExactly` | internal/app/sync.go:61-176 | a failed sync leaves the state alone, and the files unless the state could not be saved; which failure is reported |
| `Sync.OutputsDiffer` | internal/apply/native.go:24-56 | the shells have different generated files |
| `Sourcing.RunMigration` | internal/renderers/legacy_posix.go:53-60 | the migration block hands its names only to a shell that has none recorded |
| `Sourcing.RunManagedBlock` | internal/renderers/posix.go:33-40 | the managed block removes exactly the fields that IFS makes of the recorded list, in every shell, and leaves every other variable alone |
| `Sourcing.ManagedBlockExactly` | internal/renderers/posix.go:33-40 | in a shell where every recorded name is an alias, none survives the managed block if and only if IFS splits the list: a blank is in IFS, if there are two names, and no character of a name is |
| `Sourcing.OrdinaryRecovers` | internal/renderers/posix.go:33-40 | with the default IFS, or any of blanks, tabs and newlines with a blank in it, every list of accepted names is recovered |
| `FieldSplitting.SplitsExactly` | internal/renderers/posix.go:41-48 | field splitting recovers the joined names, or even only each of them somewhere, if and only if IFS splits the list |
| `Sourcing.RunAlias` | internal/renderers/posix.go:57-61 | a definition line defines exactly its alias, whatever the command contains |
| `Sourcing.SourceFile` | internal/renderers/posix.go:22-80 | sourcing a generated file, in every bash and zsh, takes the shell to exactly the state described by its configuration: the fields of the recorded list removed, the aliases defined, in zsh the hook registered |
| `Sourcing.RunHookLines` | internal/renderers/posix.go:64-77 | the last lines of a zsh file record its name, define the function and register it once, behind the other hooks |
| `Sourcing.HarmlessExactly` | internal/validate/name.go:58-69 | of the accepted names exactly these few are words that the files themselves use as commands |
| `Sourcing.CommandNamesAccepted` | internal/validate/name.go:33-56 | each of these is accepted as an alias name |
| `SourcingRuns.SourceSequence` | internal/renderers/posix.go:33-62 | in a shell whose IFS splits the recorded lists, sourcing any sequence of generated files leaves the last one's aliases, none managed earlier, and every never-managed alias unchanged |
| `SourcingRuns.ReplacedExactly` | internal/renderers/posix.go:33-62 | of two files sourced in turn in any shell, the second defining none of the first's names, none of the first's aliases survives if and only if the shell splits the list of its names |
| `ZshPrompt.ZshReplacedExactly` | internal/renderers/posix.go:33-62 | in a zsh with its default options each alias of the first file is gone after the second if the first has at most one, and all of them remain if it has more |
| `ZshPrompt.SourceTwice` | internal/renderers/posix.go:64-67 | sourcing the same file again changes nothing, in bash and zsh |
| `ZshPrompt.SourcedRegisters` | internal/renderers/posix.go:68-77 | however often the file was sourced before, its hook is registered once and the user's hooks stay |
| `ZshPrompt.PromptIsSourcing` | internal/renderers/posix.go:68-77 | a prompt of such a shell sources the file exactly once, and does nothing when it is missing |
| `ZshPrompt.PromptsFollow` | internal/renderers/posix.go:64-77 | from prompt to prompt the shell picks up every revision written to the file, exactly as sourcing each by hand |
| `SourcingRuns.OutputsAreFiles` | internal/app/sync.go:61-176 | over every run of syncs the files left behind are exactly the canonical files of the successful attempts |
| `SourcingRuns.OldFileJourney` | internal/renderers/legacy_posix.go:26-60 | from an old file through any run of syncs, each result sourced in a shell whose IFS splits the lists: exactly the last aliases, nothing of the old file, everything of the user's own |
| `Failures.UnsavedMigration` | internal/app/sync.go:149-173 | an input: an old file, no recorded hash and a failing save, after which the names to carry are gone and the next successful sync writes a file without them |
| `Failures.UnrecognisedOldFile` | internal/renderers/legacy_posix.go:111-179 | an input: an accepted configuration with U+0085 in a description, whose old file is not recognised |
| `Failures.DisguisedDescription` | internal/importers/posix.go:71-88 | an input: an accepted configuration whose description is the begin marker text, whose file does not import completely |
| `Failures.UnnamedAlias` | internal/validate/validate.go:199-213 | an input: a known device and one unnamed alias, which the filter keeps and the guard then refuses |
| `Failures.UnknownDevice` | internal/validate/validate.go:134-140 | an input: an unknown platform, which no filtering mends |
| `Failures.TooMany` | internal/validate/validate.go:149-156 | an input: one alias more than the limit, all of them valid, which the filter keeps and the guard then refuses |
| `Failures.UnrecognisedDevice` | internal/renderers/legacy_posix.go:111-118 | an input: a device name with U+0085, whose old file is not recognised |
| `Failures.UnsavedInstallation` | internal/app/init.go:212-224 | an input: a missing rc file and a record that is not saved, after which uninstalling leaves the block |
| `Failures.LineShellKeepsAliases` | internal/renderers/posix.go:33-40 | an input: a shell whose IFS is a line break, which keeps both aliases of the previous file |
| `Failures.DefaultZshKeepsAliases` | internal/renderers/posix.go:33-40 | an input: a zsh with its default options, which keeps both aliases of the previous file |
| `Lexer.LexValue` | internal/importers/posix.go:198-250 | the lexer's loop returns what the recursive definition of a shell word says, on every input |
| `Lexer.LexDoubleQuoted` | internal/importers/posix.go:255-286 | the same for the loop inside double quotes, including the number of bytes consumed |
| `Lexer.LexWordRest` | internal/importers/posix.go:198-250 | the remainder is always a suffix of the input that starts with a blank, or nothing |
| `Lexer.LexSegments` | internal/importers/posix.go:198-286 | lexing any concatenation of single-quoted, double-quoted, escaped and bare segments returns the concatenated meaning, the exact rest, and a note iff some segment expands |
| `Lexer.LexWritten` | internal/importers/posix.go:185-286 | any word, closed or ending in an open quote or a lone backslash, is read as what its parts mean, with an exact note and the exact rest |
| `Lexer.EveryWord` | internal/importers/posix.go:185-286 | every text starts with such a word, so the reading of all inputs is described |
| `Lexer.QuoteIsSegments` | internal/renderers/posix.go:92-94 | the renderer's quoting prints one such concatenation, whose meaning is the string |
| `Lexer.LexQuoted` | internal/renderers/posix.go:92-94 | lexing a quoted string recovers it without a note and leaves exactly what followed |
| `Importer.ParsePOSIX` | internal/importers/posix.go:63-120 | the line loop with its own-block flag yields the specified definitions and skipped lines |
| `Importer.ParseStatement` | internal/importers/posix.go:90-116 | one statement yields all its definitions, or the reason it stops, after what was found before |
| `Statements.StatementRead` | internal/importers/posix.go:102-117 | a statement is read as all its definitions in order, with names, meanings and notes, and the word at which reading stops is reported with its reason |
| `Statements.EveryStatement` | internal/importers/posix.go:102-117 | every text is such a statement, so the reading of all inputs is described |
| `Statements.OtherLines` | internal/importers/posix.go:121-139 | a line without the keyword and a blank behind it yields nothing |
| `Statements.PlainStatement` | internal/importers/posix.go:91-117 | the same for a whole line that begins with the keyword |
| `Statements.DashesStatement` | internal/importers/posix.go:141-155 | and for one whose options are ended by two dashes |
| `Statements.OptionRefused` | internal/importers/posix.go:141-162 | any other option is reported by name and nothing on its line is read |
| `Statements.NothingDropped` | internal/importers/posix.go:44-47 | an alias line yields nothing only if it holds nothing but blanks, two dashes and a comment |
| `Statements.FileRead` | internal/importers/posix.go:63-100 | a file is read as its lines outside AliasDeck's own blocks, each with its number |
| `RoundTrip.FileImports` | internal/importers/posix.go:63-120 | importing a generated file skips nothing, notes nothing and finds the sorted definitions, except those hidden behind a description disguised as a block marker |
| `RoundTrip.FileRoundTrip` | internal/importers/posix.go:63-120 | the round trip is complete if and only if no printed description starts like the begin marker |
| `RoundTrip.ImportedAll` | internal/importers/posix.go:71-88 | what a disguised description hides, exactly |
| `Bootstrap.IndexOfLine` | internal/apply/bootstrap.go:354-374 | the substring loop returns the first occurrence that is a whole line, or -1 |
| `Bootstrap.RemoveMarkerScan` | internal/apply/bootstrap.go:307-340 | the index arithmetic removes the specified span, for LF and CRLF |
| `Bootstrap.RcFile.AddBootstrap` | internal/apply/bootstrap.go:154-182 | the file afterwards and the block recorded, for a missing, a marked and an unmarked file and for a failing read or write |
| `Bootstrap.RcFile.RemoveBootstrap` | internal/apply/bootstrap.go:202-236 | the file afterwards and whether it was byte-exact, in each of the five cases and for a failing read or write |
| `Bootstrap.RcFile.BootstrapTargets` | internal/apply/bootstrap.go:402-424 | whether a block is there and whether it holds this line, or a failing read; the file is only read |
| `Bootstrap.BlockFoundAt` | internal/apply/bootstrap.go:202-236 | a recorded block is found where it was put, however the text around it was edited |
| `Bootstrap.ExactRemoval` | internal/apply/bootstrap.go:202-236 | removing a recorded block restores exactly the text around it |
| `Bootstrap.AddThenRemove` | internal/apply/bootstrap.go:154-236 | adding then removing is the identity on every file without a begin marker, and a second add changes nothing |
| `Bootstrap.AddToMarked` | internal/apply/bootstrap.go:202-236 | a file that already has the marker text is left alone; a direct call of RemoveBootstrap with the empty block changes it if and only if it has a begin marker line and the first end marker line does not precede it |
| `Bootstrap.AddedExactly` | internal/apply/bootstrap.go:154-182 | what adding appends to every unmarked or missing file, byte for byte, in the line ending the file already has |
| `Bootstrap.AddedLineEndings` | internal/apply/bootstrap.go:261-272 | the appended block has no carriage return if the file has no CRLF, and one in front of every line break otherwise; the content before is kept |
| `Bootstrap.NothingToRemove` | internal/apply/bootstrap.go:188-258 | a missing file and one with neither the block nor a pair of marker lines are left alone |
| `Bootstrap.Installation.Init` | internal/app/init.go:190-224 | the rc file, the record and the error: the check in front, adding and recording, each of which may fail; a block is recorded exactly when one was added and the state could be saved |
| `Bootstrap.Installation.Uninstall` | internal/app/uninstall.go:126-140 | a block is removed exactly when one was recorded; a failing removal, or a state file that cannot be deleted, keeps the record |
| `Bootstrap.UninstallAgain` | internal/apply/bootstrap.go:202-236 | removing a recorded block from a file without the marker changes nothing, so uninstalling can be repeated |
| `Bootstrap.InstallUninstall` | internal/app/uninstall.go:58-140 | installing any number of times, with any failures, and uninstalling restores an rc file nobody else edits byte for byte, leaving a missing one that got a block empty, if and only if it was marked from the start, no installation could add the block, or the one that did recorded it |
| `Bootstrap.ScanPositions` | internal/apply/bootstrap.go:307-340 | where the scan finds the two marker lines of an edited block |
| `Bootstrap.ScanRemoval` | internal/apply/bootstrap.go:307-340 | the scan cuts out an edited block whole, whatever its interior became, for LF and CRLF |
| `Bootstrap.FallbackRemoval` | internal/apply/bootstrap.go:202-236 | when the recorded block no longer occurs, RemoveBootstrap removes the edited one whole and reports that it was not exact; only the line ending added to an unterminated last line stays |
| `OwnBlock.BlockChangesNothing` | internal/importers/posix.go:71-88 | appending the block to any startup file changes nothing of what an import finds in it |
| `OwnBlock.ImportUnaffected` | internal/apply/bootstrap.go:154-182 | so AddBootstrap is invisible to an import, for every file |
| `Domain.Resolve` | internal/domain/resolved.go:38-50 | the filter loop, sort and revision produce the specified configuration |
| `Domain.ComputeRevision` | internal/domain/resolved.go:67-87 | the running hash is fed exactly the specified bytes |
| `Domain.WriteField` | internal/domain/resolved.go:68-74 | every field is followed by NUL and every record by the record separator |
| `Domain.SortSorts` | internal/domain/resolved.go:56-60 | the result is sorted and a permutation |
| `Domain.SortIsStable` | internal/domain/resolved.go:56-60 | aliases that share a name keep their order |
| `Domain.SortOfSorted` | internal/domain/resolved.go:56-60 | sorting a sorted list changes nothing |
| `Domain.SortedUnique` | internal/domain/resolved.go:56-60 | a sorted list with distinct names is determined by its elements |
| `Domain.Revision` | internal/domain/resolved.go:67-87 | a revision is twelve hexadecimal digits |
| `Domain.PreimageInjective` | internal/domain/resolved.go:67-87 | two configurations without NUL hash the same bytes if and only if platform, shell and sorted triples agree |
| `Domain.RevisionPermutation` | internal/domain/resolved.go:67-87 | reordering aliases with distinct names changes neither the sorted list nor the revision |
| `Domain.MissExactly` | internal/domain/alias.go:105-130 | each reason is given if and only if its dimension fails and no earlier one does |
| `Domain.ResolvesExactly` | internal/domain/resolved.go:38-50 | an alias occurs in a resolution as often as in the list if it is enabled and each of its four dimensions is open or met by the device, and otherwise not at all |
| `Validate.CheckAlias` | internal/validate/validate.go:94-127 | the issues of one alias, in order |
| `Validate.CheckConfig` | internal/validate/validate.go:131-178 | the issues of a configuration, with the map of names seen so far |
| `Validate.FilterValid` | internal/validate/validate.go:196-216 | the kept aliases and the issues |
| `Validate.BlockedNames` | internal/validate/validate.go:199-204 | the blocked set holds exactly the names that an error reports |
| `Validate.GuardMeansClean` | internal/renderers/renderer.go:92-97 | rendering is allowed if and only if device, every alias, every key and the count are in order |
| `Validate.BadReported` | internal/validate/validate.go:158-175 | a bad or repeated alias is always reported under its name |
| `Validate.ReportedBad` | internal/validate/validate.go:158-175 | and every issue of the list is owed to such an alias |
| `Validate.FilteredIsClean` | internal/validate/validate.go:196-216 | among the kept aliases none that has a name is bad or shares its case-folded key with another |
| `Validate.FilterMakesRenderable` | internal/validate/validate.go:196-216 | the filter makes rendering possible if and only if the device is known, no alias is unnamed and at most MaxAliases are kept |
| `Validate.FilterIdempotent` | internal/validate/validate.go:196-216 | filtering again drops nothing, for every configuration |
| `Validate.FilterKeepsClean` | internal/validate/validate.go:196-216 | a clean configuration passes unchanged |
| `Validate.FilterKeepsExactly` | internal/validate/validate.go:196-216 | the filter keeps exactly the unnamed entries and those under whose name no entry is bad or repeats an earlier key |
| `Validate.BlockedExactly` | internal/validate/validate.go:199-204 | a name is blocked if and only if an entry of that name is bad or repeats an earlier key |
| `Validate.NameIsWord` | internal/validate/name.go:22-56 | an accepted name is a non-empty word of harmless characters |
| `Validate.NameExactly` | internal/validate/name.go:22-56 | exactly which names are accepted, character by character |
| `Validate.CommandExactly` | internal/validate/command.go:14-34 | exactly which commands are accepted |
| `Validate.DescriptionExactly` | internal/validate/command.go:42-53 | exactly which descriptions are accepted |
| `Validate.ReservedUpToCase` | internal/validate/name.go:73-91 | in PowerShell a name is reserved in any case |
| `Validate.KeyExactly` | internal/validate/validate.go:184-189 | accepted names collide in PowerShell if and only if they are equal up to case, elsewhere if and only if they are equal |
| `Validate.FilteredDistinct` | internal/validate/validate.go:196-216 | in PowerShell no two named aliases that are kept are equal up to case, elsewhere none are equal |
| `Validate.CommandIsOneLine` | internal/validate/command.go:14-34 | an accepted command cannot end its line |
| `Agreement.SyncServer.HandleSync` | internal/api/sync.go:96-167 | which requests are refused, from a missing subject to an unreadable alias list, what the response holds, and what is recorded of the device |
| `Agreement.ProjectAliases` | internal/api/sync.go:150-153 | the response lists every resolved alias in order |
| `Agreement.TouchIsBookkeeping` | internal/api/sync.go:132-148 | whether recording what a device reported succeeds or fails, every later request gets the same response |
| `Agreement.TouchExactly` | internal/api/sync.go:132-148 | what a request records: platform and shell of a served device as reported, and nothing of any other |
| `Agreement.ServedExactly` | internal/api/sync.go:96-167 | which requests are served, and which error each of the others gets |
| `Agreement.ToResolvedConfig` | internal/source/server.go:411-446 | which responses are refused and what the client makes of the others |
| `Agreement.ClientAgrees` | internal/source/server.go:411-446 | whatever the store holds, the client accepts the server's response and has the same revision and the same ordered triples as a local resolution |
| `Agreement.AcceptedExactly` | internal/source/server.go:411-443 | a response is accepted if and only if it names a known platform and shell and its revision is the one its own sorted content hashes to; the two other refusals |
| `Timestamps.FormatOrder` | internal/store/sqlitestore/convert.go:77-81 | for instants of years 0 to 9999 the text order of the layout is time order, and texts are equal only for equal instants |
| `Timestamps.GuardAgrees` | internal/store/sqlitestore/query.sql.sql.go:69-74 | the database's text comparison accepts exactly when the program's own expiry check does |
| `Timestamps.DateExactly` | internal/store/sqlitestore/convert.go:77-81 | the printed date is the Gregorian one: year, month and day, counted in closed form, give the day back |
| `Timestamps.PadReads` | internal/store/sqlitestore/convert.go:77-81 | a printed field read as a number is the number |
| `Timestamps.DateOrder` | internal/store/sqlitestore/convert.go:77-81 | the calendar fields of a later day print greater, across months, years and leap days |
| `Timestamps.TimeOrder` | internal/store/sqlitestore/convert.go:77-81 | the clock fields of a later time of day print greater |
| `TokenStore.Store.Create` | internal/store/sqlitestore/tokens.go:23-49 | a token row is inserted unless its lookup or its id is taken |
| `TokenStore.Store.ConsumeEnrollment` | internal/store/sqlitestore/tokens.go:79-135 | the transaction marks the token used and creates the device with all memberships, or changes nothing |
| `TokenStore.JoinProfiles` | internal/store/sqlitestore/tokens.go:119-127 | the insert loop stops at the first missing or repeated profile, and otherwise inserts exactly one row each |
| `TokenStore.Store.Revoke` | internal/store/sqlitestore/query.sql.sql.go:761-775 | the row with the id is revoked at the given time, revoked before or not |
| `TokenStore.Store.RevokeSubject` | internal/store/sqlitestore/query.sql.sql.go:778-791 | exactly the unrevoked tokens of that kind and subject are revoked |
| `TokenStore.Store.DeleteDevice` | internal/store/sqlitestore/devices.go:87-96 | the device and its memberships go, no token does |
| `TokenStore.Store.RevokeDevice` | internal/store/sqlitestore/devices.go:133-145 | the device row is marked, no token is |
| `TokenStore.RefusedUnchanged` | internal/store/sqlitestore/tokens.go:79-135 | a refused transaction of any kind changes nothing |
| `TokenStore.RevokeEffect` | internal/store/sqlitestore/query.sql.sql.go:761-775 | revoking sets the time on every row with the id, is done if and only if there is one, and changes nothing else |
| `TokenStore.RevokeSubjectEffect` | internal/store/sqlitestore/query.sql.sql.go:778-791 | exactly the unrevoked rows of the kind and the subject get the time |
| `TokenStore.ConsumeEffect` | internal/store/sqlitestore/tokens.go:79-135 | a birth creates the device as given with memberships in exactly the profiles of the token, marks the token used at this instant by this device, and changes nothing else |
| `TokenStore.ConsumeRefusal` | internal/store/sqlitestore/tokens.go:79-135 | why consuming is refused |
| `TokenStore.CreateEffect` | internal/store/sqlitestore/tokens.go:23-49 | inserting adds exactly the row, unless its lookup or its id is taken |
| `TokenStore.DeleteEffect` | internal/store/sqlitestore/devices.go:87-96 | deleting removes exactly the device and its memberships |
| `TokenStore.RevokeDeviceEffect` | internal/store/sqlitestore/devices.go:133-145 | revoking a device marks exactly its row |
| `TokenStore.StepTokens` | internal/store/sqlitestore/tokens.go:79-158 | no step forgets a token, a use or a revocation, and only a birth uses a token |
| `TokenStore.StepSound` | internal/store/sqlitestore/tokens.go:23-158 | every step keeps column times sound and memberships referring to existing rows |
| `TokenStore.RunSound` | internal/store/sqlitestore/tokens.go:23-158 | so does every interleaving |
| `TokenStore.EnrollmentOnce` | internal/store/sqlitestore/tokens.go:79-135 | over every interleaving each token gives birth to at most one device, and the tokens used are exactly those used before and those that gave birth |
| `TokenStore.RefusalIsForEver` | internal/auth/token.go:159-170 | a token refused for a kind is refused for it at every later time, whatever transactions come between |
| `TokenStore.JoinErrorExactly` | internal/store/sqlitestore/tokens.go:119-127 | memberships can be inserted if and only if the profiles exist, are not joined yet and do not repeat |
| `TokenStore.ConsumeExactly` | internal/store/sqlitestore/query.sql.sql.go:69-74 | a token is consumed if and only if Verify accepts it, it is unused, the device id is new and the profiles can be joined |
| `Auth.ParseExactly` | internal/auth/token.go:114-137 | parsing succeeds on exactly the wire forms, and recovers kind, lookup and secret |
| `Auth.WireFront` | internal/auth/token.go:27-32 | the letter that stands for each kind |
| `Auth.VerifyExactly` | internal/auth/token.go:159-170 | when a record is accepted, and which check each refusal names |
| `Handlers.Server.Enroll` | internal/auth/token.go:193-211 | parse, kind check, lookup, secret check, consume: each exit leaves the tables as specified |
| `Handlers.Server.Register` | internal/api/auth.go:211-281 | registration stopped after any of its store calls |
| `Handlers.Server.Delete` | internal/api/devices.go:86-106 | deletion stopped after any of its store calls |
| `Handlers.Server.Revoke` | internal/api/devices.go:115-134 | revocation stopped after any of its store calls |
| `Handlers.Server.Rotate` | internal/api/devices.go:141-189 | rotation stopped after any of its store calls |
| `Handlers.Server.LogIn` | internal/api/auth.go:70-115 | operator lookup, limiter, password check, then the session token: the answer and the tables at each exit |
| `Handlers.Server.Serve` | internal/api/auth.go:127-189 | logout and minting an enrollment token, each with its exits, and the dispatch to the handlers above |
| `Handlers.EnrollExactly` | internal/auth/token.go:193-211 | enrolling succeeds if and only if the wire is that of a fresh enrollment token with the right secret; otherwise nothing changes |
| `Handlers.ReplayRefused` | internal/auth/token.go:193-211 | a wire that enrolled a device is refused for ever, after any interleaving, and the refusal changes nothing |
| `Handlers.HandlerKeeps` | internal/api/devices.go:86-189 | every handler, stopped anywhere, keeps: at most one live device token per device, and only for existing devices |
| `Handlers.RunsKeep` | internal/api/devices.go:86-189 | so does every sequence of handlers, each stopped anywhere |
| `Handlers.RotateKeeps` | internal/api/devices.go:141-189 | a completed rotation leaves exactly one live token, the new one |
| `Handlers.DeleteKeeps` | internal/api/devices.go:86-106 | a completed deletion leaves neither device nor live token |
| `Handlers.RevokeRequestKeeps` | internal/api/devices.go:115-134 | a completed revocation leaves a revoked device without live token |
| `Handlers.RegisterKeeps` | internal/api/auth.go:211-281 | registration keeps the invariant, wherever it stops |
| `Handlers.RotatedAuthenticates` | internal/auth/middleware.go:72-111 | after a completed rotation a bearer authenticates as the device exactly with the new secret |
| `Handlers.OldTokensDie` | internal/api/devices.go:86-189 | a token live before a rotation, revocation or deletion never authenticates again, whatever transactions follow |
| `Handlers.RevokedForEver` | internal/store/sqlitestore/query.sql.sql.go:778-791 | a device token that a revocation by subject finds never authenticates again, whatever transactions of whatever handlers follow |
| `Handlers.LogoutForEver` | internal/api/auth.go:127-147 | after a completed logout no wire with the lookup of the caller's token authenticates for any kind, at any instant, after any run of transactions |
| `Handlers.LogoutExactly` | internal/api/auth.go:127-147 | logging out completes if and only if the caller has an existing token, and otherwise changes nothing |
| `Handlers.LoginExactly` | internal/api/auth.go:70-115 | a session is created if and only if operator, limiter and password allow it; which error the others get |
| `Handlers.LoginAuthenticates` | internal/auth/middleware.go:72-111 | the new session authenticates its operator with its secret until it expires, and no other wire of that lookup does |
| `Handlers.RegisterEffect` | internal/api/auth.go:211-281 | a completed registration has created the device in exactly the profiles of its enrollment token, and only its new token speaks for it |
| `Handlers.EnrollRefusal` | internal/auth/token.go:193-211 | why enrolling is refused: the first check that fails decides |
| `Handlers.StoppedRegister` | internal/api/auth.go:211-281 | a registration that stops early has done nothing before the enrollment and the enrollment alone before the new token |
| `Handlers.EnrollmentRegisters` | internal/api/auth.go:154-281 | a minted enrollment token, presented with its secret before it expires, registers a device into exactly the profiles it was minted for |
| `Handlers.HandlerIsSteps` | internal/api/devices.go:86-189 | a handler is the run of its transactions, so the interleaving results above apply to handlers |
| `Handlers.StepKeepsExactly` | internal/api/devices.go:86-189 | a transaction keeps the one-token invariant if and only if it is guarded: a live device token goes to an existing device without one, a deleted device has none |
| `Handlers.InterleavingExactly` | internal/api/devices.go:86-189 | over every interleaving of the handlers' transactions the invariant holds all along if and only if every transaction is guarded when its turn comes |
| `Handlers.HandlerGuarded` | internal/api/devices.go:86-189 | a handler that runs alone, stopped anywhere, has only guarded transactions |
| `Handlers.RunsGuarded` | internal/api/devices.go:86-189 | handlers in sequence are a run of guarded transactions that ends in the state the handlers leave |
| `Handlers.FirstUnguarded` | internal/api/devices.go:86-189 | the first transaction that is not guarded breaks the invariant, whatever came before it |
| `Handlers.InterleavedRotations` | internal/api/devices.go:141-189 | of two rotations that both revoke first, the second insertion is the unguarded one, and two live tokens remain |
| `Handlers.RotationOvertakenByDeletion` | internal/api/devices.go:141-189 | of a rotation overtaken by a deletion, the insertion is the unguarded one, and a live token of a missing device remains |
| `ImportMerge.AliasesFile.Import` | internal/app/import.go:88-208 | the document, the report and the error after one call: the refusals before reading, unreadable files, the limit, a preview, a write and a failing write |
| `ImportMerge.WrittenMeansChanged` | internal/app/import.go:192-207 | the report says written if and only if the document changed, and then it grew by exactly the aliases reported as added |
| `ImportMerge.SelectWinners` | internal/app/import.go:135-146 | the winner map holds the last definition of every name, and each superseded one is reported |
| `ImportMerge.IndexByName` | internal/app/import.go:124-127 | of several aliases with one name the last one counts |
| `ImportMerge.Classify` | internal/app/import.go:148-190 | the classification loop, with names claimed as it goes, gives every last definition the verdict that the untouched document alone determines |
| `ImportMerge.Place` | internal/app/import.go:153-189 | one last definition goes to exactly the list its verdict says |
| `ImportMerge.ImportAccounts` | internal/app/import.go:129-190 | every definition parsed is accounted for exactly once among added, unchanged, conflicting, superseded and refused |
| `ImportMerge.RedefinitionsExactly` | internal/app/import.go:135-146 | a definition is reported superseded if and only if its name is defined again, with the line of the next such definition |
| `ImportMerge.ConflictsExactly` | internal/app/import.go:164-174 | a conflict is reported if and only if an accepted last definition differs from the document's command |
| `ImportMerge.ReportedExactly` | internal/app/import.go:148-190 | the last definition of a name alone decides, on exactly stated conditions, whether the name is added and as what, kept, noted or refused and why |
| `ImportMerge.CallExactly` | internal/app/import.go:88-208 | when a call fails, what it reports, and when it changes the document |
| `ImportMerge.AddedNames` | internal/app/import.go:176-189 | added names are distinct, valid and not in the document |
| `ImportMerge.MergedCommand` | internal/app/import.go:148-207 | after a write every name keeps the command it had, and a new name has the command of its last definition; the old aliases are an untouched prefix and the limit holds |
| `ImportMerge.ImportAgain` | internal/app/import.go:88-208 | the same import after a successful one adds nothing, writes nothing and repeats every other finding |
| `OwnFile.OwnFileRecovered` | internal/app/import.go:88-208 | importing a generated file into an empty document recovers every alias in order |
| `OwnFile.OwnFileKept` | internal/app/import.go:88-208 | importing it into a document that has these commands changes nothing, whatever else the document holds |
| `SetupTokens.Tracker.Create` | internal/web/pages_setup.go:150-173 | expired entries go, a full table loses one entry that no other expires before, the token is entered with its expiry |
| `SetupTokens.Tracker.Consume` | internal/web/pages_setup.go:175-185 | expired entries go and the answer says whether the token was there; it is not there afterwards |
| `SetupTokens.Tracker.RemoveExpired` | internal/web/pages_setup.go:187-193 | exactly the entries that expire after now stay |
| `SetupTokens.Tracker.Oldest` | internal/web/pages_setup.go:162-168 | the scan with the zero time as sentinel finds a minimum whenever no expiry is the zero time |
| `SetupTokens.VictimExists` | internal/web/pages_setup.go:159-172 | a full table always has an entry to evict that no other expires before |
| `SetupTokens.Bounded` | internal/web/pages_setup.go:150-173 | over every run the table never exceeds its limit |
| `SetupTokens.RedeemedAtMostIssued` | internal/web/pages_setup.go:150-185 | over every run a token is redeemed at most as often as it was issued |
| `SetupTokens.HoldsExactly` | internal/web/pages_setup.go:150-193 | the table holds exactly the tokens that were issued and since then neither expired, redeemed, evicted nor issued anew |
| `SetupTokens.RedeemsExactly` | internal/web/pages_setup.go:175-193 | a redemption succeeds if and only if the token is one of these and now is strictly before its expiry |

## Left out

- The PowerShell renderer, its quoting and its profile: its quote doubling is the simpler version of the POSIX one. Sync treats it as a function; validation and filtering do cover PowerShell names.
- Of zsh: global aliases, that a white-space character given twice in IFS stops collapsing, and what the user's own prompt hooks do. The lines that only zsh files hold are given their meaning as whole lines.
- Shell options, shell functions that shadow the commands of generated files, and read-only variables; of a shell, the model has its aliases and variables, and of zsh the hooks and the functions that generated files define.
- Shell words of generated files that the user has aliased, such as an alias named `unset`: such configurations are excluded from the sourcing results by `Sourcing.HarmlessNames`.
- Sync.RunCarries: claimed for one shell and for attempts whose state save does not fail; `Sync.RunCarriesExactly` says for one shell what failing saves change.
- Domain.SortSorts: the sort in place over a slice is modelled as a function on sequences.
- Validate.FilterIdempotent: lower-casing is modelled for the characters whose lower case is ASCII, which is all that can make two valid names collide.
- Bootstrap.Installation.Uninstall: the other files that uninstalling deletes, and its prompt; those of init are left out too.
- Bootstrap.RcFile.AddBootstrap: the inserted line is a parameter; how it is built from paths and quoted for PowerShell is not modelled, and neither are file modes, symbolic links and atomic renames.
- Text.AtoiItoa: the 64-bit range error of integer parsing is not modelled; alias counts are at most five thousand.
- Ill-formed UTF-8: strings are sequences of code points, which is also what the source's length limits count.
- Message texts of errors and issues; only their kind and, where the program branches on it, their alias name.
- YAML and JSON, taken as lossless; size caps on files read.
- ImportMerge.AliasesFile.Import: how the startup file's path is found, and the size cap on reading it; either failure reads as an unreadable startup file.
- Columns that no modelled decision reads: client version, last-seen and updated stamps; device update and heartbeat; operators, audit records, profiles and alias storage.
- TokenStore.Store.DeleteDevice: the cascade to memberships is part of the step; foreign keys of other tables are not modelled.
- Handlers.Server.LogIn: what the operator lookup, the limiter and the password check found are parameters; the lifetime of sessions and enrollment tokens enters as an expiry time.
- The HTTP layer, sessions and cookies; the form and cookie comparison in front of the setup tokens.
- Argon2, random generation and base64: lookups, secrets, ids and hashes are parameters.
- The command line, templates, translations, JavaScript, the launch agent, Git sources and schema migrations.
