# cmd-saver, modelled in Dafny

`saver` is a personal command bookmarking tool. It stores a named shell command
as a one-line text file in a database directory (by default `$HOME/.saver/db`).
Later it lists, shows, re-runs or deletes these records. This project models
its single `Saver` component (`src/lib.rs`) in five modules:

- `Text` (`text.dfy`): the string functions of Rust's standard library that
  the component relies on, with their properties. These are `trim` (with
  Unicode whitespace as in `char::is_whitespace`), `split(" ")`, `join(" ")`
  and the decimal rendering of list indices.
- `Intent` (`intent.dfy`): the argument interpreter `Saver::build`. The
  method `Build` walks the argument vector once, as the source does. It is
  proved equal to `Parse`, a declarative statement of the same rules.
  `Parse` rejects a missing or unknown action letter and empty positional
  tokens. It resolves the default directory from `HOME`. It then scans the
  trailing tokens for `--saver-db <dir>`. Lemmas characterise the scan
  position by position: which tokens become arguments and in what order,
  which token becomes the directory (the last one wins), and what a dangling
  option does (nothing).
- `Codec` (`codec.dfy`): the record format. The content written by
  `save_cmd` is `cmd + " " + join(args, " ")`. The Run action decodes it by
  splitting, trimming, and taking the head and the tail. The round trip is
  proved, and so are its two exceptions: no arguments gives one empty
  argument, and an argument holding a space comes back as two.
- `Store` (`store.dfy`): the database as a class `FileSystem`. Its field
  `dirs` maps each existing database directory to its records (name to
  content). It has methods `CreateDbDir`, `SaveCmd`, `GetCmd`, `DeleteCmd`
  and `List`. Each method states the whole new state. Operating-system
  failures are parameters.
- `Dispatch` (`dispatch.dfy`): `Saver::run`, `run_cmd`, and the entry point
  of `main.rs` as `Execute`. Each way the process ends is a value of
  `Outcome`, and `ExitCode` gives its exit status. These include the help
  exit, the direct exits from `get_cmd`, `delete_cmd` and `run_cmd`, errors
  returned to `main`, the panic of `list`, and the child's own exit. The predicate `Dispatched`
  specifies one invocation as a relation between the directories before and
  after. The relation is needed because the OS decides the listing order.
  Lemmas on `Dispatched` cover several invocations in a row: save then run,
  save twice then show, delete then read.

Behaviours of the code worth noting:

- Saving `echo` with the single argument `hi` writes `echo hi`, with no
  trailing space (`src/lib.rs:253-256`). A record ends in a space exactly when
  there are no arguments, or the last argument is empty or ends in a space
  (`Codec.EncodeEndsInSpace`). Trailing tokens are never checked for being
  empty, so `saver s n echo ""` stores the same record as `saver s n echo`
  (`Codec.EmptyArgumentLikeNone`).
- The home directory is looked up before the positional tokens are checked
  (`src/lib.rs:60`). So with an unknown `HOME`, `saver s` ends in the
  missing-home exit, not in usage help. An unknown action letter still gives
  help first.
- A token after `--saver-db` that is itself `--saver-db` (after trimming) is
  not taken as the directory. It keeps the next token marked as the
  directory (`src/lib.rs:91-94`).

## Model

| member | source | states |
|---|---|---|
| `Text.TrimStartDropsLeadingWhitespace` | src/lib.rs:91 | `trim_start` removes a prefix made only of whitespace and leaves a string that is empty or starts with a non-whitespace character |
| `Text.TrimEndDropsTrailingWhitespace` | src/lib.rs:91 | `trim_end` removes a suffix made only of whitespace and leaves a string that is empty or ends with a non-whitespace character |
| `Text.TrimKeepsInfix` | src/lib.rs:162 | `trim` returns the infix of its input between the leading and trailing whitespace; what it drops is whitespace and what it keeps is trimmed |
| `Text.TrimFixesExactlyTrimmed` | src/lib.rs:162 | trimming leaves a string unchanged if and only if it has no surrounding whitespace |
| `Text.SplitPieces` | src/lib.rs:161 | `split(" ")` yields one piece more than there are spaces (so never zero pieces), and no piece contains a space |
| `Text.JoinSplit` | src/lib.rs:159-163 | joining the pieces of a split with single spaces gives back the original string |
| `Text.SplitJoin` | src/lib.rs:159-163 | splitting the space-join of one or more space-free pieces gives back exactly those pieces |
| `Text.Decimal` | src/lib.rs:194-197 | the 1-based index is printed as ASCII digits with no leading zero |
| `Text.DecimalRoundTrip` | src/lib.rs:194-197 | reading back the printed index gives the index |
| `Text.DecimalInjective` | src/lib.rs:194-197 | different indices print differently |
| `Intent.ActionOf` | src/lib.rs:45-54 | an action is selected only by exact equality with its own letter; any other token selects none |
| `Intent.ActionOfLetter` | src/lib.rs:45-54 | each of the five actions is selected by its letter `s`, `l`, `g`, `r`, `d` |
| `Intent.Scan` | src/lib.rs:90-101 | after the trailing scan, a directory is pending exactly when the last token is the option |
| `Intent.ScanArgsNotFlags` | src/lib.rs:91-100 | no argument the scan collects is the option itself |
| `Intent.Parse` | src/lib.rs:24-125 | the missing-home exit happens exactly when a known action letter is given and `HOME` is absent; a built intent's action is the one its second token selects, and enough tokens were present for its positionals |
| `Intent.Build` | src/lib.rs:24-110 | the single forward pass over the arguments (skip the program name, match the action, consume and check the positionals, then scan the rest) computes exactly `Parse` |
| `Intent.ScanTrailing` | src/lib.rs:90-101 | the loop over the remaining tokens ends in exactly the state `Scan` describes: directory, pending option and collected arguments |
| `Intent.ArgPositionsExact` | src/lib.rs:90-101 | the argument positions are listed once each, in increasing order: exactly the tokens that are neither the option nor right after one |
| `Intent.ScanKeepsArgsInOrder` | src/lib.rs:90-101 | the command's arguments are exactly the trailing tokens that are neither the option nor the token right after it, in their original order |
| `Intent.ScanKeepsDefault` | src/lib.rs:60-101 | without a directory after an option, the database directory stays the default |
| `Intent.ScanLastOverrideWins` | src/lib.rs:95-98 | with several overrides, the directory is the last token that follows an option |
| `Intent.DanglingFlagIgnored` | src/lib.rs:91-94 | a final option with nothing after it changes neither the directory nor the arguments, and is not an error |
| `Intent.ScanWithoutFlags` | src/lib.rs:100 | when no trailing token is the option, all of them become the command's arguments unchanged |
| `Intent.ParseIgnoresProgramName` | src/lib.rs:25 | the first token never influences the result |
| `Intent.ParseHelpExactly` | src/lib.rs:33-88 | usage help (exit 1) happens if and only if the action token is missing or not one of the five letters, or `HOME` is known and Save lacks a non-empty name or command, or Show/Run/Delete lacks a non-empty name; a missing token counts as empty |
| `Intent.ParseBuiltFields` | src/lib.rs:56-88 | a built intent takes its name from the third token and, for Save, its command from the fourth, both non-empty; List has empty name and command; only Save has a command; no argument is the option |
| `Intent.DefaultDbDir` | src/lib.rs:112-125 | the default database directory is the home directory followed by `/.saver/db` |
| `Intent.ParseDefaultDbDir` | src/lib.rs:112-125 | without the option, the database directory is `HOME` followed by `/.saver/db`, and the trailing tokens are the arguments as given |
| `Intent.ParseRedirectsDbDir` | src/lib.rs:90-101 | arguments ending in `--saver-db <dir>` put the database in `<dir>`, whatever `HOME` is |
| `Codec.Encode` | src/lib.rs:251-256 | the record starts with the command followed by one space, written even without arguments; what follows is stated by `EncodeWithArguments` and `EncodeEndsInSpace` |
| `Codec.EncodeSeparators` | src/lib.rs:253-256 | without spaces inside the tokens, a record holds one separator per argument (one when there are none), so decoding it finds that many arguments |
| `Text.JoinSpaces` | src/lib.rs:256 | joining space-free pieces puts exactly one space between neighbours |
| `Codec.Decode` | src/lib.rs:159-164 | decoding always yields a program, with one argument per space in the content; every piece is trimmed and space-free |
| `Codec.DecodeEncode` | src/lib.rs:159-165 | decoding a saved record gives back its command and arguments when there is at least one argument and every token is free of spaces and surrounding whitespace |
| `Codec.DecodeEncodeNoArgs` | src/lib.rs:253-256 | a record saved without arguments is the command plus one space, and runs with a single empty argument |
| `Codec.EmbeddedSpaceSplitsArgument` | src/lib.rs:159-163 | an argument holding a space is stored exactly like two arguments and comes back as two |
| `Codec.EncodeWithArguments` | src/lib.rs:253-256 | with at least one argument, the record is the command and the arguments joined by single spaces, with no separator after the last argument |
| `Codec.EncodeEndsInSpace` | src/lib.rs:253-256 | a record ends in a space if and only if there are no arguments, or the last argument is empty or ends in a space |
| `Codec.EmptyArgumentLikeNone` | src/lib.rs:253-256 | a single empty argument is stored exactly like no arguments |
| `Text.JoinSnoc` | src/lib.rs:256 | joining a list with one more piece appends a space and that piece |
| `Store.ListLineInjective` | src/lib.rs:194-198 | a listing line determines both its index and its record name |
| `Store.ListLinesDistinct` | src/lib.rs:193-199 | the lines of a listing are pairwise distinct |
| `Store.FileSystem.CreateDbDir` | src/lib.rs:176-188 | nothing happens when the directory exists; otherwise it is created empty, or the OS error text is returned and nothing changes; it succeeds exactly when the directory exists afterwards, so a second call is a no-op |
| `Store.FileSystem.SaveCmd` | src/lib.rs:251-267 | the record is created or overwritten with the encoded content and nothing else changes; a failed create changes nothing and a failed write leaves the record empty, both returning "Failed to save cmd" |
| `Store.FileSystem.GetCmd` | src/lib.rs:235-249 | returns the record's content exactly when the directory and the record exist, and reports not-found otherwise |
| `Store.FileSystem.DeleteCmd` | src/lib.rs:221-233 | removes exactly that record when it exists and reports not-found, changing nothing, when it does not |
| `Store.FileSystem.List` | src/lib.rs:189-201 | lists every record of the directory exactly once, in some order, as `i) name` with `i` running from 1; fails (an `unwrap` panic) exactly when the directory is missing or the operating system fails to enumerate it |
| `Dispatch.RunCmd` | src/lib.rs:204-219 | the child gets the given program and arguments; the exit status is the child's code, 0 when it has none, and 1 when it cannot be spawned |
| `Dispatch.Run` | src/lib.rs:150-174 | ensure the directory first, failing with its error; then Save persists and runs the in-memory command, List prints the listing, Show prints the content, Run decodes and runs the record, and Delete removes it; not-found ends Show/Run/Delete, and a listing failure panics |
| `Dispatch.Execute` | src/main.rs:6-12 | usage help and the missing-home exit leave the filesystem untouched; otherwise the built intent is dispatched |
| `Dispatch.DirectoryExistsAfterwards` | src/lib.rs:176-188 | every action leaves the database directory in place unless creating it failed; with an existing directory only Save can return an error |
| `Dispatch.ReadingActionsDoNotWrite` | src/lib.rs:157-170 | List, Show and Run change nothing except possibly creating the database directory |
| `Dispatch.OtherRecordsUnchanged` | src/lib.rs:150-174 | an invocation removes no directory, creates none but its own, and leaves every other directory as it was; in its own directory, records of other names keep their content and no record of another name appears |
| `Dispatch.SaveThenRunReplays` | src/lib.rs:153-166 | running a record saved with word-only arguments starts the saved command with the saved arguments, and writes nothing |
| `Dispatch.LatestSaveWins` | src/lib.rs:153-170 | after two saves under one name, showing it prints only the later content |
| `Dispatch.DeleteThenNotFound` | src/lib.rs:221-249 | after a delete, showing, running or deleting the same name is not-found with exit status 1 |
| `Dispatch.MissingRecordExitsOne` | src/lib.rs:221-249 | Show, Run or Delete of an absent name is not-found with exit status 1, and changes nothing except creating a missing database directory |
| `Dispatch.ListPrintsOneLinePerRecord` | src/lib.rs:189-201 | listing panics (status 101) exactly when the directory cannot be enumerated; otherwise it prints as many distinct lines as there are records, none for an empty directory, and exits with 0 |

## Left out

- Filesystem: the database is a map from directory path to records. Paths are opaque keys: `Path::join`, names containing `/`, and the parent directories made by `create_dir_all` are not modelled.
- Operating-system failures are inputs of `Effects`: the error text of a failed directory creation, a failure of `File::create` or `fs::write`, a failure while listing the directory (`listFails`), and the child's status. A record file that exists but cannot be read (permissions, invalid UTF-8) cannot be represented in the map: `get_cmd` reports it as not found, as `GetCmd` does for an absent name, but the source's `list` still prints a line for it and `delete_cmd` still removes it, which `List` and `DeleteCmd` do not capture. A delete that fails for a reason other than absence is not modelled.
- The order of `read_dir` is the operating system's. `List` picks the next name arbitrarily, and only the count, the uniqueness and the 1-based numbering are stated.
- Process spawning: the child is not run. Its exit status or spawn error is an input. The blank line printed before spawning and the inherited standard streams are not modelled. Exit codes are unbounded integers rather than `i32`.
- Environment: `HOME` is a parameter `Option<string>`. The fallback to `/tmp` for a `HOME` that is not valid Unicode is not modelled.
- Output presentation: the text of the usage help and the choice between standard output and standard error are represented only by the kind of `Outcome`. `main` printing a returned error is `Failed(message)`.
- `Store.FileSystem.List`: the panics of the `unwrap` calls in `list` are the `None` result, and `Dispatch.Run` turns them into `Panicked` with status 101. The missing-directory case cannot arise there, because the directory is created first. A failure to enumerate an existing directory or one of its entries, and a file name that is not valid UTF-8, are the input `listFails`. The lines printed before a failing entry are not modelled: the whole listing is then `Panicked`.
