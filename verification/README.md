# ls-todo in Dafny

A model of `ls-todo`, a command-line tool that walks one or more directory
trees and prints every reminder comment it finds as
`path:row:col:text`. A reminder is a comment line that starts with one of
the verbs `TODO`, `FIXME` or `BUG` and has a colon after its first
character. The whole program lives in `src/main.rs`. This project models:

- `get_row_and_column` (`positions.dfy`, module `Positions`). It finds the
  first occurrence of a line at or after a cursor. It returns one more than
  the number of line feeds before that occurrence as the row. As the column
  it returns the occurrence minus the index of the last line feed before it,
  or minus 0 when there is none. Both values are cast to `u32`, and `AsU32`
  writes that cast out.
- The reminder filter (`filter.dfy`, module `ReminderFilter`). It combines
  the regular expression `^[A-Z]+.*:` with the `ALLOWED_VERBS` prefix test.
  The regular expression is given twice: once as the ghost predicate
  `RegexMatches`, which follows the expression's meaning, and once as the
  executable `PatternMatches`. They are proved equal.
- `list_reminders` (`filescan.dfy`, module `FileScan`). This is the fold
  over the comments of one file and the lines of each comment. It threads
  the search cursor: after each reminder, the cursor moves one past the
  occurrence it found. A comment is trimmed at its start and then split with
  `str::lines`.
- `main` (`scanner.dfy`, module `Scanner`). The roots default to `"."`. Every
  walk entry is visited. Entries that are not files are skipped. A file whose
  canonical path was already seen is skipped too. Every canonical path that
  gets listed is remembered.
- The part of Rust's `str` API these rely on (`strings.dfy`, module
  `Strings`). This covers `find` on a suffix, `rfind`, counting a character,
  `trim_start` with Unicode White_Space, and `lines`. `lines` splits at
  `'\n'`. It drops a `'\r'` only from a line that a `'\n'` ended, and it
  yields no trailing empty line.
- A worked example (`samples.dfy`, module `Samples`): a file holding the same
  reminder line twice.

Some parts of the program are not modelled and become inputs instead:

- The comment parser is a `Source`. It is either `Unsupported`, or the file
  text together with the text of each comment.
- The directory walk is a function from a root to a sequence of
  `WalkItem`s. Each item is either a walk error or an entry carrying its
  path, whether it is a file, its canonical path, and its `Source`.
- Output is the sequence of `Printed` records that `println!` would format.

Strings are sequences of characters. The program indexes its text by byte,
so the model assumes every character is one byte long (ASCII text).

The program aborts where it calls `unwrap` on a search that found nothing.
The model has three matching pieces:

- `GetRowAndColumn` requires the occurrence to exist.
- The per-file fold yields an explicit `Panicked` listing.
- A panicking file ends the run with `aborted` set.

`PlacedCommentsNeverPanic` shows when no panic can happen. That is the case
when the comment texts really sit in the file text, in order and without
overlapping, as a comment parser reports them.

## Model

| member | source | states |
|---|---|---|
| Strings.FindFrom | src/main.rs:18 | a search from index `i` returns the first index at or after `i` where the needle occurs, and returns nothing only when it occurs nowhere from `i` on |
| Strings.Find | src/main.rs:18 | `str::find` returns the first occurrence, and returns `None` exactly when the needle occurs nowhere |
| Strings.FindInSuffix | src/main.rs:18 | `contents[from..].find(substr)` plus `from` is the first occurrence at or after `from`, and the search succeeds exactly when such an occurrence exists |
| Strings.Occurrence | src/main.rs:52 | the unwrapped search for the cursor update yields the first occurrence at or after the cursor; it can only be called where one exists |
| Strings.RFindMeans | src/main.rs:20 | `rfind('\n')` yields a line feed with no line feed after it, and `None` only when the text has no line feed |
| Strings.CountCharMeans | src/main.rs:19 | counting the line feeds among the leading characters gives their multiplicity in the multiset of those characters |
| Strings.IndexOf | src/main.rs:39 | the first index of a character: it holds that character, no earlier index does, and the result is `None` only when the character is absent |
| Strings.TrimStart | src/main.rs:38 | `trim_start` returns a suffix of the text; every character it drops is whitespace and its first remaining character is not |
| Strings.Lines | src/main.rs:39 | no line that `lines` yields contains a line feed, and empty text yields no lines at all (that the lines cover the text is `LinesCover`) |
| Strings.LinesCover | src/main.rs:39 | `lines` loses no text: the first line starts at 0, and each line is followed directly by the end of the text, a `"\n"` (the line not ending in `"\r"`) or a `"\r\n"`, after which the next line starts |
| Strings.LinesAnchored | src/main.rs:39 | every line that `lines` yields is a piece of the text, at strictly increasing offsets inside it |
| Positions.AsU32 | src/main.rs:19-20 | the `as u32` cast yields a value below 2^32 and changes nothing below that |
| Positions.PositionOfMeans | src/main.rs:19-20 | of `PositionOf`, the model of these two lines: the row is the cast of one plus the line feeds before the occurrence; the column is the cast of the occurrence on the first line, and of its distance from the last line feed before it on later lines |
| Positions.GetRowAndColumn | src/main.rs:17-23 | the position returned is that of the first occurrence of the line at or after `from`; it needs an occurrence to exist |
| Positions.PositionBounds | src/main.rs:19-20 | for text shorter than 2^32 - 1 characters, the row is at least 1; the column is the offset itself on the first line and at least 1 on later lines |
| Positions.PositionsIncrease | src/main.rs:17-23 | a later offset gets a position later in reading order: a larger row, or the same row with a larger column |
| Positions.LineStartColumn | src/main.rs:20 | the first character of a line gets column 0 on the first line of the text and column 1 on every later line |
| Positions.PositionFromOneUniform | src/main.rs:17-23 | the corrected position has the same row and, on every line, the column 1 + the characters from the start of the line; it differs from the column as written only on the first line, by one |
| ReminderFilter.PatternMatchesRegex | src/main.rs:28 | the executable pattern test accepts a line exactly when `^[A-Z]+.*:` matches it |
| ReminderFilter.StartsWithAny | src/main.rs:42 | the `any` over the verbs holds exactly when the line starts with one of them |
| ReminderFilter.ReminderLineMeans | src/main.rs:40-43 | of `IsReminderLine`, the two stages as modelled: a single line passes both exactly when it starts with `TODO`, `FIXME` or `BUG` and contains a colon after its first character |
| ReminderFilter.KeepRemindersExact | src/main.rs:39-43 | of `KeepReminders`, the filter over the lines of one comment: the lines kept from a comment are reminder lines, and each reminder line is kept exactly as many times as it occurs |
| ReminderFilter.IndentedLineRejected | src/main.rs:38-40 | a line that starts with whitespace is never a reminder |
| ReminderFilter.NoteRejected | src/main.rs:40-43 | `NOTE: x` passes the pattern but not the verb allow-list |
| ReminderFilter.ColonRequired | src/main.rs:40 | `TODO fix` has no colon and is rejected |
| ReminderFilter.PrefixAccepted | src/main.rs:42 | the allow-list is a prefix test, so `TODOS: x` is accepted |
| FileScan.Locate | src/main.rs:45-52 | one reminder step fails exactly when the cursor is past the text or the line does not occur at or after it; otherwise it records the first such occurrence and the position there |
| FileScan.ScanLines | src/main.rs:39-53 | without a panic, the reminders of one comment are its kept lines in order; each sits at the first occurrence after the previous one and carries the position of that occurrence |
| FileScan.ScanComments | src/main.rs:36-54 | without a panic, the reminders of a file are the kept lines of all its comments in order; one cursor is threaded through all of them |
| FileScan.ListReminders | src/main.rs:25-57 | there is no listing exactly for a file without comment syntax; a listing holds one reminder per reminder line of the comments (`ReminderLinesOf`: the kept lines of each trimmed comment, comment after comment), with that line as its text |
| FileScan.ChainedFacts | src/main.rs:36-52 | along the threaded cursor every reminder's text occurs at its offset, no earlier than the start, and the offsets strictly increase |
| FileScan.ListedFollowsCursor | src/main.rs:36-56 | a listing is exactly what threading the cursor from 0 yields, each reminder carrying the position of its occurrence |
| FileScan.ListedReminderPositions | src/main.rs:45-52 | each reported reminder's position is that of an occurrence of its text; for text under 2^32 - 1 characters the positions strictly increase, so identical lines get distinct positions |
| FileScan.CommentLinesAnchored | src/main.rs:37-39 | the lines of a trimmed comment lie inside that comment's place in the file, at increasing offsets |
| FileScan.PlacedCommentsNeverPanic | src/main.rs:45-52 | when the comments sit in the file text in order and without overlapping, no search is unwrapped in vain and the file is listed |
| Scanner.SearchRoots | src/main.rs:60-64 | with no path arguments the only root is `"."`; otherwise the roots are the arguments after the program name, in order |
| Scanner.Visit | src/main.rs:69-85 | visiting an entry only adds to the printed output and to the set of seen canonical paths |
| Scanner.VisitEntries | src/main.rs:68-86 | the walk of one root only extends the output and the seen set, and changes nothing once a panic has ended the run |
| Scanner.VisitRootsFlat | src/main.rs:67-87 | of `VisitRoots`, the outer loop of `main`: walking the roots one after another is the same as one walk over all their entries in order |
| Scanner.ExecuteMatchesReference | src/main.rs:59-88 | of `Execute`, the model of `main`: without a panic, the run prints the reminders of each file entry whose canonical path no earlier file entry had; it ends having seen every file's canonical path |
| Scanner.SeenEntriesAddNothing | src/main.rs:76 | entries whose canonical paths were all seen before add nothing to the output |
| Scanner.RepeatedRootAddsNothing | src/main.rs:66-87 | naming a root again, after it was already given, changes neither what is printed nor what is seen |
| Samples.CarriageReturnLines | src/main.rs:39 | `"a\r\nb"` splits into `a` and `b`, while `"a\r"` stays one line `a\r` |
| Samples.TrailingNewlineLines | src/main.rs:39 | `"a\n\n"` splits into `a` and an empty line, with no empty line after the final `"\n"` |
| Samples.RepeatedLineReportedTwice | src/main.rs:17-57 | two comments `TODO: a` on two lines of a file are reported at row 1 column 3 and at row 2 column 4, not both at the first place |

## Findings

| source | as written | input that shows it | evidently intended | confidence | as-written member | corrected member |
|---|---|---|---|---|---|---|
| src/main.rs:20 | the column is the occurrence minus the index of the last line feed, or minus 0 when there is none, so a line's first character is column 0 on line 1 and column 1 on every other line | the text `TODO: a` gives column 0 for `TODO`; the text `"\nTODO: a"` gives column 1 for it | one column convention on every line, counting from the start of the line (1-based, as on every line but the first) | high; not executed | Positions.LineStartColumn | Positions.PositionFromOneUniform |

`PositionFromOne` is the corrected position. The scanner model keeps the
column as written, because that is what the program prints.

## Left out

- File reading (`fs::read_to_string`, src/main.rs:34) and its panic on unreadable or non-UTF-8 files are not modelled. `Source` carries the text as an input.
- The comment parser (`comment_parser`, src/main.rs:30-35) is an input. `Source` holds the comment texts in the order the parser yields them.
- The directory walk (`ignore::Walk`, src/main.rs:68), `is_file` and `canonicalize` are inputs, given as fields of each `WalkItem`. The panic of the `canonicalize` unwrap (src/main.rs:75) is not modelled.
- The formatting of `println!` (src/main.rs:81) is not modelled. Only the four printed fields are kept.
- Positions: byte offsets are modelled as character indices. The program mixes a byte offset with a count of characters (`chars().take(occurence)`, src/main.rs:19). For text with multi-byte characters the two differ, and a byte slice inside a character panics. The model only covers one-byte characters.
- Positions.PositionsIncrease and FileScan.ListedReminderPositions: ordering is stated only for text shorter than 2^32 - 1 characters. For longer text the `u32` cast can wrap around.
- Scanner.ExecuteMatchesReference and Scanner.RepeatedRootAddsNothing are stated only for runs in which no file panics. A panic aborts the process, and `VisitEntries` states that nothing changes after it.
- Strings.Lines: `str::lines` follows the current standard library, which drops a `"\r"` only before a `"\n"`. Older versions also dropped a final `"\r"` with no `"\n"` after it. The repository pins no toolchain, and that older behaviour is not modelled.
- The regular expression engine is replaced by the predicate `RegexMatches` for the one pattern used. Other patterns are not modelled.
