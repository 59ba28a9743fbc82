# Line-oriented file store

A Dafny model of the server of a small web service that reads, appends to
and deletes lines of text files. A logical file name `name` resolves to the
file `name.txt` under one fixed root directory. Three routes act on that file:

- **get-lines** answers 404 when the file is absent, otherwise 200 with the
  file's lines;
- **add-line** answers 400 for empty content, otherwise appends `"\n"`
  followed by the content (creating the file if needed) and echoes the
  content back;
- **delete-line** answers 404 when the file is absent, 400 when the 1-based
  line number is outside `[1, number of lines]`, otherwise removes that line,
  rewrites the file as the remaining lines joined by `"\n"` (no newline added
  after the last line) and returns the remaining lines.

The model has two modules:

- `LineText` (`line_text.dfy`): the text side. `Split` gives the segments of
  a text between newlines. `Lines` gives the lines a line reader yields: the
  segments without a final empty one. `Join` is the inverse direction. The
  method `ReadLines` is the streaming reader, a loop that accumulates
  characters into the current line, proved to produce `Lines`. The lemmas
  give both round trips. Joining the lines of a text gives the text back,
  less a final newline. Reading back joined lines gives the same lines
  exactly when the last one is not empty. Appending `"\n" + value` adds the
  value's lines after all old segments.
- `LineStore` (`line_store.dfy`): the directory of text files as a class
  `FileLineStore` whose field `files` maps a path to the file's content. The
  three routes are methods that return a `Response` (status and body). Their
  contracts give the new `files` map in full. They also state the guards, the
  status codes and the error messages, and say what a later read returns.
  The scenario methods derive the concrete behaviours from these contracts
  alone. Appending `a` and then `b` to a missing file reads back as
  `["", a, b]`. Deleting line 2 of `x\ny\nz` leaves `x\nz`.

Three consequences of the source's behaviour are proved rather than hidden:

- The first append to a missing or newline-terminated file leaves an empty
  line before the new one (`AppendOneLine`).
- After a delete whose remaining last line is empty, the rewritten file
  reads back as the returned lines without that last empty line. The file
  ends with the separator before that empty line, or is empty, and a reader
  drops a final empty segment (`LinesOfJoin` and the last `ensures` of
  `DeleteLine`).
- A file written only by appends, starting from nothing, reads back as an
  empty line followed by the appended lines in order (`AppendOnlyLines`).

## Model

| member | source | states |
|---|---|---|
| LineText.Split | server/index.js:19-31 | there is at least one segment, and no segment contains a newline |
| LineText.Lines | server/index.js:19-31 | no line contains a newline; there are no lines exactly when the content is empty |
| LineText.ReadLines | server/index.js:19-31 | the line-by-line reading loop returns exactly `Lines(content)` |
| LineText.SplitCount | server/index.js:19-31 | a text has one more segment than it has newline characters |
| LineText.LastSegmentEmpty | server/index.js:19-31 | the last segment is empty exactly when the text is empty or ends with a newline, which is when the reader drops it |
| LineText.SplitNoNewline | server/index.js:19-31 | a text without a newline is a single segment |
| LineText.SplitConcat | server/index.js:68 | the segments of `a + "\n" + b` are those of `a` followed by those of `b` |
| LineText.Join | server/index.js:97 | the joined text starts with the first line and, when the last line is non-empty, ends with the last character of the last line, so no newline is added after the last line |
| LineText.JoinSplit | server/index.js:97 | joining the segments of any text with `"\n"` gives the text back |
| LineText.SplitJoin | server/index.js:97 | splitting newline-free lines joined by `"\n"` gives the lines back |
| LineText.JoinLines | server/index.js:87-97 | joining the lines read from a file reproduces its content, less a final newline if it had one |
| LineText.LinesOfJoin | server/index.js:97 | writing newline-free lines joined by `"\n"` and reading them back gives the same lines if and only if there are none or the last is non-empty; when the last is empty, the read-back is the lines without it |
| LineText.AppendLines | server/index.js:68 | after appending `"\n" + value` (value non-empty) the lines are all old segments followed by the value's lines |
| LineText.AppendOnlyLines | server/index.js:58-74 | a file created and written only by appends of non-empty single lines reads back as `""` followed by those lines in order, and never ends with a newline |
| LineText.AppendOneLine | server/index.js:68 | appending a single line adds it after the old lines, with an extra empty line first when the old content was empty or ended with a newline |
| LineStore.FilePath | server/index.js:42 | the path is the logical name followed by `.txt` |
| LineStore.FilePathInjective | server/index.js:34-38 | two logical names resolve to the same `.txt` path if and only if they are equal; this holds for paths keyed by `name + ".txt"` as modelled, and in the source only for names without separators or `.`/`..` segments, since `path.join` normalises |
| LineStore.RemoveLine | server/index.js:94 | removing 1-based line k leaves one line fewer; the lines before k keep their positions, and the lines after it move up by one |
| LineStore.RemoveLineMultiset | server/index.js:94 | removing a line takes out exactly that line: the remaining lines plus it are the original lines as a multiset |
| LineStore.FileLineStore.GetLines | server/index.js:41-55 | status 200 if and only if `name.txt` exists; 404 "File not found" when absent; otherwise 200 with `Lines` of its content; the store is not modified |
| LineStore.FileLineStore.AddLine | server/index.js:58-74 | empty content: 400 "No content provided" and no write. Otherwise 200 echoing the content, with `name.txt` set to its old content (or empty if absent) followed by `"\n"` and the content. No other file changes. For a single line, the new lines are the old lines, an empty line if the old content was empty or newline-terminated, then the new line |
| LineStore.FileLineStore.DeleteLine | server/index.js:77-103 | absent file: 404 and no write. Line number outside `[1, n]`: 400 "Invalid line number" and no write. Otherwise 200 with `RemoveLine(lines, k)`, and `name.txt` is set to those lines joined by `"\n"`; no other file changes. Reading the file back gives the returned lines if and only if they are empty or the last one is non-empty, and otherwise gives them without the last empty line |
| LineStore.ThreeLines | server/index.js:19-31 | three non-empty newline-free lines joined by `"\n"` read back as those three lines |
| LineStore.DeleteMiddle | server/index.js:94-97 | removing line 2 of three non-empty lines x, y, z leaves `[x, z]`, which are written as `x + "\n" + z` |
| LineStore.AppendScenario | server/index.js:58-74 | appending `a` then `b` to a missing file reads back as `["", a, b]` |
| LineStore.DeleteOutOfRangeScenario | server/index.js:89-91 | on a three-line file, line numbers 0 and 4 give 400 and leave the store unchanged |
| LineStore.DeleteScenario | server/index.js:93-99 | deleting line 2 of `x\ny\nz` returns `[x, z]` and leaves the file holding exactly `x\nz` |
| LineStore.DeleteMissingScenario | server/index.js:82-84 | deleting from a missing file gives 404 and leaves the store unchanged |

## Left out

- HTTP plumbing (Express setup, CORS, JSON body parsing, the static bundle, the catch-all route, `listen`, the port) has no logic of its own. It is not modelled. Responses are values of `Response`, not JSON on a socket.
- Root directory selection by `NODE_ENV` and `path.join` normalisation are not modelled. The root is fixed, and `files` is keyed by `name + ".txt"`. Path traversal through a name holding separators or `..` is not modelled either.
- The line reader's own handling of `\r` and `\r\n` is library behaviour that is not visible here. Lines are split on `'\n'` only, and a final empty segment is dropped.
- LineText.ReadLines: the reader streams the file asynchronously. The model scans the content, already in memory, with a loop.
- LineStore.FileLineStore.DeleteLine: the line number is an already-parsed integer. String parsing is not modelled, and neither is its `NaN` case. With `NaN`, a non-numeric segment passes the range check, and the splice then removes the first line. On an empty file it rewrites the file as empty and answers 200.
- LineStore.FileLineStore.AddLine: the content is a string, and the empty string is the rejected case. How JavaScript's truthiness treats non-string JSON values (numbers, `false`, objects) is not modelled.
- The 500 answers for read or write failures, and any partial write, are not modelled: in this model the filesystem does not fail.
- Concurrency is not modelled: operations run one at a time. Interleaved read-modify-write cycles of two deletes can lose an update in the source, and that is not captured.
- Strings are sequences of `char`. Encoding (UTF-8 on disk) is not modelled.
- The browser client `client/my-app/src/api.jsx` is not part of this model. It is a network wrapper that turns every failure into `[]` or `null`.
