# SSH service of 1Panel, modelled in Dafny

1Panel's host SSH service (`backend/app/service/ssh.go`) does two jobs.

- **Settings.** It reads and edits the sshd configuration:
  - `GetSSHInfo` reports six settings, each starting from sshd's default.
  - `updateSSHConf` rewrites one `key value` line in the configuration.
- **Login log.** It answers the panel's "SSH login log" query (`LoadLog`):
  1. It collects the `secure*` and `auth*` log files and orders them (`sortFileList`).
  2. It filters each file's lines by outcome and keyword.
  3. `loadSSHData` visits each file's lines from last to first.
  4. A positional parser turns each sshd line into a login record: success, failed password, or connection closed during authentication.
  5. Every record is counted. Only one page of the combined record stream is kept.

The model is split into these modules:

| module | models |
|---|---|
| `GoStrings` | The Go library functions the service relies on, written out over `string`: `strings.HasPrefix`, `strings.HasSuffix`, `strings.TrimSuffix`, `strings.Index`, `strings.Contains`, `strings.ReplaceAll`, `strings.Fields`, `strings.Split(...)[1]`, `path.Base`, and Go's `<` on strings. |
| `SshHistory` | The login record, the classification of a line by its markers, and the three line parsers. |
| `LogSources` | The walk's per-entry registration decision, the log family of a file, and the grep pipeline of each family and outcome, stated as a predicate on lines. |
| `FileOrder` | `sortFileList`. The caller's array is sorted in place; `sort.Slice` is modelled by an insertion sort. The secure family's re-slicing is modelled exactly as written. |
| `LogQuery` | `loadSSHData`, a reverse loop over one file's lines, and `LoadLog`, a loop over the files that shifts the window left. Both are proved against specification functions. Each file's record stream is a function of its lines. The page is `Window(stream, (page-1)*size, page*size)` over the concatenated streams. |
| `SshConf` | `updateSSHConf` (two passes and the `hasKey` flag), proved equal to a three-tier rewrite function, and the configuration loop of `GetSSHInfo`, proved equal to "the last line wins, else the default". |

What is proved, in the service's terms:

- **Login log query**
  - The page `LoadLog` returns is exactly the slice `[(page-1)*size, page*size)` of the concatenation of every file's records, each file read from its last line to its first.
  - Consecutive pages tile that stream with no overlap and no gap.
  - `TotalCount` is the stream's length. `FailedCount` and `SuccessfulCount` are its failure and success counts, and they add up to `TotalCount`.
  - Under the "Failed" filter every record is a failure.
- **Line parsers and classification**
  - A line shorter than 14 fields gives the zero record and is neither counted nor kept.
  - Classification follows the priority "Failed password for", then "Connection closed by authenticating user", then "Accepted ".
  - For a line of whitespace-separated tokens, each parser returns the tokens at its documented positions. Any run of white space may separate the tokens, such as the two spaces before a one-digit day.
- **File ordering (`sortFileList`)**
  - When the first file is not in the secure family, the result is a sorted permutation of the input.
  - When it is, the result has one file fewer. The second-smallest name is dropped.
- **Configuration editing and reading**
  - Each of the three rewrite tiers does what it says and leaves the other lines as they were.
  - The rewrite always contains `key value`.
  - The rewrite is idempotent.
  - Reading a key back after writing it gives the written value, unless that value itself contains `key `.

## Model

| member | source | states |
|---|---|---|
| SshHistory.Classify | backend/app/service/ssh.go:361-392 | The switch's priority: failed-password exactly when the line contains "Failed password for"; failed-auth exactly when it contains "Connection closed by authenticating user" but not the former; success exactly when it contains "Accepted " and neither of the others. |
| SshHistory.MessageOf | backend/app/service/ssh.go:428-430 | The message is the second ": "-separated part when the line contains ": ", and empty otherwise. |
| SshHistory.LoadSuccessDatas | backend/app/service/ssh.go:397-412 | The address is non-empty exactly when the line has at least 14 fields. Otherwise the result is the zero record. A parsed record has status Success, no message, no area and no date. |
| SshHistory.LoadFailedAuthDatas | backend/app/service/ssh.go:414-432 | The same 14-field rule. A parsed record has status Failed and the line's message. |
| SshHistory.LoadFailedSecureDatas | backend/app/service/ssh.go:434-453 | The same 14-field rule. A parsed record has status Failed and the line's message. |
| SshHistory.ParseLine | backend/app/service/ssh.go:361-392 | A record has an address exactly when the line has a shape and at least 14 fields. Its status is Success exactly when the shape is success, and is always Success or Failed. |
| SshHistory.SuccessLineFields | backend/app/service/ssh.go:397-412 | For any line made of tokens separated by runs of white space, possibly with white space before and after: DateStr is tokens 0-2 joined with spaces; AuthMode, User, Address and Port are tokens 6, 8, 10 and 12. |
| SshHistory.FailedAuthLineFields | backend/app/service/ssh.go:414-432 | The same, with AuthMode, User, Address and Port at tokens 8, 10, 11 and 13. |
| SshHistory.FailedSecureLineFields | backend/app/service/ssh.go:434-453 | The same, at tokens 6, 8, 10 and 12, with the line's message. |
| GoStrings.FieldsOfSpaced | backend/app/service/ssh.go:399 | `strings.Fields` of tokens separated by non-empty runs of white space, with any white space before and after, gives the tokens back. |
| GoStrings.SplitSecond | backend/app/service/ssh.go:429 | `strings.Split(line, ": ")[1]` is the text right after the first ": ". It runs up to the next ": " or the end of the line, and contains no ": ". |
| LogSources.Discover | backend/app/service/ssh.go:224-235 | An entry is registered exactly when it passes the name test and is either not a `.gz` archive, or is an archive whose unpacked twin is missing and whose unpacking succeeds. A plain file is registered under its own path. An archive is registered under the path without `.gz`. The year is that of the modification time. |
| LogSources.DirectoryQuirk | backend/app/service/ssh.go:224 | Go's `&&`/`||` precedence: a directory named "auth.d" is registered, one named "secure.d" is not. |
| LogSources.FamilyOf | backend/app/service/ssh.go:256-266 | A file is in the secure family exactly when its base name starts with "secure", and in the auth.log family exactly when it starts with "auth.log". |
| LogSources.SelectLines | backend/app/service/ssh.go:255-275 | A line is printed exactly when it is in the file and passes the family's outcome filter and, when a keyword is given, the keyword grep. |
| LogSources.SelectLinesOne | backend/app/service/ssh.go:255-275 | A single line is printed exactly when it passes the pipeline. |
| LogSources.SelectLinesAppend | backend/app/service/ssh.go:255-275 | The pipeline works line by line: the printed lines keep the file's order and its repeated lines. |
| LogSources.PipelineMarkers | backend/app/service/ssh.go:257-274 | The six pipelines. For secure files: success requires "Accepted"; failed requires "Failed password for" and excludes "invalid"; any requires either marker and excludes "invalid". For auth.log files: success requires "Accepted"; failed requires "Connection closed by authenticating user" and "preauth", and does not exclude "invalid"; any requires either marker and excludes "invalid". A file of no family selects nothing. |
| LogSources.SuccessPipelineKeepsAccepted | backend/app/service/ssh.go:259-269 | The success pipeline of either family keeps every line the parser classifies as a success. |
| LogSources.AnyPipelineKeepsShapes | backend/app/service/ssh.go:263-273 | The unfiltered pipeline keeps every line of its family's failure shape and every success line, unless the line mentions "invalid". |
| LogSources.CommandOutput | backend/app/service/ssh.go:254-276 | The output is an error exactly when the file has no family or its selection is empty. Otherwise it is exactly the selected lines, each of which passes the pipeline. |
| LogSources.FailedFilterExcludesAccepted | backend/app/service/ssh.go:260-271 | A line that passes a "Failed" filter of either family is classified as a failure. |
| FileOrder.SortByName | backend/app/service/ssh.go:305-314 | `sort.Slice` on names: the array ends up ordered by the comparator and holds the same multiset of files. |
| FileOrder.SortFileList | backend/app/service/ssh.go:299-316 | Fewer than two files: nothing changes. A non-secure first file: the result is the array sorted ascending. A secure first file: the array is sorted descending, and the result is its last element followed by all but its last two elements. The files are permuted in every case. |
| FileOrder.AscendingIsSortedPermutation | backend/app/service/ssh.go:312-315 | The ascending result has the input's length and elements, in non-decreasing name order. |
| FileOrder.SecureOrderShape | backend/app/service/ssh.go:303-310 | The secure result has one file fewer than the input. Its first file has the least name, the rest is in descending order, and every file comes from the input. |
| FileOrder.SecureOrderDropsSecondLeast | backend/app/service/ssh.go:308-309 | With distinct names, exactly the second-least file is missing from the secure result. |
| LogQuery.Enrich | backend/app/service/ssh.go:365-367 | A kept record gets its address's area and the date built from the file's year and its DateStr. Every other field (DateStr, User, AuthMode, Address, Port, Status, Message) is untouched. |
| LogQuery.LineEvent | backend/app/service/ssh.go:361-392 | A line yields at most one record, and yields one exactly when it has a shape and at least 14 fields. The record is the parsed and enriched one. |
| LogQuery.FileEvents | backend/app/service/ssh.go:359 | A file's record stream is no longer than its lines. Every record in it has an address and status Success or Failed. |
| LogQuery.FileEventsLastFirst | backend/app/service/ssh.go:359 | The loop visits lines from last to first: a line appended to a file comes first in its stream. |
| LogQuery.CountStatusAppend | backend/app/service/ssh.go:277-278 | Counts of concatenated streams add up. |
| LogQuery.CountPartition | backend/app/service/ssh.go:284 | Success count plus failure count is the stream's length, so `SuccessfulCount = TotalCount - FailedCount` is the success count. |
| LogQuery.Window | backend/app/service/ssh.go:365 | The kept records are exactly the stream positions p with from <= p < to, in order; the length follows from the bounds. |
| LogQuery.KeptBound | backend/app/service/ssh.go:365 | A file keeps no more records than it counts, and no more than max(0, to - from). |
| LogQuery.WindowSnoc | backend/app/service/ssh.go:365-369 | Counting one more record keeps it exactly when the count before it lies in [from, to). |
| LogQuery.WindowAppend | backend/app/service/ssh.go:279-280 | Shifting both bounds left by a file's count and windowing the next file continues the window over the concatenation. |
| LogQuery.TallyStep | backend/app/service/ssh.go:365-370 | One counted record keeps the invariant between the counters, the kept records and the stream seen so far. |
| LogQuery.VisitLine | backend/app/service/ssh.go:360-392 | One pass of the switch extends the invariant by the line's record. |
| LogQuery.LoadSSHData | backend/app/service/ssh.go:348-395 | A failed command gives no records and zero counts. Otherwise the kept records are the window over the file's last-first stream, and the counts are that stream's success and failure counts, adding up to its length. |
| LogQuery.PagedStep | backend/app/service/ssh.go:277-282 | Processing one more file extends LoadLog's state by that file's stream. |
| LogQuery.LoadLog | backend/app/service/ssh.go:247-284 | Logs is the slice [(page-1)*size, page*size) of the concatenated streams of the ordered files. TotalCount is that stream's length; FailedCount and SuccessfulCount are its failure and success counts. |
| LogQuery.PagesTile | backend/app/service/ssh.go:247-248 | Pages 1..n together are exactly the first n*size records: no overlap, no gap. |
| LogQuery.PagesCoverStream | backend/app/service/ssh.go:247-248 | Enough pages reproduce the whole stream. |
| LogQuery.PageSizeBound | backend/app/service/ssh.go:247-248 | A page holds at most `size` records. |
| LogQuery.FailedQueryOnlyFailures | backend/app/service/ssh.go:260-271 | Under the "Failed" filter every record of the stream has status Failed. |
| LogQuery.FailedLinesOnlyFailures | backend/app/service/ssh.go:361-392 | Lines that pass a "Failed" filter yield only failure records. |
| SshConf.FirstCommented | backend/app/service/ssh.go:332 | The position found is the first `#key ` line, and none means there is no such line. |
| SshConf.ReplacePass | backend/app/service/ssh.go:319-328 | The first pass replaces every `key ` line. `hasKey` tells whether there was one. |
| SshConf.CommentPass | backend/app/service/ssh.go:329-339 | The second pass replaces only the first `#key ` line. `hasKey` tells whether there was one. |
| SshConf.UpdateSSHConf | backend/app/service/ssh.go:318-346 | The result is the three-tier rewrite of the old lines. |
| SshConf.RewriteRules | backend/app/service/ssh.go:318-346 | When a `key ` line exists, every such line becomes `key value` and the length is kept. Otherwise the first `#key ` line alone is replaced. Otherwise `key value` is appended. All other lines keep their text and order. |
| SshConf.RewriteHoldsSetting | backend/app/service/ssh.go:318-346 | The result contains `key value` and has n or n+1 lines. |
| SshConf.RewriteKeyLines | backend/app/service/ssh.go:318-346 | After the rewrite, at least one line sets the key, and every line that does is `key value`. |
| SshConf.RewriteIdempotent | backend/app/service/ssh.go:318-346 | Writing the same setting twice gives what writing it once gives. |
| SshConf.ReadAfterUpdate | backend/app/service/ssh.go:318-346 | Reading the key back from the rewritten lines gives the written value, when the value does not contain `key `. |
| SshConf.ConfValueDefault | backend/app/service/ssh.go:44-53 | With no line setting the key, the default stands. |
| SshConf.ConfValueLastWins | backend/app/service/ssh.go:72-92 | The last line that starts with `Key ` decides the value: that line with every `Key ` removed. |
| SshConf.ConfValueUniform | backend/app/service/ssh.go:72-92 | When every line that sets the key is the same line, that line decides. |
| SshConf.ConfValueStep | backend/app/service/ssh.go:73-92 | Reading one more line overwrites the value exactly when that line sets the key. |
| SshConf.ApplyLine | backend/app/service/ssh.go:74-91 | Each of the six known keys that the line sets overwrites its field. The other fields are unchanged. |
| SshConf.GetSSHInfo | backend/app/service/ssh.go:43-94 | Each of Port, ListenAddress, PasswordAuthentication, PubkeyAuthentication, PermitRootLogin and UseDNS is the value of its last line. The defaults are "22", "0.0.0.0" and "yes". |
| GoStrings.ReplaceAllAbsent | backend/app/service/ssh.go:75 | `strings.ReplaceAll` with a pattern that does not occur leaves the text unchanged. |

## Left out

- Shell commands are not modelled: `OperateSSH`, the `systemctl status sshd` check and the Status/Message fields of `GetSSHInfo`, and the restart and semanage calls in `Update` and `UpdateByFile`. They only run external programs.
- File I/O is not modelled: reading and writing the sshd configuration in `Update`, `UpdateByFile` and `LoadSSHConf`, and the settings persistence. The model takes and returns the configuration as lines.
- `GenerateSSH` and `LoadSSHSecret` are not modelled. They run ssh-keygen and rename, read and remove files.
- The directory walk itself is not modelled: `filepath.Walk`, `os.Stat`, `handleGunzip` and the modification year. `Discover` models the decision for one entry, with those facts as fields of the entry. `LoadLog` starts from the ordered file list.
- Grep is modelled as a line predicate (`Keeps`) over the file's lines (`read`), not as the grep program. The keyword grep is an abstract predicate `infoMatch`, since its pattern is a regular expression. An empty command (a base name starting with "auth" but not "auth.log") and a pipeline that selects nothing are both an execution error, as grep exits with an error status then. The empty trailing line that splitting the output leaves has no shape and yields nothing, so it is not modelled.
- `time.ParseInLocation` and the time-zone lookup are not modelled. The date is kept as the year and the DateStr it is parsed from (`Timestamp.Local`).
- The qqwry geo-IP lookup is not modelled. It is the parameter `area`. A failed database load, which the service only logs, is not modelled.
- LogSources.Selects: a success filter does not guarantee success records, because a line containing "Accepted" and one of the failure markers is classified as a failure. The model keeps this as written and states no property in that direction.
- FileOrder.SortByName: `sort.Slice` is not stable. The model sorts by insertion, and its contract holds of any ordering by the comparator that permutes the input, so it does not claim which of two equally named files comes first.
- Strings are sequences of Unicode scalar values, not UTF-8 bytes. Go's `<` on strings agrees with code-point order, and the markers and keys are ASCII.
- LogQuery.LoadLog: the window bounds `(page - 1) * pageSize` and `page * pageSize`, and the shifts by each file's count, are taken as unbounded integers. Go's 64-bit `int` wraps around for products beyond 2^63 - 1. For example, page 2^61 + 1 with size 8 wraps to the bounds [0, 8) and returns the first page, while the model's window is empty.
- LogSources.CommandOutput: a command that fails although its pipeline prints lines is not modelled. This covers the shell or `cmd.Exec` itself failing. An unreadable file is modelled, because `read` then yields no lines and grep reports no match.
- SshConf.UpdateSSHConf: `value` is an `interface{}` printed with `%v`. The model takes its printed text.
