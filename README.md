# PlayFabExport core, modelled in Dafny

PlayFabExport is a command-line tool. Its `download` command exports the players of a
PlayFab segment into one tab-separated file. It can start a new segment export or resume
one that was already started. It then polls the export's status until the service
reports an index URL, downloads the index file, which lists the shard files, and merges
the shards into the output file. Every shard must begin with a header row that contains
`PlayerId`. The header is written once, from the first shard. After it come the
non-empty data lines of every shard, in index order and then line order, each followed
by `"\n"`.

The model has seven modules, one file each:

- `outcomes.dfy` (`Outcomes`): the errors a run can stop with, and `Result`/`Outcome`.
- `lines.dfy` (`Lines`): `String.Split('\n')` as `Split`, its inverse `Join`, the
  newline-terminated output form (`Unlines`, `RowsText`, `DataRows`), and ordinal
  `String.Contains`.
- `http.dfy` (`Http`): an HTTP GET seen only at its boundary. `Fetch` maps a URL to a
  status code and body, or to a transport failure. `ReadLines` reads a fetched file
  the way `GetIndexEntriesAsync` and `GetPlayerEntriesAsync` do.
- `sink.dfy` (`Sink`): the output file stream as a class holding the file's text and
  the offset of the next write. `Write` writes over the text at that offset.
- `polling.dfy` (`Polling`): the status-to-URL mapping of `GetIndexUrlAsync` and the
  wait loop of `DownloadExportAsync`. The remote service is a finite sequence of
  status answers.
- `merge.dfy` (`Merge`): the shard loop of `DownloadExportAsync`, as an imperative
  method over the output file. It is proved against a specification function,
  `ExpectedMerge`.
- `export.dfy` (`Export`): the option checks of the `download` handler, the
  start-export call, the whole export download, and two worked runs.

Behaviour follows the code in these places:

- **Trailing newline in the index file.** The index is split on `'\n'`, and every
  entry is handed to the shard download. That includes an empty last entry left by a
  trailing newline: the code does not skip it. What a GET of `""` returns is up to
  the `Fetch` given. `Export.ScenarioTrailingNewline` shows the run when that GET
  fails, as `HttpClient` does for an empty request URI with no base address: the shards
  before it are written and the run stops with the transfer error.
- **An index file with an empty body.** `"".Split('\n')` is `[""]`, not an empty
  array. So such an index lists one empty entry, and its GET is made.
  `Export.EmptyIndexFile` shows the run when that shard does not load: it stops with
  that error and writes nothing. No index file gives an empty entry list.
- **A `Complete` answer with an empty index URL.** It counts as pending, so polling
  goes on.
- **The output file is not truncated.** `File.OpenWrite` opens an existing file at
  offset 0 and keeps its contents. The run's text is written over the start of the
  old text. When the old file was longer, its tail stays after the new text
  (`Sink.LongerFileKeepsItsTail`).

## Model

| member | source | states |
|---|---|---|
| `Lines.JoinSplit` | src/PlayFabExport/Program.cs:191 | Joining the pieces of `Split(s)` with `'\n'` gives back `s` exactly. |
| `Lines.SplitJoin` | src/PlayFabExport/Program.cs:205 | Splitting the join of a non-empty list of newline-free pieces gives back that list. |
| `Lines.SplitNewlineFree` | src/PlayFabExport/Program.cs:191 | No piece returned by `Split` contains `'\n'`. |
| `Lines.SplitCount` | src/PlayFabExport/Program.cs:205 | `Split` returns one more piece than there are `'\n'` characters, so a trailing newline gives a trailing `""`. |
| `Lines.Split` | src/PlayFabExport/Program.cs:191 | `Split` always returns at least one piece, so an empty body gives one empty piece. |
| `Lines.Contains` | src/PlayFabExport/Program.cs:110 | The ordinal `Contains` check is true exactly when the marker occurs at some position of the line. |
| `Lines.DataRowsMembers` | src/PlayFabExport/Program.cs:122-128 | A line is kept as a data row exactly when it is one of the lines and is non-empty. |
| `Lines.RowsTextIsUnlines` | src/PlayFabExport/Program.cs:122-132 | The text written for a shard's data lines is its non-empty lines in order, each followed by `"\n"`. |
| `Lines.ReadBackUnlines` | src/PlayFabExport/Program.cs:130-131 | Newline-terminated newline-free lines split back into those lines plus one final `""`. |
| `Http.ReadLines` | src/PlayFabExport/Program.cs:194-206 | A GET yields lines exactly when it got a 2xx status. Those lines are `Split(body)`. A non-2xx status or a failed transfer is the matching error. |
| `Http.ReadLinesLossless` | src/PlayFabExport/Program.cs:190-191 | The lines read from a successful GET are at least one, newline-free, and join back to the body. |
| `Polling.IndexUrl` | src/PlayFabExport/Program.cs:165-177 | An error answer raises. Otherwise the answer yields a non-empty URL exactly when its state is `Complete` and its URL is non-empty; any other state yields `""`. |
| `Polling.FirstSettled` | src/PlayFabExport/Program.cs:88-98 | Every answer before the returned position is pending, and the answer at it (if any) is not. |
| `Polling.AwaitIndexUrl` | src/PlayFabExport/Program.cs:88-98 | The loop returns the URL of the first ready answer after exactly that many calls. It stops at the first error answer with that error. It reports still pending when the answers run out. It never returns an empty URL. |
| `Polling.PollIgnoresLaterAnswers` | src/PlayFabExport/Program.cs:89-98 | Answers after the one that ends the wait are never asked for. |
| `Polling.ReadyIff` | src/PlayFabExport/Program.cs:88-98 | The wait yields URL `u` after `k+1` calls exactly when answer `k` is ready with `u` and every earlier answer is pending. |
| `Polling.ErrorStopsAtOnce` | src/PlayFabExport/Program.cs:167-170 | An error answer after only pending ones ends the wait with that error on that call. |
| `Polling.TwoPendingThenComplete` | src/PlayFabExport/Program.cs:88-98 | Two pending answers and then a complete one: three calls, and the third answer's URL. |
| `Merge.LoadShard` | src/PlayFabExport/Program.cs:108-113 | A shard loads exactly when its GET is 2xx and line 0 of the split body contains `PlayerId`, and it then loads as `Split(body)`, which joins back to the body. A transfer or status error is passed on. A line 0 without the marker is a header error naming the URL. |
| `Merge.FirstBadShard` | src/PlayFabExport/Program.cs:106-113 | Every entry before the returned position loads, and the entry at it (if any) does not. |
| `Merge.AllRows` | src/PlayFabExport/Program.cs:122-128 | The merged data rows are never empty. |
| `Merge.AllRowsMembers` | src/PlayFabExport/Program.cs:122-132 | A row is in the merged data exactly when it is a non-empty line at index 1 or later of some shard. |
| `Merge.AllRowsTextIsUnlines` | src/PlayFabExport/Program.cs:122-132 | The data text of all shards is their merged data rows, each followed by `"\n"`. |
| `Merge.AllRowsNewlineFree` | src/PlayFabExport/Program.cs:122-132 | The merged data rows of newline-free shards are newline-free. |
| `Merge.MergedTextLines` | src/PlayFabExport/Program.cs:115-132 | The merged text of one or more shards reads back as the first shard's header row, then every merged data row in shard and line order, then `""`. No other shard's header is written. |
| `Merge.MergedTextSnoc` | src/PlayFabExport/Program.cs:115-132 | Merging one more shard appends its header only when it is the first, then its data text. |
| `Merge.FirstBadShardAt` | src/PlayFabExport/Program.cs:106-113 | When every shard before `j` loads and shard `j` does not, the first bad shard is `j`. |
| `Merge.FirstBadShardIs` | src/PlayFabExport/Program.cs:106-113 | A position no later than the first bad shard that is the end, or whose shard fails, is the first bad shard. The run then has written the shards before it and ends with that shard's error, or with success at the end. |
| `Merge.StopsAt` | src/PlayFabExport/Program.cs:108-113 | When shard `j` is the first to fail, the output is the merge of the shards before `j`, the run ends with shard `j`'s error, and entries after `j` are not fetched. |
| `Merge.RunsToEnd` | src/PlayFabExport/Program.cs:106-108 | When every shard loads, every entry is fetched in order (an empty one too) and the run succeeds. |
| `Merge.LoadedShardsAgree` | src/PlayFabExport/Program.cs:106-108 | Two file servers that answer alike for the first `j` entries load the same first `j` shards. |
| `Merge.MergeSeesOnlyFetched` | src/PlayFabExport/Program.cs:106-113 | Any other file server that answers the run's fetched URLs alike gives the same run. So every response the merge uses comes from a URL it records as fetched. |
| `Merge.EmptyManifest` | src/PlayFabExport/Program.cs:105-106 | An empty entry list fetches nothing and writes nothing. No index file yields that list, because an empty index body splits to one empty entry (see `Export.EmptyIndexFile`). |
| `Merge.EmptyShardFails` | src/PlayFabExport/Program.cs:109-113 | An empty shard body splits to `[""]`, which fails the header check. |
| `Merge.MergeOutputLines` | src/PlayFabExport/Program.cs:105-132 | The merge output is empty when the first shard fails. Otherwise it reads back as one header row holding `PlayerId`, then the non-empty data lines of the merged shards in order, then `""`. |
| `Merge.MergeStep` | src/PlayFabExport/Program.cs:115-132 | One more shard that loads extends the merged prefix by exactly the text that shard adds. |
| `Merge.WriteShard` | src/PlayFabExport/Program.cs:115-132 | Writes at the file's offset the header and `"\n"` only if no header was written yet, then each non-empty line after line 0 with `"\n"`. |
| `Merge.MergeNext` | src/PlayFabExport/Program.cs:108-132 | Returns the shard's load result. It writes nothing when the load fails, and otherwise writes exactly that shard's text next, after the text already written. |
| `Merge.MergeShards` | src/PlayFabExport/Program.cs:105-136 | The shard loop writes exactly `ExpectedMerge`'s output over the file from its offset, ends with its outcome, and fetches exactly its entries, in order. |
| `Export.CheckOptions` | src/PlayFabExport/Program.cs:29-48 | Passes exactly when title, secret key, output path, and an export id or a segment are all present. Title comes first, then key, then output, then segment. The segment is missing only when the export id is empty. A non-empty export id is chosen over the segment. |
| `Export.OutputCheckedBeforeSegment` | src/PlayFabExport/Program.cs:41-47 | With no output path, that is the error whatever segment or export id is given. |
| `Export.SegmentIgnoredWithExportId` | src/PlayFabExport/Program.cs:44-54 | With a non-empty export id, the segment does not change the decision. |
| `Export.StartExport` | src/PlayFabExport/Program.cs:148-155 | An error answer of the start-export call is an error carrying its message. Otherwise the answer yields its export id. |
| `Export.DownloadSeesOnlyFetched` | src/PlayFabExport/Program.cs:100-113 | Any other file server that answers the download's fetched URLs alike gives the same download. |
| `Export.DownloadExport` | src/PlayFabExport/Program.cs:84-136 | Downloading an export writes exactly `ExpectedDownload`'s output over the file from its offset and ends as it says. That means: the polled URL, then the index fetch, then the shard merge. |
| `Export.Download` | src/PlayFabExport/Program.cs:27-67 | The handler opens the file at offset 0 and writes `ExpectedRun`'s output there. The file ends as that output followed by whatever of the old text lay beyond it. The output is empty when an option check or the start call fails, and otherwise it is the chosen export's download. |
| `Export.FinishedOutputLines` | src/PlayFabExport/Program.cs:84-136 | A finished run always writes one header row holding `PlayerId`, then only non-empty newline-free data rows. |
| `Export.EmptyIndexFile` | src/PlayFabExport/Program.cs:100-113 | An index with an empty body reads as one empty entry. Its GET is made, and when it fails the run stops with that error and writes nothing. |
| `Export.ScenarioEndToEnd` | src/PlayFabExport/Program.cs:75-136 | Segment `seg1` is started as `exp42`, pending once and then complete, with an index of two shards. The output is the header, then `P1`, then `P2`. The run takes two status calls and fetches three URLs. |
| `Export.ScenarioTrailingNewline` | src/PlayFabExport/Program.cs:101-108 | With a trailing newline in the index, both shards are written, then the empty entry is fetched and its failure stops the run. |
| `Sink.Overwrite` | src/PlayFabExport/Program.cs:117-118 | The file after a write at an offset is as long as the old text, or reaches the data's end when that lies past it. Its content is given by `Sink.OverwriteParts`. |
| `Sink.OverwriteParts` | src/PlayFabExport/Program.cs:117-118 | Writing at an offset keeps the text before it, puts the data in place, and keeps any old text beyond the data's end. |
| `Sink.OverwriteNothing` | src/PlayFabExport/Program.cs:117-118 | Writing nothing leaves the file as it is. |
| `Sink.OverwriteTwice` | src/PlayFabExport/Program.cs:117-132 | Two writes in a row, the second where the first ended, equal one write of both texts. |
| `Sink.OverwriteFromStart` | src/PlayFabExport/Program.cs:42 | Written from offset 0, the file is the data followed by the part of the old text the data did not reach. |
| `Sink.LongerFileKeepsItsTail` | src/PlayFabExport/Program.cs:42 | A 10-character file written with the 9-character `"PlayerId\n"` ends as `"PlayerId\n9"`. |
| `Sink.OutputFile.OpenWrite` | src/PlayFabExport/Program.cs:42 | Opening for writing keeps the file's existing text and sets the offset to 0. |
| `Sink.OutputFile.Write` | src/PlayFabExport/Program.cs:117-132 | A write puts its text over the file at the current offset and moves the offset past it. |
| `Sink.OutputFile.WriteNext` | src/PlayFabExport/Program.cs:117-132 | A write after text already written extends that text by the data. |

## Left out

- The PlayFab SDK calls `ExportPlayersInSegmentAsync` and `GetSegmentExportAsync` are foreign network calls. They are replaced by the `Service` value: a start answer per segment, and a finite sequence of status answers per export.
- The unbounded wait is modelled through finite answer sequences. When the answers run out while the export is pending, the run ends as `StillWaiting` instead of polling forever.
- `Task.Delay` waits of 10 s and 1 s, and `async`/`await`, are timing only; the model has neither.
- `HttpClient` is replaced by the `Fetch` function. That a fresh client is made per call is not modelled.
- Console progress and error messages are observability only. Errors carry data such as the status code, message or URL, not the formatted text.
- Command-line parsing by XenoAtom.CommandLine is left out: the options arrive already parsed as `Options`. An absent option is `""`, which `string.IsNullOrEmpty` treats as absent anyway.
- The `PLAYFAB_SECRET_KEY` lookup is left out: its value is a parameter of `CheckOptions`. The `PlayFabSettings` static globals are left out.
- Process exit codes are left out. The handler returns 0 on success and -1 on a missing secret key or a caught exception. The missing-option errors are thrown to the command-line library, which decides that exit code.
- Whether the output file exists is not modelled: an absent file is the empty text. The file opens before the segment check. So a run stopped for a missing segment has still opened, and possibly created, the file. In the model the option checks come first, which leaves the text the same.
- UTF-8 encoding of the written text is left out: the output is modelled as a string. `FileStream` measures the offset and the stale tail left after a shorter write in bytes. `Export.Download`'s `existing[|run.output|..]` and `Sink.LongerFileKeepsItsTail` measure them in characters, so they match the program only when both texts are ASCII.
- A `null` index URL from the status call is left out: URLs are non-null strings in the model.
- `Polling.AwaitIndexUrl`: does not model the unbounded wait; it ends as still pending once the finite answers run out.
