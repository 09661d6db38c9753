/**
 * The `download` command: the option checks that choose between resuming an
 * already-started export and starting a new one for a segment, the
 * start-export call, and the download of a finished export (wait for the index
 * URL, read the index file, merge its shards into the output file).
 */
module Export {
  import opened Outcomes
  import opened Lines
  import opened Http
  import opened Sink
  import opened Polling
  import opened Merge

  /** The command's options as given. An option that was not given is "": every
      check uses `string.IsNullOrEmpty`, which treats absent and empty alike. */
  datatype Options = Options(title: string, segment: string, exportId: string, outputFile: string)

  /** What the command goes on to do once its options pass. */
  datatype Mode = ResumeExport(exportId: string) | StartFromSegment(segmentId: string)

  /** The checks of the `download` handler, in the order it makes them: the
      title, the secret key, the output path, and then the segment, which is
      needed only when no export id was given. A non-empty export id wins and
      the segment is not looked at. */
  function CheckOptions(options: Options, secretKey: string): (r: Result<Mode>)
    ensures r.Ok? <==> options.title != "" && secretKey != "" && options.outputFile != ""
                       && (options.exportId != "" || options.segment != "")
    ensures options.title == "" ==> r == Err(MissingOption("title"))
    ensures options.title != "" && secretKey == "" ==> r == Err(MissingSecretKey)
    ensures r == Err(MissingOption("segment")) <==>
              options.title != "" && secretKey != "" && options.outputFile != ""
              && options.exportId == "" && options.segment == ""
    ensures r.Ok? ==> r.value == if options.exportId != "" then ResumeExport(options.exportId)
                                 else StartFromSegment(options.segment)
  {
    if options.title == "" then Err(MissingOption("title"))
    else if secretKey == "" then Err(MissingSecretKey)
    else if options.outputFile == "" then Err(MissingOption("output"))
    else
      var useExportId := options.exportId != "";
      if !useExportId && options.segment == "" then Err(MissingOption("segment"))
      else if useExportId then Ok(ResumeExport(options.exportId))
      else Ok(StartFromSegment(options.segment))
  }

  /** The output path is checked before the segment and the export id: with
      the title and key present and no output path, that is the error,
      whatever segment or export id was given. */
  lemma OutputCheckedBeforeSegment(options: Options, secretKey: string)
    requires options.title != "" && secretKey != "" && options.outputFile == ""
    ensures CheckOptions(options, secretKey) == Err(MissingOption("output"))
  {
  }

  /** With a non-empty export id the segment is ignored: any segment, present
      or not, gives the same decision. */
  lemma SegmentIgnoredWithExportId(options: Options, secretKey: string, segment: string)
    requires options.exportId != ""
    ensures CheckOptions(options.(segment := segment), secretKey) == CheckOptions(options, secretKey)
  {
  }

  /** One answer of the start-export call: an error payload, or the id of the
      export it started. */
  datatype StartResponse = StartError(message: string) | Started(exportId: string)

  /** The export id a start-export answer yields, or the error it reports. */
  function StartExport(response: StartResponse): (r: Result<string>)
    ensures r.Err? <==> response.StartError?
    ensures r.Err? ==> r.error == ExportStartFailed(response.message)
    ensures r.Ok? ==> r.value == response.exportId
  {
    match response
    case StartError(message) => Err(ExportStartFailed(message))
    case Started(exportId) => Ok(exportId)
  }

  /** The remote segment service, seen at its boundary: the answer the
      start-export call gives for each segment, and the answers the
      export-status call gives for each export, one per call, in order. */
  datatype Service = Service(start: string -> StartResponse, statusAnswers: string -> seq<StatusResponse>)

  /** How a run ends: the whole export was written, an error stopped it, or the
      finite sequence of status answers ran out while the export was pending. */
  datatype RunEnd = Finished | Stopped(error: Error) | StillWaiting

  /** Everything one run does: the text it writes to the output file, how it ends,
      how many status calls it makes, and which URLs it fetches, in order. */
  datatype DownloadRun = DownloadRun(output: string, end: RunEnd, statusCalls: nat, fetched: seq<string>)

  /** The run that downloading an export must make, given the status answers
      for that export: wait for the index URL, fetch the index file, merge the
      shards it lists. */
  function ExpectedDownload(answers: seq<StatusResponse>, fetch: Fetch): DownloadRun
  {
    var calls := ExpectedCalls(answers);
    match ExpectedPoll(answers)
    case StillPending => DownloadRun("", StillWaiting, calls, [])
    case Failed(e) => DownloadRun("", Stopped(e), calls, [])
    case Ready(indexUrl) =>
      match ReadLines(fetch(indexUrl), IndexFile)
      case Err(e) => DownloadRun("", Stopped(e), calls, [indexUrl])
      case Ok(entries) =>
        var merge := ExpectedMerge(entries, fetch);
        DownloadRun(merge.output, if merge.outcome.Pass? then Finished else Stopped(merge.outcome.error),
                    calls, [indexUrl] + merge.fetched)
  }

  /** A download depends on the file server only through the URLs it records
      as fetched: any other server that answers those URLs alike makes the
      same run. */
  lemma DownloadSeesOnlyFetched(answers: seq<StatusResponse>, fetch: Fetch, other: Fetch)
    requires forall u :: u in ExpectedDownload(answers, fetch).fetched ==> other(u) == fetch(u)
    ensures ExpectedDownload(answers, other) == ExpectedDownload(answers, fetch)
  {
    match ExpectedPoll(answers)
    case StillPending =>
    case Failed(e) =>
    case Ready(indexUrl) =>
      assert indexUrl in ExpectedDownload(answers, fetch).fetched;
      match ReadLines(fetch(indexUrl), IndexFile)
      case Err(e) =>
      case Ok(entries) =>
        var merge := ExpectedMerge(entries, fetch);
        forall u | u in merge.fetched
          ensures other(u) == fetch(u)
        {
          assert u in ([indexUrl] + merge.fetched);
        }
        MergeSeesOnlyFetched(entries, fetch, other);
  }

  /** Downloads an export: waits until the status names an index URL, reads the
      index file, and merges every shard it lists into `out`. */
  method DownloadExport(exportId: string, service: Service, fetch: Fetch, out: OutputFile)
    returns (end: RunEnd, statusCalls: nat, fetched: seq<string>)
    requires out.Valid()
    modifies out
    ensures var run := ExpectedDownload(service.statusAnswers(exportId), fetch);
            && out.WroteFrom(old(out.contents), old(out.position), run.output)
            && end == run.end && statusCalls == run.statusCalls && fetched == run.fetched
  {
    OverwriteNothing(out.contents, out.position);
    var polled, calls := AwaitIndexUrl(service.statusAnswers(exportId));
    statusCalls := calls;
    if polled.StillPending? {
      return StillWaiting, statusCalls, [];
    }
    if polled.Failed? {
      return Stopped(polled.error), statusCalls, [];
    }
    var indexUrl := polled.indexUrl;
    var indexEntries := ReadLines(fetch(indexUrl), IndexFile);
    if indexEntries.Err? {
      return Stopped(indexEntries.error), statusCalls, [indexUrl];
    }
    var merged, shardUrls := MergeShards(indexEntries.value, fetch, out);
    fetched := [indexUrl] + shardUrls;
    end := if merged.Pass? then Finished else Stopped(merged.error);
  }

  /** The run the `download` command must make: nothing at all when an option
      check fails, no download when the start-export call fails, and otherwise
      the download of the chosen export. */
  function ExpectedRun(options: Options, secretKey: string, service: Service, fetch: Fetch): DownloadRun
  {
    match CheckOptions(options, secretKey)
    case Err(e) => DownloadRun("", Stopped(e), 0, [])
    case Ok(ResumeExport(exportId)) => ExpectedDownload(service.statusAnswers(exportId), fetch)
    case Ok(StartFromSegment(segmentId)) =>
      match StartExport(service.start(segmentId))
      case Err(e) => DownloadRun("", Stopped(e), 0, [])
      case Ok(exportId) => ExpectedDownload(service.statusAnswers(exportId), fetch)
  }

  /** The `download` handler: checks its options, opens the output file
      (whose text was `existing`; an absent file is the empty text), then
      either downloads the given export or starts one for the segment and
      downloads that. `file` is the output file's text at the end: the text the
      run wrote, then whatever part of the old text lay beyond it, since
      `File.OpenWrite` writes from the start without truncating. */
  method Download(options: Options, secretKey: string, service: Service, fetch: Fetch, existing: string)
    returns (end: RunEnd, statusCalls: nat, fetched: seq<string>, file: string)
    ensures var run := ExpectedRun(options, secretKey, service, fetch);
            && file == run.output + (if |run.output| < |existing| then existing[|run.output|..] else "")
            && end == run.end && statusCalls == run.statusCalls && fetched == run.fetched
  {
    var mode := CheckOptions(options, secretKey);
    if mode.Err? {
      return Stopped(mode.error), 0, [], existing;
    }
    var out := new OutputFile.OpenWrite(existing);
    var exportId;
    match mode.value {
      case ResumeExport(id) =>
        exportId := id;
      case StartFromSegment(segmentId) =>
        var started := StartExport(service.start(segmentId));
        if started.Err? {
          return Stopped(started.error), 0, [], existing;
        }
        exportId := started.value;
    }
    end, statusCalls, fetched := DownloadExport(exportId, service, fetch, out);
    file := out.contents;
    OverwriteFromStart(existing, ExpectedRun(options, secretKey, service, fetch).output);
  }

  /** A run that ends with the whole export written has written one header row
      holding the marker, then only non-empty, newline-free data rows: read
      back, the output is those lines and the empty piece after the last "\n".
      The header is always there, since the index has at least one entry. */
  lemma FinishedOutputLines(answers: seq<StatusResponse>, fetch: Fetch)
    requires ExpectedDownload(answers, fetch).end == Finished
    ensures var run := ExpectedDownload(answers, fetch);
            exists header, rows :: IsHeaderRow(header) && NewlineFree(rows) && Split(run.output) == [header] + rows + [""]
                                   && (forall i :: 0 <= i < |rows| ==> rows[i] != "")
  {
    match ExpectedPoll(answers)
    case Ready(indexUrl) =>
      var entries := ReadLines(fetch(indexUrl), IndexFile).value;
      MergeOutputLines(entries, fetch);
      var k := FirstBadShard(entries, fetch);
      assert k == |entries| >= 1;
      var shards := LoadedShards(entries, fetch, k);
      var header, rows := shards[0][0], AllRows(shards);
      forall i | 0 <= i < k
        ensures NewlineFree(shards[i])
      {
        LoadedShardsAt(entries, fetch, k, i);
      }
      AllRowsNewlineFree(shards);
      assert IsHeaderRow(header) && NewlineFree(rows) && Split(ExpectedDownload(answers, fetch).output) == [header] + rows + [""];
  }

  /** An index file with an empty body is not an empty manifest: it reads as
      the one empty entry, whose GET is made, so the run fetches the index and
      the empty URL; when that shard does not load, the run stops with its
      error and writes nothing. */
  lemma EmptyIndexFile(answers: seq<StatusResponse>, fetch: Fetch, indexUrl: string)
    requires ExpectedPoll(answers) == Ready(indexUrl)
    requires fetch(indexUrl).Response? && IsSuccessStatusCode(fetch(indexUrl).statusCode) && fetch(indexUrl).body == ""
    requires LoadShard(fetch, "").Err?
    ensures var run := ExpectedDownload(answers, fetch);
            run.output == "" && run.end == Stopped(LoadShard(fetch, "").error) && run.fetched == [indexUrl, ""]
  {
    var entries := [""];
    assert ReadLines(fetch(indexUrl), IndexFile) == Ok(entries);
    StopsAt(entries, fetch, 0);
    assert entries[..1] == entries;
  }

  // A worked run: segment "seg1" starts export "exp42", which is pending once
  // and then complete; its index file lists two shards, each with the header
  // row and one player, the second also with a blank last line.

  const IndexUrl1 := "https://files/index"
  const ShardUrl1 := "https://files/shard1"
  const ShardUrl2 := "https://files/shard2"
  const HeaderRow1 := HeaderMarker + "\tName"
  const Player1 := "P1\tAlice"
  const Player2 := "P2\tBob"
  const ShardBody1 := HeaderRow1 + "\n" + Player1 + "\n"
  const ShardBody2 := HeaderRow1 + "\n" + Player2 + "\n" + "\n"
  const ScenarioOutput := HeaderRow1 + "\n" + Player1 + "\n" + Player2 + "\n"

  function ScenarioStart(segmentId: string): StartResponse
  {
    if segmentId == "seg1" then Started("exp42") else StartError("unknown segment")
  }

  function ScenarioStatus(exportId: string): seq<StatusResponse>
  {
    if exportId == "exp42" then [StatusReport("InProgress", ""), StatusReport(CompleteState, IndexUrl1)]
    else [StatusError("unknown export")]
  }

  /** The files the scenario's service serves, with an index file that ends
      without a newline. A GET of the empty URL fails before any response, as
      `HttpClient` rejects an empty request URI when it has no base address. */
  function ScenarioFetch(url: string): HttpResponse
  {
    if url == IndexUrl1 then Response(200, ShardUrl1 + "\n" + ShardUrl2)
    else if url == ShardUrl1 then Response(200, ShardBody1)
    else if url == ShardUrl2 then Response(200, ShardBody2)
    else if url == "" then TransportFailure("invalid request URI")
    else Response(404, "")
  }

  /** The same files, with an index file that ends with a newline. */
  function ScenarioFetchTrailing(url: string): HttpResponse
  {
    if url == IndexUrl1 then Response(200, ShardUrl1 + "\n" + ShardUrl2 + "\n") else ScenarioFetch(url)
  }

  const ScenarioOptions := Options("TITLE", "seg1", "", "players.tsv")

  /** The export is pending once, then complete: two status calls, and the
      index URL of the second answer. */
  lemma ScenarioPoll()
    ensures ExpectedPoll(ScenarioStatus("exp42")) == Ready(IndexUrl1)
    ensures ExpectedCalls(ScenarioStatus("exp42")) == 2
  {
    ReadyIff(ScenarioStatus("exp42"), 1, IndexUrl1);
  }

  /** Two newline-free pieces, newline-terminated, read back as the two pieces
      and the empty piece after the last newline. */
  lemma SplitTwoLines(p: string, q: string)
    requires Newline !in p && Newline !in q
    ensures Split(p + "\n" + q + "\n") == [p, q, ""]
  {
    SplitFirstLine(q, "");
    assert q + "\n" == q + ([Newline] + "");
    SplitFirstLine(p, q + "\n");
    assert p + "\n" + q + "\n" == p + ([Newline] + (q + "\n"));
  }

  /** The two scenario shards pass the header check; the second keeps its
      trailing empty lines. */
  lemma ScenarioShards(fetch: Fetch)
    requires fetch(ShardUrl1) == Response(200, ShardBody1) && fetch(ShardUrl2) == Response(200, ShardBody2)
    ensures LoadShard(fetch, ShardUrl1) == Ok([HeaderRow1, Player1, ""])
    ensures LoadShard(fetch, ShardUrl2) == Ok([HeaderRow1, Player2, "", ""])
  {
    assert Newline !in HeaderRow1 && Newline !in Player1 && Newline !in Player2;
    SplitTwoLines(HeaderRow1, Player1);
    SplitTwoLines(HeaderRow1, Player2);
    assert Split(ShardBody2) == [HeaderRow1, Player2, "", ""] by {
      var u := HeaderRow1 + "\n" + Player2 + "\n";
      var lines := [HeaderRow1, Player2];
      assert Join(lines + ["", ""]) == ShardBody2 by {
        JoinSnoc(lines, "");
        JoinSnoc(lines + [""], "");
        JoinCons(lines);
        assert lines[1..] == [Player2];
        assert lines + ["", ""] == (lines + [""]) + [""];
        assert Join(lines) == HeaderRow1 + "\n" + Player2;
        assert Join(lines + [""]) == HeaderRow1 + "\n" + Player2 + "\n";
      }
      assert NewlineFree(lines + ["", ""]);
      SplitJoin(lines + ["", ""]);
    }
    ContainsPrefix(HeaderMarker, "\tName");
  }

  /** The text the two shards merge to: one header row, then both players. */
  lemma ScenarioMergedText()
    ensures MergedText([[HeaderRow1, Player1, ""], [HeaderRow1, Player2, "", ""]]) == ScenarioOutput
  {
    var shard1 := [HeaderRow1, Player1, ""];
    var shard2 := [HeaderRow1, Player2, "", ""];
    var shards: seq<seq<string>> := [shard1, shard2];
    assert Player1 != "" && Player2 != "";
    RowsTextSnoc([], Player1);
    RowsTextSnoc([Player1], "");
    assert shard1[1..] == [Player1] + [""];
    RowsTextSnoc([], Player2);
    RowsTextSnoc([Player2], "");
    RowsTextSnoc([Player2, ""], "");
    assert shard2[1..] == [Player2, ""] + [""];
    assert [Player2, ""] == [Player2] + [""];
    assert RowsText(shard1[1..]) == Player1 + "\n";
    assert RowsText(shard2[1..]) == Player2 + "\n";
    assert shards[..1] == [shard1] && |shards[..1][..0]| == 0;
    assert AllRowsText(shards[..1]) == Player1 + "\n";
    assert AllRowsText(shards) == Player1 + "\n" + (Player2 + "\n");
  }

  /** Merging the two listed shards writes the expected text and fetches both. */
  lemma ScenarioMerge(fetch: Fetch)
    requires fetch(ShardUrl1) == Response(200, ShardBody1) && fetch(ShardUrl2) == Response(200, ShardBody2)
    ensures ExpectedMerge([ShardUrl1, ShardUrl2], fetch) == MergeRun(ScenarioOutput, Pass, [ShardUrl1, ShardUrl2])
  {
    var entries := [ShardUrl1, ShardUrl2];
    ScenarioShards(fetch);
    assert AllLoad(entries, fetch);
    RunsToEnd(entries, fetch);
    LoadedShardsAt(entries, fetch, 2, 0);
    LoadedShardsAt(entries, fetch, 2, 1);
    assert LoadedShards(entries, fetch, 2) == [[HeaderRow1, Player1, ""], [HeaderRow1, Player2, "", ""]];
    ScenarioMergedText();
  }

  /** With an index file that lists the two shards and no trailing newline, the
      run finishes after two status calls, having fetched the index and both
      shards, and writes the header once followed by both players, the blank
      last lines of the second shard dropped. */
  lemma ScenarioEndToEnd()
    ensures ExpectedRun(ScenarioOptions, "secret", Service(ScenarioStart, ScenarioStatus), ScenarioFetch)
            == DownloadRun(ScenarioOutput, Finished, 2, [IndexUrl1, ShardUrl1, ShardUrl2])
  {
    ScenarioPoll();
    var entries := [ShardUrl1, ShardUrl2];
    assert Split(ShardUrl1 + "\n" + ShardUrl2) == entries by {
      assert NewlineFree(entries);
      SplitJoin(entries);
    }
    ScenarioMerge(ScenarioFetch);
  }

  /** Merging the two shards and then an empty entry whose GET fails: both
      shards are written as before, the empty entry is fetched and stops the
      run with the transfer error. */
  lemma ScenarioMergeTrailing(fetch: Fetch)
    requires fetch(ShardUrl1) == Response(200, ShardBody1) && fetch(ShardUrl2) == Response(200, ShardBody2)
    requires fetch("") == TransportFailure("invalid request URI")
    ensures ExpectedMerge([ShardUrl1, ShardUrl2, ""], fetch)
            == MergeRun(ScenarioOutput, Fail(TransportFailed(TsvFile, "invalid request URI")), [ShardUrl1, ShardUrl2, ""])
  {
    var entries := [ShardUrl1, ShardUrl2, ""];
    ScenarioShards(fetch);
    assert entries[..2] == [ShardUrl1, ShardUrl2];
    assert AllLoad(entries[..2], fetch);
    StopsAt(entries, fetch, 2);
    ScenarioMerge(fetch);
    LoadedShardsAt(entries, fetch, 2, 0);
    LoadedShardsAt(entries, fetch, 2, 1);
    assert LoadedShards(entries, fetch, 2) == [[HeaderRow1, Player1, ""], [HeaderRow1, Player2, "", ""]];
    ScenarioMergedText();
  }

  /** With a trailing newline in the index file, the empty last entry is handed
      to the shard download like any other: both shards are merged as before,
      then the GET of the empty URL fails and the run stops with that error. */
  lemma ScenarioTrailingNewline()
    ensures ExpectedRun(ScenarioOptions, "secret", Service(ScenarioStart, ScenarioStatus), ScenarioFetchTrailing)
            == DownloadRun(ScenarioOutput, Stopped(TransportFailed(TsvFile, "invalid request URI")), 2,
                           [IndexUrl1, ShardUrl1, ShardUrl2, ""])
  {
    ScenarioPoll();
    assert Split(ShardUrl1 + "\n" + ShardUrl2 + "\n") == [ShardUrl1, ShardUrl2, ""] by {
      assert Newline !in ShardUrl1 && Newline !in ShardUrl2;
      SplitTwoLines(ShardUrl1, ShardUrl2);
    }
    ScenarioMergeTrailing(ScenarioFetchTrailing);
  }
}
