/**
 * Merging the shards of a finished export into one output file: every shard is
 * fetched in manifest order, its first line must be a header row, the header
 * is written once (from the first shard), and every non-empty data line of
 * every shard follows, each terminated by "\n".
 */
module Merge {
  import opened Outcomes
  import opened Lines
  import opened Http
  import opened Sink

  /** The token a shard's first line must contain to count as a header row. */
  const HeaderMarker: string := "PlayerId"

  /** A shard's first line passes the header check when it contains the marker. */
  predicate IsHeaderRow(line: string)
  {
    Contains(line, HeaderMarker)
  }

  /** The lines of the shard at `url`, or why the merge stops there. A shard
      loads exactly when its response is successful and the first line of its
      body is a header row, and it then loads as the whole body split into
      lines; a transfer failure is passed on as it is, and a first line without
      the marker names the shard's URL. */
  function LoadShard(fetch: Fetch, url: string): (r: Result<seq<string>>)
    ensures r.Ok? ==> |r.value| >= 1 && NewlineFree(r.value) && IsHeaderRow(r.value[0])
                      && fetch(url).Response? && IsSuccessStatusCode(fetch(url).statusCode)
                      && Join(r.value) == fetch(url).body
    ensures var response := ReadLines(fetch(url), TsvFile);
            response.Err? ==> r == Err(response.error)
    ensures var response := ReadLines(fetch(url), TsvFile);
            response.Ok? && !IsHeaderRow(response.value[0]) ==> r == Err(MissingHeaderRow(url))
    ensures var response := ReadLines(fetch(url), TsvFile);
            response.Ok? && IsHeaderRow(response.value[0]) ==> r == Ok(response.value)
  {
    ReadLinesLossless(fetch(url), TsvFile);
    match ReadLines(fetch(url), TsvFile)
    case Err(e) => Err(e)
    case Ok(lines) => if IsHeaderRow(lines[0]) then Ok(lines) else Err(MissingHeaderRow(url))
  }

  /** The position of the first manifest entry whose shard cannot be loaded, or
      the number of entries when all of them can. */
  function FirstBadShard(entries: seq<string>, fetch: Fetch): (k: nat)
    ensures k <= |entries|
    ensures forall i :: 0 <= i < k ==> LoadShard(fetch, entries[i]).Ok?
    ensures k < |entries| ==> LoadShard(fetch, entries[k]).Err?
  {
    if entries == [] || LoadShard(fetch, entries[0]).Err? then 0
    else 1 + FirstBadShard(entries[1..], fetch)
  }

  /** Every entry's shard loads. */
  predicate AllLoad(entries: seq<string>, fetch: Fetch)
  {
    forall i :: 0 <= i < |entries| ==> LoadShard(fetch, entries[i]).Ok?
  }

  /** Every shard has at least its header line. */
  predicate Shards(shards: seq<seq<string>>)
  {
    forall i :: 0 <= i < |shards| ==> |shards[i]| >= 1
  }

  /** The lines of the first `j` shards named by `entries`, in manifest order
      (each of them loads, since none comes at or after the first bad one). */
  function LoadedShards(entries: seq<string>, fetch: Fetch, j: nat): (shards: seq<seq<string>>)
    requires j <= FirstBadShard(entries, fetch)
    ensures |shards| == j && Shards(shards)
  {
    if j == 0 then []
    else LoadedShards(entries, fetch, j - 1) + [LoadShard(fetch, entries[j - 1]).value]
  }

  /** The `i`-th loaded shard is the lines of the `i`-th manifest entry. */
  lemma {:induction false} LoadedShardsAt(entries: seq<string>, fetch: Fetch, j: nat, i: nat)
    requires j <= FirstBadShard(entries, fetch) && i < j
    ensures LoadShard(fetch, entries[i]) == Ok(LoadedShards(entries, fetch, j)[i])
    decreases j
  {
    if i < j - 1 {
      LoadedShardsAt(entries, fetch, j - 1, i);
    }
  }

  /** The non-empty data lines (every line after the first) of all shards, in
      shard order and then line order. */
  function AllRows(shards: seq<seq<string>>): (rows: seq<string>)
    requires Shards(shards)
    ensures forall i :: 0 <= i < |rows| ==> rows[i] != ""
  {
    if shards == [] then []
    else
      var last := shards[|shards| - 1];
      AllRows(shards[..|shards| - 1]) + DataRows(last[1..])
  }

  /** The text written for the data lines of all shards, shard after shard. */
  function AllRowsText(shards: seq<seq<string>>): string
    requires Shards(shards)
  {
    if shards == [] then ""
    else
      var last := shards[|shards| - 1];
      AllRowsText(shards[..|shards| - 1]) + RowsText(last[1..])
  }

  /** The text one shard adds to the output: its header line and "\n" when it
      is the first shard, then the text of its non-empty data lines. */
  function ShardText(first: bool, shard: seq<string>): string
    requires |shard| >= 1
  {
    (if first then shard[0] + "\n" else "") + RowsText(shard[1..])
  }

  /** What merging `shards` writes: nothing for no shards; otherwise the first
      shard's header line and "\n", then the data text of every shard. */
  function MergedText(shards: seq<seq<string>>): string
    requires Shards(shards)
  {
    if shards == [] then "" else shards[0][0] + "\n" + AllRowsText(shards)
  }

  /** Every line of every shard is newline-free. */
  predicate ShardsNewlineFree(shards: seq<seq<string>>)
  {
    forall i :: 0 <= i < |shards| ==> NewlineFree(shards[i])
  }

  /** The written data text of all shards is their non-empty data lines, each
      newline-terminated. */
  lemma {:induction false} AllRowsTextIsUnlines(shards: seq<seq<string>>)
    requires Shards(shards)
    ensures AllRowsText(shards) == Unlines(AllRows(shards))
    decreases |shards|
  {
    if shards != [] {
      var init := shards[..|shards| - 1];
      var last := shards[|shards| - 1];
      AllRowsTextIsUnlines(init);
      RowsTextIsUnlines(last[1..]);
      UnlinesAppend(AllRows(init), DataRows(last[1..]));
    }
  }

  /** Every kept data row is a line after the header of some shard. */
  lemma {:induction false} AllRowsFrom(shards: seq<seq<string>>, x: string)
    requires Shards(shards) && x in AllRows(shards)
    ensures exists i, l :: 0 <= i < |shards| && 1 <= l < |shards[i]| && shards[i][l] == x
    decreases |shards|
  {
    var n := |shards| - 1;
    var init := shards[..n];
    var last := shards[n];
    if x in AllRows(init) {
      AllRowsFrom(init, x);
      var i, l :| 0 <= i < |init| && 1 <= l < |init[i]| && init[i][l] == x;
      assert shards[i][l] == x;
    } else {
      DataRowsMembers(last[1..], x);
      var l :| 0 <= l < |last[1..]| && last[1..][l] == x;
      assert shards[n][l + 1] == x;
    }
  }

  /** Every non-empty line after the header of a shard is kept. */
  lemma {:induction false} AllRowsHas(shards: seq<seq<string>>, i: nat, l: nat)
    requires Shards(shards) && i < |shards| && 1 <= l < |shards[i]| && shards[i][l] != ""
    ensures shards[i][l] in AllRows(shards)
    decreases |shards|
  {
    var n := |shards| - 1;
    var init := shards[..n];
    var last := shards[n];
    if i < n {
      assert init[i] == shards[i];
      AllRowsHas(init, i, l);
    } else {
      assert last[1..][l - 1] == shards[i][l];
      DataRowsMembers(last[1..], shards[i][l]);
    }
  }

  /** A data row is kept exactly when it is a non-empty line after the header
      of some shard: nothing is invented and no non-empty line is dropped. */
  lemma AllRowsMembers(shards: seq<seq<string>>, x: string)
    requires Shards(shards)
    ensures x in AllRows(shards) <==>
            x != "" && exists i, l :: 0 <= i < |shards| && 1 <= l < |shards[i]| && shards[i][l] == x
  {
    if x in AllRows(shards) {
      AllRowsFrom(shards, x);
    }
    if x != "" && exists i, l :: 0 <= i < |shards| && 1 <= l < |shards[i]| && shards[i][l] == x {
      var i, l :| 0 <= i < |shards| && 1 <= l < |shards[i]| && shards[i][l] == x;
      AllRowsHas(shards, i, l);
    }
  }

  /** The data rows of newline-free shards are newline-free. */
  lemma AllRowsNewlineFree(shards: seq<seq<string>>)
    requires Shards(shards) && ShardsNewlineFree(shards)
    ensures NewlineFree(AllRows(shards))
  {
    var rows := AllRows(shards);
    forall j | 0 <= j < |rows|
      ensures Newline !in rows[j]
    {
      AllRowsMembers(shards, rows[j]);
    }
  }

  /** The merged text, read back line by line: the first shard's header row,
      then every non-empty data line of every shard in order, then the empty
      piece after the final "\n". No other shard's header row is written. */
  lemma MergedTextLines(shards: seq<seq<string>>)
    requires Shards(shards) && ShardsNewlineFree(shards) && shards != []
    ensures MergedText(shards) == Unlines([shards[0][0]] + AllRows(shards))
    ensures Split(MergedText(shards)) == [shards[0][0]] + AllRows(shards) + [""]
  {
    var header := shards[0][0];
    var rows := AllRows(shards);
    AllRowsTextIsUnlines(shards);
    UnlinesAppend([header], rows);
    assert Unlines([header]) == header + "\n" by {
      assert [header][..0] == [];
    }
    AllRowsNewlineFree(shards);
    assert NewlineFree([header] + rows) by {
      assert NewlineFree(shards[0]);
    }
    ReadBackUnlines([header] + rows);
  }

  /** Everything one merge run does: the text it writes to the output, how it ends,
      and which URLs it fetches, in order. */
  datatype MergeRun = MergeRun(output: string, outcome: Outcome, fetched: seq<string>)

  /** The run the merge must make on `entries`: the shards before the first bad
      one are merged; the bad one is fetched but contributes nothing; no entry
      after it is fetched. */
  function ExpectedMerge(entries: seq<string>, fetch: Fetch): MergeRun
  {
    var k := FirstBadShard(entries, fetch);
    MergeRun(
      MergedText(LoadedShards(entries, fetch, k)),
      if k < |entries| then Fail(LoadShard(fetch, entries[k]).error) else Pass,
      if k < |entries| then entries[..k + 1] else entries)
  }

  /** Merging one more shard appends its header when it is the first shard, and
      then the text of its non-empty data lines. */
  lemma MergedTextSnoc(shards: seq<seq<string>>, shard: seq<string>)
    requires Shards(shards) && |shard| >= 1
    ensures Shards(shards + [shard])
    ensures MergedText(shards + [shard]) == MergedText(shards) + ShardText(shards == [], shard)
  {
    var all := shards + [shard];
    var rows := RowsText(shard[1..]);
    assert all[..|all| - 1] == shards;
    assert AllRowsText(all) == AllRowsText(shards) + rows;
    if shards == [] {
      assert AllRowsText(shards) + rows == rows;
      assert MergedText(all) == shard[0] + "\n" + rows;
      assert MergedText(shards) + ShardText(true, shard) == shard[0] + "\n" + rows;
    } else {
      assert all[0] == shards[0];
      var header := shards[0][0];
      AppendAssoc(header + "\n", AllRowsText(shards), rows);
      assert ShardText(false, shard) == rows;
    }
  }

  /** The first bad shard is the one at `j` when every shard before it loads and it does not. */
  lemma FirstBadShardAt(entries: seq<string>, fetch: Fetch, j: nat)
    requires j < |entries| && AllLoad(entries[..j], fetch) && LoadShard(fetch, entries[j]).Err?
    ensures FirstBadShard(entries, fetch) == j
  {
    forall i | 0 <= i < j
      ensures LoadShard(fetch, entries[i]).Ok?
    {
      assert entries[..j][i] == entries[i];
    }
  }

  /** A position no later than the first bad shard, that is the end of the
      entries or whose own shard fails to load, is the first bad shard: the
      run has written the first `j` shards, and ends there with that shard's
      error, or with success at the end of the entries. */
  lemma FirstBadShardIs(entries: seq<string>, fetch: Fetch, j: nat)
    requires j <= FirstBadShard(entries, fetch)
    requires j == |entries| || (j < |entries| && LoadShard(fetch, entries[j]).Err?)
    ensures FirstBadShard(entries, fetch) == j
    ensures ExpectedMerge(entries, fetch).output == MergedText(LoadedShards(entries, fetch, j))
    ensures j < |entries| ==> ExpectedMerge(entries, fetch).outcome == Fail(LoadShard(fetch, entries[j]).error)
                              && ExpectedMerge(entries, fetch).fetched == entries[..j + 1]
    ensures j == |entries| ==> ExpectedMerge(entries, fetch).outcome == Pass && ExpectedMerge(entries, fetch).fetched == entries
  {
  }

  /** A failed header check (or transfer) at shard `j` stops the merge there:
      the output is the merge of the shards before `j` alone, the run ends with
      shard `j`'s error, and no entry after `j` is fetched. */
  lemma StopsAt(entries: seq<string>, fetch: Fetch, j: nat)
    requires j < |entries| && AllLoad(entries[..j], fetch) && LoadShard(fetch, entries[j]).Err?
    ensures j == FirstBadShard(entries, fetch)
    ensures ExpectedMerge(entries, fetch) ==
            MergeRun(MergedText(LoadedShards(entries, fetch, j)), Fail(LoadShard(fetch, entries[j]).error), entries[..j + 1])
  {
    FirstBadShardAt(entries, fetch, j);
  }

  /** When every shard loads, every entry is fetched in manifest order,
      including an empty one, and the run succeeds. */
  lemma RunsToEnd(entries: seq<string>, fetch: Fetch)
    requires AllLoad(entries, fetch)
    ensures FirstBadShard(entries, fetch) == |entries|
    ensures ExpectedMerge(entries, fetch) == MergeRun(MergedText(LoadedShards(entries, fetch, |entries|)), Pass, entries)
  {
  }

  /** A shard's load depends only on the answer for its own URL. */
  lemma LoadShardSameAnswer(fetch: Fetch, other: Fetch, url: string)
    requires other(url) == fetch(url)
    ensures LoadShard(other, url) == LoadShard(fetch, url)
  {
  }

  /** Two fetches that answer alike for the first `j` entries load the same
      first `j` shards. */
  lemma {:induction false} LoadedShardsAgree(entries: seq<string>, fetch: Fetch, other: Fetch, j: nat)
    requires j <= FirstBadShard(entries, fetch) && j <= FirstBadShard(entries, other)
    requires forall i :: 0 <= i < j ==> other(entries[i]) == fetch(entries[i])
    ensures LoadedShards(entries, other, j) == LoadedShards(entries, fetch, j)
  {
    if j > 0 {
      LoadedShardsAgree(entries, fetch, other, j - 1);
      assert other(entries[j - 1]) == fetch(entries[j - 1]);
    }
  }

  /** The run depends on the shard server only through the URLs it fetches:
      any other server that answers those URLs alike makes the same run, so
      every response the merge uses comes from a URL it records as fetched. */
  lemma MergeSeesOnlyFetched(entries: seq<string>, fetch: Fetch, other: Fetch)
    requires forall u :: u in ExpectedMerge(entries, fetch).fetched ==> other(u) == fetch(u)
    ensures ExpectedMerge(entries, other) == ExpectedMerge(entries, fetch)
  {
    var k := FirstBadShard(entries, fetch);
    var fetched := ExpectedMerge(entries, fetch).fetched;
    forall i | 0 <= i <= k && i < |entries|
      ensures other(entries[i]) == fetch(entries[i])
      ensures LoadShard(other, entries[i]) == LoadShard(fetch, entries[i])
    {
      assert entries[i] == fetched[i];
      LoadShardSameAnswer(fetch, other, entries[i]);
    }
    assert FirstBadShard(entries, other) == k;
    LoadedShardsAgree(entries, fetch, other, k);
  }

  /** An empty manifest fetches nothing and writes nothing. */
  lemma EmptyManifest(fetch: Fetch)
    ensures ExpectedMerge([], fetch) == MergeRun("", Pass, [])
  {
  }

  /** An empty shard body is the single empty line, which fails the header
      check: the shard stops the merge. */
  lemma EmptyShardFails(fetch: Fetch, url: string)
    requires fetch(url).Response? && IsSuccessStatusCode(fetch(url).statusCode) && fetch(url).body == ""
    ensures LoadShard(fetch, url) == Err(MissingHeaderRow(url))
  {
    assert Split("") == [""];
    assert !Contains("", HeaderMarker);
  }

  /** What the merge writes, read back line by line: nothing when the first
      shard already fails; otherwise the first shard's header row (which holds
      the marker), then the non-empty data lines of every merged shard in
      manifest order and line order, then the empty piece after the final "\n". */
  lemma MergeOutputLines(entries: seq<string>, fetch: Fetch)
    ensures var k := FirstBadShard(entries, fetch);
            var output := ExpectedMerge(entries, fetch).output;
            && (k == 0 ==> output == "")
            && (k > 0 ==> var shards := LoadedShards(entries, fetch, k);
                          && IsHeaderRow(shards[0][0])
                          && Split(output) == [shards[0][0]] + AllRows(shards) + [""])
  {
    var k := FirstBadShard(entries, fetch);
    if k > 0 {
      var shards := LoadedShards(entries, fetch, k);
      forall i | 0 <= i < k
        ensures NewlineFree(shards[i]) && IsHeaderRow(shards[i][0])
      {
        LoadedShardsAt(entries, fetch, k, i);
      }
      MergedTextLines(shards);
    }
  }

  /** One more shard that loads extends the merged prefix: the merge so far
      followed by the text the shard adds. */
  lemma MergeStep(entries: seq<string>, fetch: Fetch, j: nat, lines: seq<string>)
    requires j < |entries| && j <= FirstBadShard(entries, fetch)
    requires LoadShard(fetch, entries[j]) == Ok(lines)
    ensures j + 1 <= FirstBadShard(entries, fetch)
    ensures |lines| >= 1
    ensures MergedText(LoadedShards(entries, fetch, j + 1))
            == MergedText(LoadedShards(entries, fetch, j)) + ShardText(j == 0, lines)
  {
    MergedTextSnoc(LoadedShards(entries, fetch, j), lines);
  }

  /** Writes one checked shard at the file's offset: its header line unless a
      header was already written, then every non-empty line after the header,
      each followed by "\n". */
  method WriteShard(playerEntries: seq<string>, wroteHeaderRow: bool, out: OutputFile)
    requires |playerEntries| >= 1 && out.Valid()
    modifies out
    ensures out.WroteFrom(old(out.contents), old(out.position), ShardText(!wroteHeaderRow, playerEntries))
  {
    ghost var start, at := out.contents, out.position;
    OverwriteNothing(start, at);
    ghost var header := if wroteHeaderRow then "" else playerEntries[0] + "\n";
    if !wroteHeaderRow {
      out.WriteNext(playerEntries[0], start, at, "");
      assert "" + playerEntries[0] == playerEntries[0];
      out.WriteNext("\n", start, at, playerEntries[0]);
    }
    ghost var rows := playerEntries[1..];
    for i := 1 to |playerEntries|
      invariant out.WroteFrom(start, at, header + RowsText(rows[..i - 1]))
    {
      var playerEntry := playerEntries[i];
      ghost var written := header + RowsText(rows[..i - 1]);
      assert rows[..i] == rows[..i - 1] + [playerEntry];
      RowsTextWrite(header, rows[..i - 1], playerEntry);
      if playerEntry != "" {
        out.WriteNext(playerEntry, start, at, written);
        out.WriteNext("\n", start, at, written + playerEntry);
      }
    }
    assert rows[..|playerEntries| - 1] == rows;
  }

  /** Fetches and checks the shard at `url` and, when it passes, writes it
      next, after the `written` text: the header line unless a header was
      already written, then its data lines. A shard that fails leaves the file
      untouched. */
  method MergeNext(url: string, fetch: Fetch, wroteHeaderRow: bool, out: OutputFile,
                   ghost start: string, ghost at: nat, ghost written: string) returns (r: Result<seq<string>>)
    requires out.WroteFrom(start, at, written)
    modifies out
    ensures r == LoadShard(fetch, url)
    ensures r.Err? ==> out.contents == old(out.contents) && out.position == old(out.position)
    ensures r.Ok? ==> out.WroteFrom(start, at, written + ShardText(!wroteHeaderRow, r.value))
  {
    var response := ReadLines(fetch(url), TsvFile);
    if response.Err? {
      return Err(response.error);
    }
    var playerEntries := response.value;
    var headerRow := playerEntries[0];
    if !IsHeaderRow(headerRow) {
      return Err(MissingHeaderRow(url));
    }
    WriteShard(playerEntries, wroteHeaderRow, out);
    OverwriteTwice(start, at, written, ShardText(!wroteHeaderRow, playerEntries));
    r := Ok(playerEntries);
  }

  /** The download loop: fetches every manifest entry in order, checks each
      shard's header row before writing anything of it, writes the header once,
      and writes the shard's non-empty lines after it; the first failure ends
      the run. */
  method MergeShards(entries: seq<string>, fetch: Fetch, out: OutputFile) returns (outcome: Outcome, fetched: seq<string>)
    requires out.Valid()
    modifies out
    ensures var run := ExpectedMerge(entries, fetch);
            out.WroteFrom(old(out.contents), old(out.position), run.output) && outcome == run.outcome && fetched == run.fetched
  {
    ghost var start, at := out.contents, out.position;
    OverwriteNothing(start, at);
    ghost var written := "";
    var wroteHeaderRow := false;
    for j := 0 to |entries|
      invariant j <= FirstBadShard(entries, fetch)
      invariant wroteHeaderRow == (j > 0)
      invariant written == MergedText(LoadedShards(entries, fetch, j))
      invariant out.WroteFrom(start, at, written)
    {
      var shard := MergeNext(entries[j], fetch, wroteHeaderRow, out, start, at, written);
      if shard.Err? {
        FirstBadShardIs(entries, fetch, j);
        return Fail(shard.error), entries[..j + 1];
      }
      MergeStep(entries, fetch, j, shard.value);
      written := written + ShardText(j == 0, shard.value);
      wroteHeaderRow := true;
    }
    FirstBadShardIs(entries, fetch, |entries|);
    return Pass, entries;
  }
}
