/**
 * Line-oriented text: `String.Split('\n')` as the exporter uses it on the
 * manifest and on every shard, its inverse `Join`, the newline-terminated
 * form the output file is written in, and ordinal substring search.
 */
module Lines {

  const Newline: char := '\n'

  /** The pieces `s.Split('\n')` returns: the maximal newline-free runs of `s`,
      in order, one more piece than there are newlines (empty pieces included). */
  function Split(s: string): (pieces: seq<string>)
    ensures |pieces| >= 1
  {
    if s == [] then [""]
    else
      var rest := Split(s[1..]);
      if s[0] == Newline then [""] + rest
      else [[s[0]] + rest[0]] + rest[1..]
  }

  /** No piece contains a newline. */
  lemma {:induction false} SplitNewlineFree(s: string)
    ensures NewlineFree(Split(s))
    decreases |s|
  {
    if s != [] {
      SplitNewlineFree(s[1..]);
      var rest := Split(s[1..]);
      if s[0] != Newline {
        assert Newline !in rest[0];
        assert forall c :: c in [s[0]] + rest[0] ==> c == s[0] || c in rest[0];
      }
    }
  }

  /** There is one more piece than there are newlines in the text. */
  lemma {:induction false} SplitCount(s: string)
    ensures |Split(s)| == multiset(s)[Newline] + 1
    decreases |s|
  {
    if s != [] {
      SplitCount(s[1..]);
      assert s == [s[0]] + s[1..];
    }
  }

  /** `String.Join('\n', pieces)`: the pieces with one newline between neighbours. */
  function Join(pieces: seq<string>): string
  {
    if pieces == [] then ""
    else if |pieces| == 1 then pieces[0]
    else pieces[0] + [Newline] + Join(pieces[1..])
  }

  /** No piece of `pieces` contains a newline. */
  predicate NewlineFree(pieces: seq<string>)
  {
    forall i :: 0 <= i < |pieces| ==> Newline !in pieces[i]
  }

  /** Splitting loses nothing: joining the pieces rebuilds the text. */
  lemma {:induction false} JoinSplit(s: string)
    ensures Join(Split(s)) == s
    decreases |s|
  {
    if s != [] {
      var rest := Split(s[1..]);
      JoinSplit(s[1..]);
      if s[0] != Newline && |rest| > 1 {
        assert rest == [rest[0]] + rest[1..];
      }
    }
  }

  /** Splitting text that begins with a newline-free run `p`: the run is glued
      to the first piece of what follows it. */
  lemma {:induction false} SplitPrefix(p: string, t: string)
    requires Newline !in p
    ensures Split(p + t) == [p + Split(t)[0]] + Split(t)[1..]
    decreases |p|
  {
    if p != [] {
      var st := Split(t);
      assert (p + t)[0] == p[0] && (p + t)[1..] == p[1..] + t;
      SplitPrefix(p[1..], t);
      var rest := Split(p[1..] + t);
      assert rest[0] == p[1..] + st[0] && rest[1..] == st[1..];
      assert Split(p + t) == [[p[0]] + rest[0]] + rest[1..];
      assert [p[0]] + (p[1..] + st[0]) == p + st[0];
    } else {
      var st := Split(t);
      assert p + t == t && p + st[0] == st[0];
      assert st == [st[0]] + st[1..];
    }
  }

  /** A leading newline closes an empty first piece. */
  lemma SplitAfterNewline(u: string)
    ensures Split([Newline] + u) == [""] + Split(u)
  {
    assert ([Newline] + u)[1..] == u;
  }

  /** A newline-free run followed by a newline is one whole piece. */
  lemma SplitFirstLine(p: string, u: string)
    requires Newline !in p
    ensures Split(p + ([Newline] + u)) == [p] + Split(u)
  {
    SplitAfterNewline(u);
    SplitPrefix(p, [Newline] + u);
    assert p + "" == p;
  }

  /** Joining is undone by splitting, for any non-empty list of newline-free pieces. */
  lemma {:induction false} SplitJoin(pieces: seq<string>)
    requires |pieces| >= 1 && NewlineFree(pieces)
    ensures Split(Join(pieces)) == pieces
    decreases |pieces|
  {
    var p := pieces[0];
    if |pieces| == 1 {
      SplitPrefix(p, "");
      assert p + "" == p;
    } else {
      var rest := pieces[1..];
      SplitJoin(rest);
      assert Newline !in p;
      SplitFirstLine(p, Join(rest));
      JoinCons(pieces);
      assert pieces == [p] + rest;
    }
  }

  /** Unfolding `Join` once, for at least two pieces. */
  lemma JoinCons(pieces: seq<string>)
    requires |pieces| >= 2
    ensures Join(pieces) == pieces[0] + ([Newline] + Join(pieces[1..]))
  {
  }

  /** The text of `lines` written one after another, each followed by "\n". */
  function Unlines(lines: seq<string>): string
  {
    if lines == [] then ""
    else Unlines(lines[..|lines| - 1]) + lines[|lines| - 1] + "\n"
  }

  /** Writing one more line appends it and its terminator. */
  lemma UnlinesSnoc(lines: seq<string>, line: string)
    ensures Unlines(lines + [line]) == Unlines(lines) + line + "\n"
  {
    assert (lines + [line])[..|lines|] == lines;
  }

  /** Writing two lists of lines one after the other writes their concatenation. */
  lemma {:induction false} UnlinesAppend(a: seq<string>, b: seq<string>)
    ensures Unlines(a + b) == Unlines(a) + Unlines(b)
    decreases |b|
  {
    if b == [] {
      assert a + b == a;
    } else {
      var b' := b[..|b| - 1];
      assert (a + b)[..|a + b| - 1] == a + b';
      UnlinesAppend(a, b');
    }
  }

  /** Newline-terminated text is joined text with an empty last piece. */
  lemma {:induction false} UnlinesIsJoin(lines: seq<string>)
    ensures Unlines(lines) == Join(lines + [""])
    decreases |lines|
  {
    if lines != [] {
      var init := lines[..|lines| - 1];
      var last := lines[|lines| - 1];
      UnlinesIsJoin(init);
      JoinSnoc(init + [last], "");
      assert lines == init + [last];
      if init != [] {
        JoinSnoc(init, last);
        JoinSnoc(init, "");
      }
    }
  }

  /** Joining with one more piece at the end appends a newline and the piece. */
  lemma {:induction false} JoinSnoc(pieces: seq<string>, x: string)
    requires pieces != []
    ensures Join(pieces + [x]) == Join(pieces) + [Newline] + x
    decreases |pieces|
  {
    if |pieces| > 1 {
      assert (pieces + [x])[1..] == pieces[1..] + [x];
      JoinSnoc(pieces[1..], x);
    }
  }

  /** Reading newline-terminated lines back: the lines themselves, then the
      empty piece after the final newline. */
  lemma ReadBackUnlines(lines: seq<string>)
    requires NewlineFree(lines)
    ensures Split(Unlines(lines)) == lines + [""]
  {
    UnlinesIsJoin(lines);
    SplitJoin(lines + [""]);
  }

  /** The non-empty lines of `lines`, in order. */
  function DataRows(lines: seq<string>): (rows: seq<string>)
    ensures forall i :: 0 <= i < |rows| ==> rows[i] != ""
    ensures |rows| <= |lines|
  {
    if lines == [] then []
    else
      var last := lines[|lines| - 1];
      DataRows(lines[..|lines| - 1]) + (if last == "" then [] else [last])
  }

  /** Filtering keeps exactly the non-empty lines: every kept row is a line, and
      every non-empty line is kept. */
  lemma {:induction false} DataRowsMembers(lines: seq<string>, x: string)
    ensures x in DataRows(lines) <==> x in lines && x != ""
    decreases |lines|
  {
    if lines != [] {
      var init := lines[..|lines| - 1];
      DataRowsMembers(init, x);
      assert lines == init + [lines[|lines| - 1]];
    }
  }

  /** The text written for the data lines `lines`: each non-empty line followed
      by "\n", empty lines contributing nothing. */
  function RowsText(lines: seq<string>): string
  {
    if lines == [] then ""
    else
      var last := lines[|lines| - 1];
      RowsText(lines[..|lines| - 1]) + (if last == "" then "" else last + "\n")
  }

  /** One more line adds its text, or nothing when it is empty. */
  lemma RowsTextSnoc(lines: seq<string>, line: string)
    ensures RowsText(lines + [line]) == RowsText(lines) + (if line == "" then "" else line + "\n")
  {
    assert (lines + [line])[..|lines|] == lines;
  }

  /** Writing the text of one more line after `prefix`: a non-empty line and
      its terminator are appended, an empty line leaves the text as it is. */
  lemma RowsTextWrite(prefix: string, lines: seq<string>, line: string)
    ensures line == "" ==> prefix + RowsText(lines + [line]) == prefix + RowsText(lines)
    ensures line != "" ==> prefix + RowsText(lines + [line]) == prefix + RowsText(lines) + line + "\n"
  {
    RowsTextSnoc(lines, line);
    if line == "" {
      assert RowsText(lines) + "" == RowsText(lines);
    } else {
      AppendAssoc(prefix, RowsText(lines), line + "\n");
      AppendAssoc(prefix + RowsText(lines), line, "\n");
    }
  }

  /** The written data text is exactly the non-empty lines, each newline-terminated. */
  lemma {:induction false} RowsTextIsUnlines(lines: seq<string>)
    ensures RowsText(lines) == Unlines(DataRows(lines))
    decreases |lines|
  {
    if lines != [] {
      var init := lines[..|lines| - 1];
      var last := lines[|lines| - 1];
      RowsTextIsUnlines(init);
      if last != "" {
        UnlinesSnoc(DataRows(init), last);
        assert RowsText(lines) == Unlines(DataRows(init)) + (last + "\n");
      } else {
        assert DataRows(lines) == DataRows(init) + [] == DataRows(init);
        assert RowsText(lines) == RowsText(init) + "" == RowsText(init);
      }
    }
  }

  /** Filtering commutes with concatenation. */
  lemma {:induction false} DataRowsAppend(a: seq<string>, b: seq<string>)
    ensures DataRows(a + b) == DataRows(a) + DataRows(b)
    decreases |b|
  {
    if b == [] {
      assert a + b == a;
    } else {
      var b' := b[..|b| - 1];
      assert (a + b)[..|a + b| - 1] == a + b';
      DataRowsAppend(a, b');
    }
  }

  /** Text appended in two steps is the text appended at once. */
  lemma AppendAssoc(a: string, b: string, c: string)
    ensures a + (b + c) == (a + b) + c
  {
  }

  /** `sub` occurs in `s` starting at index `i`. */
  predicate OccursAt(s: string, sub: string, i: int)
  {
    0 <= i && i + |sub| <= |s| && s[i..i + |sub|] == sub
  }

  /** Away from a match at the start of `s`, `sub` occurs in `s` exactly when
      it occurs in `s` without its first character. */
  lemma OccursPastFirst(s: string, sub: string)
    requires |sub| <= |s| && s[..|sub|] != sub
    ensures (exists i :: OccursAt(s, sub, i)) <==> exists j :: OccursAt(s[1..], sub, j)
  {
    if j :| OccursAt(s[1..], sub, j) {
      assert s[j + 1..j + 1 + |sub|] == s[1..][j..j + |sub|];
      assert OccursAt(s, sub, j + 1);
    }
    if i :| OccursAt(s, sub, i) {
      assert i != 0;
      assert s[1..][i - 1..i - 1 + |sub|] == s[i..i + |sub|];
      assert OccursAt(s[1..], sub, i - 1);
    }
  }

  /** `s.Contains(sub)` with ordinal comparison: compares `sub` with the start
      of `s`, then searches the rest of `s`. It finds `sub` exactly when `sub`
      occurs somewhere in `s`. */
  function Contains(s: string, sub: string): (found: bool)
    ensures found <==> exists i :: OccursAt(s, sub, i)
    decreases |s|
  {
    if |sub| > |s| then false
    else if s[..|sub|] == sub then assert OccursAt(s, sub, 0); true
    else OccursPastFirst(s, sub); Contains(s[1..], sub)
  }

  /** Text that starts with `sub` contains it. */
  lemma ContainsPrefix(sub: string, t: string)
    ensures Contains(sub + t, sub)
  {
    assert (sub + t)[..|sub|] == sub;
  }
}
