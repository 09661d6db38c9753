/** The output file the merged export is streamed into. */
module Sink {

  /** The text of a file after `data` is written over `contents` starting at
      offset `at`: the text before `at` is kept, `data` replaces what lay under
      it, and whatever lay beyond the end of `data` is kept too. Nothing is
      truncated. */
  function Overwrite(contents: string, at: nat, data: string): (r: string)
    requires at <= |contents|
    ensures |r| == if at + |data| <= |contents| then |contents| else at + |data|
  {
    contents[..at] + data + (if at + |data| <= |contents| then contents[at + |data|..] else "")
  }

  /** What a write at `at` leaves in each part of the file: the text before
      `at` as it was, `data` in the place it was written, and the old text
      beyond the end of `data` as it was. */
  lemma OverwriteParts(contents: string, at: nat, data: string)
    requires at <= |contents|
    ensures var r := Overwrite(contents, at, data);
            && r[..at] == contents[..at]
            && r[at..at + |data|] == data
            && (at + |data| <= |contents| ==> r[at + |data|..] == contents[at + |data|..])
  {
    var r := Overwrite(contents, at, data);
    var tail := if at + |data| <= |contents| then contents[at + |data|..] else "";
    assert r == contents[..at] + data + tail;
    assert r[..at] == contents[..at];
    assert r[at..at + |data|] == data;
    assert r[at + |data|..] == tail;
  }

  /** Writing nothing leaves the file as it is. */
  lemma OverwriteNothing(contents: string, at: nat)
    requires at <= |contents|
    ensures Overwrite(contents, at, "") == contents
  {
    assert contents[..at] + "" + contents[at..] == contents;
  }

  /** Two writes one after the other, the second where the first ended, leave
      the file as one write of both texts. */
  lemma OverwriteTwice(contents: string, at: nat, a: string, b: string)
    requires at <= |contents|
    ensures at + |a| <= |Overwrite(contents, at, a)|
    ensures Overwrite(Overwrite(contents, at, a), at + |a|, b) == Overwrite(contents, at, a + b)
  {
    var first := Overwrite(contents, at, a);
    var end := at + |a| + |b|;
    var left := contents[..at] + a + b;
    assert first[..at + |a|] == contents[..at] + a;
    if end <= |contents| {
      assert first[at + |a|..][|b|..] == contents[end..];
      assert Overwrite(first, at + |a|, b) == left + contents[end..];
    } else if at + |a| <= |contents| {
      assert Overwrite(first, at + |a|, b) == left;
    } else {
      assert first == contents[..at] + a;
      assert Overwrite(first, at + |a|, b) == left;
    }
  }

  /** A file opened at offset 0 and then written with `data`: `data`, followed
      by the part of the old contents that `data` did not reach. */
  lemma OverwriteFromStart(existing: string, data: string)
    ensures Overwrite(existing, 0, data) == data + (if |data| < |existing| then existing[|data|..] else "")
  {
    assert existing[..0] == "";
  }

  /** A ten-character file written with the nine characters of a header line
      keeps its last character after the new text. */
  lemma LongerFileKeepsItsTail()
    ensures Overwrite("0123456789", 0, "PlayerId\n") == "PlayerId\n9"
  {
    OverwriteFromStart("0123456789", "PlayerId\n");
    assert "0123456789"[9..] == "9";
  }

  /** An open, writable file stream: the file's text and the offset the next
      write starts at. */
  class OutputFile {
    var contents: string
    var position: nat

    /** The offset never lies past the end of the text. */
    ghost predicate Valid()
      reads this
    {
      position <= |contents|
    }

    /** Since the file held `start` with its offset at `at`, exactly `written`
        has been written: the text is `start` overwritten from `at` with
        `written`, and the offset is just past it. */
    ghost predicate WroteFrom(start: string, at: nat, written: string)
      reads this
    {
      at <= |start| && position == at + |written| && contents == Overwrite(start, at, written)
    }

    /** `File.OpenWrite`: opens the file without truncating it, positioned at
        its start. A file that does not exist yet is opened as the empty text. */
    constructor OpenWrite(existing: string)
      ensures Valid() && contents == existing && position == 0
    {
      contents := existing;
      position := 0;
    }

    /** Writes `data` at the current offset, over whatever text lies there,
        and moves the offset past it. */
    method Write(data: string)
      requires Valid()
      modifies this
      ensures Valid() && position == old(position) + |data|
      ensures contents == Overwrite(old(contents), old(position), data)
    {
      contents := Overwrite(contents, position, data);
      position := position + |data|;
    }

    /** Writes `data` next, after `written`: the text written since the file
        held `start` at offset `at` grows by `data`. */
    method WriteNext(data: string, ghost start: string, ghost at: nat, ghost written: string)
      requires WroteFrom(start, at, written)
      modifies this
      ensures WroteFrom(start, at, written + data)
    {
      Write(data);
      OverwriteTwice(start, at, written, data);
    }
  }
}
