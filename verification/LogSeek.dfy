/** Finding the last lines of a log file by scanning it backwards. */
module LogSeek {
  import opened Framing

  const NEWLINE: byte := 10
  const CHUNK_SIZE := 4096

  function Newlines(s: seq<byte>): nat {
    if s == [] then 0 else (if s[0] == NEWLINE then 1 else 0) + Newlines(s[1..])
  }

  lemma {:induction false} NewlinesAppend(s: seq<byte>, t: seq<byte>)
    ensures Newlines(s + t) == Newlines(s) + Newlines(t)
  {
    if s == [] {
      assert s + t == t;
    } else {
      assert (s + t)[1..] == s[1..] + t;
      NewlinesAppend(s[1..], t);
    }
  }

  /** The number of newlines in a suffix can only grow as the suffix does. */
  lemma SuffixNewlines(s: seq<byte>, i: nat, j: nat)
    requires i <= j <= |s|
    ensures Newlines(s[i..]) == Newlines(s[i..j]) + Newlines(s[j..])
  {
    assert s[i..] == s[i..j] + s[j..];
    NewlinesAppend(s[i..j], s[j..]);
  }

  lemma NothingHasNone()
    ensures Newlines([]) == 0
  {
  }

  lemma OneByteMore(s: seq<byte>, at: nat)
    requires at < |s|
    ensures Newlines(s[at..]) == (if s[at] == NEWLINE then 1 else 0) + Newlines(s[at + 1..])
  {
    assert s[at..][1..] == s[at + 1..];
  }

  /** A file under a reader that walks backwards. `position` is the reader's logical place;
      the underlying cursor is anywhere at or before it once something has been read. */
  class LogFile {
    const contents: seq<byte>
    var position: nat
    var cursor: nat

    constructor (contents: seq<byte>)
      ensures this.contents == contents && position == cursor == |contents|
    {
      this.contents := contents;
      position := |contents|;
      cursor := |contents|;
    }

    /** A block that ends at the logical position, its bytes in forward order; nothing only at
        the start of the file. */
    method ReadBack() returns (block: seq<byte>)
      requires position <= |contents|
      modifies this`position, this`cursor
      ensures old(position) == 0 ==> block == [] && position == 0 && cursor == old(cursor)
      ensures old(position) > 0 ==>
        1 <= |block| <= CHUNK_SIZE && position == old(position) - |block| && cursor <= position
      ensures position <= |contents| && position <= old(position) && block == contents[position..old(position)]
    {
      if position == 0 {
        return [];
      }
      var n: nat :| 1 <= n <= CHUNK_SIZE && n <= position;
      block := contents[position - n..position];
      position := position - n;
      var parked: nat :| parked <= position;
      cursor := parked;
    }

    method SeekTo(target: nat)
      modifies this`cursor
      ensures cursor == target
    {
      cursor := target;
    }
  }

  /** Right behind a newline, with exactly `amount` more of them ahead. */
  ghost predicate AtLastLines(contents: seq<byte>, cursor: nat, amount: nat) {
    0 < cursor <= |contents| && contents[cursor - 1] == NEWLINE && Newlines(contents[cursor..]) == amount
  }

  /** Only one place in a file qualifies. */
  lemma LastLinesUnique(contents: seq<byte>, a: nat, b: nat, amount: nat)
    requires AtLastLines(contents, a, amount) && AtLastLines(contents, b, amount)
    ensures a == b
  {
    if a < b {
      LaterIsFewer(contents, a, b);
    } else if b < a {
      LaterIsFewer(contents, b, a);
    }
  }

  lemma LaterIsFewer(contents: seq<byte>, a: nat, b: nat)
    requires a < b <= |contents| && contents[b - 1] == NEWLINE
    ensures Newlines(contents[a..]) > Newlines(contents[b..])
  {
    SuffixNewlines(contents, a, b - 1);
    SuffixNewlines(contents, b - 1, b);
    assert contents[b - 1..b] == [NEWLINE];
  }

  ghost predicate EndsWithNewline(contents: seq<byte>) {
    contents != [] && contents[|contents| - 1] == NEWLINE
  }

  /** The scan of one block, from its last byte to its first. */
  method ScanBlock(file: LogFile, block: seq<byte>, amount: nat, total: nat, found: nat)
    returns (done: bool, total': nat, found': nat)
    requires file.position <= file.position + |block| == |file.contents| - total
    requires block == file.contents[file.position..file.position + |block|]
    requires found == Newlines(file.contents[|file.contents| - total..]) && found <= amount
    requires file.cursor <= file.position && block != []
    modifies file`cursor
    ensures !done ==> total' == total + |block| && file.cursor == old(file.cursor) && found' <= amount
                      && found' == Newlines(file.contents[|file.contents| - total'..])
    ensures done ==> Newlines(file.contents) > amount
    ensures done && (amount > 0 || !EndsWithNewline(file.contents)) ==> AtLastLines(file.contents, file.cursor, amount)
    ensures done && amount == 0 && EndsWithNewline(file.contents) ==> file.cursor < |file.contents|
  {
    hide Newlines;
    total', found' := total, found;
    var start := |file.contents|;
    var left := |block|;
    while left > 0
      invariant 0 <= left <= |block| && total' == total + (|block| - left) && total' <= start
      invariant file.cursor == old(file.cursor) && found' <= amount
      invariant found' == Newlines(file.contents[start - total'..])
    {
      left := left - 1;
      total' := total' + 1;
      var at := start - total';
      assert at == file.position + left && block[left] == file.contents[at];
      OneByteMore(file.contents, at);
      if block[left] != NEWLINE {
        continue;
      }
      found' := found' + 1;
      if found' != amount + 1 {
        continue;
      }
      SuffixNewlines(file.contents, 0, at);
      assert file.contents[0..] == file.contents;
      if at + 1 < start {
        file.SeekTo(at + 1);
      } else {
        NothingHasNone();
        assert file.contents[start..] == [];
      }
      return true, total', found';
    }
    done := false;
  }

  /** Seeks to the last lines, whatever blocks the reader delivers. The verdict is always right:
      the start of the file is reported exactly when it holds at most `amount` newlines. */
  method SeekToLastLines(file: LogFile, amount: nat) returns (atStart: bool)
    requires file.position == file.cursor == |file.contents|
    modifies file
    ensures atStart <==> Newlines(file.contents) <= amount
    ensures atStart ==> file.cursor == 0
    ensures !atStart ==>
      (AtLastLines(file.contents, file.cursor, amount) <==> amount > 0 || !EndsWithNewline(file.contents))
  {
    var total, found := 0, 0;
    assert file.contents[|file.contents|..] == [];
    while true
      invariant file.position <= |file.contents| && file.position == |file.contents| - total
      invariant total == 0 ==> file.cursor == |file.contents|
      invariant total > 0 ==> file.cursor <= file.position
      invariant found <= amount && found == Newlines(file.contents[|file.contents| - total..])
      decreases file.position
    {
      var block := file.ReadBack();
      if block == [] {
        assert file.contents[0..] == file.contents;
        return true;
      }
      var done;
      done, total, found := ScanBlock(file, block, amount, total, found);
      if done {
        if amount == 0 && EndsWithNewline(file.contents) {
          EndNewlineCounts(file.contents, file.cursor);
        }
        return false;
      }
    }
  }

  /** Anywhere before the end of a file that ends in a newline, that newline is still ahead. */
  lemma EndNewlineCounts(contents: seq<byte>, cursor: nat)
    requires EndsWithNewline(contents) && cursor < |contents|
    ensures Newlines(contents[cursor..]) > 0
  {
    var last := |contents| - 1;
    SuffixNewlines(contents, cursor, last);
    assert contents[last..] == [NEWLINE];
  }
}
