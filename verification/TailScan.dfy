/** The backward scan for the last lines of a log file (ami/native/native_log.go seekLastN). */
module TailScan {

  type Bytes = seq<char>

  function Newlines(file: Bytes): (n: nat)
    ensures n <= |file|
  {
    if file == [] then 0 else (if file[0] == '\n' then 1 else 0) + Newlines(file[1..])
  }

  lemma {:induction false} NewlinesConcat(a: Bytes, b: Bytes)
    ensures Newlines(a + b) == Newlines(a) + Newlines(b)
  {
    if a == [] {
      assert a + b == b;
    } else {
      assert (a + b)[1..] == a[1..] + b;
      NewlinesConcat(a[1..], b);
    }
  }

  lemma {:induction false} NewlinesExactly(file: Bytes)
    ensures Newlines(file) == multiset(file)['\n']
  {
    if file != [] {
      NewlinesExactly(file[1..]);
      assert file == [file[0]] + file[1..];
    }
  }

  /** Where the scan leaves the file position. */
  predicate IsTail(file: Bytes, tailLines: int, pos: int) {
    || (pos == 0 && Newlines(file) <= tailLines)
    || (0 < pos <= |file| && file[pos - 1] == '\n' && Newlines(file[pos..]) == tailLines)
  }

  /** The position for any count: at most one byte is read for a negative one. */
  method SeekLastN(file: Bytes, tailLines: int) returns (pos: nat)
    ensures tailLines >= 0 ==> IsTail(file, tailLines, pos)
    ensures tailLines >= 0 ==>
              || (pos == 0 && Newlines(file) <= tailLines)
              || (0 < pos <= |file| && file[pos - 1] == '\n' && Newlines(file[pos..]) == tailLines)
    ensures tailLines < 0 ==> pos == |file|
  {
    var size := |file|;
    var cursor := 0;
    var cnt := 0;
    while true
      invariant 0 <= cursor <= size
      invariant cnt == Newlines(file[size - cursor..])
      invariant cursor > 0 ==> cnt <= tailLines
      decreases size - cursor
    {
      cursor := cursor + 1;
      if size - cursor < 0 {
        // the seek to a negative offset fails
        assert file[0..] == file;
        return 0;
      }
      assert file[size - cursor..][1..] == file[size - cursor + 1..];
      if file[size - cursor] == '\n' {
        cnt := cnt + 1;
      }
      pos := size - cursor + 1;
      if cnt >= tailLines + 1 {
        return;
      }
    }
  }

  /** The position is determined by the file and the count. */
  lemma {:induction false} TailUnique(file: Bytes, tailLines: int, p: int, q: int)
    requires IsTail(file, tailLines, p) && IsTail(file, tailLines, q)
    ensures p == q
  {
    assert file[0..] == file;
    if p < q {
      LaterTailIsShorter(file, p, q);
    } else if q < p {
      LaterTailIsShorter(file, q, p);
    }
  }

  lemma {:induction false} LaterTailIsShorter(file: Bytes, p: nat, q: nat)
    requires p < q <= |file| && file[q - 1] == '\n'
    ensures Newlines(file[p..]) >= Newlines(file[q..]) + 1
  {
    assert file[p..] == file[p..q - 1] + [file[q - 1]] + file[q..];
    NewlinesConcat(file[p..q - 1] + [file[q - 1]], file[q..]);
    NewlinesConcat(file[p..q - 1], [file[q - 1]]);
  }

  // lines of a text: the pieces its newlines end, and a last piece without one
  function Lines(file: Bytes): nat {
    Newlines(file) + if file != [] && file[|file| - 1] != '\n' then 1 else 0
  }

  /** From there on the file holds the last tailLines lines, or all of them when there are fewer, exactly when
      the file ends with a newline or was short enough; otherwise it holds one line more. */
  lemma {:induction false} TailLinesExactly(file: Bytes, tailLines: nat, pos: int)
    requires IsTail(file, tailLines, pos)
    ensures Lines(file[pos..]) == (if Lines(file) < tailLines then Lines(file) else tailLines) <==>
            file == [] || file[|file| - 1] == '\n' || Lines(file) <= tailLines
    ensures Lines(file[pos..]) <= tailLines + 1
  {
    assert file[0..] == file;
    var suffix := file[pos..];
    if pos > 0 {
      assert file == file[..pos] + suffix;
      NewlinesConcat(file[..pos], suffix);
      assert file[..pos] == file[..pos - 1] + ['\n'];
      NewlinesConcat(file[..pos - 1], ['\n']);
      if suffix == [] {
        assert file[|file| - 1] == '\n';
      }
    }
  }

  /** Asked for the last line of two, the second without a newline, it gives both. */
  lemma {:induction false} OneLineTooMany()
    ensures var file := ['a', '\n', 'b']; IsTail(file, 1, 0) && Lines(file[0..]) == 2
  {
    var file := ['a', '\n', 'b'];
    assert file[0..] == file == ['a', '\n'] + ['b'] && ['a', '\n'] == ['a'] + ['\n'];
    NewlinesConcat(['a', '\n'], ['b']);
    NewlinesConcat(['a'], ['\n']);
    assert Newlines(file) == 1;
  }
}
