/**
 * get_term_str: the line reader. The terminal is a finite sequence of fgetc
 * results, -1 meaning that no character was available; the characters the
 * reader echoes are returned instead of printed. Positions into that sequence
 * say how far the reader has got.
 */
module LineReader {
  const NoData: int := -1
  const CR: int := 13
  const LF: int := 10

  /** What fgetc can return: a byte, or -1 when nothing is available. */
  type Item = x: int | -1 <= x < 256

  /** The number of characters a buffer of maxlen bytes can hold: the loop stops storing at maxlen - 2. */
  function Cap(maxlen: int): nat {
    if maxlen >= 2 then maxlen - 2 else 0
  }

  /** Where reading goes on after a -1 at pos: the character read after it is thrown away. */
  function AfterNoData(input: seq<Item>, pos: nat): (next: nat)
    requires pos < |input|
    ensures pos < next <= |input|
  {
    if pos + 1 < |input| then pos + 2 else pos + 1
  }

  /**
   * The outcome of one read: the stored line, what was echoed, the position of
   * the first item left unread, and whether the line was terminated (by a
   * newline or a full buffer) before the input ran out.
   */
  datatype ReadResult = ReadResult(line: string, echo: string, next: nat, complete: bool)

  /**
   * The characters the terminal delivers from pos on: a -1 and the character
   * after it are lost, a carriage return is dropped, every other byte arrives.
   */
  function Delivered(input: seq<Item>, pos: nat): (d: string)
    requires pos <= |input|
    ensures |d| <= |input| - pos
    ensures '\r' !in d
    decreases |input| - pos
  {
    if pos == |input| then []
    else if input[pos] == NoData then Delivered(input, AfterNoData(input, pos))
    else if input[pos] == CR then Delivered(input, pos + 1)
    else [input[pos] as char] + Delivered(input, pos + 1)
  }

  /**
   * The reading loop from position pos with prog characters stored: a -1
   * discards the following item, a carriage return is skipped, any other
   * character is echoed, and then either ends the line (a newline, or a buffer
   * holding maxlen - 2 characters already) or is stored.
   */
  function Read(input: seq<Item>, pos: nat, maxlen: int, prog: nat): (r: ReadResult)
    requires pos <= |input|
    ensures pos <= r.next <= |input|
    decreases |input| - pos
  {
    if pos == |input| then ReadResult([], [], |input|, false)
    else if input[pos] == NoData then Read(input, AfterNoData(input, pos), maxlen, prog)
    else if input[pos] == CR then Read(input, pos + 1, maxlen, prog)
    else
      var c := input[pos] as char;
      if input[pos] == LF || prog >= maxlen - 2 then ReadResult([], [c, '\n'], pos + 1, true)
      else
        var r := Read(input, pos + 1, maxlen, prog + 1);
        r.(line := [c] + r.line, echo := [c] + r.echo)
  }

  /** A read result with the stored and echoed characters of earlier steps in front. */
  function After(line: string, echo: string, r: ReadResult): ReadResult {
    r.(line := line + r.line, echo := echo + r.echo)
  }

  /** Reading only moves forward, and an unfinished line has used up the whole input. */
  lemma {:induction false} ReadNext(input: seq<Item>, pos: nat, maxlen: int, prog: nat)
    requires pos <= |input|
    ensures var r := Read(input, pos, maxlen, prog);
      pos <= r.next <= |input| && (!r.complete ==> r.next == |input|)
    decreases |input| - pos
  {
    if pos < |input| {
      if input[pos] == NoData {
        ReadNext(input, AfterNoData(input, pos), maxlen, prog);
      } else if input[pos] == CR {
        ReadNext(input, pos + 1, maxlen, prog);
      } else if !(input[pos] == LF || prog >= maxlen - 2) {
        ReadNext(input, pos + 1, maxlen, prog + 1);
      }
    }
  }

  /** The reader never stores more characters than maxlen - 2, counting those stored before. */
  lemma {:induction false} ReadBounded(input: seq<Item>, pos: nat, maxlen: int, prog: nat)
    requires pos <= |input| && prog <= Cap(maxlen)
    ensures prog + |Read(input, pos, maxlen, prog).line| <= Cap(maxlen)
    decreases |input| - pos
  {
    if pos < |input| {
      if input[pos] == NoData {
        ReadBounded(input, AfterNoData(input, pos), maxlen, prog);
      } else if input[pos] == CR {
        ReadBounded(input, pos + 1, maxlen, prog);
      } else if !(input[pos] == LF || prog >= maxlen - 2) {
        ReadBounded(input, pos + 1, maxlen, prog + 1);
      }
    }
  }

  /** The stored line holds no carriage return and no newline, and a carriage return is never echoed. */
  lemma {:induction false} ReadClean(input: seq<Item>, pos: nat, maxlen: int, prog: nat)
    requires pos <= |input|
    ensures var r := Read(input, pos, maxlen, prog);
      '\r' !in r.line && '\n' !in r.line && '\r' !in r.echo
    decreases |input| - pos
  {
    if pos < |input| {
      if input[pos] == NoData {
        ReadClean(input, AfterNoData(input, pos), maxlen, prog);
      } else if input[pos] == CR {
        ReadClean(input, pos + 1, maxlen, prog);
      } else if !(input[pos] == LF || prog >= maxlen - 2) {
        ReadClean(input, pos + 1, maxlen, prog + 1);
        var c := input[pos] as char;
        assert c != '\r' && c != '\n';
      }
    }
  }

  /**
   * The echo is the stored line, then, once the line ends, the character that
   * ended it and a newline; that character is a newline or arrived with the
   * buffer full. An unfinished line has echoed exactly what it stored.
   */
  lemma {:induction false} ReadEcho(input: seq<Item>, pos: nat, maxlen: int, prog: nat)
    requires pos <= |input| && prog <= Cap(maxlen)
    ensures var r := Read(input, pos, maxlen, prog);
      && (r.complete ==>
            |r.echo| == |r.line| + 2 && r.echo == r.line + [r.echo[|r.line|], '\n']
            && (r.echo[|r.line|] == '\n' || prog + |r.line| == Cap(maxlen)))
      && (!r.complete ==> r.echo == r.line)
    decreases |input| - pos
  {
    if pos < |input| {
      if input[pos] == NoData {
        ReadEcho(input, AfterNoData(input, pos), maxlen, prog);
      } else if input[pos] == CR {
        ReadEcho(input, pos + 1, maxlen, prog);
      } else if !(input[pos] == LF || prog >= maxlen - 2) {
        ReadEcho(input, pos + 1, maxlen, prog + 1);
        var r := Read(input, pos + 1, maxlen, prog + 1);
        var c := input[pos] as char;
        if r.complete {
          var e := r.echo[|r.line|];
          assert ([c] + r.echo)[|r.line| + 1] == e;
          assert [c] + (r.line + [e, '\n']) == ([c] + r.line) + [e, '\n'];
        }
      }
    }
  }

  /**
   * The reader consumes delivered characters in order: the stored line, then
   * the character that ended it, then whatever the unread input delivers.
   */
  lemma {:induction false} ReadDelivered(input: seq<Item>, pos: nat, maxlen: int, prog: nat)
    requires pos <= |input|
    ensures var r := Read(input, pos, maxlen, prog);
      r.next <= |input| &&
      if r.complete then |r.echo| > |r.line| && Delivered(input, pos) == r.line + [r.echo[|r.line|]] + Delivered(input, r.next)
      else Delivered(input, pos) == r.line
    decreases |input| - pos
  {
    ReadNext(input, pos, maxlen, prog);
    if pos < |input| {
      if input[pos] == NoData {
        ReadDelivered(input, AfterNoData(input, pos), maxlen, prog);
      } else if input[pos] == CR {
        ReadDelivered(input, pos + 1, maxlen, prog);
      } else if !(input[pos] == LF || prog >= maxlen - 2) {
        ReadDelivered(input, pos + 1, maxlen, prog + 1);
        var r := Read(input, pos + 1, maxlen, prog + 1);
        var c := input[pos] as char;
        assert Delivered(input, pos) == [c] + Delivered(input, pos + 1);
        if r.complete {
          var e := r.echo[|r.line|];
          assert ([c] + r.echo)[|[c] + r.line|] == e;
          assert [c] + (r.line + [e] + Delivered(input, r.next))
              == ([c] + r.line) + [e] + Delivered(input, r.next);
        }
      } else {
        var c := input[pos] as char;
        assert Delivered(input, pos) == [] + [c] + Delivered(input, pos + 1);
      }
    }
  }

  /**
   * When the terminal delivers more than maxlen - 2 characters before any
   * newline, the line is cut at exactly maxlen - 2 characters; the next
   * character is echoed, followed by a newline, and is not stored.
   */
  lemma TruncatesAtCap(input: seq<Item>, maxlen: int)
    requires |Delivered(input, 0)| > Cap(maxlen) && '\n' !in Delivered(input, 0)[..Cap(maxlen)]
    ensures Read(input, 0, maxlen, 0).complete
    ensures Read(input, 0, maxlen, 0).line == Delivered(input, 0)[..Cap(maxlen)]
    ensures Read(input, 0, maxlen, 0).echo == Delivered(input, 0)[..Cap(maxlen) + 1] + "\n"
  {
    var r := Read(input, 0, maxlen, 0);
    var d := Delivered(input, 0);
    ReadBounded(input, 0, maxlen, 0);
    ReadClean(input, 0, maxlen, 0);
    ReadEcho(input, 0, maxlen, 0);
    ReadDelivered(input, 0, maxlen, 0);
    assert r.complete;
    var n := |r.line|;
    assert d[..n] == r.line && d[n] == r.echo[n];
    assert d[..n + 1] == d[..n] + [d[n]];
  }

  /** Two ways of cutting the same text at its first newline agree. */
  lemma SplitAtNewline(line: string, e: char, tail: string, w: string, more: string, cap: nat)
    requires line + [e] + tail == w + ['\n'] + more
    requires '\n' !in line && '\n' !in w && |line| <= cap && |w| <= cap
    requires e == '\n' || |line| == cap
    ensures line == w && e == '\n' && tail == more
  {
    var d := w + ['\n'] + more;
    assert d[|w|] == '\n';
    assert d[|line|] == e;
    if |line| > |w| {
      assert false;
    } else if |line| < |w| {
      assert false;
    }
    assert d[..|w|] == w;
    assert d[|w| + 1..] == more;
  }

  /**
   * When the terminal delivers a newline before maxlen - 2 other characters,
   * the line is what came before it, and the echo is that line and two newlines.
   */
  lemma StopsAtNewline(input: seq<Item>, maxlen: int, w: string, more: string)
    requires Delivered(input, 0) == w + ['\n'] + more && '\n' !in w && |w| <= Cap(maxlen)
    ensures var r := Read(input, 0, maxlen, 0);
      r.complete && r.line == w && r.echo == w + "\n\n" && r.next <= |input| && Delivered(input, r.next) == more
  {
    var r := Read(input, 0, maxlen, 0);
    var d := Delivered(input, 0);
    ReadBounded(input, 0, maxlen, 0);
    ReadClean(input, 0, maxlen, 0);
    ReadEcho(input, 0, maxlen, 0);
    ReadDelivered(input, 0, maxlen, 0);
    var n := |r.line|;
    SplitAtNewline(r.line, r.echo[n], Delivered(input, r.next), w, more, Cap(maxlen));
    assert r.echo == r.echo[..n] + [r.echo[n], r.echo[n + 1]];
  }

  /**
   * get_term_str: fills cline from the terminal one character at a time until
   * a newline or a full buffer ends the line, then writes the terminating NUL.
   * Every write lands at an index of at most maxlen - 2 (index 0 when maxlen
   * is 1), and the buffer holds the stored line.
   */
  method GetTermStr(cline: array<char>, maxlen: int, input: seq<Item>) returns (r: ReadResult)
    requires 1 <= maxlen <= cline.Length
    modifies cline
    ensures r == Read(input, 0, maxlen, 0)
    ensures |r.line| <= Cap(maxlen)
    ensures cline[..|r.line|] == r.line
    ensures r.complete ==> cline[|r.line|] == '\0'
    ensures forall i :: Cap(maxlen) < i < cline.Length ==> cline[i] == old(cline[i])
    ensures forall i :: |r.line| + (if r.complete then 1 else 0) <= i < cline.Length ==> cline[i] == old(cline[i])
  {
    var prog := 0;
    var pos := 0;
    var echo := "";
    while true
      invariant pos <= |input|
      invariant prog <= Cap(maxlen)
      invariant Read(input, 0, maxlen, 0) == After(cline[..prog], echo, Read(input, pos, maxlen, prog))
      invariant forall i :: prog <= i < cline.Length ==> cline[i] == old(cline[i])
      decreases |input| - pos
    {
      if pos == |input| {
        // the real terminal would be polled on; this model stops with the line unfinished
        r := ReadResult(cline[..prog], echo, pos, false);
        return;
      }
      var cc := input[pos];
      if cc == NoData {
        pos := pos + 1;
        if pos < |input| {
          // the next character is read and thrown away
          pos := pos + 1;
        }
        continue;
      }
      if cc == CR {
        pos := pos + 1;
        continue;
      }
      if cc == LF || prog >= maxlen - 2 {
        cline[prog] := '\0';
        echo := echo + [cc as char] + "\n";
        r := ReadResult(cline[..prog], echo, pos + 1, true);
        return;
      }
      ghost var stored := cline[..prog];
      StoreStep(stored, echo, cc as char, Read(input, pos + 1, maxlen, prog + 1));
      cline[prog] := cc as char;
      assert cline[..prog + 1] == stored + [cc as char];
      echo := echo + [cc as char];
      prog := prog + 1;
      pos := pos + 1;
    }
  }

  /** Storing one more character moves it from the rest of the read to what was stored and echoed before. */
  lemma StoreStep(stored: string, echo: string, c: char, rest: ReadResult)
    ensures After(stored, echo, rest.(line := [c] + rest.line, echo := [c] + rest.echo))
         == After(stored + [c], echo + [c], rest)
  {
    assert stored + ([c] + rest.line) == (stored + [c]) + rest.line;
    assert echo + ([c] + rest.echo) == (echo + [c]) + rest.echo;
  }

  /** The shell reads into a 64-byte buffer, so a command line holds at most 62 characters. */
  lemma ShellLineCap(input: seq<Item>)
    ensures |Read(input, 0, 64, 0).line| <= 62
  {
    ReadBounded(input, 0, 64, 0);
  }
}
