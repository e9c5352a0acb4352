/** The bounded reader of a child's standard error (StartupStderr.drain in
    scripts/acceptance/isolated_browser_harness.py): it splits a stream of chunks into lines and
    drops those that are too long to buffer. */
module StartupStderr {
  type Byte = b: int | 0 <= b < 256

  type Line = seq<Byte>

  const NEWLINE: Byte := 10

  const LINE_LIMIT := 4096

  /** The buffer never holds more than one line of the greatest length. */
  type Buffer = b: Line | |b| <= LINE_LIMIT

  // ---------- The lines of a byte string ----------

  /** The lines that a newline ends, without it. */
  function Finished(bytes: seq<Byte>): seq<Line> {
    if bytes == [] then []
    else
      var n := |bytes| - 1;
      if bytes[n] == NEWLINE then Finished(bytes[..n]) + [Rest(bytes[..n])] else Finished(bytes[..n])
  }

  /** What follows the last newline. */
  function Rest(bytes: seq<Byte>): Line {
    if bytes == [] then []
    else
      var n := |bytes| - 1;
      if bytes[n] == NEWLINE then [] else Rest(bytes[..n]) + [bytes[n]]
  }

  function Join(lines: seq<Line>): seq<Byte> {
    if lines == [] then [] else Join(lines[..|lines| - 1]) + lines[|lines| - 1] + [NEWLINE]
  }

  predicate OneLine(line: Line) {
    NEWLINE !in line
  }

  /** Splitting loses nothing: every byte is in a line or is the newline that ends one. */
  lemma {:induction false} SplitThenJoin(bytes: seq<Byte>)
    ensures Join(Finished(bytes)) + Rest(bytes) == bytes
    ensures OneLine(Rest(bytes)) && forall l | l in Finished(bytes) :: OneLine(l)
  {
    if bytes != [] {
      var n := |bytes| - 1;
      SplitThenJoin(bytes[..n]);
      assert bytes == bytes[..n] + [bytes[n]];
      var before := Finished(bytes[..n]);
      assert (before + [Rest(bytes[..n])])[..|before|] == before;
    }
  }

  /** And it is the only way to cut the bytes into lines. */
  lemma {:induction false} JoinThenSplit(lines: seq<Line>, rest: Line)
    requires OneLine(rest) && forall l | l in lines :: OneLine(l)
    ensures Finished(Join(lines) + rest) == lines && Rest(Join(lines) + rest) == rest
    decreases |lines|, |rest|
  {
    var bytes := Join(lines) + rest;
    var n := |bytes| - 1;
    if rest != [] {
      var shorter := rest[..|rest| - 1];
      JoinThenSplit(lines, shorter);
      assert bytes[..n] == Join(lines) + shorter && bytes[n] == rest[|rest| - 1];
      assert rest == shorter + [rest[|rest| - 1]];
    } else if lines != [] {
      var last := lines[|lines| - 1];
      JoinThenSplit(lines[..|lines| - 1], last);
      assert bytes[..n] == Join(lines[..|lines| - 1]) + last && bytes[n] == NEWLINE;
      assert lines == lines[..|lines| - 1] + [last];
    }
  }

  // ---------- What the reader keeps ----------

  /** The lines that are short enough, in their order. */
  function ShortOnly(lines: seq<Line>): seq<Line> {
    if lines == [] then []
    else
      var n := |lines| - 1;
      ShortOnly(lines[..n]) + if |lines[n]| <= LINE_LIMIT then [lines[n]] else []
  }

  predicate AnyLong(lines: seq<Line>) {
    exists i | 0 <= i < |lines| :: |lines[i]| > LINE_LIMIT
  }

  /** The lines that are consumed of a stream that ended after these bytes. */
  function Consumed(bytes: seq<Byte>): seq<Line> {
    ShortOnly(Finished(bytes)) + if 0 < |Rest(bytes)| <= LINE_LIMIT then [Rest(bytes)] else []
  }

  /** Some line of the stream was dropped. */
  predicate Oversized(bytes: seq<Byte>) {
    AnyLong(Finished(bytes) + [Rest(bytes)])
  }

  /** What the stream delivers: reading stops at the first empty chunk. */
  function Delivered(chunks: seq<seq<Byte>>): seq<Byte> {
    if chunks == [] || chunks[0] == [] then [] else chunks[0] + Delivered(chunks[1..])
  }

  lemma {:induction false} DeliveredUpTo(chunks: seq<seq<Byte>>, n: nat)
    requires n < |chunks| && forall i | 0 <= i <= n :: chunks[i] != []
    ensures Delivered(chunks[..n + 1]) == Delivered(chunks[..n]) + chunks[n]
  {
    if n > 0 {
      DeliveredUpTo(chunks[1..], n - 1);
      assert chunks[..n + 1][1..] == chunks[1..][..n] && chunks[..n][1..] == chunks[1..][..n - 1];
    } else {
      assert chunks[..1][1..] == [];
    }
  }

  lemma {:induction false} DeliveredAll(chunks: seq<seq<Byte>>, n: nat)
    requires n <= |chunks| && (n < |chunks| ==> chunks[n] == []) && forall i | 0 <= i < n :: chunks[i] != []
    ensures Delivered(chunks) == Delivered(chunks[..n])
  {
    if n > 0 {
      DeliveredAll(chunks[1..], n - 1);
      assert chunks[..n][1..] == chunks[1..][..n - 1];
    }
  }

  /** The reader stands after these bytes: what is buffered and whether the line is being dropped. */
  predicate Stands(bytes: seq<Byte>, pending: Buffer, dropping: bool) {
    && (dropping <==> |Rest(bytes)| > LINE_LIMIT)
    && pending == if dropping then [] else Rest(bytes)
  }

  class Reader {
    var lines: seq<Line>       // the lines given to consume_line
    var truncated: bool
    var readError: bool
    var eof: bool

    constructor ()
      ensures lines == [] && !truncated && !readError && !eof
    {
      lines, truncated, readError, eof := [], false, false, false;
    }

    /** The reader is after these bytes, of a stream that it started with `before` consumed. */
    ghost predicate After(before: seq<Line>, wasTruncated: bool, bytes: seq<Byte>, pending: Buffer, dropping: bool)
      reads this
    {
      && Stands(bytes, pending, dropping)
      && lines == before + ShortOnly(Finished(bytes))
      && (truncated <==> wasTruncated || Oversized(bytes))
    }

    /** The body of the inner loop. */
    method Take(byte: Byte, pending: Buffer, dropping: bool,
                ghost before: seq<Line>, ghost wasTruncated: bool, ghost bytes: seq<Byte>)
      returns (pending': Buffer, dropping': bool)
      requires After(before, wasTruncated, bytes, pending, dropping)
      modifies this`lines, this`truncated
      ensures After(before, wasTruncated, bytes + [byte], pending', dropping')
    {
      LongMember(Finished(bytes), Rest(bytes));
      pending', dropping' := pending, dropping;
      if byte == NEWLINE {
        NewlineEnds(bytes);
        if !dropping {
          lines := lines + [pending];
        }
        pending', dropping' := [], false;
        return;
      }
      ByteExtends(bytes, byte);
      if !dropping {
        if |pending| < LINE_LIMIT {
          pending' := pending + [byte];
        } else {
          pending', dropping', truncated := [], true, true;
        }
      }
    }

    method TakeAll(chunk: seq<Byte>, pending: Buffer, dropping: bool,
                   ghost before: seq<Line>, ghost wasTruncated: bool, ghost bytes: seq<Byte>)
      returns (pending': Buffer, dropping': bool)
      requires After(before, wasTruncated, bytes, pending, dropping)
      modifies this`lines, this`truncated
      ensures After(before, wasTruncated, bytes + chunk, pending', dropping')
    {
      pending', dropping' := pending, dropping;
      assert bytes + chunk[..0] == bytes;
      for i := 0 to |chunk|
        invariant After(before, wasTruncated, bytes + chunk[..i], pending', dropping')
      {
        assert bytes + chunk[..i + 1] == bytes + chunk[..i] + [chunk[i]];
        pending', dropping' := Take(chunk[i], pending', dropping', before, wasTruncated, bytes + chunk[..i]);
      }
      assert chunk[..|chunk|] == chunk;
    }

    /** Reads the stream to its end, or to the error that `fails` stands for. */
    method Drain(chunks: seq<seq<Byte>>, fails: bool)
      modifies this
      ensures eof && (readError <==> old(readError) || fails)
      ensures lines == old(lines) +
                       if fails then ShortOnly(Finished(Delivered(chunks))) else Consumed(Delivered(chunks))
      ensures truncated <==> old(truncated) || Oversized(Delivered(chunks))
    {
      var pending: Buffer, dropping := [], false;
      ghost var before, wasTruncated := lines, truncated;
      var n := 0;
      while n < |chunks| && chunks[n] != []
        invariant n <= |chunks| && forall i | 0 <= i < n :: chunks[i] != []
        invariant After(before, wasTruncated, Delivered(chunks[..n]), pending, dropping)
        invariant readError == old(readError)
      {
        pending, dropping := TakeAll(chunks[n], pending, dropping, before, wasTruncated, Delivered(chunks[..n]));
        DeliveredUpTo(chunks, n);
        n := n + 1;
      }
      DeliveredAll(chunks, n);
      if fails {
        readError := true;
      } else if pending != [] && !dropping {
        lines := lines + [pending];
      }
      eof := true;
    }
  }

  lemma NewlineEnds(bytes: seq<Byte>)
    ensures var longer := bytes + [NEWLINE];
            && Rest(longer) == [] && (Oversized(longer) <==> Oversized(bytes))
            && ShortOnly(Finished(longer)) ==
               ShortOnly(Finished(bytes)) + (if |Rest(bytes)| <= LINE_LIMIT then [Rest(bytes)] else [])
  {
    var longer := bytes + [NEWLINE];
    assert longer[..|bytes|] == bytes;
    var lines := Finished(bytes) + [Rest(bytes)];
    assert lines[..|lines| - 1] == Finished(bytes) && Finished(longer) == lines;
    LongMember(lines, []);
  }

  lemma ByteExtends(bytes: seq<Byte>, byte: Byte)
    requires byte != NEWLINE
    ensures var longer := bytes + [byte];
            && Rest(longer) == Rest(bytes) + [byte] && Finished(longer) == Finished(bytes)
            && (Oversized(longer) <==> Oversized(bytes) || |Rest(bytes)| >= LINE_LIMIT)
  {
    var longer := bytes + [byte];
    assert longer[..|bytes|] == bytes;
    LongMember(Finished(bytes), Rest(bytes));
    LongMember(Finished(bytes), Rest(longer));
  }

  lemma LongMember(lines: seq<Line>, line: Line)
    ensures AnyLong(lines + [line]) <==> AnyLong(lines) || |line| > LINE_LIMIT
  {
    var all := lines + [line];
    assert all[|lines|] == line;
    if AnyLong(lines) {
      var i :| 0 <= i < |lines| && |lines[i]| > LINE_LIMIT;
      assert all[i] == lines[i];
    }
    if AnyLong(all) && |line| <= LINE_LIMIT {
      var i :| 0 <= i < |all| && |all[i]| > LINE_LIMIT;
      assert lines[i] == all[i];
    }
  }

  /** The positions of the lines of at most 4096 bytes, in ascending order. */
  function ShortPositions(lines: seq<Line>): (ps: seq<nat>)
    ensures forall i | 0 <= i < |ps| :: ps[i] < |lines|
  {
    if lines == [] then []
    else
      var n := |lines| - 1;
      ShortPositions(lines[..n]) + if |lines[n]| <= 4096 then [n] else []
  }

  /** What is kept of some lines: exactly those of at most 4096 bytes, each once and in their order. */
  lemma {:induction false} ShortOnlyMeans(lines: seq<Line>)
    ensures var ps := ShortPositions(lines);
            && |ShortOnly(lines)| == |ps|
            && (forall i | 0 <= i < |ps| :: ShortOnly(lines)[i] == lines[ps[i]])
            && (forall i, j | 0 <= i < j < |ps| :: ps[i] < ps[j])
            && (forall k | 0 <= k < |lines| :: k in ps <==> |lines[k]| <= 4096)
  {
    if lines != [] {
      var n := |lines| - 1;
      ShortOnlyMeans(lines[..n]);
      var before, ps := ShortPositions(lines[..n]), ShortPositions(lines);
      assert forall k | k in before :: k < n;
      forall k | 0 <= k < |lines| ensures k in ps <==> |lines[k]| <= 4096 {
        assert k < n ==> (k in ps <==> k in before) && lines[..n][k] == lines[k];
      }
    }
  }

  /** A stream is marked exactly when one of its lines, the unfinished one included, is longer. */
  lemma OversizedMeans(bytes: seq<Byte>)
    ensures Oversized(bytes) <==> (exists l | l in Finished(bytes) :: |l| > 4096) || |Rest(bytes)| > 4096
  {
    LongMember(Finished(bytes), Rest(bytes));
    if l :| l in Finished(bytes) && |l| > 4096 {
      var i :| 0 <= i < |Finished(bytes)| && Finished(bytes)[i] == l;
      assert |Finished(bytes)[i]| > LINE_LIMIT;
    }
    if AnyLong(Finished(bytes)) {
      var i :| 0 <= i < |Finished(bytes)| && |Finished(bytes)[i]| > LINE_LIMIT;
      assert Finished(bytes)[i] in Finished(bytes);
    }
  }

  /** The chunks do not matter, only the bytes: two streams that deliver the same bytes leave the
      same lines and the same mark. */
  method SameForEveryChunking(a: Reader, b: Reader, chunks: seq<seq<Byte>>, others: seq<seq<Byte>>)
    requires a != b && a.lines == b.lines && a.truncated == b.truncated && Delivered(chunks) == Delivered(others)
    modifies a, b
    ensures a.lines == b.lines && a.truncated == b.truncated
  {
    a.Drain(chunks, false);
    b.Drain(others, false);
  }

  /** For a stream of well-formed lines the reader consumes exactly the short ones, and an
      unfinished last line, and marks exactly the streams with a longer one. */
  lemma ConsumedExactly(lines: seq<Line>, rest: Line)
    requires OneLine(rest) && forall l | l in lines :: OneLine(l)
    ensures var bytes := Join(lines) + rest;
            && Consumed(bytes) == ShortOnly(lines) + (if 0 < |rest| <= LINE_LIMIT then [rest] else [])
            && (Oversized(bytes) <==> AnyLong(lines) || |rest| > LINE_LIMIT)
  {
    JoinThenSplit(lines, rest);
    LongMember(lines, rest);
  }
}
