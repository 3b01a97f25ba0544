/** Printing the log that has gathered in the ring. */
module Logging {
  import opened Ring
  import opened Lines
  import opened Drain
  import opened CircularBuffers

  const LINE_SIZE: nat := 159

  function Flatten(lines: seq<seq<char>>): seq<char> {
    if lines == [] then [] else Flatten(lines[..|lines| - 1]) + lines[|lines| - 1]
  }

  lemma FlattenNext(lines: seq<seq<char>>, line: seq<char>, rest: seq<char>)
    ensures Flatten(lines) + (line + rest) == Flatten(lines + [line]) + rest
  {
    assert (lines + [line])[..|lines|] == lines;
  }

  /** A line as it is printed: without its newline. */
  function Printed(line: seq<char>): seq<char> {
    if line != [] && line[|line| - 1] == '\n' then line[..|line| - 1] else line
  }

  /** Lines taken from the ring, none too long and each ending at its first newline if it has one, and the same lines as
      they are printed. */
  predicate PrintedAs(taken: seq<seq<char>>, printed: seq<seq<char>>) {
    |printed| == |taken| && forall i :: 0 <= i < |taken| ==> IsLine(taken[i], LINE_SIZE) && printed[i] == Printed(taken[i])
  }

  lemma PrintedNext(taken: seq<seq<char>>, printed: seq<seq<char>>, line: seq<char>)
    requires PrintedAs(taken, printed) && IsLine(line, LINE_SIZE)
    ensures PrintedAs(taken + [line], printed + [Printed(line)])
  {
  }

  /** The printing loop. */
  method PrintLines(log: CircularBuffer) returns (printed: seq<seq<char>>, ghost taken: seq<seq<char>>)
    requires log.Logged()
    requires DrainsCleanly(log.buffer[..], log.fixedSize, log.head, log.tail, LINE_SIZE)
    modifies log
    ensures log.Logged() && log.head == log.tail
    ensures old(log.Contents()) == Flatten(taken)
    ensures PrintedAs(taken, printed)
  {
    printed, taken := [], [];
    assert Flatten(taken) == [];
    hide Queue, TakeLine, TakesLine, DrainsCleanly, RingOk, Flatten, PrintedAs;
    while !log.Empty()
      invariant log.Logged()
      invariant DrainsCleanly(log.buffer[..], log.fixedSize, log.head, log.tail, LINE_SIZE)
      invariant old(log.Contents()) == Flatten(taken) + log.Contents()
      invariant PrintedAs(taken, printed)
      decreases |log.Contents()|
    {
      var line := TakeOne(log);
      FlattenNext(taken, line, log.Contents());
      PrintedNext(taken, printed, line);
      taken := taken + [line];
      printed := printed + [if line[|line| - 1] == '\n' then line[..|line| - 1] else line];
    }
    assert log.Contents() == [];
  }

  /** Empties the buffer. If it was full, its first line may have lost its start and is left out; everything
      else is printed in order, line by line. */
  method PrintAvailableLogging(log: CircularBuffer)
    returns (printed: seq<seq<char>>, dropped: seq<char>, ghost taken: seq<seq<char>>)
    requires log.Logged()
    requires DrainsCleanly(log.buffer[..], log.fixedSize, log.head, log.tail, LINE_SIZE)
    modifies log
    ensures log.Logged() && log.Contents() == [] && log.head == log.tail == 0
    ensures old(log.Contents()) == dropped + Flatten(taken)
    ensures if old(log.maxed) then IsLine(dropped, LINE_SIZE) else dropped == []
    ensures PrintedAs(taken, printed)
  {
    hide Queue, DrainsCleanly, RingOk, Flatten, PrintedAs;
    dropped := [];
    if log.Full() {
      dropped := TakeOne(log);
    }
    printed, taken := PrintLines(log);
    log.ClearIfEmpty();
  }

  lemma OneLineLess(slots: seq<char>, n: nat, head: nat, tail: nat)
    requires RingOk(slots, n, head, tail) && Written(slots, n, head, tail) && DrainsCleanly(slots, n, head, tail, LINE_SIZE)
    requires head != tail
    ensures ScansStayInside(slots, head, tail)
    ensures var (line, tail') := TakeLine(slots, n, head, tail, LINE_SIZE);
            && IsLine(line, LINE_SIZE) && Queue(slots, n, head, tail) == line + Queue(slots, n, head, tail')
            && (line[|line| - 1] == '\n' || |line| == 159 || Queue(slots, n, head, tail') == [] || tail' == 0)
            && RingOk(slots, n, head, tail') && Written(slots, n, head, tail') && head + 1 != tail'
            && DrainsCleanly(slots, n, head, tail', LINE_SIZE)
  {
    hide Queue, TakeLine, DrainsCleanly, Written, ScansStayInside, LineLength, RingOk;
    CleanStep(slots, n, head, tail, LINE_SIZE);
    TakesWholeLine(slots, n, head, tail, LINE_SIZE);
    TakesOneLine(slots, n, head, tail, LINE_SIZE);
    CountedOut(slots, n, head, tail, TakeLine(slots, n, head, tail, LINE_SIZE).0, TakeLine(slots, n, head, tail, LINE_SIZE).1);
    LaterWritten(slots, n, head, tail, TakeLine(slots, n, head, tail, LINE_SIZE).1);
  }

  /** With a line less in the queue the tail is closer to the head. */
  lemma CountedOut(slots: seq<char>, n: nat, head: nat, tail: nat, line: seq<char>, tail': nat)
    requires RingOk(slots, n, head, tail) && tail' < n && line != []
    requires Queue(slots, n, head, tail) == line + Queue(slots, n, head, tail')
    ensures head < n < |slots| && tail < n && head + 1 != tail' && (Wrapped(head, tail') ==> Wrapped(head, tail))
  {
    hide Queue;
    assert Count(n, head, tail) == |line| + Count(n, head, tail');
  }

  /** One round of the loop. */
  method TakeOne(log: CircularBuffer) returns (line: seq<char>)
    requires log.Logged() && log.head != log.tail
    requires DrainsCleanly(log.buffer[..], log.fixedSize, log.head, log.tail, LINE_SIZE)
    modifies log
    ensures log.Logged()
    ensures DrainsCleanly(log.buffer[..], log.fixedSize, log.head, log.tail, LINE_SIZE)
    ensures IsLine(line, LINE_SIZE) && old(log.Contents()) == line + log.Contents()
    ensures line[|line| - 1] == '\n' || |line| == 159 || log.Contents() == [] || log.tail == 0
  {
    hide Queue, TakeLine, DrainsCleanly, Written, IsLine, RingOk, ScansStayInside;
    WrittenRing(log.buffer[..], log.fixedSize, log.head, log.tail);
    OneLineLess(log.buffer[..], log.fixedSize, log.head, log.tail);
    line := log.ConsumeLine(LINE_SIZE);
  }
}
