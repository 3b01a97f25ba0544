/** Emptying the ring line by line, as the log printer does. */
module Drain {
  import opened Bytes
  import opened Ring
  import opened Lines

  // ---- The end of the text ----

  /** The number of characters between the last newline and `to`, looking back no further than `from`. */
  function Unbroken(slots: seq<char>, from: nat, to: nat): (k: nat)
    requires from <= to <= |slots|
    ensures k <= to - from
    ensures forall i :: to - k <= i < to ==> slots[i] != '\n'
    ensures k < to - from ==> slots[to - k - 1] == '\n'
  {
    if to == from || slots[to - 1] == '\n' then 0 else 1 + Unbroken(slots, from, to - 1)
  }

  /** A later start has the same unbroken end, or is inside it. */
  lemma UnbrokenLater(slots: seq<char>, from: nat, later: nat, to: nat)
    requires from <= later <= to <= |slots|
    ensures Unbroken(slots, later, to) == Min(Unbroken(slots, from, to), to - later)
  {
    hide Unbroken;
    var u, v := Unbroken(slots, from, to), Unbroken(slots, later, to);
    assert v < to - later ==> slots[to - v - 1] == '\n';
    assert u < to - from ==> slots[to - u - 1] == '\n';
  }

  // ---- Draining cleanly ----

  /** Lines of at most `size` characters come out cleanly until the ring is empty: it does not wrap; or a newline ends the
      part before the physical end; or a terminator follows that part and its unbroken end fits: in a line that may go on
      past the physical end or is never cut beyond the head; or, with nothing queued past the physical end, in a line that
      it fills or that no stale newline prolongs. */
  predicate DrainsCleanly(slots: seq<char>, n: nat, head: nat, tail: nat, size: nat)
    requires RingOk(slots, n, head, tail)
  {
    || !Wrapped(head, tail)
    || var rest := Unbroken(slots, tail, n);
       || rest == 0
       || (&& slots[n] == END
           && if head > 0 then head >= size || rest <= size
              else rest == size || (rest < size && Newline(slots, 0).None?))
  }

  /** The first search fails exactly in the unbroken end. */
  lemma SearchFails(slots: seq<char>, n: nat, head: nat, tail: nat)
    requires RingOk(slots, n, head, tail) && Wrapped(head, tail)
    ensures Unbroken(slots, tail, n) < n - tail ==>
              Scannable(slots, tail) && Newline(slots, tail).Some? && Newline(slots, tail).value < n - Unbroken(slots, tail, n)
    ensures Unbroken(slots, tail, n) == n - tail && slots[n] == END ==> Scannable(slots, tail) && Newline(slots, tail).None?
  {
    hide Unbroken, Queue, Newline;
    if Unbroken(slots, tail, n) < n - tail {
      SearchFinds(slots, n, head, tail);
    } else if slots[n] == END {
      assert Newline(slots, tail).None?;
    }
  }

  lemma SearchFinds(slots: seq<char>, n: nat, head: nat, tail: nat)
    requires RingOk(slots, n, head, tail) && Wrapped(head, tail) && Unbroken(slots, tail, n) < n - tail
    ensures Scannable(slots, tail) && Newline(slots, tail).Some? && Newline(slots, tail).value < n - Unbroken(slots, tail, n)
  {
    hide Unbroken, Newline, Queue;
    assert slots[n - Unbroken(slots, tail, n) - 1] == '\n';
    forall i | tail <= i < n ensures slots[i] != END {
      LiveInQueue(slots, n, head, tail, i);
    }
  }

  lemma CleanScans(slots: seq<char>, n: nat, head: nat, tail: nat, size: nat)
    requires RingOk(slots, n, head, tail) && DrainsCleanly(slots, n, head, tail, size) && head != tail && size > 0
    ensures ScansStayInside(slots, head, tail)
    ensures TakesCleanly(slots, n, head, tail, size)
  {
    if !Wrapped(head, tail) {
      UnwrappedScans(slots, n, head, tail);
    } else {
      SearchFails(slots, n, head, tail);
    }
  }

  lemma CleanProgress(slots: seq<char>, n: nat, head: nat, tail: nat, size: nat)
    requires RingOk(slots, n, head, tail) && ScansStayInside(slots, head, tail) && head != tail && size > 0
    requires TakesCleanly(slots, n, head, tail, size)
    ensures |TakeLine(slots, n, head, tail, size).0| > 0
    ensures RingOk(slots, n, head, TakeLine(slots, n, head, tail, size).1)
  {
    TakeLineIff(slots, n, head, tail, size);
    var (line, tail') := TakeLine(slots, n, head, tail, size);
    var q, rest := Queue(slots, n, head, tail), Queue(slots, n, head, tail');
    assert q == line + rest;
    assert forall i :: 0 <= i < |rest| ==> rest[i] == q[|line| + i];
    assert LineEnd(q) > 0;
  }

  /** The new tail has either moved on or gone round. */
  lemma TailMoves(slots: seq<char>, n: nat, head: nat, tail: nat, size: nat)
    requires RingOk(slots, n, head, tail) && ScansStayInside(slots, head, tail) && head != tail
    requires TakesCleanly(slots, n, head, tail, size)
    ensures var tail' := TakeLine(slots, n, head, tail, size).1;
            !Wrapped(head, tail') || (Wrapped(head, tail) && tail <= tail')
  {
    TakeLineIff(slots, n, head, tail, size);
    var (line, tail') := TakeLine(slots, n, head, tail, size);
    assert Count(n, head, tail) == |line| + Count(n, head, tail');
  }

  /** While newlines are found the tail does not enter the unbroken end. */
  lemma BeforeEnd(slots: seq<char>, n: nat, head: nat, tail: nat, size: nat)
    requires RingOk(slots, n, head, tail) && ScansStayInside(slots, head, tail) && Wrapped(head, tail) && size > 0
    requires Unbroken(slots, tail, n) < n - tail
    ensures var rest, tail' := Unbroken(slots, tail, n), TakeLine(slots, n, head, tail, size).1;
            rest > 0 ==> tail < tail' <= n - rest && Unbroken(slots, tail', n) == rest
    ensures var tail' := TakeLine(slots, n, head, tail, size).1;
            Unbroken(slots, tail, n) == 0 ==> tail' == 0 || (tail < tail' && Unbroken(slots, tail', n) == 0)
  {
    SearchFails(slots, n, head, tail);
    var rest, first, tail' := Unbroken(slots, tail, n), Newline(slots, tail), TakeLine(slots, n, head, tail, size).1;
    var k := Min(Min(size, n - tail), first.value - tail + 1);
    Small(tail + k, n);
    if tail' != 0 {
      UnbrokenLater(slots, tail, tail', n);
    }
  }

  /** Taking a line keeps the condition. */
  lemma CleanStep(slots: seq<char>, n: nat, head: nat, tail: nat, size: nat)
    requires RingOk(slots, n, head, tail) && DrainsCleanly(slots, n, head, tail, size) && head != tail && size > 0
    ensures ScansStayInside(slots, head, tail) && TakesLine(slots, n, head, tail, size)
    ensures var (line, tail') := TakeLine(slots, n, head, tail, size);
            && |line| > 0
            && RingOk(slots, n, head, tail')
            && DrainsCleanly(slots, n, head, tail', size)
  {
    hide RingOk, TakesLine, TakeLine, Unbroken, Newline, LineLength;
    CleanScans(slots, n, head, tail, size);
    CleanProgress(slots, n, head, tail, size);
    TakeLineIff(slots, n, head, tail, size);
    StaysClean(slots, n, head, tail, size);
  }

  lemma StaysClean(slots: seq<char>, n: nat, head: nat, tail: nat, size: nat)
    requires RingOk(slots, n, head, tail) && DrainsCleanly(slots, n, head, tail, size) && head != tail && size > 0
    requires ScansStayInside(slots, head, tail) && TakesCleanly(slots, n, head, tail, size)
    requires RingOk(slots, n, head, TakeLine(slots, n, head, tail, size).1)
    ensures DrainsCleanly(slots, n, head, TakeLine(slots, n, head, tail, size).1, size)
  {
    var tail' := TakeLine(slots, n, head, tail, size).1;
    TailMoves(slots, n, head, tail, size);
    hide TakesCleanly, TakeLine, RingOk;
    if Wrapped(head, tail') {
      UnbrokenLater(slots, tail, tail', n);
      if head == 0 {
        if Unbroken(slots, tail, n) < n - tail {
          BeforeEnd(slots, n, head, tail, size);
        } else {
          GoesRound(slots, n, tail, size);
        }
      }
    }
  }

  /** From the unbroken end, with nothing queued past the physical end, the ring is emptied. */
  lemma GoesRound(slots: seq<char>, n: nat, tail: nat, size: nat)
    requires RingOk(slots, n, 0, tail) && ScansStayInside(slots, 0, tail) && tail > 0 && size > 0
    requires Unbroken(slots, tail, n) == n - tail && DrainsCleanly(slots, n, 0, tail, size)
    ensures TakeLine(slots, n, 0, tail, size).1 == 0
  {
    SearchFails(slots, n, 0, tail);
    Small(0, n);
  }

  /** The tail after `k` rounds of the loop, which stops when the ring is empty, or when a search leaves the array. */
  function TailAfter(slots: seq<char>, n: nat, head: nat, tail: nat, size: nat, k: nat): nat
    decreases k
  {
    if k == 0 || tail == head || !RingOk(slots, n, head, tail) || !ScansStayInside(slots, head, tail) then tail
    else TailAfter(slots, n, head, TakeLine(slots, n, head, tail, size).1, size, k - 1)
  }

  /** The loop empties the ring. */
  ghost predicate Ends(slots: seq<char>, n: nat, head: nat, tail: nat, size: nat) {
    exists k: nat :: TailAfter(slots, n, head, tail, size, k) == head
  }

  lemma {:induction false} CleanDrainEnds(slots: seq<char>, n: nat, head: nat, tail: nat, size: nat) returns (k: nat)
    requires RingOk(slots, n, head, tail) && DrainsCleanly(slots, n, head, tail, size) && size > 0
    ensures TailAfter(slots, n, head, tail, size, k) == head
    decreases |Queue(slots, n, head, tail)|
  {
    hide DrainsCleanly;
    if tail == head {
      k := 0;
    } else {
      CleanStep(slots, n, head, tail, size);
      var (line, tail') := TakeLine(slots, n, head, tail, size);
      k := CleanDrainEnds(slots, n, head, tail', size);
      k := k + 1;
    }
  }

  // ---- Rings that are never emptied ----

  /** A set of tails that the loop does not leave. */
  lemma {:induction false} NeverEnds(slots: seq<char>, n: nat, head: nat, tail: nat, size: nat, kept: nat -> bool, k: nat)
    requires kept(tail) && !kept(head)
    requires forall t :: kept(t) && RingOk(slots, n, head, t) && ScansStayInside(slots, head, t) ==>
                           kept(TakeLine(slots, n, head, t, size).1)
    ensures TailAfter(slots, n, head, tail, size, k) != head
    decreases k
  {
    hide RingOk, ScansStayInside, TakeLine;
    if k > 0 && RingOk(slots, n, head, tail) && ScansStayInside(slots, head, tail) {
      NeverEnds(slots, n, head, TakeLine(slots, n, head, tail, size).1, size, kept, k - 1);
    }
  }

  /** The ring the loop never leaves: wrapped around a second part shorter than a line, with a long unbroken end. */
  predicate Stuck(slots: seq<char>, n: nat, head: nat, tail: nat, size: nat) {
    && head < size && 2 * size < n == |slots| - 1
    && head < tail && tail + size < n
    && (head > 0 ==> slots[head] == END) && slots[n] == END
    && NoEnd(slots, 0, head) && NoEnd(slots, head + 1, n)
    && forall i :: n - size - 1 <= i < n ==> slots[i] != '\n'
  }

  lemma StuckRing(slots: seq<char>, n: nat, head: nat, tail: nat, size: nat)
    requires Stuck(slots, n, head, tail, size)
    ensures RingOk(slots, n, head, tail) && ScansStayInside(slots, head, tail)
  {
    assert slots[n] == END;
  }

  /** Taking a line from a stuck ring leaves a stuck ring. */
  lemma StuckStep(slots: seq<char>, n: nat, head: nat, tail: nat, size: nat)
    requires Stuck(slots, n, head, tail, size)
    ensures RingOk(slots, n, head, tail) && ScansStayInside(slots, head, tail)
    ensures Stuck(slots, n, head, TakeLine(slots, n, head, tail, size).1, size)
  {
    StuckRing(slots, n, head, tail, size);
    var first := Newline(slots, tail);
    if first.Some? {
      var k := Min(Min(size, n - tail), first.value - tail + 1);
      Small(tail + k, n);
    }
  }

  lemma StuckForever(slots: seq<char>, n: nat, head: nat, tail: nat, size: nat, k: nat)
    requires Stuck(slots, n, head, tail, size)
    ensures TailAfter(slots, n, head, tail, size, k) != head
  {
    hide TakeLine, RingOk, ScansStayInside;
    var kept := (t: nat) => Stuck(slots, n, head, t, size);
    forall t | kept(t) && RingOk(slots, n, head, t) && ScansStayInside(slots, head, t)
      ensures kept(TakeLine(slots, n, head, t, size).1)
    {
      StuckStep(slots, n, head, t, size);
    }
    NeverEnds(slots, n, head, tail, size, kept, k);
  }

  /** Without a terminator in the slot past the ring, the search from the unbroken end leaves the array. */
  predicate Leaves(slots: seq<char>, n: nat, head: nat, tail: nat) {
    && head < tail < n == |slots| - 1 && slots[n] != END && slots[n] != '\n'
    && NoEnd(slots, head + 1, n) && Unbroken(slots, tail, n) > 0
  }

  lemma LeavesStep(slots: seq<char>, n: nat, head: nat, tail: nat, size: nat)
    requires Leaves(slots, n, head, tail) && RingOk(slots, n, head, tail) && ScansStayInside(slots, head, tail) && size > 0
    ensures Leaves(slots, n, head, TakeLine(slots, n, head, tail, size).1)
  {
    LeavesLater(slots, n, head, tail);
    BeforeEnd(slots, n, head, tail, size);
  }

  /** If the search does not leave the array yet, a newline is there to be found. */
  lemma LeavesLater(slots: seq<char>, n: nat, head: nat, tail: nat)
    requires Leaves(slots, n, head, tail) && Scannable(slots, tail)
    ensures Unbroken(slots, tail, n) < n - tail
  {
    var e :| tail <= e < |slots| && (slots[e] == END || slots[e] == '\n');
    assert slots[e] == '\n';
  }

  lemma LeavesForever(slots: seq<char>, n: nat, head: nat, tail: nat, size: nat, k: nat)
    requires Leaves(slots, n, head, tail) && size > 0
    ensures TailAfter(slots, n, head, tail, size, k) != head
  {
    hide TakeLine, RingOk, ScansStayInside, TailAfter;
    var kept := (t: nat) => Leaves(slots, n, head, t);
    forall t | kept(t) && RingOk(slots, n, head, t) && ScansStayInside(slots, head, t)
      ensures kept(TakeLine(slots, n, head, t, size).1)
    {
      LeavesStep(slots, n, head, t, size);
    }
    NeverEnds(slots, n, head, tail, size, kept, k);
  }

  /** With nothing queued past the physical end, an end shorter than a line is prolonged with stale text, over and over. */
  predicate Cycling(slots: seq<char>, n: nat, tail: nat, size: nat) {
    && 0 < tail < n == |slots| - 1 && size < n
    && slots[n] == END && NoEnd(slots, 0, n) && 0 < Unbroken(slots, 0, n) < size
  }

  lemma CyclingStep(slots: seq<char>, n: nat, tail: nat, size: nat)
    requires Cycling(slots, n, tail, size) && RingOk(slots, n, 0, tail) && ScansStayInside(slots, 0, tail)
    ensures Cycling(slots, n, TakeLine(slots, n, 0, tail, size).1, size)
  {
    UnbrokenLater(slots, 0, tail, n);
    if Unbroken(slots, tail, n) < n - tail {
      BeforeEnd(slots, n, 0, tail, size);
    } else {
      Rereads(slots, n, tail, size);
    }
  }

  /** A line from the unbroken end takes stale text with it, up to a newline, and the tail comes to lie after that. */
  lemma Rereads(slots: seq<char>, n: nat, tail: nat, size: nat)
    requires RingOk(slots, n, 0, tail) && 0 < tail && slots[n] == END && NoEnd(slots, 0, n)
    requires Unbroken(slots, tail, n) == n - tail < size < n && Unbroken(slots, 0, n) < n
    ensures ScansStayInside(slots, 0, tail)
    ensures var tail' := TakeLine(slots, n, 0, tail, size).1;
            0 < tail' <= n - Unbroken(slots, 0, n) && tail' < n && Unbroken(slots, tail', n) == Unbroken(slots, 0, n)
  {
    SearchFails(slots, n, 0, tail);
    var second, last := Newline(slots, 0), n - Unbroken(slots, 0, n) - 1;
    assert slots[last] == '\n';
    FirstSearchAll(slots, n, last);
    assert second.value <= last;
    var extra := Min(size - (n - tail), second.value + 1);
    Small(extra, n);
    UnbrokenLater(slots, 0, extra, n);
  }

  /** Without a terminator on the way the search finds a newline that is there. */
  lemma FirstSearchAll(slots: seq<char>, n: nat, last: nat)
    requires last < n < |slots| && slots[last] == '\n' && NoEnd(slots, 0, n) && Scannable(slots, 0)
    ensures Newline(slots, 0).Some?
  {
  }

  // ---- Exactly when the loop ends ----

  /** With nothing queued past the physical end, the loop prints stale text once more and then happens to end: the last
      newline of the whole ring lies one line before the physical end. */
  predicate EndsAfterRereading(slots: seq<char>, n: nat, head: nat, tail: nat, size: nat)
    requires RingOk(slots, n, head, tail)
  {
    && head == 0 < tail && slots[n] == END
    && Unbroken(slots, tail, n) < size && Unbroken(slots, 0, n) == size
  }

  /** For every ring as string writes leave it, more than two lines long: the loop ends iff the ring drains cleanly or it
      happens to end after stale text. */
  lemma DrainEndsIff(slots: seq<char>, n: nat, head: nat, tail: nat, size: nat)
    requires RingOk(slots, n, head, tail) && Written(slots, n, head, tail) && 0 < 2 * size < n
    ensures Ends(slots, n, head, tail, size) <==>
            DrainsCleanly(slots, n, head, tail, size) || EndsAfterRereading(slots, n, head, tail, size)
  {
    hide TakeLine, TailAfter;
    if DrainsCleanly(slots, n, head, tail, size) {
      var k := CleanDrainEnds(slots, n, head, tail, size);
    } else if slots[n] != END {
      NeverEndsOutside(slots, n, head, tail, size);
    } else if Unbroken(slots, tail, n) > size {
      NeverEndsStuck(slots, n, head, tail, size);
    } else {
      EndsFromStart(slots, n, tail, size);
    }
  }

  lemma NeverEndsOutside(slots: seq<char>, n: nat, head: nat, tail: nat, size: nat)
    requires RingOk(slots, n, head, tail) && Written(slots, n, head, tail) && size > 0
    requires Wrapped(head, tail) && slots[n] != END && Unbroken(slots, tail, n) > 0
    ensures !Ends(slots, n, head, tail, size)
  {
    hide TailAfter, Unbroken, Queue;
    forall k: nat ensures TailAfter(slots, n, head, tail, size, k) != head {
      LeavesForever(slots, n, head, tail, size, k);
    }
  }

  lemma LongEndSticks(slots: seq<char>, n: nat, head: nat, tail: nat, size: nat)
    requires RingOk(slots, n, head, tail) && Written(slots, n, head, tail) && 2 * size < n
    requires Wrapped(head, tail) && slots[n] == END && head < size < Unbroken(slots, tail, n)
    ensures Stuck(slots, n, head, tail, size)
  {
    hide Queue;
  }

  lemma NeverEndsStuck(slots: seq<char>, n: nat, head: nat, tail: nat, size: nat)
    requires RingOk(slots, n, head, tail) && Written(slots, n, head, tail) && 2 * size < n
    requires Wrapped(head, tail) && slots[n] == END && head < size < Unbroken(slots, tail, n)
    ensures !Ends(slots, n, head, tail, size)
  {
    hide TailAfter, Unbroken, Queue, Stuck, RingOk, Written;
    LongEndSticks(slots, n, head, tail, size);
    forall k: nat ensures TailAfter(slots, n, head, tail, size, k) != head {
      StuckForever(slots, n, head, tail, size, k);
    }
  }

  lemma NeverEndsCycling(slots: seq<char>, n: nat, tail: nat, size: nat)
    requires Cycling(slots, n, tail, size)
    ensures !Ends(slots, n, 0, tail, size)
  {
    hide TakeLine, TailAfter, Unbroken;
    var kept := (t: nat) => Cycling(slots, n, t, size);
    forall t | kept(t) && RingOk(slots, n, 0, t) && ScansStayInside(slots, 0, t) ensures kept(TakeLine(slots, n, 0, t, size).1)
    {
      CyclingStep(slots, n, t, size);
    }
    forall k: nat ensures TailAfter(slots, n, 0, tail, size, k) != 0 {
      NeverEnds(slots, n, 0, tail, size, kept, k);
    }
  }

  /** The remaining rings: nothing is queued past the physical end, and a stale newline prolongs the last line. */
  lemma EndsFromStart(slots: seq<char>, n: nat, tail: nat, size: nat)
    requires RingOk(slots, n, 0, tail) && Written(slots, n, 0, tail) && 0 < 2 * size < n && tail > 0 && slots[n] == END
    requires 0 < Unbroken(slots, tail, n) < size && Newline(slots, 0).Some?
    ensures Ends(slots, n, 0, tail, size) <==> Unbroken(slots, 0, n) == size
  {
    hide TakeLine, TailAfter, Unbroken, Queue, Ends;
    NoneBefore(slots, n);
    StaleNewline(slots, n, tail);
    if Unbroken(slots, 0, n) < size {
      NeverEndsCycling(slots, n, tail, size);
    } else {
      EndsFromUnbroken(slots, n, tail, size);
    }
  }

  lemma StaleNewline(slots: seq<char>, n: nat, tail: nat)
    requires 0 < tail < n == |slots| - 1 && slots[n] == END && Newline(slots, 0).Some?
    ensures Unbroken(slots, tail, n) == Min(Unbroken(slots, 0, n), n - tail) && Unbroken(slots, 0, n) < n
  {
    hide Unbroken, Newline;
    UnbrokenLater(slots, 0, tail, n);
    assert slots[Newline(slots, 0).value] == '\n';
  }

  lemma EndsFromUnbroken(slots: seq<char>, n: nat, tail: nat, size: nat)
    requires RingOk(slots, n, 0, tail) && NoEnd(slots, 0, n) && 0 < 2 * size < n && tail > 0 && slots[n] == END
    requires Unbroken(slots, tail, n) == n - tail < size <= Unbroken(slots, 0, n) < n
    ensures Ends(slots, n, 0, tail, size) <==> Unbroken(slots, 0, n) == size
  {
    hide TakeLine, TailAfter, Unbroken, Ends, Newline;
    Rereads(slots, n, tail, size);
    var tail' := TakeLine(slots, n, 0, tail, size).1;
    OneRound(slots, n, 0, tail, size);
    AllWritten(slots, n, tail');
    if Unbroken(slots, 0, n) == size {
      var k := CleanDrainEnds(slots, n, 0, tail', size);
      EndsBy(slots, n, 0, tail', size, k);
    } else {
      NeverEndsStuck(slots, n, 0, tail', size);
    }
  }

  lemma AllWritten(slots: seq<char>, n: nat, tail: nat)
    requires 0 < tail < n == |slots| - 1 && slots[n] == END && NoEnd(slots, 0, n)
    ensures RingOk(slots, n, 0, tail) && Written(slots, n, 0, tail)
  {
  }

  lemma EndsBy(slots: seq<char>, n: nat, head: nat, tail: nat, size: nat, k: nat)
    requires TailAfter(slots, n, head, tail, size, k) == head
    ensures Ends(slots, n, head, tail, size)
  {
  }

  lemma NoneBefore(slots: seq<char>, n: nat)
    requires 0 < n < |slots| && NoEnd(slots, 1, n) && slots[0] != END
    ensures NoEnd(slots, 0, n)
  {
  }

  lemma OneRound(slots: seq<char>, n: nat, head: nat, tail: nat, size: nat)
    requires RingOk(slots, n, head, tail) && ScansStayInside(slots, head, tail) && tail != head
    ensures Ends(slots, n, head, tail, size) <==> Ends(slots, n, head, TakeLine(slots, n, head, tail, size).1, size)
  {
    hide TakeLine, RingOk, ScansStayInside;
    var tail' := TakeLine(slots, n, head, tail, size).1;
    if Ends(slots, n, head, tail, size) {
      var k: nat :| TailAfter(slots, n, head, tail, size, k) == head;
      assert TailAfter(slots, n, head, tail', size, k - 1) == head;
    }
    if Ends(slots, n, head, tail', size) {
      var k: nat :| TailAfter(slots, n, head, tail', size, k) == head;
      assert TailAfter(slots, n, head, tail, size, k + 1) == head;
    }
  }
}
