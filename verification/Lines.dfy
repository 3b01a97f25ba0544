/** Taking one line out of the ring, as functions of its slots. */
module Lines {
  import opened Bytes
  import opened Ring

  /** The C search for a newline stops inside the array. */
  predicate Scannable(slots: seq<char>, from: nat) {
    exists i :: from <= i < |slots| && (slots[i] == END || slots[i] == '\n')
  }

  /** The first newline at or after `from`, unless a terminator comes first. */
  function Newline(slots: seq<char>, from: nat): (r: Option<nat>)
    requires Scannable(slots, from)
    ensures r.Some? ==> from <= r.value < |slots| && slots[r.value] == '\n'
    ensures r.Some? ==> forall i :: from <= i < r.value ==> slots[i] != '\n' && slots[i] != END
    ensures r.None? ==> exists e :: from <= e < |slots| && slots[e] == END &&
                                       forall i :: from <= i < e ==> slots[i] != '\n' && slots[i] != END
    decreases |slots| - from
  {
    if slots[from] == '\n' then Some(from)
    else if slots[from] == END then None
    else Newline(slots, from + 1)
  }

  predicate Wrapped(head: nat, tail: nat) {
    head < tail
  }

  /** The queued characters up to the physical end of the ring. */
  function Contiguous(n: nat, head: nat, tail: nat): nat
    requires head < n && tail < n
  {
    if Wrapped(head, tail) then n - tail else head - tail
  }

  /** Every search that taking a line may start stops inside the array. */
  predicate ScansStayInside(slots: seq<char>, head: nat, tail: nat) {
    Scannable(slots, tail) && (head == 0 ==> Scannable(slots, 0))
  }

  /** The ring as the string writer leaves it. The slot past the ring is only ever written with a terminator,
      and must not have started out as a newline. */
  predicate RingOk(slots: seq<char>, n: nat, head: nat, tail: nat) {
    && head < n == |slots| - 1
    && tail < n
    && slots[n] != '\n'
    && (head != 0 ==> slots[head] == END)
    && END !in Queue(slots, n, head, tail)
  }

  predicate NoEnd(slots: seq<char>, from: nat, to: nat)
    requires to <= |slots|
  {
    forall i :: from <= i < to ==> slots[i] != END
  }

  /** No terminator but the writer's own last one is left among the slots written since the ring was last started
      afresh: those before the head and, once it has wrapped, all of them. */
  predicate Written(slots: seq<char>, n: nat, head: nat, tail: nat)
    requires head < n < |slots| && tail < n
  {
    && NoEnd(slots, 0, head)
    && (Wrapped(head, tail) ==> NoEnd(slots, head + 1, n) && (head == 0 ==> slots[0] != END))
  }

  /** A slot of the ring by its place in the register. */
  lemma RegisterAt(slots: seq<char>, n: nat, head: nat, i: nat)
    requires head < n <= |slots| && i < n
    ensures slots[i] == Register(slots, n, head)[if i < head then n - head + i else i - head]
  {
  }

  /** The register after a string was written, place by place. */
  lemma NewRegisterAt(reg: seq<char>, items: seq<char>, reg': seq<char>, j: nat)
    requires j < |reg| && reg' == Last(reg + items, |reg|)
    ensures |reg'| == |reg|
    ensures reg'[j] == if |items| + j < |reg| then reg[|items| + j] else items[|items| + j - |reg|]
  {
  }

  /** A string that reaches the physical end, or goes into a wrapped ring, leaves no terminator behind. */
  lemma AllOverwritten(slots: seq<char>, n: nat, head: nat, tail: nat, items: seq<char>, filled: seq<char>, at: nat, i: nat)
    requires head < n == |slots| - 1 == |filled| - 1 && tail < n && at < n && i < n && items != [] && END !in items
    requires Written(slots, n, head, tail) && (Wrapped(head, tail) || head + |items| >= n)
    requires Register(filled, n, at) == Last(Register(slots, n, head) + items, n)
    ensures filled[i] != END
  {
    hide Register, Last;
    var reg, reg' := Register(slots, n, head), Register(filled, n, at);
    var j := if i < at then n - at + i else i - at;
    RegisterAt(filled, n, at, i);
    NewRegisterAt(reg, items, reg', j);
    if |items| + j < n {
      var x := head + |items| + j;
      RegisterAt(slots, n, head, if x < n then x else x - n);
    }
  }

  lemma PartOverwritten(slots: seq<char>, n: nat, head: nat, tail: nat, items: seq<char>, filled: seq<char>, i: nat)
    requires head + |items| < n == |slots| - 1 == |filled| - 1 && tail < n && END !in items && i < head + |items|
    requires Written(slots, n, head, tail)
    requires Register(filled, n, head + |items|) == Last(Register(slots, n, head) + items, n)
    ensures filled[i] != END
  {
    hide Register, Last;
    var reg, at := Register(slots, n, head), head + |items|;
    RegisterAt(filled, n, at, i);
    NewRegisterAt(reg, items, Register(filled, n, at), n - at + i);
    if i < head {
      RegisterAt(slots, n, head, i);
    }
  }

  /** Writing a string keeps the slots free of old terminators. */
  lemma StaysWritten(
    slots: seq<char>, n: nat, head: nat, tail: nat, items: seq<char>, filled: seq<char>, maxed: bool)
    requires head < n == |slots| - 1 && tail < n && items != [] && END !in items && Written(slots, n, head, tail)
    requires Writing(slots, n, head, tail, items, |items|, filled, maxed)
    ensures
      var pos := Slot(head + |items| - 1, n);
      var head' := Slot(head + |items|, n);
      var tail' := if maxed then Slot(head + |items| + 1, n) else tail;
      head' == (if pos + 1 == n then 0 else pos + 1) && Written(filled[pos + 1 := END], n, head', tail')
  {
    hide Register, Last, Slot;
    var head' := Slot(head + |items|, n);
    NextMod(head + |items| - 1, n);
    NextMod(head + |items|, n);
    assert items[..|items|] == items;
    if Wrapped(head, tail) || head + |items| >= n {
      forall i | 0 <= i < n ensures filled[i] != END {
        AllOverwritten(slots, n, head, tail, items, filled, head', i);
      }
    } else {
      Small(head + |items|, n);
      Small(head + |items| + 1, n);
      forall i | 0 <= i < head' ensures filled[i] != END {
        PartOverwritten(slots, n, head, tail, items, filled, i);
      }
    }
  }

  /** Writing one item keeps them free as well. */
  lemma ItemStaysWritten(slots: seq<char>, n: nat, head: nat, tail: nat, item: char)
    requires head < n == |slots| - 1 && tail < n && item != END && Written(slots, n, head, tail)
    ensures
      var head' := Slot(head + 1, n);
      var tail' := if head + 1 == tail then Slot(head + 2, n) else tail;
      Written(slots[head := item][head + 1 := END], n, head', tail')
  {
    Small(head + 1, n);
    if head + 1 == tail {
      Small(head + 2, n);
    }
  }

  /** A tail that has moved on keeps them free. */
  lemma LaterWritten(slots: seq<char>, n: nat, head: nat, tail: nat, tail': nat)
    requires head < n < |slots| && tail < n && tail' < n && (Wrapped(head, tail') ==> Wrapped(head, tail))
    ensures Written(slots, n, head, tail) ==> Written(slots, n, head, tail')
  {
  }

  /** A ring without old terminators is one that lines can be taken from. */
  lemma WrittenRing(slots: seq<char>, n: nat, head: nat, tail: nat)
    requires head < n == |slots| - 1 && tail < n && slots[n] != '\n' && (head != 0 ==> slots[head] == END)
    requires Written(slots, n, head, tail)
    ensures RingOk(slots, n, head, tail)
  {
  }

  /** The line taken and the new tail. */
  function TakeLine(slots: seq<char>, n: nat, head: nat, tail: nat, lineSize: nat): (r: (seq<char>, nat))
    requires RingOk(slots, n, head, tail) && ScansStayInside(slots, head, tail)
    ensures r.1 < n
  {
    var first := Newline(slots, tail);
    var available := Contiguous(n, head, tail);
    if first.Some? then
      var k := Min(Min(lineSize, available), first.value - tail + 1);
      (slots[tail..tail + k], Slot(tail + k, n))
    else if lineSize < available then
      (slots[tail..tail + lineSize], if lineSize <= head then Slot(tail + lineSize, n) else lineSize)
    else if !Wrapped(head, tail) then
      (slots[tail..head], head)
    else
      ScanFromStart(slots, n, head);
      var second := Newline(slots, 0);
      if second.Some? then
        var extra := Min(lineSize - available, second.value + 1);
        (slots[tail..n] + slots[..extra], Slot(extra, n))
      else
        (slots[tail..n], 0)
  }

  lemma ScanFromStart(slots: seq<char>, n: nat, head: nat)
    requires head < n == |slots| - 1 && (head != 0 ==> slots[head] == END) && (head == 0 ==> Scannable(slots, 0))
    ensures Scannable(slots, 0)
  {
  }

  /** A queue that does not wrap is searched within its own characters and their terminator. */
  lemma UnwrappedScans(slots: seq<char>, n: nat, head: nat, tail: nat)
    requires RingOk(slots, n, head, tail) && tail < head
    ensures ScansStayInside(slots, head, tail)
    ensures Newline(slots, tail).Some? ==> Newline(slots, tail).value < head
  {
    assert slots[head] == END;
  }

  // ---- What a line is ----

  /** The position just past the first newline, or the whole length. */
  function LineEnd(q: seq<char>): (k: nat)
    ensures k <= |q|
    ensures '\n' in q[..k] ==> k > 0 && q[k - 1] == '\n'
    ensures '\n' !in q ==> k == |q|
  {
    if q == [] then 0 else if q[0] == '\n' then 1 else 1 + LineEnd(q[1..])
  }

  lemma {:induction false} LineEndIs(q: seq<char>, k: nat)
    requires k < |q| && q[k] == '\n' && '\n' !in q[..k]
    ensures LineEnd(q) == k + 1
    decreases k
  {
    if k > 0 {
      assert q[0] == q[..k][0];
      assert q[1..][..k - 1] == q[..k][1..];
      LineEndIs(q[1..], k - 1);
    }
  }

  /** There is no newline before the last character of the first line. */
  lemma {:induction false} NoEarlierNewline(q: seq<char>, k: nat)
    requires k + 1 < LineEnd(q)
    ensures q[k] != '\n'
  {
    if k > 0 {
      NoEarlierNewline(q[1..], k - 1);
    }
  }

  /** What may be printed as one line: not too long, and with no newline but at its end. */
  predicate IsLine(line: seq<char>, lineSize: nat) {
    0 < |line| <= lineSize && forall k :: 0 <= k < |line| - 1 ==> line[k] != '\n'
  }

  lemma {:induction false} LineEndBreaks(q: seq<char>)
    requires LineEnd(q) < |q|
    ensures LineEnd(q) > 0 && q[LineEnd(q) - 1] == '\n'
  {
    if q[0] != '\n' {
      LineEndBreaks(q[1..]);
    }
  }

  /** A line is not cut short: it ends with a newline, or is as long as a line may be, or takes all there is, or stops at the
      physical end. */
  lemma TakesWholeLine(slots: seq<char>, n: nat, head: nat, tail: nat, lineSize: nat)
    requires RingOk(slots, n, head, tail) && ScansStayInside(slots, head, tail) && TakesLine(slots, n, head, tail, lineSize)
    requires TakeLine(slots, n, head, tail, lineSize).0 != []
    ensures var (line, tail') := TakeLine(slots, n, head, tail, lineSize);
            line[|line| - 1] == '\n' || |line| == lineSize || Queue(slots, n, head, tail') == [] || tail' == 0
  {
    hide TakeLine, ScansStayInside, LineEnd, Queue;
    var (line, tail') := TakeLine(slots, n, head, tail, lineSize);
    var q := Queue(slots, n, head, tail);
    if !StopsAtEnd(slots, n, head, tail, lineSize) && |line| < lineSize && LineEnd(q) < |q| {
      LineEndBreaks(q);
      assert line[|line| - 1] == q[|line| - 1];
    }
  }

  lemma TakesOneLine(slots: seq<char>, n: nat, head: nat, tail: nat, lineSize: nat)
    requires RingOk(slots, n, head, tail) && ScansStayInside(slots, head, tail) && TakesLine(slots, n, head, tail, lineSize)
    requires TakeLine(slots, n, head, tail, lineSize).0 != []
    ensures IsLine(TakeLine(slots, n, head, tail, lineSize).0, lineSize)
  {
    hide TakeLine, ScansStayInside, LineEnd, Queue;
    var (line, tail') := TakeLine(slots, n, head, tail, lineSize);
    var q := Queue(slots, n, head, tail);
    forall k | 0 <= k < |line| - 1 ensures line[k] != '\n' {
      assert line[k] == q[k];
      if !StopsAtEnd(slots, n, head, tail, lineSize) {
        NoEarlierNewline(q, k);
      }
    }
  }

  /** Taking `line` off the queue `q` leaves `rest`. */
  predicate Takes(q: seq<char>, line: seq<char>, rest: seq<char>) {
    q == line + rest
  }

  /** Advancing the tail by `k` queued slots takes the first `k` characters. */
  lemma Advance(slots: seq<char>, n: nat, head: nat, tail: nat, k: nat)
    requires head < n < |slots| && tail < n && k <= Contiguous(n, head, tail)
    ensures Takes(Queue(slots, n, head, tail), slots[tail..tail + k], Queue(slots, n, head, Slot(tail + k, n)))
    ensures Slot(tail + k, n) == if tail + k == n then 0 else tail + k
  {
    Small(tail + k, n);
    if !Wrapped(head, tail) {
      assert slots[tail..head] == slots[tail..tail + k] + slots[tail + k..head];
    } else {
      assert slots[tail..n] == slots[tail..tail + k] + slots[tail + k..n];
      if tail + k == n {
        assert slots[n..n] == [];
      }
    }
  }

  /** Where the code takes a queue prefix: everywhere, except from a wrapped ring with no newline before its
      physical end, when the line is cut short of that end beyond the head, or when nothing is queued after
      that end but a stale newline is found there. */
  predicate TakesCleanly(slots: seq<char>, n: nat, head: nat, tail: nat, lineSize: nat)
    requires RingOk(slots, n, head, tail) && ScansStayInside(slots, head, tail)
  {
    || !Wrapped(head, tail)
    || Newline(slots, tail).Some?
    || (if lineSize < n - tail then lineSize <= head
        else head > 0 || lineSize == n - tail || Newline(slots, 0).None?)
  }

  /** A wrapped queue without any newline is given out in two parts, split at the physical end. */
  predicate StopsAtEnd(slots: seq<char>, n: nat, head: nat, tail: nat, lineSize: nat)
    requires head < n < |slots| && tail < n
  {
    Wrapped(head, tail) && '\n' !in Queue(slots, n, head, tail) && lineSize > n - tail
  }

  /** The length of the line taken from `q`. */
  function LineLength(slots: seq<char>, n: nat, head: nat, tail: nat, lineSize: nat): nat
    requires head < n < |slots| && tail < n
  {
    if StopsAtEnd(slots, n, head, tail, lineSize) then n - tail
    else Min(lineSize, LineEnd(Queue(slots, n, head, tail)))
  }

  /** The line is a queue prefix of the right length and the rest of the queue stays. */
  predicate TakesLine(slots: seq<char>, n: nat, head: nat, tail: nat, lineSize: nat)
    requires RingOk(slots, n, head, tail) && ScansStayInside(slots, head, tail)
  {
    var (line, tail') := TakeLine(slots, n, head, tail, lineSize);
    && Takes(Queue(slots, n, head, tail), line, Queue(slots, n, head, tail'))
    && |line| == LineLength(slots, n, head, tail, lineSize)
  }

  // ---- Lines and newlines of the queue ----

  lemma LiveInQueue(slots: seq<char>, n: nat, head: nat, tail: nat, i: nat)
    requires head < n < |slots| && tail < n && Live(n, head, tail, i)
    ensures slots[i] in Queue(slots, n, head, tail)
  {
    var k := if tail <= i then i - tail else n - tail + i;
    assert Queue(slots, n, head, tail)[k] == slots[i];
  }

  /** A newline found by the first search, within the contiguous part, ends the first line. */
  lemma FirstLine(slots: seq<char>, n: nat, head: nat, tail: nat)
    requires RingOk(slots, n, head, tail) && Scannable(slots, tail)
    requires Newline(slots, tail).Some? && Newline(slots, tail).value - tail < Contiguous(n, head, tail)
    ensures LineEnd(Queue(slots, n, head, tail)) == Newline(slots, tail).value - tail + 1
    ensures '\n' in Queue(slots, n, head, tail)
  {
    var q, k := Queue(slots, n, head, tail), Newline(slots, tail).value - tail;
    assert q[..k] == slots[tail..tail + k];
    assert q[k] == '\n';
    LineEndIs(q, k);
  }

  /** A failed search has passed over a run of queued slots that a terminator follows. */
  lemma FailedSearch(slots: seq<char>, n: nat, head: nat, tail: nat, from: nat, end: nat)
    requires RingOk(slots, n, head, tail) && from <= end < |slots| && Scannable(slots, from) && Newline(slots, from).None?
    requires forall i :: from <= i < end ==> Live(n, head, tail, i)
    ensures '\n' !in slots[from..end]
    ensures end == n ==> slots[n] == END
  {
    var e :| from <= e < |slots| && slots[e] == END && forall i :: from <= i < e ==> slots[i] != '\n' && slots[i] != END;
    if e < end {
      LiveInQueue(slots, n, head, tail, e);
      assert false;
    }
  }

  lemma TakesUnwrapped(slots: seq<char>, n: nat, head: nat, tail: nat, lineSize: nat)
    requires RingOk(slots, n, head, tail) && ScansStayInside(slots, head, tail) && !Wrapped(head, tail)
    ensures TakesLine(slots, n, head, tail, lineSize)
  {
    if tail == head {
      Small(tail, n);
      assert LineEnd([]) == 0;
    } else {
      UnwrappedScans(slots, n, head, tail);
      if Newline(slots, tail).Some? {
        TakesNewlineNext(slots, n, head, tail, lineSize);
      } else {
        TakesUnterminated(slots, n, head, tail, lineSize);
      }
    }
  }

  lemma TakesNewlineNext(slots: seq<char>, n: nat, head: nat, tail: nat, lineSize: nat)
    requires RingOk(slots, n, head, tail) && ScansStayInside(slots, head, tail) && tail < head
    requires Newline(slots, tail).Some? && Newline(slots, tail).value < head
    ensures TakesLine(slots, n, head, tail, lineSize)
  {
    hide LineEnd, Queue, Slot, Takes;
    FirstLine(slots, n, head, tail);
    Advance(slots, n, head, tail, Min(Min(lineSize, head - tail), Newline(slots, tail).value - tail + 1));
  }

  lemma TakesUnterminated(slots: seq<char>, n: nat, head: nat, tail: nat, lineSize: nat)
    requires RingOk(slots, n, head, tail) && ScansStayInside(slots, head, tail) && tail < head
    requires Newline(slots, tail).None?
    ensures TakesLine(slots, n, head, tail, lineSize)
  {
    hide LineEnd, Queue, Slot, Takes;
    UnterminatedEnd(slots, n, head, tail);
    Advance(slots, n, head, tail, Min(lineSize, head - tail));
  }

  lemma UnterminatedEnd(slots: seq<char>, n: nat, head: nat, tail: nat)
    requires RingOk(slots, n, head, tail) && tail < head && Scannable(slots, tail) && Newline(slots, tail).None?
    ensures LineEnd(Queue(slots, n, head, tail)) == head - tail
  {
    FailedSearch(slots, n, head, tail, tail, head);
  }

  lemma TakesNewlineFirst(slots: seq<char>, n: nat, head: nat, tail: nat, lineSize: nat)
    requires RingOk(slots, n, head, tail) && ScansStayInside(slots, head, tail)
    requires Wrapped(head, tail) && Newline(slots, tail).Some?
    ensures TakesLine(slots, n, head, tail, lineSize)
  {
    hide LineEnd, Queue, Slot, Takes;
    FirstLine(slots, n, head, tail);
    Advance(slots, n, head, tail, Min(Min(lineSize, n - tail), Newline(slots, tail).value - tail + 1));
  }

  /** A wrapped ring whose first part has no newline. */
  lemma NoNewlineBeforeEnd(slots: seq<char>, n: nat, head: nat, tail: nat)
    requires RingOk(slots, n, head, tail) && Wrapped(head, tail) && Scannable(slots, tail) && Newline(slots, tail).None?
    ensures slots[n] == END && '\n' !in slots[tail..n]
    ensures LineEnd(Queue(slots, n, head, tail)) == n - tail + LineEnd(slots[..head])
  {
    FailedSearch(slots, n, head, tail, tail, n);
    LineEndSkips(slots[tail..n], slots[..head]);
  }

  lemma {:induction false} LineEndSkips(a: seq<char>, b: seq<char>)
    requires '\n' !in a
    ensures LineEnd(a + b) == |a| + LineEnd(b)
  {
    if a == [] {
      assert a + b == b;
    } else {
      assert (a + b)[1..] == a[1..] + b;
      LineEndSkips(a[1..], b);
    }
  }

  lemma TakesCut(slots: seq<char>, n: nat, head: nat, tail: nat, lineSize: nat)
    requires RingOk(slots, n, head, tail) && ScansStayInside(slots, head, tail)
    requires Wrapped(head, tail) && Newline(slots, tail).None? && lineSize < n - tail
    ensures lineSize <= head ==> TakesLine(slots, n, head, tail, lineSize)
    ensures lineSize > head ==>
              var (line, tail') := TakeLine(slots, n, head, tail, lineSize);
              !Takes(Queue(slots, n, head, tail), line, Queue(slots, n, head, tail'))
  {
    if lineSize <= head {
      TakesCutBeforeHead(slots, n, head, tail, lineSize);
    } else {
      LosesCount(slots, n, head, tail, lineSize);
    }
  }

  lemma TakesCutBeforeHead(slots: seq<char>, n: nat, head: nat, tail: nat, lineSize: nat)
    requires RingOk(slots, n, head, tail) && ScansStayInside(slots, head, tail)
    requires Wrapped(head, tail) && Newline(slots, tail).None? && lineSize < n - tail && lineSize <= head
    ensures TakesLine(slots, n, head, tail, lineSize)
  {
    hide Queue, LineEnd, Slot, Takes;
    NoNewlineBeforeEnd(slots, n, head, tail);
    Advance(slots, n, head, tail, lineSize);
  }

  /** A tail put at `lineSize` leaves a queue of the wrong length. */
  lemma LosesCount(slots: seq<char>, n: nat, head: nat, tail: nat, lineSize: nat)
    requires head < lineSize < n - tail && tail < n < |slots| && Wrapped(head, tail)
    ensures !Takes(Queue(slots, n, head, tail), slots[tail..tail + lineSize], Queue(slots, n, head, lineSize))
  {
  }

  /** The second search stays within the queued characters when there are some. */
  lemma StartScanStays(slots: seq<char>, n: nat, head: nat, tail: nat)
    requires RingOk(slots, n, head, tail) && Wrapped(head, tail) && head > 0 && Scannable(slots, 0)
    ensures match Newline(slots, 0)
            case Some(k) => k < head && LineEnd(slots[..head]) == k + 1 && '\n' in slots[..head]
            case None => '\n' !in slots[..head]
  {
    assert slots[head] == END;
    match Newline(slots, 0) {
      case Some(k) =>
        assert slots[..head][..k] == slots[..k];
        assert slots[..head][k] == '\n';
        LineEndIs(slots[..head], k);
      case None =>
        FailedSearch(slots, n, head, tail, 0, head);
    }
  }

  /** Advancing past the physical end takes the first part and `extra` characters of the second. */
  lemma AdvanceAcross(slots: seq<char>, n: nat, head: nat, tail: nat, extra: nat)
    requires head < n < |slots| && tail < n && Wrapped(head, tail) && extra <= head
    ensures Takes(Queue(slots, n, head, tail), slots[tail..n] + slots[..extra], Queue(slots, n, head, Slot(extra, n)))
  {
    Small(extra, n);
    assert slots[..head] == slots[..extra] + slots[extra..head];
  }

  lemma TakesAcross(slots: seq<char>, n: nat, head: nat, tail: nat, lineSize: nat)
    requires RingOk(slots, n, head, tail) && ScansStayInside(slots, head, tail)
    requires Wrapped(head, tail) && Newline(slots, tail).None? && lineSize >= n - tail && head > 0
    ensures TakesLine(slots, n, head, tail, lineSize)
  {
    hide Queue, LineEnd, Slot, Takes;
    NoNewlineBeforeEnd(slots, n, head, tail);
    StartScanStays(slots, n, head, tail);
    var second := Newline(slots, 0);
    if second.Some? {
      AdvanceAcross(slots, n, head, tail, Min(lineSize - (n - tail), second.value + 1));
      LiveInQueue(slots, n, head, tail, second.value);
    } else {
      Advance(slots, n, head, tail, n - tail);
      NoNewlineAtAll(slots, n, head, tail);
    }
  }

  lemma NoNewlineAtAll(slots: seq<char>, n: nat, head: nat, tail: nat)
    requires head < n < |slots| && tail < n && Wrapped(head, tail)
    requires '\n' !in slots[tail..n] && '\n' !in slots[..head]
    ensures '\n' !in Queue(slots, n, head, tail)
    ensures LineEnd(Queue(slots, n, head, tail)) >= n - tail
  {
  }

  lemma TakesToEnd(slots: seq<char>, n: nat, tail: nat, lineSize: nat)
    requires RingOk(slots, n, 0, tail) && ScansStayInside(slots, 0, tail)
    requires 0 < tail && Newline(slots, tail).None? && lineSize >= n - tail
    ensures lineSize == n - tail || Newline(slots, 0).None? ==> TakesLine(slots, n, 0, tail, lineSize)
    ensures !(lineSize == n - tail || Newline(slots, 0).None?) ==>
              var (line, tail') := TakeLine(slots, n, 0, tail, lineSize);
              !Takes(Queue(slots, n, 0, tail), line, Queue(slots, n, 0, tail'))
  {
    NoNewlineBeforeEnd(slots, n, 0, tail);
    Small(0, n);
  }

  /** The exact condition, for every ring: the code takes a queue prefix iff `TakesCleanly`, and then it is a line. */
  lemma TakeLineIff(slots: seq<char>, n: nat, head: nat, tail: nat, lineSize: nat)
    requires RingOk(slots, n, head, tail) && ScansStayInside(slots, head, tail)
    ensures var (line, tail') := TakeLine(slots, n, head, tail, lineSize);
            Takes(Queue(slots, n, head, tail), line, Queue(slots, n, head, tail'))
            <==> TakesCleanly(slots, n, head, tail, lineSize)
    ensures TakesCleanly(slots, n, head, tail, lineSize) ==> TakesLine(slots, n, head, tail, lineSize)
  {
    hide TakeLine, Takes, LineLength, Queue;
    if !Wrapped(head, tail) {
      TakesUnwrapped(slots, n, head, tail, lineSize);
    } else if Newline(slots, tail).Some? {
      TakesNewlineFirst(slots, n, head, tail, lineSize);
    } else if lineSize < n - tail {
      TakesCut(slots, n, head, tail, lineSize);
    } else if head > 0 {
      TakesAcross(slots, n, head, tail, lineSize);
    } else {
      TakesToEnd(slots, n, tail, lineSize);
    }
  }

  /** Searching again further on, still before the terminator, fails again. */
  lemma LaterSearchFails(slots: seq<char>, n: nat, head: nat, tail: nat, k: nat)
    requires RingOk(slots, n, head, tail) && Scannable(slots, tail) && Newline(slots, tail).None?
    requires k < Contiguous(n, head, tail)
    ensures Scannable(slots, tail + k) && Newline(slots, tail + k).None?
  {
    var e :| tail <= e < |slots| && slots[e] == END && forall i :: tail <= i < e ==> slots[i] != '\n' && slots[i] != END;
    if e < tail + k {
      LiveInQueue(slots, n, head, tail, e);
      assert false;
    }
    assert slots[e] == END && tail + k <= e;
  }
}
