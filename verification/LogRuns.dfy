/** Concrete writes after which the log is lost, or never printed to its end. */
module LogRuns {
  import opened Bytes
  import opened Ring
  import opened Lines
  import opened Drain
  import opened CircularBuffers
  import opened Logging

  // ---- A log that is never printed to its end ----

  function Filled(k: nat): (r: seq<char>)
    ensures |r| == k && '\n' !in r && END !in r
  {
    seq(k, _ => 'x')
  }

  lemma FilledMore(j: nat, k: nat)
    ensures Last(Filled(j) + Filled(k), 2999) == Filled(Min(j + k, 2999))
  {
  }

  /** Five writes of 600 characters and one of a single character, without a newline, leave the log in a state from
      which the printing loop does not end. */
  method EndlessLog() returns (log: CircularBuffer)
    ensures fresh(log) && fresh(log.buffer) && log.Valid()
    ensures Stuck(log.buffer[..], log.fixedSize, log.head, log.tail, LINE_SIZE)
    ensures forall k: nat :: TailAfter(log.buffer[..], log.fixedSize, log.head, log.tail, LINE_SIZE, k) != log.head
  {
    hide Queue, Slot, Last, Filled, Stuck, TailAfter;
    log := new CircularBuffer(3000);
    NothingFilled();
    for i := 0 to 5
      invariant log.Valid() && log.fixedSize == 3000 && fresh(log) && fresh(log.buffer)
      invariant log.head == if i == 5 then 0 else 600 * i
      invariant i == 5 ==> log.buffer[3000] == END
      invariant log.Contents() == Filled(Min(600 * i, 2999))
    {
      FilledMore(Min(600 * i, 2999), 600);
      Small(600 * i + 600, 3000);
      log.Write(Filled(600));
    }
    FilledMore(2999, 1);
    Small(1, 3000);
    log.Write(Filled(1));
    StuckLog(log.buffer[..], log.tail);
    forall k: nat ensures TailAfter(log.buffer[..], log.fixedSize, log.head, log.tail, LINE_SIZE, k) != log.head {
      StuckForever(log.buffer[..], log.fixedSize, log.head, log.tail, LINE_SIZE, k);
    }
  }

  lemma NothingFilled()
    ensures Filled(0) == []
  {
  }

  lemma StuckLog(slots: seq<char>, tail: nat)
    requires |slots| == 3001 && tail < 3000 && slots[1] == END && slots[3000] == END
    requires Queue(slots, 3000, 1, tail) == Filled(2999)
    ensures Stuck(slots, 3000, 1, tail, LINE_SIZE)
  {
  }

  // ---- Rings that lose their queue ----

  /** Three characters in a ring of four slots, and one more written by itself: the full ring is empty. */
  method FullBecomesEmpty() returns (log: CircularBuffer)
    ensures fresh(log) && fresh(log.buffer) && log.Valid() && log.Contents() == []
  {
    log := new CircularBuffer(4);
    assert log.Contents() == [];
    Small(3, 4);
    log.Write("abc");
    assert log.Contents() == "abc" by { assert [] + "abc" == "abc"; }
    log.WriteItem('d');
  }

  /** A queue of three characters, and an empty string written after it: the second character is a terminator. */
  method EmptyStringSpoils() returns (log: CircularBuffer)
    ensures fresh(log) && fresh(log.buffer) && log.Valid() && log.Contents() == ['a', END, 'c']
  {
    log := new CircularBuffer(8);
    assert log.Contents() == [];
    Small(3, 8);
    log.Write("abc");
    assert log.Contents() == "abc" by { assert [] + "abc" == "abc"; }
    assert log.head == 3 && log.tail == 0;
    log.Write("");
  }

  // ---- More logs that are never printed to their end ----

  /** Six writes of 590 characters each: none of them ends at the physical end, so the slot past the ring is never set. If it
      did not happen to hold a terminator or a newline, a search leaves the array. */
  method SearchOutside() returns (log: CircularBuffer)
    ensures fresh(log) && fresh(log.buffer) && log.Valid()
    ensures log.buffer[log.fixedSize] != END && log.buffer[log.fixedSize] != '\n' ==>
              log.Logged() && !Ends(log.buffer[..], log.fixedSize, log.head, log.tail, LINE_SIZE)
  {
    hide Queue, Slot, Last, Filled, Written, Ends;
    log := new CircularBuffer(3000);
    NothingFilled();
    StartsWritten(log.buffer[..]);
    ghost var past := log.buffer[3000];
    for i := 0 to 6
      invariant log.Valid() && log.fixedSize == 3000 && fresh(log) && fresh(log.buffer)
      invariant log.head == if i == 6 then 540 else 590 * i
      invariant log.buffer[3000] == past && Written(log.buffer[..], 3000, log.head, log.tail)
      invariant log.Contents() == Filled(Min(590 * i, 2999))
    {
      FilledMore(Min(590 * i, 2999), 590);
      Slot590(i);
      log.Write(Filled(590));
    }
    if log.buffer[3000] != END && log.buffer[3000] != '\n' {
      OutsideLog(log.buffer[..], log.tail);
    }
  }

  lemma StartsWritten(slots: seq<char>)
    requires |slots| == 3001
    ensures Written(slots, 3000, 0, 0)
  {
  }

  lemma Slot590(i: nat)
    requires i < 6
    ensures Slot(590 * i + 590, 3000) == if i == 5 then 540 else 590 * (i + 1)
  {
    if i == 5 {
      ModUnique(3540, 3000, 1, 540);
    } else {
      Small(590 * (i + 1), 3000);
    }
  }

  lemma OutsideLog(slots: seq<char>, tail: nat)
    requires |slots| == 3001 && tail < 3000 && slots[540] == END && slots[3000] != END && slots[3000] != '\n'
    requires Written(slots, 3000, 540, tail) && Queue(slots, 3000, 540, tail) == Filled(2999)
    ensures !Ends(slots, 3000, 540, tail, LINE_SIZE)
  {
    hide Ends, Unbroken;
    assert tail == 541;
    assert slots[2999] == Queue(slots, 3000, 540, tail)[2458];
    NeverEndsOutside(slots, 3000, 540, tail, LINE_SIZE);
  }

  /** A line of a hundred characters after one of five hundred. */
  function Broken(): (r: seq<char>)
    ensures |r| == 600 && r[500] == '\n' && END !in r
    ensures forall i :: 0 <= i < 600 && i != 500 ==> r[i] == 'x'
  {
    seq(600, i => if i == 500 then '\n' else 'x')
  }

  /** Five writes that end with 99 characters after a newline, exactly at the physical end: the log is printed over and over. */
  method CyclingLog() returns (log: CircularBuffer)
    ensures fresh(log) && fresh(log.buffer) && log.Valid()
    ensures log.Contents() != [] && !Ends(log.buffer[..], log.fixedSize, log.head, log.tail, LINE_SIZE)
  {
    hide Queue, Slot, Broken, Written, Ends;
    log := new CircularBuffer(3000);
    StartsWritten(log.buffer[..]);
    for i := 0 to 5
      invariant log.Valid() && log.fixedSize == 3000 && fresh(log) && fresh(log.buffer)
      invariant log.head == if i == 5 then 0 else 600 * i
      invariant Written(log.buffer[..], 3000, log.head, log.tail)
      invariant i == 5 ==> log.buffer[3000] == END
      invariant |log.Contents()| == Min(600 * i, 2999)
      invariant i == 5 ==> Last(log.Contents(), 600) == Broken()
    {
      Small(600 * i + 600, 3000);
      LastWritten(log.Contents(), Broken());
      log.Write(Broken());
    }
    CyclesFrom(log.buffer[..], log.tail);
  }

  lemma LastWritten(q: seq<char>, items: seq<char>)
    requires |items| <= 2999
    ensures Last(Last(q + items, 2999), |items|) == items
    ensures |Last(q + items, 2999)| == Min(|q| + |items|, 2999)
  {
  }

  lemma CyclesFrom(slots: seq<char>, tail: nat)
    requires |slots| == 3001 && tail < 3000 && slots[3000] == END && Written(slots, 3000, 0, tail)
    requires |Queue(slots, 3000, 0, tail)| == 2999 && Last(Queue(slots, 3000, 0, tail), 600) == Broken()
    ensures Queue(slots, 3000, 0, tail) != [] && !Ends(slots, 3000, 0, tail, LINE_SIZE)
  {
    hide Ends, Unbroken, Broken;
    assert tail == 1;
    assert forall i :: 2400 <= i < 3000 ==> slots[i] == Broken()[i - 2400];
    NoneBefore(slots, 3000);
    assert slots[2900] == '\n';
    Unbroken99(slots);
    NeverEndsCycling(slots, 3000, 1, LINE_SIZE);
  }

  lemma Unbroken99(slots: seq<char>)
    requires |slots| == 3001 && slots[2900] == '\n' && forall i :: 2901 <= i < 3000 ==> slots[i] != '\n'
    ensures Unbroken(slots, 0, 3000) == 99
  {
    hide Unbroken;
    var k := Unbroken(slots, 0, 3000);
    assert k < 3000 ==> slots[3000 - k - 1] == '\n';
  }
}
