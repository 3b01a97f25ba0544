/** The slots of the ring buffer as a shift register, and the queue it stands for. */
module Ring {

  const END: char := '\0'

  // ---- The ring as a shift register ----

  /** The `n` slots of the ring in the order they were written, ending just before `head`. */
  function Register<T>(slots: seq<T>, n: nat, head: nat): (r: seq<T>)
    requires head < n <= |slots|
    ensures |r| == n
  {
    slots[head..n] + slots[..head]
  }

  /** The last `k` items. */
  function Last<T>(s: seq<T>, k: nat): (r: seq<T>)
    ensures |r| == if k <= |s| then k else |s|
  {
    if k <= |s| then s[|s| - k..] else s
  }

  /** How many items lie between `tail` and `head`. */
  function Count(n: nat, head: nat, tail: nat): (k: nat)
    requires head < n && tail < n
    ensures k < n
  {
    if tail <= head then head - tail else n - tail + head
  }

  /** The queued items, oldest first. */
  function Queue<T>(slots: seq<T>, n: nat, head: nat, tail: nat): (q: seq<T>)
    requires head < n <= |slots| && tail < n
    ensures |q| == Count(n, head, tail)
  {
    if tail <= head then slots[tail..head] else slots[tail..n] + slots[..head]
  }

  /** The queue is the newest part of the shift register. */
  lemma QueueIsLast<T>(slots: seq<T>, n: nat, head: nat, tail: nat)
    requires head < n <= |slots| && tail < n
    ensures Queue(slots, n, head, tail) == Last(Register(slots, n, head), Count(n, head, tail))
  {
  }

  /** The slot of an ever-growing index. */
  function Slot(i: nat, n: nat): (r: nat)
    requires 0 < n
    ensures r < n
  {
    i % n
  }

  lemma AtLeast(a: nat, n: nat)
    requires a >= 1
    ensures a * n >= n
  {
  }

  lemma ModUnique(i: nat, n: nat, q: nat, r: nat)
    requires 0 < n && r < n && i == q * n + r
    ensures i % n == r
  {
    var q', r' := i / n, i % n;
    assert i == q' * n + r';
    if q > q' {
      assert q * n == q' * n + (q - q') * n;
      AtLeast(q - q', n);
      assert false;
    } else if q < q' {
      assert q' * n == q * n + (q' - q) * n;
      AtLeast(q' - q, n);
      assert false;
    }
  }

  /** The next index modulo the size of the ring. */
  lemma NextMod(i: nat, n: nat)
    requires 0 < n
    ensures Slot(i + 1, n) == if Slot(i, n) + 1 == n then 0 else Slot(i, n) + 1
  {
    var q, r := i / n, i % n;
    assert i == q * n + r;
    if r + 1 == n {
      assert (q + 1) * n == q * n + n;
      ModUnique(i + 1, n, q + 1, 0);
    } else {
      ModUnique(i + 1, n, q, r + 1);
    }
  }

  /** Writing at the head shifts the register by one. */
  lemma WriteShifts<T>(slots: seq<T>, n: nat, head: nat, item: T)
    requires head < n <= |slots|
    ensures Register(slots[head := item], n, if head + 1 == n then 0 else head + 1) == Register(slots, n, head)[1..] + [item]
  {
    var next := if head + 1 == n then 0 else head + 1;
    var left := Register(slots[head := item], n, next);
    var right := Register(slots, n, head)[1..] + [item];
    assert |left| == |right|;
    forall i | 0 <= i < |left| ensures left[i] == right[i] {
    }
  }

  lemma LastOfLast<T>(s: seq<T>, j: nat, k: nat)
    requires k <= j
    ensures Last(Last(s, j), k) == Last(s, k)
  {
  }

  /** One more item: the register of `n` slots holds the newest `n`. */
  lemma RegisterStep<T>(start: seq<T>, n: nat, items: seq<T>, k: nat)
    requires 0 < n == |start| && k < |items|
    ensures Last(start + items[..k], n)[1..] + [items[k]] == Last(start + items[..k + 1], n)
  {
    assert start + items[..k + 1] == start + items[..k] + [items[k]];
  }

  /** What the queue holds after a write that filled the ring, and after one that did not. */
  lemma Overwritten<T>(start: seq<T>, n: nat, items: seq<T>, count: nat)
    requires 0 < n == |start| && count < n && count + |items| >= n - 1
    ensures Last(Last(start + items, n), n - 1) == Last(Last(start, count) + items, n - 1)
  {
    LastOfLast(start + items, n, n - 1);
    assert Last(start + items, count + |items|) == Last(start, count) + items;
    LastOfLast(start + items, count + |items|, n - 1);
  }

  lemma Appended<T>(start: seq<T>, n: nat, items: seq<T>, count: nat)
    requires 0 < n == |start| && count + |items| < n
    ensures Last(Last(start + items, n), count + |items|) == Last(Last(start, count) + items, n - 1)
  {
    LastOfLast(start + items, n, count + |items|);
    assert Last(start + items, count + |items|) == Last(start, count) + items;
  }

  /** The slot at the head, and the one past the ring, hold no queued item. */
  lemma HeadSlotFree<T>(slots: seq<T>, n: nat, head: nat, tail: nat, i: nat, item: T)
    requires head < n < |slots| && tail < n && (i == head || i == n)
    ensures Queue(slots[i := item], n, head, tail) == Queue(slots, n, head, tail)
  {
  }

  // ---- Writing a string ----

  /** After `count` characters: the register holds the newest `n`; until the ring fills, the queue has grown by `count`. */
  ghost predicate Writing(
    slots: seq<char>, n: nat, head: nat, tail: nat, items: seq<char>, count: nat, current: seq<char>, maxed: bool)
    requires head < n < |slots| && tail < n && count <= |items|
  {
    var at := Slot(head + count, n);
    && |current| == |slots|
    && Register(current, n, at) == Last(Register(slots, n, head) + items[..count], n)
    && (maxed ==> Count(n, head, tail) + count >= n - 1)
    && (!maxed ==> at + 1 != tail && Count(n, at, tail) == Count(n, head, tail) + count)
  }

  lemma WritingStarts(slots: seq<char>, n: nat, head: nat, tail: nat, items: seq<char>, maxed: bool)
    requires head < n < |slots| && tail < n && (maxed <==> head + 1 == tail)
    ensures Writing(slots, n, head, tail, items, 0, slots, maxed)
  {
    Small(head, n);
    assert items[..0] == [];
    assert Register(slots, n, head) + [] == Register(slots, n, head);
  }

  lemma WritingStep(
    slots: seq<char>, n: nat, head: nat, tail: nat, items: seq<char>, count: nat, current: seq<char>, maxed: bool)
    requires head < n < |slots| && tail < n && count < |items|
    requires Writing(slots, n, head, tail, items, count, current, maxed)
    ensures var pos := Slot(head + count, n);
            Writing(slots, n, head, tail, items, count + 1, current[pos := items[count]],
                    maxed || Slot(pos + 1, n) == tail - 1 || (tail == 0 && pos == n - 1))
  {
    var pos := Slot(head + count, n);
    NextMod(head + count, n);
    Small(pos + 1, n);
    WriteShifts(current, n, pos, items[count]);
    RegisterStep(Register(slots, n, head), n, items, count);
    assert head + (count + 1) == head + count + 1;
  }

  /** The terminator lands on the new head's slot or past the ring; the queue is what the specification says. */
  lemma WritingEnds(
    slots: seq<char>, n: nat, head: nat, tail: nat, items: seq<char>, filled: seq<char>, maxed: bool)
    requires head < n == |slots| - 1 && tail < n && items != []
    requires Writing(slots, n, head, tail, items, |items|, filled, maxed)
    ensures
      var pos := Slot(head + |items| - 1, n);
      var head' := Slot(head + |items|, n);
      var tail' := if maxed then Slot(head + |items| + 1, n) else tail;
      && head' == (if pos + 1 == n then 0 else pos + 1)
      && Queue(filled[pos + 1 := END], n, head', tail') == Last(Queue(slots, n, head, tail) + items, n - 1)
  {
    hide Register, Queue, Last, Slot;
    var pos, head' := Slot(head + |items| - 1, n), Slot(head + |items|, n);
    var tail' := if maxed then Slot(head + |items| + 1, n) else tail;
    var start, count := Register(slots, n, head), Count(n, head, tail);
    NextMod(head + |items| - 1, n);
    NextMod(head + |items|, n);
    HeadSlotFree(filled, n, head', tail', pos + 1, END);
    QueueIsLast(filled, n, head', tail');
    QueueIsLast(slots, n, head, tail);
    assert items[..|items|] == items;
    if maxed {
      Overwritten(start, n, items, count);
    } else {
      Appended(start, n, items, count);
    }
  }

  lemma Small(i: nat, n: nat)
    requires 0 < n && i <= n
    ensures Slot(i, n) == if i == n then 0 else i
  {
    if i == n {
      ModUnique(n, n, 1, 0);
    } else {
      ModUnique(i, n, 0, i);
    }
  }

  // ---- Writing one item ----

  lemma ItemWritten(slots: seq<char>, n: nat, head: nat, tail: nat, item: char, maxed: bool)
    requires head < n == |slots| - 1 && tail < n && (maxed <==> head + 1 == tail)
    ensures
      var head' := Slot(head + 1, n);
      var tail' := if maxed then Slot(head + 2, n) else tail;
      var slots' := slots[head := item][head + 1 := END];
      && head' == (if head + 1 == n then 0 else head + 1)
      && (Queue(slots', n, head', tail') == Last(Queue(slots, n, head, tail) + [item], n - 1)
          <==> !(tail == 0 && head == n - 1 && n > 1))
      && (tail == 0 && head == n - 1 ==> Queue(slots', n, head', tail') == [])
  {
    var head' := Slot(head + 1, n);
    var tail' := if maxed then Slot(head + 2, n) else tail;
    Small(head + 1, n);
    if maxed {
      Small(head + 2, n);
    }
    HeadSlotFree(slots[head := item], n, head', tail', head + 1, END);
    ItemQueued(slots, n, head, tail, item, head', tail');
  }

  lemma ItemQueued(slots: seq<char>, n: nat, head: nat, tail: nat, item: char, head': nat, tail': nat)
    requires head < n < |slots| && tail < n
    requires head' == if head + 1 == n then 0 else head + 1
    requires tail' == if head + 1 == tail then (if tail + 1 == n then 0 else tail + 1) else tail
    ensures Queue(slots[head := item], n, head', tail') == Last(Queue(slots, n, head, tail) + [item], n - 1)
            <==> !(tail == 0 && head == n - 1 && n > 1)
  {
    var q, slots' := Queue(slots, n, head, tail), slots[head := item];
    if head + 1 == tail {
      assert Last(q + [item], n - 1) == q[1..] + [item];
      assert slots'[..head + 1] == slots[..head] + [item];
      if tail + 1 == n {
        assert slots[tail..n][1..] == [];
      } else {
        assert slots[tail..n][1..] == slots'[tail + 1..n];
      }
    } else if head + 1 < n {
      assert Last(q + [item], n - 1) == q + [item];
      if tail <= head {
        assert slots'[tail..head + 1] == slots[tail..head] + [item];
      } else {
        assert slots'[..head + 1] == slots[..head] + [item];
        assert slots'[tail..n] == slots[tail..n];
      }
    } else if tail > 0 {
      assert Last(q + [item], n - 1) == q + [item];
      assert slots'[tail..n] == slots[tail..head] + [item];
    }
  }

  // ---- A string of no characters ----

  /** True iff slot `i` holds a queued item. */
  predicate Live(n: nat, head: nat, tail: nat, i: nat) {
    if tail <= head then tail <= i < head else tail <= i < n || i < head
  }

  /** Writing an empty string keeps the queue exactly when slot 1 holds no queued item. */
  lemma EmptyWriteIff(slots: seq<char>, n: nat, head: nat, tail: nat)
    requires head < n < |slots| && tail < n && END !in Queue(slots, n, head, tail)
    ensures Queue(slots[1 := END], n, head, tail) == Queue(slots, n, head, tail) <==> !Live(n, head, tail, 1)
  {
    var q, q' := Queue(slots, n, head, tail), Queue(slots[1 := END], n, head, tail);
    if Live(n, head, tail, 1) {
      var k := if tail <= 1 then 1 - tail else n - tail + 1;
      assert q'[k] == END;
      assert q[k] != END;
    }
  }
}
