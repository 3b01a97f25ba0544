/** The overwrite-oldest ring buffer behind the serial log. */
module CircularBuffers {
  import opened Bytes
  import opened Ring
  import opened Lines

  class CircularBuffer {
    const fixedSize: nat
    const buffer: array<char>
    var head: nat
    var tail: nat
    var maxed: bool
    var willClearIfEmpty: bool

    /** One slot past the ring is kept for a terminator. The slots start with arbitrary values. */
    constructor (size: nat)
      requires 1 <= size <= 65535
      ensures Valid() && Contents() == [] && head == tail == 0 && fixedSize == size && fresh(buffer)
      ensures buffer[fixedSize] != '\n' ==> Logged()
    {
      fixedSize := size;
      buffer := new char[size + 1];
      head, tail, maxed, willClearIfEmpty := 0, 0, false, false;
    }

    ghost predicate Valid()
      reads this, buffer
    {
      && 1 <= fixedSize
      && buffer.Length == fixedSize + 1
      && head < fixedSize
      && tail < fixedSize
      && (maxed <==> head + 1 == tail)
      && (head != 0 ==> buffer[head] == END)
    }

    /** The queue that the buffer stands for. */
    ghost function Contents(): (q: seq<char>)
      requires head < fixedSize == buffer.Length - 1 && tail < fixedSize
      reads this, buffer
    {
      Queue(buffer[..], fixedSize, head, tail)
    }

    /** Only strings have been written, so lines can be taken; the slot past the ring did not start out as a newline. */
    ghost predicate Logged()
      reads this, buffer
    {
      Valid() && buffer[fixedSize] != '\n' && Written(buffer[..], fixedSize, head, tail)
    }

    predicate Empty()
      reads this
    {
      head == tail
    }

    predicate Full()
      reads this
    {
      maxed
    }

    /** The copying loop: round the ring, noticing when it fills. `pos` is the last slot written. */
    method CopyIn(items: seq<char>) returns (pos: nat)
      requires Valid() && |items| <= 65535
      modifies buffer, `maxed
      ensures Writing(old(buffer[..]), fixedSize, head, tail, items, |items|, buffer[..], maxed)
      ensures buffer[fixedSize] == old(buffer[fixedSize])
      ensures items == [] ==> pos == 0 && buffer[..] == old(buffer[..]) && maxed == old(maxed)
      ensures items != [] ==> pos == Slot(head + |items| - 1, fixedSize)
    {
      hide Slot, Writing;
      ghost var slots := buffer[..];
      var count := 0;
      pos := 0;
      WritingStarts(slots, fixedSize, head, tail, items, maxed);
      while count < |items|
        invariant 0 <= count <= |items|
        invariant Writing(slots, fixedSize, head, tail, items, count, buffer[..], maxed)
        invariant buffer[fixedSize] == slots[fixedSize]
        invariant count == 0 ==> pos == 0 && buffer[..] == slots && maxed == old(maxed)
        invariant count > 0 ==> pos == Slot(head + count - 1, fixedSize)
      {
        pos := Slot(head + count, fixedSize);
        WritingStep(slots, fixedSize, head, tail, items, count, buffer[..], maxed);
        ghost var before := buffer[..];
        buffer[pos] := items[count];
        assert buffer[..] == before[pos := items[count]];
        count := count + 1;
        if Slot(pos + 1, fixedSize) == tail - 1 || (tail == 0 && pos == fixedSize - 1) {
          maxed := true;
        }
      }
    }

    /** Writing a string appends it and keeps the newest `fixedSize - 1` characters.
        An empty string only puts a terminator in slot 1. */
    method Write(items: seq<char>)
      requires Valid() && END !in items && |items| <= 65535
      modifies this, buffer
      ensures Valid()
      ensures items != [] ==> Contents() == Last(old(Contents()) + items, fixedSize - 1)
      ensures items != [] ==> head == Slot(old(head) + |items|, fixedSize)
                              && buffer[fixedSize] == if head == 0 then END else old(buffer[fixedSize])
      ensures items == [] ==> buffer[..] == old(buffer[..])[1 := END] && head == old(head) && tail == old(tail)
      ensures items != [] && old(Written(buffer[..], fixedSize, head, tail)) ==> Written(buffer[..], fixedSize, head, tail)
      ensures items != [] && old(Logged()) ==> Logged()
    {
      hide Slot, Writing, Queue, Last, Written;
      ghost var slots := buffer[..];
      willClearIfEmpty := false;
      var pos := CopyIn(items);
      ghost var filled := buffer[..];
      if items != [] {
        WritingEnds(slots, fixedSize, head, tail, items, filled, maxed);
        if Written(slots, fixedSize, head, tail) {
          StaysWritten(slots, fixedSize, head, tail, items, filled, maxed);
        }
      } else {
        Small(head, fixedSize);
        Small(head + 1, fixedSize);
      }
      Settle(|items|, pos);
    }

    /** The terminator goes after the last slot written, and head and tail move on. */
    method Settle(count: nat, pos: nat)
      requires 0 < fixedSize == buffer.Length - 1 && pos < fixedSize
      modifies this, buffer
      ensures buffer[..] == old(buffer[..])[pos + 1 := END]
      ensures head == Slot(old(head) + count, fixedSize)
      ensures tail == if old(maxed) then Slot(old(head) + count + 1, fixedSize) else old(tail)
      ensures maxed <==> head == tail - 1
    {
      hide Slot;
      buffer[pos + 1] := END;
      if maxed {
        tail := Slot(head + count + 1, fixedSize);
      }
      head := Slot(head + count, fixedSize);
      maxed := head == tail - 1;
    }

    /** Writing one item appends it too, except when the tail is at slot 0 and the head in the last slot:
        then the full ring becomes an empty one. */
    method WriteItem(item: char)
      requires Valid()
      modifies this, buffer
      ensures Valid()
      ensures Contents() == Last(old(Contents()) + [item], fixedSize - 1)
              <==> !(old(tail) == 0 && old(head) == fixedSize - 1 && fixedSize > 1)
      ensures old(tail) == 0 && old(head) == fixedSize - 1 ==> Contents() == []
      ensures head == Slot(old(head) + 1, fixedSize)
      ensures buffer[fixedSize] == if head == 0 then END else old(buffer[fixedSize])
      ensures item != END && old(Logged()) ==> Logged()
    {
      hide Slot, Written, Queue, Last;
      ghost var slots := buffer[..];
      willClearIfEmpty := false;
      buffer[head] := item;
      buffer[head + 1] := END;
      assert buffer[..] == slots[head := item][head + 1 := END];
      ItemWritten(slots, fixedSize, head, tail, item, maxed);
      if item != END && Written(slots, fixedSize, head, tail) {
        ItemStaysWritten(slots, fixedSize, head, tail, item);
      }
      if maxed {
        tail := Slot(head + 2, fixedSize);
      }
      head := Slot(head + 1, fixedSize);
      maxed := head == tail - 1;
    }

    method Clear()
      requires Valid()
      modifies this, buffer
      ensures Valid() && Contents() == [] && head == tail == 0
      ensures buffer[..] == old(buffer[..])[0 := END]
      ensures old(Logged()) ==> Logged()
    {
      head := 0;
      tail := 0;
      buffer[tail] := END;
      maxed := false;
    }

    /** Moves an empty queue to the start of the ring; any other stays. */
    method ClearIfEmpty()
      requires Valid()
      modifies this
      ensures Valid() && Contents() == old(Contents())
      ensures if old(head == tail) then head == tail == 0 else head == old(head) && tail == old(tail)
      ensures old(Logged()) ==> Logged()
    {
      willClearIfEmpty := true;
      if Empty() && willClearIfEmpty {
        head := 0;
        tail := 0;
        maxed := false;
      }
    }

    /** The oldest item; the terminator when there is none. */
    method Consume() returns (item: char)
      requires Valid()
      modifies this
      ensures Valid()
      ensures if old(Contents()) == [] then item == END && Contents() == []
              else [item] + Contents() == old(Contents())
      ensures old(Logged()) ==> Logged()
    {
      if Empty() {
        return END;
      }
      hide Written;
      Small(tail + 1, fixedSize);
      LaterWritten(buffer[..], fixedSize, head, tail, Slot(tail + 1, fixedSize));
      item := buffer[tail];
      tail := Slot(tail + 1, fixedSize);
      maxed := false;
    }

    /** The oldest items up to the physical end of the ring, at most `blockSize` of them. Asking a full ring for
        none makes it forget that it is full. */
    method ConsumeBlock(blockSize: nat) returns (block: seq<char>)
      requires Valid()
      modifies this
      ensures Valid() <==> blockSize > 0 || !old(maxed)
      ensures head == old(head) && tail < fixedSize
      ensures block + Contents() == old(Contents())
      ensures |block| == Min(blockSize, Contiguous(fixedSize, old(head), old(tail)))
      ensures blockSize > 0 && old(Logged()) ==> Logged()
    {
      hide Queue, Slot, Written;
      var consumable := (if head <= tail && !Empty() then fixedSize else head) - tail;
      var willConsume := Min(blockSize, consumable);
      Advance(buffer[..], fixedSize, head, tail, willConsume);
      LaterWritten(buffer[..], fixedSize, head, tail, Slot(tail + willConsume, fixedSize));
      block := buffer[tail..tail + willConsume];
      if blockSize < consumable {
        tail := Slot(tail + willConsume, fixedSize);
      } else if head <= tail && !Empty() {
        tail := 0;
      } else {
        tail := head;
      }
      maxed := false;
    }

    /** The C search for a newline. */
    method FindNewline(from: nat) returns (r: Option<nat>)
      requires Scannable(buffer[..], from)
      ensures r == Newline(buffer[..], from)
    {
      var i := from;
      while buffer[i] != '\n' && buffer[i] != END
        invariant from <= i < buffer.Length
        invariant Scannable(buffer[..], i)
        invariant Newline(buffer[..], i) == Newline(buffer[..], from)
        decreases buffer.Length - i
      {
        i := i + 1;
      }
      r := if buffer[i] == '\n' then Some(i) else None;
    }

    /** The state in which a line can be taken. */
    ghost predicate Readable()
      reads this, buffer
    {
      Valid() && RingOk(buffer[..], fixedSize, head, tail) && ScansStayInside(buffer[..], head, tail)
    }

    /** The first search failed and everything up to the physical end fits in the line. */
    method ConsumeToEnd(lineSize: nat) returns (line: seq<char>)
      requires Readable() && Newline(buffer[..], tail) == None && lineSize >= Contiguous(fixedSize, head, tail)
      modifies this
      ensures head == old(head) && tail < fixedSize && !maxed
      ensures (line, tail) == old(TakeLine(buffer[..], fixedSize, head, tail, lineSize))
    {
      hide Queue, Slot, Newline, Scannable;
      var tailCopy := head;
      line := buffer[tail..tail + Contiguous(fixedSize, head, tail)];
      if head <= tail && !Empty() {
        tailCopy := 0;
        ScanFromStart(buffer[..], fixedSize, head);
        var lineEnd := FindNewline(0);
        if lineEnd.Some? {
          var extra := Min(lineSize - |line|, lineEnd.value + 1);
          line := line + buffer[..extra];
          assert buffer[..extra] == buffer[..][..extra];
          tailCopy := Slot(extra, fixedSize);
        }
      }
      maxed := false;
      tail := tailCopy;
    }

    /** The first search failed and the line is full before the physical end. The second search, from there,
        fails again, and no room is left in the line. */
    method ConsumeCut(lineSize: nat) returns (line: seq<char>)
      requires Readable() && Newline(buffer[..], tail) == None && lineSize < Contiguous(fixedSize, head, tail)
      modifies this
      ensures head == old(head) && tail < fixedSize && !maxed
      ensures (line, tail) == old(TakeLine(buffer[..], fixedSize, head, tail, lineSize))
    {
      hide Queue, Slot, Newline, Scannable;
      line := buffer[tail..tail + lineSize];
      LaterSearchFails(buffer[..], fixedSize, head, tail, lineSize);
      var tailCopy := tail + lineSize;
      var lineEnd := FindNewline(tailCopy);
      assert lineEnd == None;
      maxed := false;
      if lineSize <= head {
        tailCopy := Slot(tailCopy, fixedSize);
      } else if head <= tailCopy && !Empty() {
        tailCopy := lineSize;
      } else {
        tailCopy := head;
      }
      tail := tailCopy;
    }

    /** Takes a line of at most `lineSize` characters. */
    method ConsumeLine(lineSize: nat) returns (line: seq<char>)
      requires Readable()
      modifies this
      ensures head == old(head) && tail < fixedSize && !maxed
      ensures (line, tail) == old(TakeLine(buffer[..], fixedSize, head, tail, lineSize))
    {
      hide Queue, Slot, Newline, Scannable;
      var consumable := (if head <= tail && !Empty() then fixedSize else head) - tail;
      var willConsume := Min(lineSize, consumable);
      var lineEnd := FindNewline(tail);
      if lineEnd == None {
        if consumable == willConsume {
          line := ConsumeToEnd(lineSize);
        } else {
          line := ConsumeCut(lineSize);
        }
        return;
      }
      var lineExtra := Min(willConsume, lineEnd.value - tail + 1);
      line := buffer[tail..tail + lineExtra];
      maxed := false;
      tail := Slot(tail + lineExtra, fixedSize);
    }
  }
}
