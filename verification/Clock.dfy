/** Learning the time from announces. */
module Clock {
  import opened Bytes

  const TWO64: nat := 0x1_0000_0000_0000_0000
  const TWO63: nat := 0x8000_0000_0000_0000

  /** Five minutes. */
  const MESSAGE_TIMEOUT: nat := 300000

  function Add64(a: u64, b: nat): u64 {
    (a + b) % TWO64
  }

  /** A 64-bit number read as signed. */
  function Signed(v: u64): int {
    if v < TWO63 then v else v - TWO64
  }

  /** The time in milliseconds, by the local clock in microseconds and the learned offset. */
  function TimeMs(offset: u64, nowUs: u64): u64 {
    Add64(offset, nowUs / 1000)
  }

  /** The offset after a packet with the given timestamp. */
  function Learn(offset: u64, nowUs: u64, timestamp: u64): u64 {
    var now := TimeMs(offset, nowUs);
    var diff := Signed(timestamp) - Signed(now);
    if diff > MESSAGE_TIMEOUT || -diff > MESSAGE_TIMEOUT || timestamp > now then (offset + diff) % TWO64 else offset
  }

  predicate WithinWindow(offset: u64, nowUs: u64, timestamp: u64) {
    0 <= TimeMs(offset, nowUs) - timestamp <= 300000
  }

  /** The timestamps a signed difference misjudges: just after zero, seen from just before the wrap-around. */
  predicate AcrossTheWrap(now: u64, timestamp: u64) {
    timestamp < TWO63 <= now && TWO64 - now + timestamp <= 300000
  }

  lemma ModAdd(a: int, b: int, k: int)
    requires 0 <= b < TWO64 && a == b + k * TWO64
    ensures a % TWO64 == b
  {
  }

  /** When the offset moves, the new time is the timestamp. */
  lemma MovedToTimestamp(offset: u64, nowUs: u64, timestamp: u64)
    ensures var diff := Signed(timestamp) - Signed(TimeMs(offset, nowUs));
            TimeMs((offset + diff) % TWO64, nowUs) == timestamp
  {
    var now := TimeMs(offset, nowUs);
    var diff := Signed(timestamp) - Signed(now);
    var local := nowUs / 1000;
    var k0 := (offset + local) / TWO64;
    assert now == offset + local - k0 * TWO64;
    var k1 := (offset + diff) / TWO64;
    var moved := (offset + diff) % TWO64;
    assert moved == offset + diff - k1 * TWO64;
    var s := (if timestamp < TWO63 then 0 else 1) - (if now < TWO63 then 0 else 1);
    assert diff == timestamp - now - s * TWO64;
    ModAdd(moved + local, timestamp, k0 - k1 - s);
  }

  /** After every update the time is at most five minutes past the timestamp and never before it, except exactly
      for timestamps across the wrap-around. */
  lemma LearnWindow(offset: u64, nowUs: u64, timestamp: u64)
    ensures WithinWindow(Learn(offset, nowUs, timestamp), nowUs, timestamp)
            <==> !AcrossTheWrap(TimeMs(offset, nowUs), timestamp)
  {
    MovedToTimestamp(offset, nowUs, timestamp);
  }

  // ---- Runs of announces ----

  /** An announce: its timestamp and the local time, in microseconds, when it arrived. */
  datatype Heard = Heard(timestamp: u64, nowUs: u64)

  /** How far ahead of the local clock an announce is. */
  function Skew(h: Heard): int {
    h.timestamp - h.nowUs / 1000
  }

  function LearnAll(offset: u64, run: seq<Heard>): u64 {
    if run == [] then offset else Learn(LearnAll(offset, run[..|run| - 1]), run[|run| - 1].nowUs, run[|run| - 1].timestamp)
  }

  /** One announce from a sane clock, as a function of its skew. */
  lemma LearnSkew(offset: u64, h: Heard)
    requires h.timestamp < TWO63 && offset + h.nowUs / 1000 < TWO63 && Skew(h) >= 0
    ensures Learn(offset, h.nowUs, h.timestamp) ==
            if Skew(h) > offset || Skew(h) < offset - MESSAGE_TIMEOUT then Skew(h) else offset
  {
  }

  predicate Sane(h: Heard, bound: nat) {
    h.timestamp < TWO63 && 0 < Skew(h) <= bound && bound + h.nowUs / 1000 < TWO63
  }

  predicate IsMaxSkew(run: seq<Heard>, m: int) {
    && (exists i :: 0 <= i < |run| && Skew(run[i]) == m)
    && forall i :: 0 <= i < |run| ==> Skew(run[i]) <= m
  }

  /** The last announce with the greatest skew. */
  predicate LastGreatest(run: seq<Heard>, i: nat) {
    && i < |run|
    && (forall j :: 0 <= j < |run| ==> Skew(run[j]) <= Skew(run[i]))
    && (forall j :: i < j < |run| ==> Skew(run[j]) < Skew(run[i]))
  }

  lemma {:induction false} FindLastGreatest(run: seq<Heard>) returns (i: nat)
    requires run != []
    ensures LastGreatest(run, i)
  {
    var last := |run| - 1;
    if last == 0 {
      i := 0;
    } else {
      i := FindLastGreatest(run[..last]);
      if Skew(run[last]) >= Skew(run[i]) {
        i := last;
      }
    }
  }

  /** The offset never exceeds the skews heard. */
  lemma {:induction false} LearnsAtMost(run: seq<Heard>, bound: nat, most: nat)
    requires forall i :: 0 <= i < |run| ==> Sane(run[i], bound) && Skew(run[i]) <= most
    requires most <= bound
    ensures LearnAll(0, run) <= most
  {
    if run != [] {
      var last := run[|run| - 1];
      LearnsAtMost(run[..|run| - 1], bound, most);
      LearnSkew(LearnAll(0, run[..|run| - 1]), last);
    }
  }

  /** Some announce among those after `i` and before `k` is more than five minutes behind announce `i`. */
  predicate FallsBehind(run: seq<Heard>, i: nat, k: nat)
    requires i < k <= |run|
  {
    exists j :: i < j < k && Skew(run[i]) - Skew(run[j]) > 300000
  }

  lemma {:induction false} AfterGreatest(run: seq<Heard>, bound: nat, i: nat, k: nat)
    requires forall j :: 0 <= j < |run| ==> Sane(run[j], bound)
    requires LastGreatest(run, i) && i < k <= |run|
    ensures LearnAll(0, run[..k]) == Skew(run[i]) <==> !FallsBehind(run, i, k)
    ensures LearnAll(0, run[..k]) <= Skew(run[i])
  {
    hide FallsBehind, Learn;
    var h, before := run[k - 1], run[..k - 1];
    assert run[..k][..k - 1] == before && Sane(run[i], bound);
    LearnsAtMost(before, bound, Skew(run[i]));
    LearnSkew(LearnAll(0, before), h);
    FallsBehindStep(run, i, k);
    if k - 1 > i {
      AfterGreatest(run, bound, i, k - 1);
    }
  }

  lemma FallsBehindStep(run: seq<Heard>, i: nat, k: nat)
    requires i < k <= |run|
    ensures FallsBehind(run, i, k) <==>
            k - 1 > i && (FallsBehind(run, i, k - 1) || Skew(run[i]) - Skew(run[k - 1]) > 300000)
  {
  }

  /** Over every run of announces from an offset of zero: the greatest skew is learned iff no announce after the last one
      that has it is more than five minutes behind. */
  lemma LearnsGreatestIff(run: seq<Heard>, bound: nat, i: nat)
    requires (forall j :: 0 <= j < |run| ==> Sane(run[j], bound)) && LastGreatest(run, i)
    ensures LearnAll(0, run) == Skew(run[i]) <==> !FallsBehind(run, i, |run|)
  {
    AfterGreatest(run, bound, i, |run|);
    assert run[..|run|] == run;
  }

  /** So announces whose skews lie within five minutes of each other set the offset to the greatest of them, whatever
      their order. */
  lemma LearnsMaximum(run: seq<Heard>, bound: nat)
    requires run != [] && forall i :: 0 <= i < |run| ==> Sane(run[i], bound)
    requires forall i, j :: 0 <= i < |run| && 0 <= j < |run| ==> Skew(run[i]) - Skew(run[j]) <= 300000
    ensures IsMaxSkew(run, LearnAll(0, run))
  {
    var i := FindLastGreatest(run);
    LearnsGreatestIff(run, bound, i);
    assert Skew(run[i]) == LearnAll(0, run);
  }

  /** Further apart than that, the order decides. */
  lemma OrderMatters(a: Heard, b: Heard, bound: nat)
    requires Sane(a, bound) && Sane(b, bound) && Skew(a) < Skew(b)
    ensures LearnAll(0, [a, b]) == LearnAll(0, [b, a]) <==> Skew(b) - Skew(a) <= 300000
  {
    hide LearnAll;
    LearnsGreatestIff([a, b], bound, 1);
    LearnsGreatestIff([b, a], bound, 0);
    assert [b, a][1] == a;
  }
}
