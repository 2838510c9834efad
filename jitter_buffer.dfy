/** Reassembly buffer for one stream of sequenced items: a map keyed by
    sequence number with a read cursor. Small gaps are waited for, larger
    ones skipped, and each `consume` hands out at most four items. */
module JitterBuffers {
  import opened Common
  import opened Sequence

  const MAX_FRAMES_PER_TICK: nat := 4
  const PACKET_LOSS_TOLERANCE: int := 4

  /** A buffered item; the f64 pacing `delta` of the source is not modelled. */
  datatype TimestampedPacket<T> = TimestampedPacket(timestampUs: int, packet: T)

  /** The accept rule of `enqueue`: a representable id strictly newer than
      the last accepted one. */
  predicate Accepts(sequenceId: int, last: u16) {
    IsU16(sequenceId) && SeqIsNewer(sequenceId, last)
  }

  // ---------------------------------------------------------------------
  // Specification of `consume`.

  /** Where the skip phase leaves the cursor, and whether it gave up
      (`Wait`) because the gap is younger than the loss tolerance. */
  datatype SkipOutcome = Ready(cursor: u16) | Wait(cursor: u16)

  /** The skip phase with `attempts` iterations left. */
  function SkipPhase<E>(packets: map<u16, E>, next: u16, last: u16, attempts: nat): SkipOutcome
    decreases attempts
  {
    if attempts == 0 || next in packets then Ready(next)
    else if SeqDiff(last, next) < PACKET_LOSS_TOLERANCE then Wait(next)
    else SkipPhase(packets, Inc(next), last, attempts - 1)
  }

  /** The drain phase with `budget` removals left: the items taken, the
      final cursor and the remaining map. */
  function DrainPhase<E>(packets: map<u16, E>, next: u16, budget: nat): (r: (seq<E>, u16, map<u16, E>))
    ensures |r.0| <= budget
    decreases budget
  {
    if budget == 0 || next !in packets then ([], next, packets)
    else
      var rest := DrainPhase(packets - {next}, Inc(next), budget - 1);
      ([packets[next]] + rest.0, rest.1, rest.2)
  }

  /** One `consume` call on (packets, next_sequence_id, last_sequence_id). */
  function ConsumeSpec<E>(packets: map<u16, E>, next: u16, last: u16): (seq<E>, u16, map<u16, E>) {
    match SkipPhase(packets, next, last, MAX_FRAMES_PER_TICK)
    case Wait(c) => ([], c, packets)
    case Ready(c) => DrainPhase(packets, c, MAX_FRAMES_PER_TICK)
  }

  /** The keys `start`, `start + 1`, ..., `start + n - 1` (wrapping). */
  function Run(start: u16, n: nat): set<u16>
    requires n <= SEQUENCE_MODULO
  {
    set j | 0 <= j < n :: Add(start, j)
  }

  // ---------------------------------------------------------------------
  // Properties of the skip phase.

  /** The skip phase moves the cursor forward by at most `attempts` steps and
      only past keys that are absent; it stops on a present key, on a young
      gap, or when the attempts run out. */
  lemma {:induction false} SkipPhaseAdvancesPastAbsentKeys<E>(packets: map<u16, E>, next: u16, last: u16, attempts: nat)
    requires attempts < SEQUENCE_MODULO
    ensures var c := SkipPhase(packets, next, last, attempts).cursor;
      && Dist(next, c) <= attempts
      && (forall j :: 0 <= j < Dist(next, c) ==> Add(next, j) !in packets)
    ensures SkipPhase(packets, next, last, attempts).Wait? ==>
      var c := SkipPhase(packets, next, last, attempts).cursor;
      c !in packets && SeqDiff(last, c) < PACKET_LOSS_TOLERANCE
    ensures SkipPhase(packets, next, last, attempts).Ready? ==>
      var c := SkipPhase(packets, next, last, attempts).cursor;
      c in packets || Dist(next, c) == attempts
    decreases attempts
  {
    if attempts == 0 || next in packets {
      assert Dist(next, next) == 0;
    } else if SeqDiff(last, next) < PACKET_LOSS_TOLERANCE {
      assert Dist(next, next) == 0;
    } else {
      var n1 := Inc(next);
      SkipPhaseAdvancesPastAbsentKeys(packets, n1, last, attempts - 1);
      var c := SkipPhase(packets, n1, last, attempts - 1).cursor;
      var d1 := Dist(n1, c);
      AddSucc(next, d1);
      assert Add(next, d1 + 1) == c;
      AddReaches(next, c, d1 + 1);
      forall j | 0 <= j < d1 + 1
        ensures Add(next, j) !in packets
      {
        if j > 0 {
          AddSucc(next, j - 1);
          assert Add(next, j) == Add(n1, j - 1);
        }
      }
    }
  }

  // ---------------------------------------------------------------------
  // Properties of the drain phase.

  /** `Run` peels off its first key. */
  lemma RunSucc(start: u16, n: nat)
    requires n < SEQUENCE_MODULO
    ensures Run(start, n + 1) == {start} + Run(Inc(start), n)
  {
    forall k | k in Run(start, n + 1) ensures k in {start} + Run(Inc(start), n) {
      var j :| 0 <= j < n + 1 && k == Add(start, j);
      if j > 0 {
        AddSucc(start, j - 1);
      }
    }
    forall k | k in Run(Inc(start), n) ensures k in Run(start, n + 1) {
      var j :| 0 <= j < n && k == Add(Inc(start), j);
      AddSucc(start, j);
    }
    assert start == Add(start, 0);
  }

  /** The drain phase returns at most `budget` items and leaves the cursor
      one past the last of them; stopping early means the cursor's key is
      absent. */
  lemma {:induction false} DrainPhaseCursor<E>(packets: map<u16, E>, next: u16, budget: nat)
    requires budget < SEQUENCE_MODULO
    ensures var (items, c, _) := DrainPhase(packets, next, budget);
      && |items| <= budget
      && c == Add(next, |items|)
      && (|items| < budget ==> c !in packets)
    decreases budget
  {
    if budget > 0 && next in packets {
      DrainPhaseCursor(packets - {next}, Inc(next), budget - 1);
      AddSucc(next, |DrainPhase(packets - {next}, Inc(next), budget - 1).0|);
    }
  }

  /** The items are the values stored under the consecutive keys starting at
      the cursor, in order. */
  lemma {:induction false} DrainPhaseItems<E>(packets: map<u16, E>, next: u16, budget: nat)
    requires budget < SEQUENCE_MODULO
    ensures var items := DrainPhase(packets, next, budget).0;
      forall j :: 0 <= j < |items| ==> Add(next, j) in packets && items[j] == packets[Add(next, j)]
    decreases budget
  {
    if budget > 0 && next in packets {
      var n1 := Inc(next);
      var p1 := packets - {next};
      DrainPhaseItems(p1, n1, budget - 1);
      DrainPhaseCursor(p1, n1, budget - 1);
      var items := DrainPhase(packets, next, budget).0;
      var items1 := DrainPhase(p1, n1, budget - 1).0;
      assert items == [packets[next]] + items1;
      forall j | 0 <= j < |items|
        ensures Add(next, j) in packets && items[j] == packets[Add(next, j)]
      {
        if j > 0 {
          AddSucc(next, j - 1);
          assert Add(next, j) == Add(n1, j - 1);
          assert items[j] == items1[j - 1];
        }
      }
    }
  }

  /** The returned keys, and only they, leave the map. */
  lemma {:induction false} DrainPhaseRemovesRun<E>(packets: map<u16, E>, next: u16, budget: nat)
    requires budget < SEQUENCE_MODULO
    ensures var (items, _, rest) := DrainPhase(packets, next, budget);
      rest == packets - Run(next, |items|)
    decreases budget
  {
    if budget == 0 || next !in packets {
      assert Run(next, 0) == {};
    } else {
      var n1 := Inc(next);
      var p1 := packets - {next};
      DrainPhaseRemovesRun(p1, n1, budget - 1);
      DrainPhaseCursor(p1, n1, budget - 1);
      var n := |DrainPhase(p1, n1, budget - 1).0|;
      RunSucc(next, n);
    }
  }

  /** Draining shrinks the map by exactly the number of items returned. */
  lemma {:induction false} DrainPhaseShrinksMap<E>(packets: map<u16, E>, next: u16, budget: nat)
    ensures |DrainPhase(packets, next, budget).2| + |DrainPhase(packets, next, budget).0| == |packets|
    decreases budget
  {
    if budget == 0 || next !in packets {
    } else {
      var p1 := packets - {next};
      assert p1.Keys == packets.Keys - {next};
      assert |p1| == |packets| - 1;
      DrainPhaseShrinksMap(p1, Inc(next), budget - 1);
    }
  }

  // ---------------------------------------------------------------------
  // Properties of one `consume` call.

  /** `consume` never hands out more than four items. */
  lemma ConsumeReturnsAtMostFour<E>(packets: map<u16, E>, next: u16, last: u16)
    ensures |ConsumeSpec(packets, next, last).0| <= MAX_FRAMES_PER_TICK
  {
    var skip := SkipPhase(packets, next, last, MAX_FRAMES_PER_TICK);
    if skip.Ready? {
      DrainPhaseCursor(packets, skip.cursor, MAX_FRAMES_PER_TICK);
    }
  }

  /** The items come from consecutive keys starting where the skip phase
      stopped, they leave the map, the map shrinks by their number, and the
      cursor ends one past the last of them. */
  lemma ConsumeTakesConsecutiveKeys<E>(packets: map<u16, E>, next: u16, last: u16)
    ensures var (items, cursor, rest) := ConsumeSpec(packets, next, last);
      var start := SkipPhase(packets, next, last, MAX_FRAMES_PER_TICK).cursor;
      && cursor == Add(start, |items|)
      && (forall j :: 0 <= j < |items| ==> Add(start, j) in packets && items[j] == packets[Add(start, j)])
      && rest == packets - Run(start, |items|)
      && |rest| == |packets| - |items|
  {
    var skip := SkipPhase(packets, next, last, MAX_FRAMES_PER_TICK);
    if skip.Ready? {
      DrainPhaseCursor(packets, skip.cursor, MAX_FRAMES_PER_TICK);
      DrainPhaseItems(packets, skip.cursor, MAX_FRAMES_PER_TICK);
      DrainPhaseRemovesRun(packets, skip.cursor, MAX_FRAMES_PER_TICK);
      DrainPhaseShrinksMap(packets, skip.cursor, MAX_FRAMES_PER_TICK);
    } else {
      assert Run(skip.cursor, 0) == {};
    }
  }

  /** A missing item whose gap is younger than the tolerance makes `consume`
      wait: nothing is returned, nothing removed, the cursor stays put. */
  lemma ConsumeWaitsForYoungGap<E>(packets: map<u16, E>, next: u16, last: u16)
    requires next !in packets && SeqDiff(last, next) < PACKET_LOSS_TOLERANCE
    ensures ConsumeSpec(packets, next, last) == ([], next, packets)
  {
  }

  /** The skip phase of a `consume` advances the cursor by at most four and
      only over absent keys. */
  lemma ConsumeSkipsOnlyAbsentKeys<E>(packets: map<u16, E>, next: u16, last: u16)
    ensures var start := SkipPhase(packets, next, last, MAX_FRAMES_PER_TICK).cursor;
      && Dist(next, start) <= MAX_FRAMES_PER_TICK
      && (forall j :: 0 <= j < Dist(next, start) ==> Add(next, j) !in packets)
  {
    SkipPhaseAdvancesPastAbsentKeys(packets, next, last, MAX_FRAMES_PER_TICK);
  }

  /** Items 0, 1, 2, 3 and 8 buffered, with 8 the last accepted id: the
      first call drains 0..3; the second skips 4 (gap age 4) but then waits
      at 5 (gap age 3); every later call waits at 5 while 8 stays buffered. */
  lemma GapAfterDrainStallsBeforeLastId()
    ensures ConsumeSpec(map[0 := 10, 1 := 11, 2 := 12, 3 := 13, 8 := 18], 0, 8)
         == ([10, 11, 12, 13], 4, map[8 := 18])
    ensures ConsumeSpec(map[8 := 18], 4, 8) == ([], 5, map[8 := 18])
    ensures ConsumeSpec(map[8 := 18], 5, 8) == ([], 5, map[8 := 18])
  {
    var m := map[0 := 10, 1 := 11, 2 := 12, 3 := 13, 8 := 18];
    var m1, m2, m3 := m - {0}, m - {0} - {1}, m - {0} - {1} - {2};
    assert m3 - {3} == map[8 := 18];
    assert SkipPhase(m, 0, 8, MAX_FRAMES_PER_TICK) == Ready(0);
    assert DrainPhase(m3 - {3}, 4, 0) == ([], 4, map[8 := 18]);
    assert 0 in m && 1 in m1 && 2 in m2 && 3 in m3;
    assert m[0] == 10 && m1[1] == 11 && m2[2] == 12 && m3[3] == 13;
    assert [13] + [] == [13] && [12] + [13] == [12, 13];
    assert [11] + [12, 13] == [11, 12, 13] && [10] + [11, 12, 13] == [10, 11, 12, 13];
    assert DrainPhase(m3, 3, 1) == ([13], 4, map[8 := 18]);
    assert DrainPhase(m2, 2, 2) == ([12, 13], 4, map[8 := 18]);
    assert DrainPhase(m1, 1, 3) == ([11, 12, 13], 4, map[8 := 18]);
    assert DrainPhase(m, 0, 4) == ([10, 11, 12, 13], 4, map[8 := 18]);
  }

  // ---------------------------------------------------------------------

  class JitterBuffer<T> {
    var packets: map<u16, TimestampedPacket<T>>
    var nextSequenceId: u16
    var lastReceivedTimestampUs: u32
    var lastSequenceId: u16

    constructor ()
      ensures packets == map[] && nextSequenceId == 0
      ensures lastReceivedTimestampUs == 0 && lastSequenceId == U16_MAX
    {
      packets := map[];
      nextSequenceId := 0;
      lastReceivedTimestampUs := 0;
      lastSequenceId := U16_MAX;
    }

    /** Stores `packet` under `sequenceId` when the id is accepted; an
        accepted id with a timestamp outside u32 only moves
        `lastSequenceId`. */
    method Enqueue(sequenceId: int, timestampUs: int, packet: T)
      modifies this
      ensures nextSequenceId == old(nextSequenceId)
      ensures !Accepts(sequenceId, old(lastSequenceId)) ==>
        && packets == old(packets)
        && lastSequenceId == old(lastSequenceId)
        && lastReceivedTimestampUs == old(lastReceivedTimestampUs)
      ensures Accepts(sequenceId, old(lastSequenceId)) ==> lastSequenceId == sequenceId
      ensures Accepts(sequenceId, old(lastSequenceId)) && !IsU32(timestampUs) ==>
        packets == old(packets) && lastReceivedTimestampUs == old(lastReceivedTimestampUs)
      ensures Accepts(sequenceId, old(lastSequenceId)) && IsU32(timestampUs) ==>
        && packets == old(packets)[sequenceId := TimestampedPacket(timestampUs, packet)]
        && lastReceivedTimestampUs == timestampUs
      ensures |packets| <= |old(packets)| + 1
    {
      if !IsU16(sequenceId) {
        return;
      }
      if !SeqIsNewer(sequenceId, lastSequenceId) {
        return;
      }
      lastSequenceId := sequenceId;
      if !IsU32(timestampUs) {
        return;
      }
      lastReceivedTimestampUs := timestampUs;
      packets := packets[sequenceId := TimestampedPacket(timestampUs, packet)];
      assert packets.Keys == old(packets).Keys + {sequenceId as u16};
    }

    /** Skips lost items, then hands out up to four consecutive ones. */
    method Consume() returns (consumed: seq<TimestampedPacket<T>>)
      modifies this
      ensures (consumed, nextSequenceId, packets) == ConsumeSpec(old(packets), old(nextSequenceId), old(lastSequenceId))
      ensures lastSequenceId == old(lastSequenceId)
      ensures lastReceivedTimestampUs == old(lastReceivedTimestampUs)
    {
      var ready := SkipLost();
      if !ready {
        return [];
      }
      consumed := Drain();
    }

    /** The first loop of `consume`: advances the cursor over missing items
        while the gap to the newest accepted id is at least the loss
        tolerance; `ready` is false when it returned early to wait. */
    method SkipLost() returns (ready: bool)
      modifies this`nextSequenceId
      ensures SkipPhase(packets, old(nextSequenceId), lastSequenceId, MAX_FRAMES_PER_TICK)
           == if ready then Ready(nextSequenceId) else Wait(nextSequenceId)
    {
      var i := 0;
      while i < MAX_FRAMES_PER_TICK
        invariant 0 <= i <= MAX_FRAMES_PER_TICK
        invariant SkipPhase(packets, nextSequenceId, lastSequenceId, MAX_FRAMES_PER_TICK - i)
               == SkipPhase(packets, old(nextSequenceId), lastSequenceId, MAX_FRAMES_PER_TICK)
      {
        if nextSequenceId in packets {
          break;
        }
        var diff := SeqDiff(lastSequenceId, nextSequenceId);
        if diff < PACKET_LOSS_TOLERANCE {
          return false;
        }
        nextSequenceId := Inc(nextSequenceId);
        i := i + 1;
      }
      return true;
    }

    /** The second loop of `consume`: removes and returns up to four
        consecutive items starting at the cursor, stopping at the first gap. */
    method Drain() returns (consumed: seq<TimestampedPacket<T>>)
      modifies this`packets, this`nextSequenceId
      ensures (consumed, nextSequenceId, packets) == DrainPhase(old(packets), old(nextSequenceId), MAX_FRAMES_PER_TICK)
    {
      consumed := [];
      var j := 0;
      while j < MAX_FRAMES_PER_TICK
        invariant 0 <= j <= MAX_FRAMES_PER_TICK
        invariant var rest := DrainPhase(packets, nextSequenceId, MAX_FRAMES_PER_TICK - j);
          var all := DrainPhase(old(packets), old(nextSequenceId), MAX_FRAMES_PER_TICK);
          consumed + rest.0 == all.0 && rest.1 == all.1 && rest.2 == all.2
      {
        if nextSequenceId !in packets {
          break;
        }
        var packet := packets[nextSequenceId];
        packets := packets - {nextSequenceId};
        consumed := consumed + [packet];
        nextSequenceId := Inc(nextSequenceId);
        j := j + 1;
      }
      assert consumed + [] == consumed;
    }

    function Size(): (r: int)
      reads this
      ensures r == |packets|
    {
      |packets|
    }

    function LastSequenceId(): int
      reads this
    {
      lastSequenceId
    }

    function LastReceivedTimestampUs(): int
      reads this
    {
      lastReceivedTimestampUs
    }

    function NextSequenceId(): int
      reads this
    {
      nextSequenceId
    }
  }

  /** Enqueueing 5 and then 3 keeps 5 as the last accepted id and does not
      store item 3. */
  method OlderIdIsDropped() returns (last: int, stored: bool)
    ensures last == 5 && !stored
  {
    var b := new JitterBuffer<int>();
    b.Enqueue(5, 1000, 50);
    b.Enqueue(3, 2000, 30);
    last := b.LastSequenceId();
    stored := 3 in b.packets;
  }
}
