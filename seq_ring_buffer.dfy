/** Snapshot-interpolation buffer: 128 slots addressed by the low seven bits
    of a 16-bit sequence number, a live range [oldest, newest], an adaptive
    playout delay, and a query that brackets a render time between two
    buffered snapshots. */
module SeqRingBuffer {
  import opened Common
  import opened Sequence

  const BUFFER_SIZE: nat := 128
  const MAX_DELAY_US: int := 150_000
  const MIN_DELAY_US: int := 33_000

  datatype BufferEntry<T> = BufferEntry(arrivalUs: int, value: T)

  type Slots<T> = seq<Option<BufferEntry<T>>>

  /** The buffer's fields as one value; `count` is the `usize` counter. */
  datatype RingState<T> = RingState(slots: Slots<T>, oldest: u16, newest: u16, count: int, delayUs: int)

  /** What `get_interpolation_pair` hands out. The f64 `alpha` is the exact
      fraction `alphaNum / alphaDen`; `extrapolationUs` is kept in
      microseconds (the source divides it by 10^6). */
  datatype InterpolationPair<T> = InterpolationPair(
    from: Option<T>, to: Option<T>,
    alphaNum: int, alphaDen: int,
    extrapolationUs: int, isValid: bool)

  /** Slot of a sequence number: `seq & mask`, for the power-of-two size
      the low seven bits, that is `seq mod 128`. */
  function Slot(p: u16): (i: nat)
    ensures i < BUFFER_SIZE
  {
    p % BUFFER_SIZE
  }

  /** Number of occupied slots. */
  function Occupied<T>(s: Slots<T>): (n: nat)
    ensures n <= |s|
  {
    if s == [] then 0 else (if s[0].Some? then 1 else 0) + Occupied(s[1..])
  }

  lemma {:induction false} OccupiedUpdate<T>(s: Slots<T>, i: nat, v: Option<BufferEntry<T>>)
    requires i < |s|
    ensures Occupied(s[i := v]) == Occupied(s) - (if s[i].Some? then 1 else 0) + (if v.Some? then 1 else 0)
  {
    if i == 0 {
      assert s[i := v][1..] == s[1..];
    } else {
      assert s[i := v][1..] == s[1..][i - 1 := v];
      OccupiedUpdate(s[1..], i - 1, v);
    }
  }

  lemma {:induction false} OccupiedNone<T>(s: Slots<T>)
    requires forall i :: 0 <= i < |s| ==> s[i].None?
    ensures Occupied(s) == 0
  {
    if s != [] {
      OccupiedNone(s[1..]);
    }
  }

  lemma {:induction false} OccupiedZero<T>(s: Slots<T>, i: nat)
    requires i < |s| && Occupied(s) == 0
    ensures s[i].None?
  {
    if i > 0 {
      OccupiedZero(s[1..], i - 1);
    }
  }

  predicate DelayInRange(d: int) {
    d == 0 || MIN_DELAY_US <= d <= MAX_DELAY_US
  }

  /** The invariant the buffer keeps: 128 slots, `count` equal to the number
      of occupied ones, and a delay that is unset or within [33 ms, 150 ms]. */
  predicate ValidState<T>(st: RingState<T>) {
    |st.slots| == BUFFER_SIZE && st.count == Occupied(st.slots) && DelayInRange(st.delayUs)
  }

  /** The freshly initialised buffer. */
  function EmptyState<T>(): (st: RingState<T>)
    ensures ValidState(st) && st.count == 0
  {
    var s := seq(BUFFER_SIZE, _ => None);
    OccupiedNone(s);
    RingState(s, U16_MAX, U16_MAX, 0, 0)
  }

  // ---------------------------------------------------------------------
  // Specification of `insert`.

  /** The `insert` window: once anything is buffered, an id more than 128
      behind `newest` (as `seq_diff` sees it) is refused. */
  predicate InWindow<T>(st: RingState<T>, id: u16) {
    !(st.count > 0 && SeqDiff(st.newest, id) > BUFFER_SIZE)
  }

  function ArrivalAt<T>(s: Slots<T>, p: u16): Option<int>
    requires |s| == BUFFER_SIZE
  {
    match s[Slot(p)]
    case Some(e) => Some(e.arrivalUs)
    case None => None
  }

  /** The adaptive delay: a positive gap between consecutive front arrivals,
      clamped to [33 ms, 150 ms]; otherwise the old delay. */
  function AdaptDelay(delayUs: int, prevArrivalUs: Option<int>, arrivalUs: int): (r: int)
    ensures DelayInRange(delayUs) ==> DelayInRange(r)
    ensures r != delayUs ==> prevArrivalUs.Some? && arrivalUs > prevArrivalUs.value
    ensures prevArrivalUs.Some? && arrivalUs > prevArrivalUs.value ==>
      r == Clamp(arrivalUs - prevArrivalUs.value, MIN_DELAY_US, MAX_DELAY_US)
  {
    if prevArrivalUs.Some? && arrivalUs - prevArrivalUs.value > 0 then
      Clamp(arrivalUs - prevArrivalUs.value, MIN_DELAY_US, MAX_DELAY_US)
    else
      delayUs
  }

  /** `insert(sequence_id, arrival, _, value)`: whether it was accepted and
      the new state. */
  function Inserted<T>(st: RingState<T>, sequenceId: int, arrivalUs: int, value: T): (r: (bool, RingState<T>))
    requires |st.slots| == BUFFER_SIZE
    ensures |r.1.slots| == BUFFER_SIZE
  {
    if !IsU16(sequenceId) || !InWindow(st, sequenceId) then (false, st)
    else
      var index := Slot(sequenceId);
      var extendsFront := st.count == 0 || SeqIsNewer(sequenceId, st.newest);
      var prev := if st.count > 0 && extendsFront then ArrivalAt(st.slots, st.newest) else None;
      var slots := st.slots[index := Some(BufferEntry(arrivalUs, value))];
      var count := if st.slots[index].None? then st.count + 1 else st.count;
      if count == 1 then
        (true, RingState(slots, sequenceId, sequenceId, count, st.delayUs))
      else if extendsFront then
        (true, RingState(slots, st.oldest, sequenceId, count, AdaptDelay(st.delayUs, prev, arrivalUs)))
      else if SeqIsNewer(st.oldest, sequenceId) then
        (true, RingState(slots, sequenceId, st.newest, count, st.delayUs))
      else
        (true, RingState(slots, st.oldest, st.newest, count, st.delayUs))
  }

  /** `insert` accepts exactly the representable ids inside the window, and
      a refused call changes nothing. */
  lemma InsertAcceptsWindow<T>(st: RingState<T>, sequenceId: int, arrivalUs: int, value: T)
    requires ValidState(st)
    ensures var (ok, st') := Inserted(st, sequenceId, arrivalUs, value);
      && (ok <==> IsU16(sequenceId) && InWindow(st, sequenceId))
      && (!ok ==> st' == st)
  {
  }

  /** An accepted insert stores the entry in its slot and leaves every other
      slot alone; the buffer invariant is kept. */
  lemma InsertStoresEntry<T>(st: RingState<T>, sequenceId: int, arrivalUs: int, value: T)
    requires ValidState(st)
    ensures var (ok, st') := Inserted(st, sequenceId, arrivalUs, value);
      && ValidState(st')
      && (ok ==> IsU16(sequenceId)
                 && st'.slots == st.slots[Slot(sequenceId) := Some(BufferEntry(arrivalUs, value))]
                 && st'.count == st.count + (if st.slots[Slot(sequenceId)].None? then 1 else 0))
  {
    if IsU16(sequenceId) && InWindow(st, sequenceId) {
      var index := Slot(sequenceId);
      OccupiedUpdate(st.slots, index, Some(BufferEntry(arrivalUs, value)));
    }
  }

  /** How the live range moves: an insert that leaves exactly one entry
      (the first one, or an overwrite of the only one) sets both ends to
      its id, even backwards; an id newer
      than `newest` becomes `newest`; an id older than `oldest` becomes
      `oldest`; anything else leaves both ends in place. */
  lemma InsertMovesEnds<T>(st: RingState<T>, sequenceId: int, arrivalUs: int, value: T)
    requires ValidState(st) && IsU16(sequenceId) && InWindow(st, sequenceId)
    ensures var (_, st') := Inserted(st, sequenceId, arrivalUs, value);
      && (st.count == 0 ==> st'.oldest == sequenceId && st'.newest == sequenceId && st'.count == 1)
      && (st'.count == 1 ==> st'.oldest == sequenceId && st'.newest == sequenceId)
      && (st'.count > 1 && SeqIsNewer(sequenceId, st.newest) ==> st'.oldest == st.oldest && st'.newest == sequenceId)
      && (st'.count > 1 && !SeqIsNewer(sequenceId, st.newest) && SeqIsNewer(st.oldest, sequenceId) ==>
            st'.oldest == sequenceId && st'.newest == st.newest)
      && (st'.count > 1 && !SeqIsNewer(sequenceId, st.newest) && !SeqIsNewer(st.oldest, sequenceId) ==>
            st'.oldest == st.oldest && st'.newest == st.newest)
  {
    if st.count == 0 {
      OccupiedZero(st.slots, Slot(sequenceId));
    }
  }

  /** The delay changes only when an id extends the front, the previous
      front entry is present and arrived strictly earlier; it then becomes
      that arrival gap clamped to [33 ms, 150 ms]. Conversely every such
      insert that leaves more than one entry sets the delay to that gap. */
  lemma InsertAdaptsDelayOnFrontGrowth<T>(st: RingState<T>, sequenceId: int, arrivalUs: int, value: T)
    requires ValidState(st)
    ensures var (ok, st') := Inserted(st, sequenceId, arrivalUs, value);
      st'.delayUs != st.delayUs ==>
        && ok && IsU16(sequenceId) && st.count > 0 && SeqIsNewer(sequenceId, st.newest)
        && ArrivalAt(st.slots, st.newest).Some?
        && arrivalUs > ArrivalAt(st.slots, st.newest).value
        && st'.delayUs == Clamp(arrivalUs - ArrivalAt(st.slots, st.newest).value, MIN_DELAY_US, MAX_DELAY_US)
    ensures var (_, st') := Inserted(st, sequenceId, arrivalUs, value);
      IsU16(sequenceId) && st.count > 0 && SeqIsNewer(sequenceId, st.newest)
      && ArrivalAt(st.slots, st.newest).Some? && arrivalUs > ArrivalAt(st.slots, st.newest).value
      && st'.count > 1 ==>
        st'.delayUs == Clamp(arrivalUs - ArrivalAt(st.slots, st.newest).value, MIN_DELAY_US, MAX_DELAY_US)
  {
    if IsU16(sequenceId) && st.count > 0 && SeqIsNewer(sequenceId, st.newest) {
      NewerIdsAreInWindow(st, sequenceId);
    }
  }

  /** Ids newer than `newest` are never refused by the window. */
  lemma NewerIdsAreInWindow<T>(st: RingState<T>, id: u16)
    requires SeqIsNewer(id, st.newest)
    ensures InWindow(st, id)
  {
    SeqDiffAntisymmetric(id, st.newest);
  }

  /** The window admits the id exactly 128 behind `newest`, and that id
      shares `newest`'s slot: inserting it overwrites the newest entry with
      an older one while `newest` keeps pointing at the slot. */
  lemma WindowEdgeSharesNewestSlot<T>(st: RingState<T>, id: u16)
    requires st.count > 0 && Add(id, BUFFER_SIZE) == st.newest
    ensures InWindow(st, id) && id != st.newest && Slot(id) == Slot(st.newest)
  {
    SeqDiffOfAdd(id, BUFFER_SIZE);
  }

  // ---------------------------------------------------------------------
  // The bounded forward walk shared by `prune_up_to`, `get_starting_at` and
  // the bracketing scan: from `base` up to and including `end`, but never
  // more than 129 positions (it stops once `seq_diff` from `base` exceeds
  // 128).

  function WalkLen(base: u16, end: u16): (n: nat)
    ensures 1 <= n <= BUFFER_SIZE + 1
  {
    Min(Dist(base, end), BUFFER_SIZE) + 1
  }

  /** One step of the walk: it ends after offset `k` exactly when position
      `k` is `end` or the next position is more than 128 ahead of `base`. */
  lemma WalkStep(base: u16, end: u16, k: nat)
    requires k < WalkLen(base, end)
    ensures Add(base, k) == end ==> k + 1 == WalkLen(base, end)
    ensures Add(base, k) != end ==>
      Add(base, k + 1) == Inc(Add(base, k))
      && (SeqDiff(Add(base, k + 1), base) > BUFFER_SIZE <==> k + 1 == WalkLen(base, end))
  {
    AddReaches(base, end, k);
    AddSucc(base, k);
    SeqDiffOfAdd(base, k + 1);
  }

  /** `prune_up_to`'s walk from offset `k`: clears every occupied slot whose
      position is not newer than `upTo`; returns the slots and the running
      number of removals. */
  function PruneWalk<T>(s: Slots<T>, base: u16, k: nat, steps: nat, upTo: u16, pruned: nat): (r: (Slots<T>, nat))
    requires |s| == BUFFER_SIZE && k <= steps <= BUFFER_SIZE + 1
    ensures |r.0| == BUFFER_SIZE
    decreases steps - k
  {
    if k == steps then (s, pruned)
    else
      var p := Add(base, k);
      if s[Slot(p)].Some? && !SeqIsNewer(p, upTo) then
        PruneWalk(s[Slot(p) := None], base, k + 1, steps, upTo, pruned + 1)
      else
        PruneWalk(s, base, k + 1, steps, upTo, pruned)
  }

  /** Slot `i` is reached by the walk at a position not newer than `upTo`. */
  predicate StaleOnWalk(base: u16, k: nat, steps: nat, upTo: u16, i: nat)
    requires steps <= BUFFER_SIZE + 1
  {
    exists j :: k <= j < steps && Slot(Add(base, j)) == i && !SeqIsNewer(Add(base, j), upTo)
  }

  /** Every removal is counted: occupied slots plus removals is constant. */
  lemma {:induction false} PruneWalkCounts<T>(s: Slots<T>, base: u16, k: nat, steps: nat, upTo: u16, pruned: nat)
    requires |s| == BUFFER_SIZE && k <= steps <= BUFFER_SIZE + 1
    ensures var r := PruneWalk(s, base, k, steps, upTo, pruned);
      Occupied(r.0) + r.1 == Occupied(s) + pruned && pruned <= r.1 <= pruned + (steps - k)
    decreases steps - k
  {
    if k < steps {
      var p := Add(base, k);
      if s[Slot(p)].Some? && !SeqIsNewer(p, upTo) {
        OccupiedUpdate(s, Slot(p), None);
        PruneWalkCounts(s[Slot(p) := None], base, k + 1, steps, upTo, pruned + 1);
      } else {
        PruneWalkCounts(s, base, k + 1, steps, upTo, pruned);
      }
    }
  }

  /** The walk only empties slots, and only slots it reaches at a position
      that is not newer than `upTo`. */
  lemma {:induction false} PruneWalkClearsOnlyStale<T>(s: Slots<T>, base: u16, k: nat, steps: nat, upTo: u16, pruned: nat)
    requires |s| == BUFFER_SIZE && k <= steps <= BUFFER_SIZE + 1
    ensures var r := PruneWalk(s, base, k, steps, upTo, pruned);
      forall i :: 0 <= i < BUFFER_SIZE && r.0[i] != s[i] ==>
        s[i].Some? && r.0[i].None? && StaleOnWalk(base, k, steps, upTo, i)
    decreases steps - k
  {
    if k < steps {
      var p := Add(base, k);
      var r := PruneWalk(s, base, k, steps, upTo, pruned);
      if s[Slot(p)].Some? && !SeqIsNewer(p, upTo) {
        var s1 := s[Slot(p) := None];
        PruneWalkClearsOnlyStale(s1, base, k + 1, steps, upTo, pruned + 1);
        forall i | 0 <= i < BUFFER_SIZE && r.0[i] != s[i]
          ensures s[i].Some? && r.0[i].None? && StaleOnWalk(base, k, steps, upTo, i)
        {
          if i == Slot(p) {
            assert r.0[i] == s1[i];
            assert Slot(Add(base, k)) == i && !SeqIsNewer(Add(base, k), upTo);
          } else {
            assert r.0[i] != s1[i];
            var j :| k + 1 <= j < steps && Slot(Add(base, j)) == i && !SeqIsNewer(Add(base, j), upTo);
          }
        }
      } else {
        PruneWalkClearsOnlyStale(s, base, k + 1, steps, upTo, pruned);
        forall i | 0 <= i < BUFFER_SIZE && r.0[i] != s[i]
          ensures StaleOnWalk(base, k, steps, upTo, i)
        {
          var j :| k + 1 <= j < steps && Slot(Add(base, j)) == i && !SeqIsNewer(Add(base, j), upTo);
        }
      }
    }
  }

  /** Every position the walk reaches that is not newer than `upTo` has an
      empty slot afterwards. */
  lemma {:induction false} PruneWalkClearsAllStale<T>(s: Slots<T>, base: u16, k: nat, steps: nat, upTo: u16, pruned: nat)
    requires |s| == BUFFER_SIZE && k <= steps <= BUFFER_SIZE + 1
    ensures var r := PruneWalk(s, base, k, steps, upTo, pruned);
      forall j :: k <= j < steps && !SeqIsNewer(Add(base, j), upTo) ==> r.0[Slot(Add(base, j))].None?
    decreases steps - k
  {
    if k < steps {
      var p := Add(base, k);
      var s1 := if s[Slot(p)].Some? && !SeqIsNewer(p, upTo) then s[Slot(p) := None] else s;
      var pr := if s[Slot(p)].Some? && !SeqIsNewer(p, upTo) then pruned + 1 else pruned;
      PruneWalkClearsAllStale(s1, base, k + 1, steps, upTo, pr);
      PruneWalkClearsOnlyStale(s1, base, k + 1, steps, upTo, pr);
      var r := PruneWalk(s1, base, k + 1, steps, upTo, pr);
      if !SeqIsNewer(p, upTo) {
        assert s1[Slot(p)].None?;
        assert r.0[Slot(p)] == s1[Slot(p)];
      }
    }
  }

  /** `prune_up_to(sequence_id)`: the number removed and the new state. */
  function Pruned<T>(st: RingState<T>, sequenceId: int): (r: (int, RingState<T>))
    requires |st.slots| == BUFFER_SIZE
    ensures |r.1.slots| == BUFFER_SIZE
  {
    if !IsU16(sequenceId) then (0, st)
    else
      var w := PruneWalk(st.slots, st.oldest, 0, WalkLen(st.oldest, st.newest), sequenceId, 0);
      (w.1, st.(slots := w.0, count := st.count - w.1))
  }

  /** Pruning keeps the invariant and the live range, removes no more than
      the entries present, and `count` drops by exactly the number it
      reports. An out-of-range id prunes nothing. */
  lemma PruneKeepsInvariant<T>(st: RingState<T>, sequenceId: int)
    requires ValidState(st)
    ensures var (n, st') := Pruned(st, sequenceId);
      && ValidState(st')
      && 0 <= n <= st.count
      && st'.count == st.count - n
      && st'.oldest == st.oldest && st'.newest == st.newest && st'.delayUs == st.delayUs
      && (!IsU16(sequenceId) ==> n == 0 && st' == st)
  {
    if IsU16(sequenceId) {
      PruneWalkCounts(st.slots, st.oldest, 0, WalkLen(st.oldest, st.newest), sequenceId, 0);
    }
  }

  /** Pruning empties exactly the stale part of the walk from `oldest`: every
      slot it reaches at a position not newer than the id is empty
      afterwards, and no other slot changes. */
  lemma PruneRemovesExactlyStale<T>(st: RingState<T>, sequenceId: int)
    requires ValidState(st) && IsU16(sequenceId)
    ensures var (_, st') := Pruned(st, sequenceId);
      var steps := WalkLen(st.oldest, st.newest);
      && (forall j :: 0 <= j < steps && !SeqIsNewer(Add(st.oldest, j), sequenceId) ==>
            st'.slots[Slot(Add(st.oldest, j))].None?)
      && (forall i :: 0 <= i < BUFFER_SIZE && st'.slots[i] != st.slots[i] ==>
            st.slots[i].Some? && st'.slots[i].None? && StaleOnWalk(st.oldest, 0, steps, sequenceId, i))
  {
    var steps := WalkLen(st.oldest, st.newest);
    PruneWalkClearsAllStale(st.slots, st.oldest, 0, steps, sequenceId, 0);
    PruneWalkClearsOnlyStale(st.slots, st.oldest, 0, steps, sequenceId, 0);
  }

  // ---------------------------------------------------------------------
  // Specification of `get_starting_at`.

  /** The walk from offset `k` appending every present value to `acc`. */
  function CollectWalk<T>(s: Slots<T>, base: u16, k: nat, steps: nat, acc: seq<T>): (r: seq<T>)
    requires |s| == BUFFER_SIZE && k <= steps <= BUFFER_SIZE + 1
    decreases steps - k
  {
    if k == steps then acc
    else match s[Slot(Add(base, k))]
      case Some(e) => CollectWalk(s, base, k + 1, steps, acc + [e.value])
      case None => CollectWalk(s, base, k + 1, steps, acc)
  }

  /** The values present on the walk from `base`, in walk order. */
  ghost predicate PresentOnWalk<T>(s: Slots<T>, base: u16, k: nat, steps: nat, v: T)
    requires |s| == BUFFER_SIZE && steps <= BUFFER_SIZE + 1
  {
    exists j :: k <= j < steps && s[Slot(Add(base, j))].Some? && s[Slot(Add(base, j))].value.value == v
  }

  /** The walk keeps what was collected, adds at most one value per
      position, and every value it adds is present on a walked position. */
  lemma {:induction false} CollectWalkTakesPresentValues<T>(s: Slots<T>, base: u16, k: nat, steps: nat, acc: seq<T>)
    requires |s| == BUFFER_SIZE && k <= steps <= BUFFER_SIZE + 1
    ensures var r := CollectWalk(s, base, k, steps, acc);
      && |acc| <= |r| <= |acc| + (steps - k)
      && r[..|acc|] == acc
      && (forall t :: |acc| <= t < |r| ==> PresentOnWalk(s, base, k, steps, r[t]))
    decreases steps - k
  {
    if k < steps {
      var r := CollectWalk(s, base, k, steps, acc);
      match s[Slot(Add(base, k))]
      case Some(e) =>
        var acc1 := acc + [e.value];
        assert r == CollectWalk(s, base, k + 1, steps, acc1);
        CollectWalkTakesPresentValues(s, base, k + 1, steps, acc1);
        assert r[..|acc1|] == acc1;
        assert r[..|acc|] == acc1[..|acc|] == acc;
        forall t | |acc| <= t < |r|
          ensures PresentOnWalk(s, base, k, steps, r[t])
        {
          if t == |acc| {
            assert r[t] == acc1[t] == e.value;
            assert s[Slot(Add(base, k))].value.value == r[t];
          } else {
            assert |acc1| <= t;
            PresentOnWalkWidens(s, base, k, steps, r[t]);
          }
        }
      case None =>
        assert r == CollectWalk(s, base, k + 1, steps, acc);
        CollectWalkTakesPresentValues(s, base, k + 1, steps, acc);
        forall t | |acc| <= t < |r|
          ensures PresentOnWalk(s, base, k, steps, r[t])
        {
          PresentOnWalkWidens(s, base, k, steps, r[t]);
        }
    }
  }

  /** A value present from offset `k + 1` on is present from `k` on. */
  lemma PresentOnWalkWidens<T>(s: Slots<T>, base: u16, k: nat, steps: nat, v: T)
    requires |s| == BUFFER_SIZE && steps <= BUFFER_SIZE + 1
    requires PresentOnWalk(s, base, k + 1, steps, v)
    ensures PresentOnWalk(s, base, k, steps, v)
  {
    var j :| k + 1 <= j < steps && s[Slot(Add(base, j))].Some? && s[Slot(Add(base, j))].value.value == v;
    assert k <= j;
  }

  /** A walk over empty slots collects nothing. */
  lemma {:induction false} CollectWalkOverEmpty<T>(s: Slots<T>, base: u16, k: nat, steps: nat, acc: seq<T>)
    requires |s| == BUFFER_SIZE && k <= steps <= BUFFER_SIZE + 1
    requires forall i :: 0 <= i < |s| ==> s[i].None?
    ensures CollectWalk(s, base, k, steps, acc) == acc
    decreases steps - k
  {
    if k < steps {
      CollectWalkOverEmpty(s, base, k + 1, steps, acc);
    }
  }

  /** `offs` lists in increasing order exactly the walk offsets in
      [k, steps) whose slots are occupied, and `vals` holds their values. */
  ghost predicate ListsOccupied<T>(s: Slots<T>, base: u16, k: nat, steps: nat, offs: seq<nat>, vals: seq<T>)
    requires |s| == BUFFER_SIZE && steps <= BUFFER_SIZE + 1
  {
    && |offs| == |vals|
    && (forall t :: 0 <= t < |offs| ==>
          k <= offs[t] < steps && s[Slot(Add(base, offs[t]))].Some? && s[Slot(Add(base, offs[t]))].value.value == vals[t])
    && (forall t, u :: 0 <= t < u < |offs| ==> offs[t] < offs[u])
    && (forall j :: k <= j < steps && s[Slot(Add(base, j))].Some? ==> j in offs)
  }

  /** An occupied position in front of a listing extends it. */
  lemma ListsOccupiedTake<T>(s: Slots<T>, base: u16, k: nat, steps: nat, offs: seq<nat>, vals: seq<T>)
    requires |s| == BUFFER_SIZE && k < steps <= BUFFER_SIZE + 1
    requires s[Slot(Add(base, k))].Some? && ListsOccupied(s, base, k + 1, steps, offs, vals)
    ensures ListsOccupied(s, base, k, steps, [k] + offs, [s[Slot(Add(base, k))].value.value] + vals)
  {
    var offs' := [k] + offs;
    forall j | k <= j < steps && s[Slot(Add(base, j))].Some?
      ensures j in offs'
    {
      if j > k {
        assert j in offs;
      }
    }
  }

  /** An empty position in front of a listing leaves it unchanged. */
  lemma ListsOccupiedSkip<T>(s: Slots<T>, base: u16, k: nat, steps: nat, offs: seq<nat>, vals: seq<T>)
    requires |s| == BUFFER_SIZE && k < steps <= BUFFER_SIZE + 1
    requires s[Slot(Add(base, k))].None? && ListsOccupied(s, base, k + 1, steps, offs, vals)
    ensures ListsOccupied(s, base, k, steps, offs, vals)
  {
  }

  /** What the walk appends is every occupied position's value, in walk
      order, each exactly once. */
  lemma {:induction false} CollectWalkListsOccupied<T>(s: Slots<T>, base: u16, k: nat, steps: nat, acc: seq<T>)
    returns (offs: seq<nat>)
    requires |s| == BUFFER_SIZE && k <= steps <= BUFFER_SIZE + 1
    ensures var r := CollectWalk(s, base, k, steps, acc);
      |acc| <= |r| && r[..|acc|] == acc && ListsOccupied(s, base, k, steps, offs, r[|acc|..])
    decreases steps - k
  {
    var r := CollectWalk(s, base, k, steps, acc);
    if k == steps {
      offs := [];
    } else {
      match s[Slot(Add(base, k))]
      case Some(e) =>
        var acc1 := acc + [e.value];
        assert r == CollectWalk(s, base, k + 1, steps, acc1);
        var rest := CollectWalkListsOccupied(s, base, k + 1, steps, acc1);
        ListsOccupiedTake(s, base, k, steps, rest, r[|acc1|..]);
        offs := [k] + rest;
        SplitAfterPush(acc, e.value, r);
      case None =>
        assert r == CollectWalk(s, base, k + 1, steps, acc);
        offs := CollectWalkListsOccupied(s, base, k + 1, steps, acc);
        ListsOccupiedSkip(s, base, k, steps, offs, r[|acc|..]);
    }
  }

  /** Sequence bookkeeping for one appended value. */
  lemma SplitAfterPush<T>(acc: seq<T>, v: T, r: seq<T>)
    requires |acc| + 1 <= |r| && r[..|acc| + 1] == acc + [v]
    ensures r[..|acc|] == acc && r[|acc|..] == [v] + r[|acc| + 1..]
  {
    assert r[..|acc|] == (acc + [v])[..|acc|];
  }

  /** `get_starting_at(sequence_id)`. */
  function StartingAt<T>(st: RingState<T>, sequenceId: int): seq<T>
    requires |st.slots| == BUFFER_SIZE
  {
    if !IsU16(sequenceId) then []
    else CollectWalk(st.slots, sequenceId, 0, WalkLen(sequenceId, st.newest), [])
  }

  /** The result is exactly the values of the occupied positions on the
      walk from the start id, in walk order (at most 129 of them); it
      begins with the start slot's value when that slot is occupied; it is
      empty for an out-of-range id or an empty buffer. */
  lemma StartingAtCollectsWalk<T>(st: RingState<T>, sequenceId: int)
    requires ValidState(st)
    ensures var r := StartingAt(st, sequenceId);
      && |r| <= BUFFER_SIZE + 1
      && (!IsU16(sequenceId) || st.count == 0 ==> r == [])
      && (IsU16(sequenceId) ==>
            && |r| <= WalkLen(sequenceId, st.newest)
            && (forall t :: 0 <= t < |r| ==> PresentOnWalk(st.slots, sequenceId, 0, WalkLen(sequenceId, st.newest), r[t]))
            && (st.slots[Slot(sequenceId)].Some? ==> |r| > 0 && r[0] == st.slots[Slot(sequenceId)].value.value)
            && (exists offs :: ListsOccupied(st.slots, sequenceId, 0, WalkLen(sequenceId, st.newest), offs, r)))
  {
    if IsU16(sequenceId) {
      var steps := WalkLen(sequenceId, st.newest);
      var offs := CollectWalkListsOccupied(st.slots, sequenceId, 0, steps, []);
      assert StartingAt(st, sequenceId)[0..] == StartingAt(st, sequenceId);
      CollectWalkTakesPresentValues(st.slots, sequenceId, 0, steps, []);
      var e := st.slots[Slot(sequenceId)];
      if e.Some? {
        assert Add(sequenceId, 0) == sequenceId;
        var empty: seq<T> := [];
        assert empty + [e.value.value] == [e.value.value];
        assert StartingAt(st, sequenceId) == CollectWalk(st.slots, sequenceId, 1, steps, [e.value.value]);
        CollectWalkTakesPresentValues(st.slots, sequenceId, 1, steps, [e.value.value]);
      }
      if st.count == 0 {
        forall i | 0 <= i < BUFFER_SIZE ensures st.slots[i].None? {
          OccupiedZero(st.slots, i);
        }
        CollectWalkOverEmpty(st.slots, sequenceId, 0, steps, []);
      }
    }
  }

  // ---------------------------------------------------------------------
  // Specification of `get_interpolation_pair`: catch-up, then selection.

  /** The first offset in [j, d] whose slot is occupied, searching forward
      from `base`. */
  function FirstOccupied<T>(s: Slots<T>, base: u16, j: nat, d: nat): (r: Option<nat>)
    requires |s| == BUFFER_SIZE && j <= d + 1 && d < SEQUENCE_MODULO
    ensures r.Some? ==> j <= r.value <= d && s[Slot(Add(base, r.value))].Some?
    ensures r.Some? ==> forall i :: j <= i < r.value ==> s[Slot(Add(base, i))].None?
    ensures r.None? ==> forall i :: j <= i <= d ==> s[Slot(Add(base, i))].None?
    decreases d + 1 - j
  {
    if j > d then None
    else if s[Slot(Add(base, j))].Some? then Some(j)
    else FirstOccupied(s, base, j + 1, d)
  }

  /** The catch-up loop: while at least three entries remain and the next
      occupied position after `oldest` arrived before the target time, the
      oldest slot is emptied and `oldest` moves to that position. */
  function CaughtUp<T>(st: RingState<T>, targetUs: int): (r: RingState<T>)
    requires |st.slots| == BUFFER_SIZE
    ensures |r.slots| == BUFFER_SIZE && r.newest == st.newest && r.delayUs == st.delayUs
    decreases Dist(st.oldest, st.newest)
  {
    if st.count < 3 then st
    else match FirstOccupied(st.slots, st.oldest, 1, Dist(st.oldest, st.newest))
      case None => st
      case Some(j) =>
        var next := Add(st.oldest, j);
        if targetUs > st.slots[Slot(next)].value.arrivalUs then
          DistAfterAdd(st.oldest, st.newest, j);
          CaughtUp(DropOldest(st, next), targetUs)
        else st
  }

  /** One catch-up step: the oldest slot is emptied (if occupied) and
      `oldest` moves to `next`. */
  function DropOldest<T>(st: RingState<T>, next: u16): (r: RingState<T>)
    requires |st.slots| == BUFFER_SIZE
    ensures |r.slots| == BUFFER_SIZE && r.oldest == next && r.newest == st.newest && r.delayUs == st.delayUs
  {
    var oldIndex := Slot(st.oldest);
    if st.slots[oldIndex].Some? then
      RingState(st.slots[oldIndex := None], next, st.newest, st.count - 1, st.delayUs)
    else
      st.(oldest := next)
  }

  /** One step keeps the invariant, empties exactly the slot of the old
      `oldest` (one entry fewer exactly when it was occupied), and moves
      `oldest` `j` positions along the live range. */
  lemma DropOldestKeepsInvariant<T>(st: RingState<T>, j: nat)
    requires ValidState(st) && 1 <= j <= Dist(st.oldest, st.newest)
    ensures var r := DropOldest(st, Add(st.oldest, j));
      && ValidState(r)
      && r.slots == st.slots[Slot(st.oldest) := None]
      && r.count == st.count - (if st.slots[Slot(st.oldest)].Some? then 1 else 0)
      && Dist(st.oldest, r.oldest) == j
      && Dist(r.oldest, st.newest) == Dist(st.oldest, st.newest) - j
  {
    var oldIndex := Slot(st.oldest);
    if st.slots[oldIndex].Some? {
      OccupiedUpdate(st.slots, oldIndex, None);
    }
    DistAfterAdd(st.oldest, st.newest, j);
    AddReaches(st.oldest, Add(st.oldest, j), j);
  }

  /** Where the catch-up loop stops: fewer than three entries, nothing
      after `oldest`, or the next entry is not yet due. */
  predicate Settled<T>(st: RingState<T>, targetUs: int)
    requires |st.slots| == BUFFER_SIZE
  {
    st.count < 3 ||
    match FirstOccupied(st.slots, st.oldest, 1, Dist(st.oldest, st.newest))
    case None => true
    case Some(j) => targetUs <= st.slots[Slot(Add(st.oldest, j))].value.arrivalUs
  }

  /** Catch-up keeps the invariant, never drops below two entries when it
      starts from three or more, only empties slots, moves `oldest` forward
      along the live range without passing `newest`, and stops settled. */
  lemma {:induction false} CatchUpKeepsInvariant<T>(st: RingState<T>, targetUs: int)
    requires ValidState(st)
    ensures var r := CaughtUp(st, targetUs);
      && ValidState(r)
      && r.count <= st.count
      && (st.count >= 3 ==> r.count >= 2)
      && (st.count < 3 ==> r == st)
      && Dist(st.oldest, r.oldest) + Dist(r.oldest, st.newest) == Dist(st.oldest, st.newest)
      && (forall i :: 0 <= i < BUFFER_SIZE && r.slots[i] != st.slots[i] ==> r.slots[i].None?)
      && Settled(r, targetUs)
    decreases Dist(st.oldest, st.newest)
  {
    if st.count >= 3 {
      var d := Dist(st.oldest, st.newest);
      match FirstOccupied(st.slots, st.oldest, 1, d)
      case None =>
      case Some(j) =>
        var next := Add(st.oldest, j);
        if targetUs > st.slots[Slot(next)].value.arrivalUs {
          var st1 := DropOldest(st, next);
          DropOldestKeepsInvariant(st, j);
          CatchUpKeepsInvariant(st1, targetUs);
          DistChain(st.oldest, next, CaughtUp(st1, targetUs).oldest, st.newest);
        }
    }
  }

  /** Slot `i` is among those of the first `n` ids walked from `base`. */
  ghost predicate Passed(base: u16, n: nat, i: nat)
    requires n <= SEQUENCE_MODULO
  {
    exists j :: 0 <= j < n && Slot(Add(base, j)) == i
  }

  /** Catch-up empties exactly the slots of the ids it moves `oldest` past
      (from the old `oldest` up to, not including, the new one); every
      other slot keeps its content. */
  lemma {:induction false} CatchUpEmptiesPassedSlots<T>(st: RingState<T>, targetUs: int)
    requires ValidState(st)
    ensures var r := CaughtUp(st, targetUs);
      && (forall j :: 0 <= j < Dist(st.oldest, r.oldest) ==> r.slots[Slot(Add(st.oldest, j))].None?)
      && (forall i :: 0 <= i < BUFFER_SIZE && !Passed(st.oldest, Dist(st.oldest, r.oldest), i) ==>
            r.slots[i] == st.slots[i])
    decreases Dist(st.oldest, st.newest)
  {
    if st.count >= 3 {
      var d := Dist(st.oldest, st.newest);
      match FirstOccupied(st.slots, st.oldest, 1, d)
      case None =>
      case Some(j0) =>
        var next := Add(st.oldest, j0);
        if targetUs > st.slots[Slot(next)].value.arrivalUs {
          var st1 := DropOldest(st, next);
          DropOldestKeepsInvariant(st, j0);
          CatchUpKeepsInvariant(st1, targetUs);
          CatchUpEmptiesPassedSlots(st1, targetUs);
          var r := CaughtUp(st1, targetUs);
          DistChain(st.oldest, next, r.oldest, st.newest);
          PassedSlotsStep(st.slots, st1.slots, r.slots, st.oldest, j0, Dist(next, r.oldest));
        }
    }
  }

  /** The inductive step of `CatchUpEmptiesPassedSlots` on plain slot
      sequences: `s1` is `s` with the slot of `base` emptied and offsets
      1..j0-1 already empty; `r` empties the first `n1` slots walked from
      `base + j0` and keeps the rest of `s1`. */
  lemma PassedSlotsStep<T>(s: Slots<T>, s1: Slots<T>, r: Slots<T>, base: u16, j0: nat, n1: nat)
    requires |s| == |s1| == |r| == BUFFER_SIZE && 1 <= j0 && j0 + n1 < SEQUENCE_MODULO
    requires s1 == s[Slot(base) := None]
    requires forall i :: 1 <= i < j0 ==> s[Slot(Add(base, i))].None?
    requires forall j :: 0 <= j < n1 ==> r[Slot(Add(Add(base, j0), j))].None?
    requires forall i :: 0 <= i < BUFFER_SIZE && !Passed(Add(base, j0), n1, i) ==> r[i] == s1[i]
    ensures forall j :: 0 <= j < j0 + n1 ==> r[Slot(Add(base, j))].None?
    ensures forall i :: 0 <= i < BUFFER_SIZE && !Passed(base, j0 + n1, i) ==> r[i] == s[i]
  {
    forall j | 0 <= j < j0 + n1
      ensures r[Slot(Add(base, j))].None?
    {
      var i := Slot(Add(base, j));
      if j < j0 {
        assert s1[i].None?;
        if Passed(Add(base, j0), n1, i) {
          var j1 :| 0 <= j1 < n1 && Slot(Add(Add(base, j0), j1)) == i;
        }
      } else {
        assert Add(Add(base, j0), j - j0) == Add(base, j);
      }
    }
    forall i | 0 <= i < BUFFER_SIZE && !Passed(base, j0 + n1, i)
      ensures r[i] == s[i]
    {
      assert Slot(Add(base, 0)) != i;
      forall j1 | 0 <= j1 < n1
        ensures Slot(Add(Add(base, j0), j1)) != i
      {
        assert Add(Add(base, j0), j1) == Add(base, j0 + j1);
      }
    }
  }

  /** The bracketing scan from offset `k`: `from` is the last entry seen
      that arrived by the target, `to` the first that arrived after it
      (which ends the scan). */
  function Scan<T>(s: Slots<T>, base: u16, k: nat, steps: nat, targetUs: int, from: Option<BufferEntry<T>>)
    : (r: (Option<BufferEntry<T>>, Option<BufferEntry<T>>))
    requires |s| == BUFFER_SIZE && k <= steps <= BUFFER_SIZE + 1
    requires from.Some? ==> from.value.arrivalUs <= targetUs
    ensures r.0.Some? ==> r.0.value.arrivalUs <= targetUs
    ensures r.1.Some? ==> targetUs < r.1.value.arrivalUs
    ensures from.Some? ==> r.0.Some?
    decreases steps - k
  {
    if k == steps then (from, None)
    else match s[Slot(Add(base, k))]
      case Some(e) =>
        if e.arrivalUs <= targetUs then Scan(s, base, k + 1, steps, targetUs, Some(e))
        else (from, Some(e))
      case None => Scan(s, base, k + 1, steps, targetUs, from)
  }

  /** Without a late entry the scan has seen only entries that arrived by
      the target time. */
  lemma {:induction false} ScanWithoutLateEntry<T>(s: Slots<T>, base: u16, k: nat, steps: nat, targetUs: int, from: Option<BufferEntry<T>>)
    requires |s| == BUFFER_SIZE && k <= steps <= BUFFER_SIZE + 1
    requires from.Some? ==> from.value.arrivalUs <= targetUs
    requires Scan(s, base, k, steps, targetUs, from).1.None?
    ensures forall j :: k <= j < steps && s[Slot(Add(base, j))].Some? ==>
      s[Slot(Add(base, j))].value.arrivalUs <= targetUs
    decreases steps - k
  {
    if k < steps {
      match s[Slot(Add(base, k))]
      case Some(e) =>
        ScanWithoutLateEntry(s, base, k + 1, steps, targetUs, Some(e));
      case None =>
        ScanWithoutLateEntry(s, base, k + 1, steps, targetUs, from);
    }
  }

  /** Every occupied offset in [k, m) of the walk from `base` arrived by
      the target time. */
  ghost predicate ArrivedBy<T>(s: Slots<T>, base: u16, k: nat, m: nat, targetUs: int)
    requires |s| == BUFFER_SIZE && m <= SEQUENCE_MODULO
  {
    forall i :: k <= i < m && s[Slot(Add(base, i))].Some? ==> s[Slot(Add(base, i))].value.arrivalUs <= targetUs
  }

  /** `last` is the entry at the last occupied offset in [k, m), or `prior`
      when that range holds nothing. */
  ghost predicate LastOccupiedBefore<T>(s: Slots<T>, base: u16, k: nat, m: nat, prior: Option<BufferEntry<T>>, last: Option<BufferEntry<T>>)
    requires |s| == BUFFER_SIZE && m <= SEQUENCE_MODULO
  {
    || (last == prior && forall i :: k <= i < m ==> s[Slot(Add(base, i))].None?)
    || (exists j :: k <= j < m && s[Slot(Add(base, j))].Some? && s[Slot(Add(base, j))] == last &&
          forall i :: j < i < m ==> s[Slot(Add(base, i))].None?)
  }

  /** The scan from offset `k`, started with `prior`, stops at offset `m`
      with result `r`: everything occupied in [k, m) arrived by the target,
      `r.0` is the last such entry (or `prior`), and `r.1` is the entry at
      `m`, present exactly when `m` is before the end of the walk. */
  ghost predicate ScanStopsAt<T>(s: Slots<T>, base: u16, k: nat, m: nat, steps: nat, targetUs: int,
                                 prior: Option<BufferEntry<T>>, r: (Option<BufferEntry<T>>, Option<BufferEntry<T>>))
    requires |s| == BUFFER_SIZE && m <= steps <= BUFFER_SIZE + 1
  {
    && ArrivedBy(s, base, k, m, targetUs)
    && LastOccupiedBefore(s, base, k, m, prior, r.0)
    && (r.1.Some? <==> m < steps)
    && (m < steps ==> s[Slot(Add(base, m))] == r.1)
  }

  /** Stepping back over an on-time entry at `k`: it becomes the last
      occupied entry when nothing later in the range is. */
  lemma ExtendOverOnTime<T>(s: Slots<T>, base: u16, k: nat, m: nat, steps: nat, targetUs: int,
                            e: BufferEntry<T>, prior: Option<BufferEntry<T>>, r: (Option<BufferEntry<T>>, Option<BufferEntry<T>>))
    requires |s| == BUFFER_SIZE && k < m <= steps <= BUFFER_SIZE + 1
    requires s[Slot(Add(base, k))] == Some(e) && e.arrivalUs <= targetUs
    requires ScanStopsAt(s, base, k + 1, m, steps, targetUs, Some(e), r)
    ensures ScanStopsAt(s, base, k, m, steps, targetUs, prior, r)
  {
    if r.0 == Some(e) && forall i :: k + 1 <= i < m ==> s[Slot(Add(base, i))].None? {
      assert k <= k < m && s[Slot(Add(base, k))].Some? && s[Slot(Add(base, k))] == r.0;
    } else {
      var j :| k + 1 <= j < m && s[Slot(Add(base, j))].Some? && s[Slot(Add(base, j))] == r.0 &&
        forall i :: j < i < m ==> s[Slot(Add(base, i))].None?;
      assert k <= j < m;
    }
  }

  /** Stepping back over an empty slot at `k` changes nothing. */
  lemma ExtendOverEmpty<T>(s: Slots<T>, base: u16, k: nat, m: nat, steps: nat, targetUs: int,
                           prior: Option<BufferEntry<T>>, r: (Option<BufferEntry<T>>, Option<BufferEntry<T>>))
    requires |s| == BUFFER_SIZE && k < m <= steps <= BUFFER_SIZE + 1
    requires s[Slot(Add(base, k))].None?
    requires ScanStopsAt(s, base, k + 1, m, steps, targetUs, prior, r)
    ensures ScanStopsAt(s, base, k, m, steps, targetUs, prior, r)
  {
    if !(r.0 == prior && forall i :: k + 1 <= i < m ==> s[Slot(Add(base, i))].None?) {
      var j :| k + 1 <= j < m && s[Slot(Add(base, j))].Some? && s[Slot(Add(base, j))] == r.0 &&
        forall i :: j < i < m ==> s[Slot(Add(base, i))].None?;
      assert k <= j < m;
    }
  }

  /** The scan from offset `k` stops at some offset `m` as `ScanStopsAt`
      describes: at the first entry that arrived after the target, or at
      the end of the walk. */
  lemma {:induction false} ScanStopsAtFirstLate<T>(s: Slots<T>, base: u16, k: nat, steps: nat, targetUs: int, from: Option<BufferEntry<T>>)
    requires |s| == BUFFER_SIZE && k <= steps <= BUFFER_SIZE + 1
    requires from.Some? ==> from.value.arrivalUs <= targetUs
    ensures exists m :: k <= m <= steps && ScanStopsAt(s, base, k, m, steps, targetUs, from, Scan(s, base, k, steps, targetUs, from))
    decreases steps - k
  {
    var r := Scan(s, base, k, steps, targetUs, from);
    if k == steps {
      assert ScanStopsAt(s, base, k, k, steps, targetUs, from, r);
    } else {
      match s[Slot(Add(base, k))]
      case Some(e) =>
        if e.arrivalUs <= targetUs {
          ScanStopsAtFirstLate(s, base, k + 1, steps, targetUs, Some(e));
          var m :| k + 1 <= m <= steps && ScanStopsAt(s, base, k + 1, m, steps, targetUs, Some(e), r);
          ExtendOverOnTime(s, base, k, m, steps, targetUs, e, from, r);
        } else {
          assert ScanStopsAt(s, base, k, k, steps, targetUs, from, r);
        }
      case None =>
        ScanStopsAtFirstLate(s, base, k + 1, steps, targetUs, from);
        var m :| k + 1 <= m <= steps && ScanStopsAt(s, base, k + 1, m, steps, targetUs, from, r);
        ExtendOverEmpty(s, base, k, m, steps, targetUs, from, r);
    }
  }

  function InvalidPair<T>(): InterpolationPair<T> {
    InterpolationPair(None, None, 0, 1, 0, false)
  }

  function FromOnly<T>(v: T): InterpolationPair<T> {
    InterpolationPair(Some(v), None, 0, 1, 0, true)
  }

  /** Two bracketing entries: the span is floored at 1 µs, alpha is the
      elapsed fraction clamped to [0, 1], extrapolation is never negative. */
  function Bracket<T>(from: BufferEntry<T>, to: BufferEntry<T>, targetUs: int): InterpolationPair<T> {
    var span := Max(to.arrivalUs - from.arrivalUs, 1);
    InterpolationPair(Some(from.value), Some(to.value),
      Clamp(targetUs - from.arrivalUs, 0, span), span,
      Max(targetUs - to.arrivalUs, 0), true)
  }

  /** The selection half of `get_interpolation_pair` on a state. */
  function PairOf<T>(st: RingState<T>, targetUs: int): InterpolationPair<T>
    requires |st.slots| == BUFFER_SIZE
  {
    if st.count == 0 then InvalidPair()
    else if st.count == 1 then
      match st.slots[Slot(st.oldest)]
      case Some(e) => FromOnly(e.value)
      case None => InvalidPair()
    else
      var (from, to) := Scan(st.slots, st.oldest, 0, WalkLen(st.oldest, st.newest), targetUs, None);
      if from.Some? && to.Some? then Bracket(from.value, to.value, targetUs)
      else if from.Some? then FromOnly(from.value.value)
      else InvalidPair()
  }

  /** `get_interpolation_pair(now)`: the pair and the state after catch-up. */
  function Interpolated<T>(st: RingState<T>, nowUs: int): (InterpolationPair<T>, RingState<T>)
    requires |st.slots| == BUFFER_SIZE
  {
    var targetUs := nowUs - st.delayUs;
    var st' := CaughtUp(st, targetUs);
    (PairOf(st', targetUs), st')
  }

  /** A pair is valid exactly when it has a `from` value; a `to` value comes
      only with a `from`; alpha is a fraction in [0, 1] over a positive
      denominator; extrapolation is never negative. */
  lemma PairIsWellFormed<T>(st: RingState<T>, targetUs: int)
    requires ValidState(st)
    ensures var p := PairOf(st, targetUs);
      && (p.isValid <==> p.from.Some?)
      && (p.to.Some? ==> p.from.Some?)
      && 1 <= p.alphaDen && 0 <= p.alphaNum <= p.alphaDen
      && 0 <= p.extrapolationUs
  {
  }

  /** When both ends are found they bracket the target strictly: the raw
      span is positive, so neither clamp changes anything, alpha is strictly
      below 1 and there is nothing to extrapolate. */
  lemma BracketIsExact<T>(st: RingState<T>, targetUs: int)
    requires ValidState(st) && st.count >= 2
    ensures var (from, to) := Scan(st.slots, st.oldest, 0, WalkLen(st.oldest, st.newest), targetUs, None);
      var p := PairOf(st, targetUs);
      from.Some? && to.Some? ==>
        && from.value.arrivalUs <= targetUs < to.value.arrivalUs
        && p.alphaDen == to.value.arrivalUs - from.value.arrivalUs
        && p.alphaNum == targetUs - from.value.arrivalUs
        && p.alphaNum < p.alphaDen
        && p.extrapolationUs == 0
  {
  }

  /** The scan of a walk of `n` offsets from `base`, started with nothing,
      brackets the target: it stops at an offset `m`; every entry before
      `m` arrived by the target; `to` is the entry at `m` (none when the
      walk ran out); `from` is the entry at the last occupied offset before
      `m`, none exactly when there is no such offset. */
  lemma ScanBracketsTarget<T>(s: Slots<T>, base: u16, n: nat, targetUs: int)
    requires |s| == BUFFER_SIZE && n <= BUFFER_SIZE + 1
    ensures var r := Scan(s, base, 0, n, targetUs, None);
      exists m :: (0 <= m <= n
        && (forall i :: 0 <= i < m && s[Slot(Add(base, i))].Some? ==> s[Slot(Add(base, i))].value.arrivalUs <= targetUs)
        && (r.1.Some? <==> m < n)
        && (m < n ==> s[Slot(Add(base, m))] == r.1 && targetUs < r.1.value.arrivalUs)
        && (r.0.None? <==> forall i :: 0 <= i < m ==> s[Slot(Add(base, i))].None?)
        && (r.0.Some? ==> exists j :: (0 <= j < m && s[Slot(Add(base, j))] == r.0 &&
              forall i :: j < i < m ==> s[Slot(Add(base, i))].None?)))
  {
    var r := Scan(s, base, 0, n, targetUs, None);
    ScanStopsAtFirstLate(s, base, 0, n, targetUs, None);
    var m :| 0 <= m <= n && ScanStopsAt(s, base, 0, m, n, targetUs, None, r);
    assert r.0.None? <==> forall i :: 0 <= i < m ==> s[Slot(Add(base, i))].None?;
  }

  /** With two or more entries, `get_interpolation_pair` hands out the
      values of the scan's bracket (`ScanBracketsTarget`) over the walk from
      `oldest` to `newest`: `from` whenever one was found, `to` only
      together with `from`. */
  lemma PairOfBracketsTarget<T>(st: RingState<T>, targetUs: int)
    requires ValidState(st) && st.count >= 2
    ensures var r := Scan(st.slots, st.oldest, 0, WalkLen(st.oldest, st.newest), targetUs, None);
      var p := PairOf(st, targetUs);
      && p.from == (if r.0.Some? then Some(r.0.value.value) else None)
      && p.to == (if r.0.Some? && r.1.Some? then Some(r.1.value.value) else None)
  {
  }

  /** An empty buffer gives an invalid pair; a single entry gives a
      `from`-only pair, holding that entry's value, exactly when the oldest
      slot holds it. */
  lemma PairOfFewEntries<T>(st: RingState<T>, targetUs: int)
    requires ValidState(st) && st.count <= 1
    ensures var p := PairOf(st, targetUs);
      && p.to.None?
      && (st.count == 0 ==> !p.isValid)
      && (st.count == 1 ==> (p.isValid <==> st.slots[Slot(st.oldest)].Some?))
      && (st.count == 1 && st.slots[Slot(st.oldest)].Some? ==> p.from == Some(st.slots[Slot(st.oldest)].value.value))
  {
  }

  /** A valid `from`-only answer with two or more entries means every entry
      on the walk from `oldest` arrived by the target time. */
  lemma FromOnlyMeansAllArrived<T>(st: RingState<T>, targetUs: int)
    requires ValidState(st) && st.count >= 2
    requires PairOf(st, targetUs).isValid && PairOf(st, targetUs).to.None?
    ensures forall j :: 0 <= j < WalkLen(st.oldest, st.newest) && st.slots[Slot(Add(st.oldest, j))].Some? ==>
      st.slots[Slot(Add(st.oldest, j))].value.arrivalUs <= targetUs
  {
    var steps := WalkLen(st.oldest, st.newest);
    var (from, to) := Scan(st.slots, st.oldest, 0, steps, targetUs, None);
    ScanWithoutLateEntry(st.slots, st.oldest, 0, steps, targetUs, None);
  }

  // ---------------------------------------------------------------------

  /** The buffer object: an array of 128 slots plus the range, count and
      delay fields, each method proved against the functions above. */
  class SequenceRingBuffer<T> {
    const buffer: array<Option<BufferEntry<T>>>
    var oldestSequenceId: u16
    var newestSequenceId: u16
    var count: nat
    var bufferDelayUs: int

    ghost function State(): RingState<T>
      reads this, buffer
    {
      RingState(buffer[..], oldestSequenceId, newestSequenceId, count, bufferDelayUs)
    }

    ghost predicate Valid()
      reads this, buffer
    {
      buffer.Length == BUFFER_SIZE && ValidState(State())
    }

    constructor ()
      ensures Valid() && fresh(buffer)
      ensures State() == EmptyState()
    {
      buffer := new Option<BufferEntry<T>>[BUFFER_SIZE](_ => None);
      oldestSequenceId := U16_MAX;
      newestSequenceId := U16_MAX;
      count := 0;
      bufferDelayUs := 0;
      new;
      assert buffer[..] == EmptyState<T>().slots;
    }

    method Insert(sequenceId: int, arrivalUs: int, serverTimestampUs: int, value: T) returns (ok: bool)
      requires Valid()
      modifies this, buffer
      ensures Valid()
      ensures (ok, State()) == Inserted(old(State()), sequenceId, arrivalUs, value)
    {
      if !IsU16(sequenceId) {
        return false;
      }
      var seqId: u16 := sequenceId;

      var window := SeqDiff(newestSequenceId, seqId);
      if count > 0 && window > BUFFER_SIZE {
        return false;
      }

      var index := Slot(seqId);
      var wasEmpty := buffer[index].None?;
      var extendsFront := count == 0 || SeqIsNewer(seqId, newestSequenceId);

      var prevArrivalUs: Option<int> := None;
      if count > 0 && extendsFront {
        var prevIndex := Slot(newestSequenceId);
        if buffer[prevIndex].Some? {
          prevArrivalUs := Some(buffer[prevIndex].value.arrivalUs);
        }
      }
      assert prevArrivalUs == (if count > 0 && extendsFront then ArrivalAt(buffer[..], newestSequenceId) else None);

      OccupiedUpdate(buffer[..], index, Some(BufferEntry(arrivalUs, value)));
      buffer[index] := Some(BufferEntry(arrivalUs, value));

      if wasEmpty {
        count := count + 1;
      }

      if count == 1 {
        oldestSequenceId := seqId;
        newestSequenceId := seqId;
        return true;
      }

      if extendsFront {
        if prevArrivalUs.Some? {
          var deltaUs := arrivalUs - prevArrivalUs.value;
          if deltaUs > 0 {
            bufferDelayUs := Clamp(deltaUs, MIN_DELAY_US, MAX_DELAY_US);
          }
        }
        newestSequenceId := seqId;
      } else if SeqIsNewer(oldestSequenceId, seqId) {
        oldestSequenceId := seqId;
      }

      return true;
    }

    method PruneUpTo(sequenceId: int) returns (pruned: int)
      requires Valid()
      modifies this, buffer
      ensures Valid()
      ensures (pruned, State()) == Pruned(old(State()), sequenceId)
    {
      if !IsU16(sequenceId) {
        return 0;
      }
      pruned := PruneFromOldest(sequenceId);
    }

    /** The loop of `prune_up_to`: the walk from `oldest`, clearing every
        occupied slot not newer than `upTo`. */
    method PruneFromOldest(upTo: u16) returns (pruned: nat)
      requires Valid()
      modifies buffer, this`count
      ensures Valid()
      ensures count + pruned == old(count)
      ensures (buffer[..], pruned)
           == PruneWalk(old(buffer[..]), oldestSequenceId, 0, WalkLen(oldestSequenceId, newestSequenceId), upTo, 0)
    {
      pruned := 0;
      var current := oldestSequenceId;
      ghost var steps := WalkLen(oldestSequenceId, newestSequenceId);
      ghost var k: nat := 0;

      while true
        invariant Valid()
        invariant k < steps && current == Add(oldestSequenceId, k)
        invariant count + pruned == old(count)
        invariant PruneWalk(buffer[..], oldestSequenceId, k, steps, upTo, pruned)
               == PruneWalk(old(buffer[..]), oldestSequenceId, 0, steps, upTo, 0)
        decreases steps - k
      {
        pruned := PruneSlot(current, upTo, pruned, k, steps);
        WalkStep(oldestSequenceId, newestSequenceId, k);
        if current == newestSequenceId {
          break;
        }
        current := Inc(current);
        k := k + 1;
        if SeqDiff(current, oldestSequenceId) > BUFFER_SIZE {
          break;
        }
      }
    }

    /** One iteration of `prune_up_to`'s loop: clears the slot at offset `k`
        of the walk when it is occupied and not newer than `upTo`. */
    method PruneSlot(current: u16, upTo: u16, pruned: nat, ghost k: nat, ghost steps: nat) returns (pruned': nat)
      requires Valid() && k < steps <= BUFFER_SIZE + 1 && current == Add(oldestSequenceId, k)
      modifies buffer, this`count
      ensures Valid()
      ensures count + pruned' == old(count) + pruned
      ensures PruneWalk(buffer[..], oldestSequenceId, k + 1, steps, upTo, pruned')
           == PruneWalk(old(buffer[..]), oldestSequenceId, k, steps, upTo, pruned)
    {
      pruned' := pruned;
      var index := Slot(current);
      if buffer[index].Some? && !SeqIsNewer(current, upTo) {
        OccupiedUpdate(buffer[..], index, None);
        buffer[index] := None;
        count := count - 1;
        pruned' := pruned + 1;
      }
    }

    method GetStartingAt(sequenceId: int) returns (result: seq<T>)
      requires Valid()
      ensures result == StartingAt(State(), sequenceId)
    {
      if !IsU16(sequenceId) {
        return [];
      }
      var startSeqId: u16 := sequenceId;

      result := [];
      var current := startSeqId;
      ghost var steps := WalkLen(startSeqId, newestSequenceId);
      ghost var k: nat := 0;

      while true
        invariant k < steps && current == Add(startSeqId, k)
        invariant CollectWalk(buffer[..], startSeqId, k, steps, result) == StartingAt(State(), sequenceId)
        decreases steps - k
      {
        var index := Slot(current);
        if buffer[index].Some? {
          result := result + [buffer[index].value.value];
        }

        WalkStep(startSeqId, newestSequenceId, k);
        if current == newestSequenceId {
          return;
        }
        current := Inc(current);
        k := k + 1;
        if SeqDiff(current, startSeqId) > BUFFER_SIZE {
          return;
        }
      }
    }

    /** The inner search of the catch-up loop: the first occupied position
        after `oldest`, up to and including `newest`, with its arrival. */
    method FindNextEntry() returns (nextEntry: Option<(u16, int)>)
      requires Valid()
      ensures var d := Dist(oldestSequenceId, newestSequenceId);
        match FirstOccupied(buffer[..], oldestSequenceId, 1, d)
        case None => nextEntry.None?
        case Some(j) =>
          nextEntry == Some((Add(oldestSequenceId, j), buffer[Slot(Add(oldestSequenceId, j))].value.arrivalUs))
    {
      ghost var d := Dist(oldestSequenceId, newestSequenceId);
      ghost var j: nat := 1;
      var candidate := Inc(oldestSequenceId);
      nextEntry := None;
      while candidate != Inc(newestSequenceId)
        invariant 1 <= j <= d + 1 && candidate == Add(oldestSequenceId, j)
        invariant FirstOccupied(buffer[..], oldestSequenceId, j, d) == FirstOccupied(buffer[..], oldestSequenceId, 1, d)
        decreases d + 1 - j
      {
        AddStopsPastEnd(oldestSequenceId, newestSequenceId, j);
        var index := Slot(candidate);
        if buffer[index].Some? {
          nextEntry := Some((candidate, buffer[index].value.arrivalUs));
          return;
        }
        AddSucc(oldestSequenceId, j);
        candidate := Inc(candidate);
        j := j + 1;
      }
      AddStopsPastEnd(oldestSequenceId, newestSequenceId, j);
    }

    /** The catch-up loop at the top of `get_interpolation_pair`. */
    method CatchUp(targetUs: int)
      requires Valid()
      modifies this, buffer
      ensures Valid()
      ensures State() == CaughtUp(old(State()), targetUs)
    {
      while true
        invariant Valid()
        invariant CaughtUp(State(), targetUs) == CaughtUp(old(State()), targetUs)
        decreases Dist(oldestSequenceId, newestSequenceId)
      {
        if count < 3 {
          break;
        }

        var nextEntry := FindNextEntry();
        if nextEntry.None? {
          break;
        }
        var (nextSeq, nextArrivalUs) := nextEntry.value;

        if targetUs > nextArrivalUs {
          ghost var st := State();
          ghost var j :| FirstOccupied(st.slots, st.oldest, 1, Dist(st.oldest, st.newest)) == Some(j);
          DropOldestKeepsInvariant(st, j);
          var oldIndex := Slot(oldestSequenceId);
          if buffer[oldIndex].Some? {
            buffer[oldIndex] := None;
            count := count - 1;
          }
          oldestSequenceId := nextSeq;
          assert State() == DropOldest(st, nextSeq);
          continue;
        }

        break;
      }
    }

    /** The selection half of `get_interpolation_pair`. */
    method SelectPair(targetUs: int) returns (pair: InterpolationPair<T>)
      requires Valid()
      ensures pair == PairOf(State(), targetUs)
    {
      pair := InvalidPair();

      if count == 0 {
        return;
      }

      if count == 1 {
        var index := Slot(oldestSequenceId);
        if buffer[index].Some? {
          pair := FromOnly(buffer[index].value.value);
        }
        return;
      }

      var current := oldestSequenceId;
      var from: Option<BufferEntry<T>> := None;
      var to: Option<BufferEntry<T>> := None;
      ghost var steps := WalkLen(oldestSequenceId, newestSequenceId);
      ghost var k: nat := 0;

      while true
        invariant k < steps && current == Add(oldestSequenceId, k)
        invariant from.Some? ==> from.value.arrivalUs <= targetUs
        invariant to.None?
        invariant Scan(buffer[..], oldestSequenceId, k, steps, targetUs, from)
               == Scan(buffer[..], oldestSequenceId, 0, steps, targetUs, None)
        decreases steps - k
      {
        var index := Slot(current);

        if buffer[index].Some? {
          var entry := buffer[index].value;
          if entry.arrivalUs <= targetUs {
            from := Some(entry);
          } else if to.None? {
            to := Some(entry);
            break;
          }
        }

        WalkStep(oldestSequenceId, newestSequenceId, k);
        if current == newestSequenceId {
          break;
        }
        current := Inc(current);
        k := k + 1;
        if SeqDiff(current, oldestSequenceId) > BUFFER_SIZE {
          break;
        }
      }
      assert (from, to) == Scan(buffer[..], oldestSequenceId, 0, steps, targetUs, None);

      if from.Some? && to.Some? {
        var span := to.value.arrivalUs - from.value.arrivalUs;
        span := Max(span, 1);
        var alphaNum := Clamp(targetUs - from.value.arrivalUs, 0, span);
        var extrapolationUs := Max(targetUs - to.value.arrivalUs, 0);
        pair := InterpolationPair(Some(from.value.value), Some(to.value.value), alphaNum, span, extrapolationUs, true);
      } else if from.Some? {
        pair := FromOnly(from.value.value);
      }
    }

    method GetInterpolationPair(nowUs: int) returns (pair: InterpolationPair<T>)
      requires Valid()
      modifies this, buffer
      ensures Valid()
      ensures (pair, State()) == Interpolated(old(State()), nowUs)
    {
      var targetUs := nowUs - bufferDelayUs;
      if count >= 3 {
        CatchUp(targetUs);
      }
      pair := SelectPair(targetUs);
    }

    /** `size`: the number of occupied slots. */
    function Size(): (r: int)
      requires Valid()
      reads this, buffer
      ensures r == Occupied(buffer[..])
    {
      count
    }

    function OldestSequenceId(): int
      reads this
    {
      oldestSequenceId
    }

    function NewestSequenceId(): int
      reads this
    {
      newestSequenceId
    }

    function BufferDelayUs(): int
      reads this
    {
      bufferDelayUs
    }
  }
}
