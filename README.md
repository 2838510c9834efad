# Battle-royale networking core in Dafny

This project models the networking core of a multiplayer game server and client. The Rust crate is a Godot extension built on the GameNetworkingSockets transport. Modelled here, with their Dafny modules:

- **Sequence** (`sequence.dfy`): the 16-bit sequence-number algebra. It covers `seq_diff` and `seq_is_newer`, with wrap-around. It also covers the scripting-side `PacketSequence` counter and its checked helpers `diff`, `is_newer` and `is_newer_or_equal`.
- **JitterBuffers** (`jitter_buffer.dfy`): the jitter buffer. It is a map from sequence number to item with a read cursor. It accepts only strictly newer ids. `consume` skips gaps that are at least 4 ids old, waits on younger ones, and hands out at most four consecutive items per call.
- **SeqRingBuffer** (`seq_ring_buffer.dfy`): the snapshot ring buffer. Each of its 128 slots is addressed by `seq & 127`. It keeps a live range from oldest to newest and a playout delay that adapts to arrival gaps. Its operations are:
  - `insert`, with a 128-id window;
  - `prune_up_to`;
  - `get_starting_at`;
  - `get_interpolation_pair`, which first catches the oldest entry up to the render time. It then brackets that time between two snapshots, which gives an interpolation fraction and an extrapolation.
- **PacketMacros** (`macros.dfy`): the identity value conversions, the strict i64↔u8 pair, and the null packet's empty-payload codec.
- **Conversions** (`conversions.dfy`): the stand-alone conversion table. Narrowing from i64 to u8, u16 or u32 falls back to 0 out of range. Widening back to i64 is exact.
- **Packets** (`packet.dfy`): packet framing. A frame is one tag byte (declaration order 0–4) followed by the payload of the packet's wire type. Decoding rejects empty input and unknown tags and delegates the rest to the payload codec.
- **NetworkHandlers** (`network_handler.dfy`): the session logic of the network node:
  - the server's peer-id pool (99 down to 0, popped from the end);
  - the map from connection to peer id;
  - the reaction to each connection-state transition;
  - the filtering of inbound messages;
  - the order of emitted notifications;
  - the client's connect/disconnect handling;
  - the bounded debug queue (1000 lines, drained 10 per frame).

`common.dfy` (module Common) holds the shared `Option`/`Result` types, the unsigned subranges and `Clamp`.

**How the stateful code is modelled**
- The stateful code is kept as classes:
  - `PacketSequence`;
  - `JitterBuffer`, with a `map` field;
  - `SequenceRingBuffer`, with a 128-slot `array`;
  - `NetworkHandler`, with `seq`/`map` fields for the pool, the client map and the debug queue.
- Every loop of the source is a `while`/`for` loop with invariants.
- Each such method is proved equal to a pure specification function: `ConsumeSpec`, `Inserted`, `Pruned`, `StartingAt`, `CaughtUp`, `PairOf`, `ServerTickOf`, `ClientTickOf`. The properties are proved as lemmas about those functions.

**What the transport becomes**
- Connection-state events and inbound messages are inputs to the tick methods.
- `accept` and `close_connection` calls are returned as a list of `TransportCall`s.
- Signal emissions are returned as a list of `Notification`s.
- A panic on a missing socket is reported by a `panicked` flag, and the state is unchanged.

**What the codecs become**
- The per-type payload codecs are a table of function values (`Codecs`), each with its `IS_RELIABLE` flag.
- Their round trip is a hypothesis (`AllRoundTrip`) of the framing round-trip lemma.

**Behaviour worth knowing**
- *Jitter-buffer gap.* Buffer items 0–3 and 8, then call `consume` repeatedly. After 0–3 are drained, the next call moves the cursor to 5 and waits there for good, because `seq_diff(8, 5) = 3 < 4` (`rust/src/data_structures/jitter_buffer.rs:84-96`). Item 8 is never handed out until later ids arrive. `JitterBuffers.GapAfterDrainStallsBeforeLastId` proves the three calls.
- *`seq_diff` range.* The result lies in [-32768, 32768], both ends included, and is antisymmetric for every pair. Pairs exactly half the space apart are ordered by numeric value.
- *Ring-buffer window.* The window check `window > 128` admits the id exactly 128 behind `newest`. That id maps to `newest`'s own slot, so inserting it overwrites the newest snapshot with an older one (`SeqRingBuffer.WindowEdgeSharesNewestSlot`). When such an overwrite leaves a single entry, both ends jump to the inserted id, backwards included (`SeqRingBuffer.InsertMovesEnds`).
- *Server restart.* `_start_server` refills the pool but does not clear the client map. Id uniqueness is therefore guaranteed only when the map is empty at start (`NetworkHandlers.NetworkHandler.StartServer`). `NetworkHandlers.RestartWithStaleClientReusesId` exhibits a stale connection sharing id 0 with a new peer.
- *Notification payloads.* Disconnect notifications carry only the peer id, with no reason.
- *Conversion table.* `rust/src/packet/conversions.rs` is not declared in `rust/src/packet/mod.rs`. Its impls overlap the strict ones at `rust/src/packet/macros.rs:93-94`, which panic where `conversions.rs` returns 0. Both are modelled, as separate modules (`PacketMacros`, `Conversions`).

## Model

| member | source | states |
|---|---|---|
| Common.Clamp | rust/src/data_structures/seq_ring_buffer.rs:110 | `Ord::clamp`: result within [lo, hi]; identity on values already in range |
| Sequence.SeqDiff | rust/src/math/sequence.rs:11-20 | the signed distance lies in [-32768, 32768], is congruent to a − b modulo 65536, and is 0 exactly when a == b |
| Sequence.SeqIsNewer | rust/src/math/sequence.rs:7-9 | `seq_is_newer`: seq_diff > 0; totality and asymmetry are in `NewerIsTotalAndAsymmetric` and `HalfRangeTieBreak` |
| Sequence.SeqDiffSelf | rust/src/math/sequence.rs:7-20 | seq_diff(a, a) == 0 and no id is newer than itself |
| Sequence.SeqDiffAntisymmetric | rust/src/math/sequence.rs:11-20 | seq_diff(b, a) == −seq_diff(a, b) for every pair, including the half-range pairs |
| Sequence.HalfRangeTieBreak | rust/src/math/sequence.rs:7-20 | at distance exactly ±32768 the numerically larger id is the newer one |
| Sequence.NewerIsTotalAndAsymmetric | rust/src/math/sequence.rs:7-9 | of two distinct ids exactly one is newer than the other |
| Sequence.Inc | rust/src/data_structures/jitter_buffer.rs:95 | `wrapping_add(1)` is (x + 1) mod 65536 |
| Sequence.Add | rust/src/data_structures/seq_ring_buffer.rs:146 | k wrapping increments land on (a + k) mod 65536 |
| Sequence.Dist | rust/src/data_structures/seq_ring_buffer.rs:198 | the forward step count from a to b is below 65536 and Add(a, Dist(a, b)) == b |
| Sequence.AddReaches | rust/src/data_structures/seq_ring_buffer.rs:142-146 | within one lap, a walk from a meets b exactly after Dist(a, b) steps |
| Sequence.AddStopsPastEnd | rust/src/data_structures/seq_ring_buffer.rs:198 | a walk from a reaches newest + 1 only after passing every id up to newest |
| Sequence.SeqDiffOfAdd | rust/src/data_structures/seq_ring_buffer.rs:146-150 | after k < 32768 wrapping steps `seq_diff` measures exactly k, so the walks stop after 129 positions |
| Sequence.PacketSequence.constructor | rust/src/math/sequence.rs:31-36 | a fresh counter holds −1 |
| Sequence.PacketSequence.Current | rust/src/math/sequence.rs:42-44 | returns the stored counter |
| Sequence.PacketSequence.Next | rust/src/math/sequence.rs:47-50 | the counter becomes (old + 1) mod 65536, is returned and stays within u16 |
| Sequence.PacketSequence.ValidSequences | rust/src/math/sequence.rs:52-62 | yields the pair exactly when both arguments fit in u16 |
| Sequence.PacketSequence.Diff | rust/src/math/sequence.rs:64-71 | `diff`: −1 on an out-of-range argument, else seq_diff (`InvalidArgumentsFallBack`, `ValidArgumentsAgree`) |
| Sequence.PacketSequence.IsNewer | rust/src/math/sequence.rs:73-80 | `is_newer`: false on an out-of-range argument, else seq_is_newer (`InvalidArgumentsFallBack`, `ValidArgumentsAgree`) |
| Sequence.PacketSequence.IsNewerOrEqual | rust/src/math/sequence.rs:82-89 | `is_newer_or_equal`: false on an out-of-range argument, else newer or equal, a total relation (`ValidArgumentsAgree`, `NewerOrEqualTotal`) |
| Sequence.FirstNextYieldsZero | rust/src/math/sequence.rs:31-50 | a fresh counter yields 0 then 1 |
| Sequence.InvalidArgumentsFallBack | rust/src/math/sequence.rs:64-89 | an out-of-range argument makes `diff` −1 and both `is_newer` checks false |
| Sequence.ValidArgumentsAgree | rust/src/math/sequence.rs:64-89 | on u16 arguments the helpers equal `seq_diff`/`seq_is_newer`, and `is_newer_or_equal` is `is_newer` or equality |
| Sequence.NewerOrEqualTotal | rust/src/math/sequence.rs:82-89 | on u16 arguments one of the two is newer-or-equal to the other |
| JitterBuffers.DrainPhase | rust/src/data_structures/jitter_buffer.rs:98-106 | the drain loop removes at most its budget of items |
| JitterBuffers.Accepts | rust/src/data_structures/jitter_buffer.rs:48-54 | `enqueue`'s admission test (u16 and strictly newer than the last id); see `JitterBuffer.Enqueue`, `OlderIdIsDropped` |
| JitterBuffers.SkipPhase | rust/src/data_structures/jitter_buffer.rs:84-96 | the skip loop; see `SkipPhaseAdvancesPastAbsentKeys` |
| JitterBuffers.ConsumeSpec | rust/src/data_structures/jitter_buffer.rs:82-109 | `consume`; see the `Consume*` lemmas |
| JitterBuffers.SkipPhaseAdvancesPastAbsentKeys | rust/src/data_structures/jitter_buffer.rs:84-96 | the skip loop advances at most its attempts, only past absent ids; it waits only on an absent id whose gap age is below 4 |
| JitterBuffers.DrainPhaseCursor | rust/src/data_structures/jitter_buffer.rs:98-106 | the cursor ends one past the last item taken; stopping early means the cursor's id is absent |
| JitterBuffers.DrainPhaseItems | rust/src/data_structures/jitter_buffer.rs:98-106 | the items are the stored values at consecutive ids from the cursor, in order |
| JitterBuffers.DrainPhaseRemovesRun | rust/src/data_structures/jitter_buffer.rs:99-101 | exactly the returned ids leave the map |
| JitterBuffers.DrainPhaseShrinksMap | rust/src/data_structures/jitter_buffer.rs:99-101 | the map shrinks by exactly the number of items returned |
| JitterBuffers.ConsumeReturnsAtMostFour | rust/src/data_structures/jitter_buffer.rs:82-109 | one `consume` never returns more than 4 items |
| JitterBuffers.ConsumeTakesConsecutiveKeys | rust/src/data_structures/jitter_buffer.rs:82-109 | consumed items are the consecutive stored ids from where skipping stopped; they are removed and the cursor ends past them |
| JitterBuffers.ConsumeWaitsForYoungGap | rust/src/data_structures/jitter_buffer.rs:86-93 | a missing id with gap age below 4 makes `consume` return nothing and change nothing |
| JitterBuffers.ConsumeSkipsOnlyAbsentKeys | rust/src/data_structures/jitter_buffer.rs:84-96 | skipping moves the cursor at most 4 ids, only over absent ones |
| JitterBuffers.GapAfterDrainStallsBeforeLastId | rust/src/data_structures/jitter_buffer.rs:82-109 | with 0–3 and 8 stored and 8 last: the first call drains 0–3, the next waits at 5, and so does every later one |
| JitterBuffers.JitterBuffer.constructor | rust/src/data_structures/jitter_buffer.rs:33-41 | empty map, cursor 0, timestamp 0, last id 65535 |
| JitterBuffers.JitterBuffer.Enqueue | rust/src/data_structures/jitter_buffer.rs:47-80 | only a u16 id newer than the last is accepted; it becomes the last id even with an out-of-range timestamp, and is stored only with a u32 timestamp |
| JitterBuffers.JitterBuffer.Consume | rust/src/data_structures/jitter_buffer.rs:82-109 | returned items, cursor and map equal `ConsumeSpec` of the old state |
| JitterBuffers.JitterBuffer.SkipLost | rust/src/data_structures/jitter_buffer.rs:84-96 | the cursor and the wait/ready outcome equal `SkipPhase` from the old cursor |
| JitterBuffers.JitterBuffer.Drain | rust/src/data_structures/jitter_buffer.rs:98-106 | returned items, cursor and map equal `DrainPhase` of the old map and cursor |
| JitterBuffers.JitterBuffer.Size | rust/src/data_structures/jitter_buffer.rs:111-114 | the number of buffered items |
| JitterBuffers.JitterBuffer.LastSequenceId | rust/src/data_structures/jitter_buffer.rs:116-119 | returns the last accepted id |
| JitterBuffers.JitterBuffer.LastReceivedTimestampUs | rust/src/data_structures/jitter_buffer.rs:121-124 | returns the last stored timestamp |
| JitterBuffers.JitterBuffer.NextSequenceId | rust/src/data_structures/jitter_buffer.rs:126-129 | returns the read cursor |
| JitterBuffers.OlderIdIsDropped | rust/src/data_structures/jitter_buffer.rs:47-57 | enqueueing 5 then 3 leaves last id 5 and does not store 3 |
| SeqRingBuffer.Slot | rust/src/data_structures/seq_ring_buffer.rs:80 | `seq & mask` addresses one of the 128 slots |
| SeqRingBuffer.Occupied | rust/src/data_structures/seq_ring_buffer.rs:41 | the occupied-slot count never exceeds the slot count |
| SeqRingBuffer.OccupiedUpdate | rust/src/data_structures/seq_ring_buffer.rs:94-98 | writing a slot changes the occupied count by exactly the change in that slot's occupancy |
| SeqRingBuffer.EmptyState | rust/src/data_structures/seq_ring_buffer.rs:47-58 | the initial buffer is valid and empty |
| SeqRingBuffer.AdaptDelay | rust/src/data_structures/seq_ring_buffer.rs:106-115 | the delay stays unset or in [33 ms, 150 ms]; it changes only on a positive arrival gap, and a positive gap always sets it to that gap clamped to [33 ms, 150 ms] |
| SeqRingBuffer.InWindow | rust/src/data_structures/seq_ring_buffer.rs:70-71 | the insert window; see `InsertAcceptsWindow`, `NewerIdsAreInWindow`, `WindowEdgeSharesNewestSlot` |
| SeqRingBuffer.Inserted | rust/src/data_structures/seq_ring_buffer.rs:64-122 | `insert` keeps the 128-slot shape |
| SeqRingBuffer.InsertAcceptsWindow | rust/src/data_structures/seq_ring_buffer.rs:64-78 | accepted iff the id fits u16 and is within 128 of newest (or the buffer is empty); a refusal changes nothing |
| SeqRingBuffer.InsertStoresEntry | rust/src/data_structures/seq_ring_buffer.rs:80-98 | the entry lands in its slot, other slots stay, count grows only for an empty slot, the invariant holds |
| SeqRingBuffer.InsertMovesEnds | rust/src/data_structures/seq_ring_buffer.rs:100-119 | an insert leaving exactly one entry (the first, or an overwrite of the only one) sets both ends to its id; with more entries a newer id moves newest, an id older than oldest moves oldest, otherwise the ends stay |
| SeqRingBuffer.InsertAdaptsDelayOnFrontGrowth | rust/src/data_structures/seq_ring_buffer.rs:84-115 | the delay changes only when the front grows over a present, strictly earlier entry, and becomes that gap clamped; conversely every such insert leaving more than one entry sets the delay to that clamped gap |
| SeqRingBuffer.NewerIdsAreInWindow | rust/src/data_structures/seq_ring_buffer.rs:70-71 | ids newer than newest are never refused |
| SeqRingBuffer.WindowEdgeSharesNewestSlot | rust/src/data_structures/seq_ring_buffer.rs:70-80 | the id 128 behind newest passes the window yet shares newest's slot |
| SeqRingBuffer.WalkLen | rust/src/data_structures/seq_ring_buffer.rs:142-150 | the bounded walk visits between 1 and 129 positions |
| SeqRingBuffer.PruneWalk | rust/src/data_structures/seq_ring_buffer.rs:134-151 | the prune loop keeps the 128-slot shape |
| SeqRingBuffer.PruneWalkCounts | rust/src/data_structures/seq_ring_buffer.rs:136-140 | occupied slots plus removals stay constant; at most one removal per position |
| SeqRingBuffer.PruneWalkClearsOnlyStale | rust/src/data_structures/seq_ring_buffer.rs:136-140 | the loop only empties slots reached at ids not newer than the prune id |
| SeqRingBuffer.PruneWalkClearsAllStale | rust/src/data_structures/seq_ring_buffer.rs:134-151 | every walked id not newer than the prune id has an empty slot afterwards |
| SeqRingBuffer.Pruned | rust/src/data_structures/seq_ring_buffer.rs:125-154 | `prune_up_to` keeps the 128-slot shape |
| SeqRingBuffer.PruneKeepsInvariant | rust/src/data_structures/seq_ring_buffer.rs:125-154 | invariant kept, ends and delay unchanged, count drops by the reported number (never more than the entries present); an invalid id prunes nothing |
| SeqRingBuffer.PruneRemovesExactlyStale | rust/src/data_structures/seq_ring_buffer.rs:134-151 | pruning empties all and only the stale slots on the walk from oldest |
| SeqRingBuffer.CollectWalkTakesPresentValues | rust/src/data_structures/seq_ring_buffer.rs:166-181 | the collecting loop keeps its prefix, adds at most one value per position, each present on the walk |
| SeqRingBuffer.CollectWalkOverEmpty | rust/src/data_structures/seq_ring_buffer.rs:166-181 | a walk over empty slots collects nothing |
| SeqRingBuffer.StartingAtCollectsWalk | rust/src/data_structures/seq_ring_buffer.rs:157-184 | the result is exactly the values of the occupied slots on the walk from the start id (at most 129 positions, stopping at newest), in walk order, each once; it starts with the start slot's value when present; empty for an invalid id or an empty buffer |
| SeqRingBuffer.CollectWalkListsOccupied | rust/src/data_structures/seq_ring_buffer.rs:166-181 | the walk loop appends exactly the occupied positions' values from its offset on, in increasing offset order, keeping what was collected before |
| SeqRingBuffer.StartingAt | rust/src/data_structures/seq_ring_buffer.rs:157-184 | `get_starting_at`; its meaning is stated by `StartingAtCollectsWalk` |
| SeqRingBuffer.FirstOccupied | rust/src/data_structures/seq_ring_buffer.rs:196-207 | the search finds the first occupied position after oldest up to newest, or reports that there is none |
| SeqRingBuffer.CaughtUp | rust/src/data_structures/seq_ring_buffer.rs:188-236 | catch-up keeps the slot shape, newest and the delay; what it removes and where it stops are stated by `CatchUpKeepsInvariant` and `CatchUpEmptiesPassedSlots` |
| SeqRingBuffer.CatchUpKeepsInvariant | rust/src/data_structures/seq_ring_buffer.rs:188-236 | invariant kept; never below 2 entries from 3 or more; nothing happens below 3 entries; only empties slots; oldest moves forward without passing newest; ends settled (fewer than 3 entries, nothing after oldest, or the next entry not yet due) |
| SeqRingBuffer.CatchUpEmptiesPassedSlots | rust/src/data_structures/seq_ring_buffer.rs:188-236 | the slots of every id from the old oldest up to (not including) the new oldest end empty, and every other slot keeps its content |
| SeqRingBuffer.PassedSlotsStep | rust/src/data_structures/seq_ring_buffer.rs:209-216 | one step followed by the rest of the loop empties exactly the slots walked over, joining the step's frame to the rest's |
| SeqRingBuffer.DropOldest | rust/src/data_structures/seq_ring_buffer.rs:209-216 | one catch-up step keeps the slot shape, newest and the delay, and lands on the given id |
| SeqRingBuffer.DropOldestKeepsInvariant | rust/src/data_structures/seq_ring_buffer.rs:209-216 | one step keeps the invariant, empties exactly the old oldest's slot (count drops by one exactly when it was occupied), and moves oldest forward by the given distance along the live range |
| SeqRingBuffer.WalkStep | rust/src/data_structures/seq_ring_buffer.rs:142-151 | the walk stops after a position exactly when it is newest or the next position is more than 128 ahead of the start |
| SeqRingBuffer.Scan | rust/src/data_structures/seq_ring_buffer.rs:261-286 | `from` arrived by the target time, `to` strictly after it; a carried-in `from` is never lost; the exact bracket is `ScanBracketsTarget` |
| SeqRingBuffer.ScanStopsAtFirstLate | rust/src/data_structures/seq_ring_buffer.rs:261-286 | from any offset the scan stops at the first late entry or the end of the walk, with everything before on time and `from` the last occupied entry before the stop (or the one carried in) |
| SeqRingBuffer.ExtendOverOnTime | rust/src/data_structures/seq_ring_buffer.rs:265-268 | an on-time entry just before the scanned range becomes `from` when nothing later in the range is occupied |
| SeqRingBuffer.ExtendOverEmpty | rust/src/data_structures/seq_ring_buffer.rs:263-286 | an empty slot just before the scanned range changes nothing about where the scan stops or what it finds |
| SeqRingBuffer.ScanBracketsTarget | rust/src/data_structures/seq_ring_buffer.rs:259-286 | the scan from oldest stops at an offset m: every entry before m arrived by the target; `to` is the entry at m and arrived after the target, absent exactly when the walk ran out; `from` is the entry at the last occupied offset before m, absent exactly when there is none |
| SeqRingBuffer.PairOfBracketsTarget | rust/src/data_structures/seq_ring_buffer.rs:288-304 | with 2+ entries the pair's `from` is the scan's `from` value when found, and its `to` the scan's `to` value only when both were found |
| SeqRingBuffer.ScanWithoutLateEntry | rust/src/data_structures/seq_ring_buffer.rs:265-286 | if no `to` is found, every walked entry arrived by the target time |
| SeqRingBuffer.PairIsWellFormed | rust/src/data_structures/seq_ring_buffer.rs:238-307 | valid iff there is a `from`; `to` only with `from`; alpha in [0, 1] over a positive span; extrapolation ≥ 0 |
| SeqRingBuffer.Bracket | rust/src/data_structures/seq_ring_buffer.rs:288-300 | the pair built from a bracket; see `BracketIsExact`, `PairIsWellFormed` |
| SeqRingBuffer.PairOf | rust/src/data_structures/seq_ring_buffer.rs:238-307 | the selection half of `get_interpolation_pair`; its meaning is stated by `PairOfFewEntries` (0 or 1 entries), `ScanBracketsTarget` with `PairOfBracketsTarget` (2+ entries), `PairIsWellFormed` and `BracketIsExact` |
| SeqRingBuffer.Interpolated | rust/src/data_structures/seq_ring_buffer.rs:187-307 | catch-up at `now - delay`, then selection on the caught-up state at the same target; meaning stated by `CatchUpKeepsInvariant`, `CatchUpEmptiesPassedSlots` and the pair lemmas |
| SeqRingBuffer.BracketIsExact | rust/src/data_structures/seq_ring_buffer.rs:288-300 | a found bracket satisfies from ≤ target < to, so alpha is the raw fraction, below 1, and extrapolation is 0 |
| SeqRingBuffer.PairOfFewEntries | rust/src/data_structures/seq_ring_buffer.rs:247-258 | no entries: invalid; one entry: valid `from`-only, carrying the oldest slot's value, exactly when the oldest slot holds it |
| SeqRingBuffer.FromOnlyMeansAllArrived | rust/src/data_structures/seq_ring_buffer.rs:265-304 | a `from`-only answer with 2+ entries means every walked entry arrived by the target time |
| SeqRingBuffer.SequenceRingBuffer.constructor | rust/src/data_structures/seq_ring_buffer.rs:47-58 | 128 empty slots, both ends 65535, count 0, delay 0 |
| SeqRingBuffer.SequenceRingBuffer.Insert | rust/src/data_structures/seq_ring_buffer.rs:64-122 | result and new state equal `Inserted` of the old state |
| SeqRingBuffer.SequenceRingBuffer.PruneUpTo | rust/src/data_structures/seq_ring_buffer.rs:125-154 | count and new state equal `Pruned` of the old state |
| SeqRingBuffer.SequenceRingBuffer.PruneFromOldest | rust/src/data_structures/seq_ring_buffer.rs:131-151 | slots and removal count equal `PruneWalk` from `oldest`; count drops by the removals |
| SeqRingBuffer.SequenceRingBuffer.PruneSlot | rust/src/data_structures/seq_ring_buffer.rs:135-140 | one iteration advances `PruneWalk` by one position; count drops by the removals |
| SeqRingBuffer.SequenceRingBuffer.GetStartingAt | rust/src/data_structures/seq_ring_buffer.rs:157-184 | returns `StartingAt` of the state |
| SeqRingBuffer.SequenceRingBuffer.FindNextEntry | rust/src/data_structures/seq_ring_buffer.rs:196-207 | returns the first occupied position after oldest with its arrival time, as `FirstOccupied` |
| SeqRingBuffer.SequenceRingBuffer.CatchUp | rust/src/data_structures/seq_ring_buffer.rs:188-236 | the new state equals `CaughtUp` of the old state: exactly the slots oldest moved past are emptied, the invariant holds and the loop ends settled |
| SeqRingBuffer.SequenceRingBuffer.SelectPair | rust/src/data_structures/seq_ring_buffer.rs:238-307 | returns `PairOf` of the state (the bracket of the target along the walk from oldest) and changes nothing |
| SeqRingBuffer.SequenceRingBuffer.GetInterpolationPair | rust/src/data_structures/seq_ring_buffer.rs:187-307 | pair and new state equal `Interpolated(old state, now)` |
| SeqRingBuffer.SequenceRingBuffer.Size | rust/src/data_structures/seq_ring_buffer.rs:309-312 | the number of occupied slots |
| SeqRingBuffer.SequenceRingBuffer.OldestSequenceId | rust/src/data_structures/seq_ring_buffer.rs:314-317 | returns the oldest end |
| SeqRingBuffer.SequenceRingBuffer.NewestSequenceId | rust/src/data_structures/seq_ring_buffer.rs:319-322 | returns the newest end |
| SeqRingBuffer.SequenceRingBuffer.BufferDelayUs | rust/src/data_structures/seq_ring_buffer.rs:324-327 | returns the adaptive delay |
| PacketMacros.IdentityConversionsRoundTrip | rust/src/packet/macros.rs:87-88 | identity conversions round-trip both ways |
| PacketMacros.IdentityToWire | rust/src/packet/macros.rs:87 | the blanket identity `to_wire`; see `IdentityConversionsRoundTrip` |
| PacketMacros.IdentityToGodot | rust/src/packet/macros.rs:88 | the blanket identity `to_godot`; see `IdentityConversionsRoundTrip` |
| PacketMacros.I64ToU8Strict | rust/src/packet/macros.rs:93 | the panicking i64→u8 `to_wire`, defined on [0, 255]; see `StrictU8RoundTrip` |
| PacketMacros.U8ToI64 | rust/src/packet/macros.rs:94 | widening a u8 stays within [0, 255] |
| PacketMacros.StrictU8RoundTrip | rust/src/packet/macros.rs:93-94 | on [0, 255] the strict narrowing and the widening invert each other |
| PacketMacros.NullDecode | rust/src/packet/macros.rs:376-385 | succeeds exactly on the empty payload, else the "Null packet should have empty payload" error |
| PacketMacros.NullEncode | rust/src/packet/macros.rs:372-374 | the null payload encodes to no bytes; see `NullCodecRoundTrips` |
| PacketMacros.NullCodecRoundTrips | rust/src/packet/macros.rs:372-385 | the null payload is empty and decodes back; a non-empty payload is refused |
| Conversions.NarrowWidenRoundTrips | rust/src/packet/conversions.rs:26-84 | in-range i64 values survive narrowing and widening; every wire value survives widening and narrowing |
| Conversions.I64ToU8 | rust/src/packet/conversions.rs:26-33 | i64→u8 with 0 out of range; see `NarrowWidenRoundTrips`, `NarrowingExactIffInRange` |
| Conversions.U8ToI64 | rust/src/packet/conversions.rs:35-39 | u8→i64 widening, exact; see `NarrowWidenRoundTrips` |
| Conversions.I64ToU16 | rust/src/packet/conversions.rs:56-63 | i64→u16 with 0 out of range; see `NarrowWidenRoundTrips`, `NarrowingExactIffInRange` |
| Conversions.U16ToI64 | rust/src/packet/conversions.rs:65-69 | u16→i64 widening, exact; see `NarrowWidenRoundTrips` |
| Conversions.I64ToU32 | rust/src/packet/conversions.rs:71-78 | i64→u32 with 0 out of range; see `NarrowWidenRoundTrips`, `NarrowingExactIffInRange` |
| Conversions.U32ToI64 | rust/src/packet/conversions.rs:80-84 | u32→i64 widening, exact; see `NarrowWidenRoundTrips` |
| Conversions.OutOfRangeReadsBackAsZero | rust/src/packet/conversions.rs:26-84 | an out-of-range value is sent as 0, like a genuine 0, and does not read back |
| Conversions.NarrowingExactIffInRange | rust/src/packet/conversions.rs:26-84 | narrowing then widening is exact iff the value is in the target range |
| Packets.ToU8 | rust/src/packet/packet.rs:9-15 | tags are below 5 |
| Packets.FromU8 | rust/src/packet/packet.rs:68-69 | a byte names a packet type iff it is below 5, and then it is that type's tag |
| Packets.TagsRoundTrip | rust/src/packet/packet.rs:9-15 | tag decoding inverts tag encoding, and distinct types have distinct tags |
| Packets.ReliabilityIsPerType | rust/src/packet/packet.rs:36-44 | reliability depends only on the packet type, as its wire type's flag |
| Packets.Id | rust/src/packet/packet.rs:26-34 | the variant's type tag; injectivity of the tags is in `TagsRoundTrip` |
| Packets.IsReliable | rust/src/packet/packet.rs:36-44 | the variant's `IS_RELIABLE` flag; see `ReliabilityIsPerType` |
| Packets.Payload | rust/src/packet/packet.rs:48-54 | the variant's payload encoding; its round trip is in `DecodeEncode` |
| Packets.Encode | rust/src/packet/packet.rs:46-56 | the frame is the type tag followed by the payload |
| Packets.Wrap | rust/src/packet/packet.rs:72-78 | a payload decode error is propagated unchanged, success is wrapped in the variant |
| Packets.Decode | rust/src/packet/packet.rs:58-80 | empty input and tags ≥ 5 are the two framing errors; a success carries the packet whose tag is the first byte |
| Packets.DecodeEncode | rust/src/packet/packet.rs:46-80 | if every payload codec round-trips, decoding an encoded packet returns it |
| Packets.DecodeDelegatesToPayload | rust/src/packet/packet.rs:63-79 | for a known tag the result is the payload codec's decode of the rest, wrapped |
| Packets.NullFrameIsOneByte | rust/src/packet/packet.rs:58-80 | the null packet is decoded from exactly the frame [4] |
| NetworkHandlers.BoundedPush | rust/src/network_handler.rs:297-304 | a push keeps the queue within 1000 lines |
| NetworkHandlers.BoundedPushKeepsNewest | rust/src/network_handler.rs:297-304 | the new line is last; below 1000 nothing is lost, at 1000 exactly the oldest is dropped |
| NetworkHandlers.DrainCount | rust/src/network_handler.rs:284-295 | a frame prints at most 10 lines, fewer only when the queue runs out |
| NetworkHandlers.FullPool | rust/src/network_handler.rs:129 | the pool starts with 100 ids |
| NetworkHandlers.FullPoolHasShape | rust/src/network_handler.rs:129 | the fresh pool is 99 down to 0, so the first pop yields 0; with an empty map the session invariant holds |
| NetworkHandlers.PoolAndClientsDisjoint | rust/src/network_handler.rs:452-454 | under the invariant mapped ids and pooled ids are disjoint, and of the ids 0–99 the pool holds exactly those not yet handed out |
| NetworkHandlers.OnServerEvent | rust/src/network_handler.rs:429-488 | each connection event keeps the pool a prefix of the full pool and removes at most its top id |
| NetworkHandlers.ServerEventsFold | rust/src/network_handler.rs:429-488 | a tick's events keep the pool shape |
| NetworkHandlers.OnServerMessage | rust/src/network_handler.rs:491-517 | one inbound message; see `ServerMessagesOnlyAddPackets`, `DroppedMessagesChangeOnlyDebug` |
| NetworkHandlers.ServerTickOf | rust/src/network_handler.rs:429-517 | events then messages of one server tick; see `ServerEventsKeepInvariant`, `ServerEventsHandOutConsecutiveIds`, `ServerMessagesOnlyAddPackets` |
| NetworkHandlers.ServerEmissions | rust/src/network_handler.rs:521-531 | one notification per queued connect, disconnect and packet |
| NetworkHandlers.ConnectingIsAcceptedWhilePoolLasts | rust/src/network_handler.rs:432-444 | None→Connecting is accepted while the pool is non-empty, else closed "Server is full"; pool and map unchanged |
| NetworkHandlers.ConnectedTakesNextId | rust/src/network_handler.rs:448-463 | Connecting→Connected maps the connection to the next id (100 − pool size) and queues a connect; with an empty pool it closes "Server is full" |
| NetworkHandlers.ClosingRemovesMapping | rust/src/network_handler.rs:465-480 | a close removes the mapping, queues its id if there was one, always closes with "", and returns no id to the pool |
| NetworkHandlers.RestartWithStaleClientReusesId | rust/src/network_handler.rs:127-152 | after a restart a leftover connection and the first new peer both hold id 0 |
| NetworkHandlers.ServerEventKeepsInvariant | rust/src/network_handler.rs:429-488 | each event keeps ids unique, handed out and disjoint from the pool; the pool only loses its top |
| NetworkHandlers.ServerEventsKeepInvariant | rust/src/network_handler.rs:429-488 | a whole tick of events keeps the session invariant and never returns an id to the pool |
| NetworkHandlers.ServerEventPopsAtMostOne | rust/src/network_handler.rs:452-457 | an event pops at most one id, and a popped id is queued as a connect |
| NetworkHandlers.ServerEventsHandOutConsecutiveIds | rust/src/network_handler.rs:452-457 | the connects of one tick are exactly the popped ids, consecutive and increasing |
| NetworkHandlers.ServerMessagesOnlyAddPackets | rust/src/network_handler.rs:491-517 | messages change only the debug queue and packet list; each packet carries its sender's mapped id |
| NetworkHandlers.DroppedMessagesChangeOnlyDebug | rust/src/network_handler.rs:491-517 | a message from an unmapped connection or failing to decode only adds a debug line |
| NetworkHandlers.ServerEmissionsAreOrdered | rust/src/network_handler.rs:521-531 | all connects precede all disconnects, which precede all packets |
| NetworkHandlers.ClientEmissions | rust/src/network_handler.rs:372-384 | one notification per flag raised and per packet |
| NetworkHandlers.OnClientMessage | rust/src/network_handler.rs:329-344 | one inbound message: a decoded packet is queued for emission, a failure adds a debug line |
| NetworkHandlers.OnClientEvent | rust/src/network_handler.rs:348-370 | one connection event: sets the connect or disconnect flag; see `ClientEventsSetFlags` |
| NetworkHandlers.ClientTickOf | rust/src/network_handler.rs:326-370 | messages then events of one client tick; see `ClientEventsSetFlags` |
| NetworkHandlers.ClientEventsSetFlags | rust/src/network_handler.rs:348-370 | the disconnect flag is raised iff some event closes, the connect flag iff some event is Connecting→Connected |
| NetworkHandlers.ClientEmissionsAreOrdered | rust/src/network_handler.rs:372-384 | the disconnect comes first, then the connect, then the packets |
| NetworkHandlers.NetworkHandler.constructor | rust/src/network_handler.rs:77-101 | not connected, no sockets, empty pool, map and queue |
| NetworkHandlers.NetworkHandler.StartServer | rust/src/network_handler.rs:127-152 | server role and full pool; panics exactly when the port is outside the u16 range, leaving socket and connected flag as they were; otherwise connected with a socket iff listen succeeded; map kept, invariant only if it was empty |
| NetworkHandlers.NetworkHandler.StartClient | rust/src/network_handler.rs:173-187 | client role; panics exactly when the port is outside the u16 range, leaving socket and connected flag as they were; otherwise connected with a socket iff connect succeeded |
| NetworkHandlers.NetworkHandler.DisconnectClient | rust/src/network_handler.rs:209-214 | drops the client socket, clears `is_connected`, emits a disconnect |
| NetworkHandlers.NetworkHandler.DestroyServer | rust/src/network_handler.rs:216-220 | drops the server socket and clears `is_connected` |
| NetworkHandlers.NetworkHandler.QueueDebug | rust/src/network_handler.rs:297-304 | the queue becomes `BoundedPush` of the old queue and stays within 1000 |
| NetworkHandlers.NetworkHandler.QueueDebugMessage | rust/src/network_handler.rs:29-39 | the transport's line is pushed on the bounded queue |
| NetworkHandlers.NetworkHandler.ProcessDebugMessages | rust/src/network_handler.rs:284-295 | prints the oldest `DrainCount` lines in FIFO order and leaves the rest queued |
| NetworkHandlers.NetworkHandler.HandleEvents | rust/src/network_handler.rs:306-316 | nothing happens when not connected; a server runs its tick (state, calls and emissions equal `ServerTickOf`/`ServerEmissions`), a client runs its tick (`ClientTickOf`/`ClientEmissions`, a close dropping the socket); a missing socket panics and changes nothing |
| NetworkHandlers.NetworkHandler.HandleServerEvents | rust/src/network_handler.rs:387-532 | without a socket it panics; otherwise new pool, map, queue, calls and emissions equal `ServerTickOf` and `ServerEmissions` |
| NetworkHandlers.NetworkHandler.OnServerConnectionEvent | rust/src/network_handler.rs:429-488 | one event updates state and tick lists as `OnServerEvent` |
| NetworkHandlers.NetworkHandler.OnServerMessageReceived | rust/src/network_handler.rs:491-517 | one message updates queue and packets as `OnServerMessage` |
| NetworkHandlers.NetworkHandler.EmitServerNotifications | rust/src/network_handler.rs:519-531 | the emission loops produce `ServerEmissions` |
| NetworkHandlers.NetworkHandler.HandleClientEvents | rust/src/network_handler.rs:318-385 | without a socket it panics; otherwise queue and emissions follow `ClientTickOf`, and a close clears the socket and `is_connected` |
| NetworkHandlers.NetworkHandler.OnClientConnectionEvent | rust/src/network_handler.rs:348-370 | one event updates queue and flags as `OnClientEvent` |
| NetworkHandlers.NetworkHandler.EmitClientNotifications | rust/src/network_handler.rs:372-384 | the emissions produce `ClientEmissions` |

## Left out

- The GameNetworkingSockets transport: sockets, `listen`/`connect`, polling, callbacks and sending. Its events and messages are inputs and its `accept`/`close_connection` calls are outputs. The transport's cap of 100 events and 100 messages per poll is not modelled; each tick handles the whole batch it is given.
- `_send_packet`, `send_packet`, `_broadcast_packet` and `broadcast_packet` (rust/src/network_handler.rs:222-282). They only encode a packet (modelled as `Packets.Encode`) and hand it to the transport with the packet's reliability flag (modelled as `Packets.IsReliable`).
- IP-address parsing and the public `start_*` wrappers (rust/src/network_handler.rs:154-171, 189-208). An unparsable address panics before `_start_server`/`_start_client` run; the address itself is not kept, since the model reduces a socket to whether it exists.
- The transport's answer to `accept` (rust/src/network_handler.rs:440-441). The debug line records the accepted connection instead of that answer.
- The 10-second connection-statistics dump in `handle_server_events` (rust/src/network_handler.rs:393-419). It depends on the wall clock and on foreign status calls.
- The `Mutex`/`Arc`/`OnceLock` global debug queue and the callbacks from the transport's thread. The queue is one sequential field of the handler, and `QueueDebugMessage` always finds it. Lock failures are not modelled.
- Godot engine glue: `Gd` wrappers, `Variant`, signals as engine calls, `as_gd`, `godot_print!`/`godot_warn!` logging (only the debug queue is kept), and the physics-tick hook.
- Floating point:
  - the jitter buffer's f64 `delta`, which also carries a u32 subtraction that can underflow (rust/src/data_structures/jitter_buffer.rs:65-69). Its `lastReceivedTimestampUs` update is kept.
  - the ring buffer's f64 `alpha`, kept as the exact fraction `alphaNum / alphaDen`.
  - `extrapolation_s`, kept in microseconds.
- i64 overflow: timestamps, sequence arguments and differences are unbounded integers. A wrap of i64 arithmetic (for example `now_us - buffer_delay_us`) is not modelled.
- The per-type payload layouts (the postcard serialization of the generated wire structs) and the packet schema files. Their codecs are abstract table entries whose round trip is assumed. The null packet's `IS_RELIABLE` flag is a table entry, because rust/src/packet/null.rs is not part of this model.
- The f32/f64 and vector conversions in rust/src/packet/conversions.rs and rust/src/packet/macros.rs (floating point).
- SeqRingBuffer.SequenceRingBuffer.Insert: the `server_timestamp_us` argument is accepted and ignored, as in the source.
