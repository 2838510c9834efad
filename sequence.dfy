/** Wraparound-safe arithmetic over the 16-bit cyclic sequence-number space,
    and the `PacketSequence` counter built on it. */
module Sequence {
  import opened Common

  const SEQUENCE_MODULO: int := 65536
  const SEQUENCE_HALF_RANGE: int := SEQUENCE_MODULO / 2

  /** Signed cyclic distance from `b` to `a`: the raw difference folded once
      into [-32768, 32768]. */
  function SeqDiff(a: u16, b: u16): (d: int)
    ensures -SEQUENCE_HALF_RANGE <= d <= SEQUENCE_HALF_RANGE
    ensures (d - (a - b)) % SEQUENCE_MODULO == 0
    ensures d == 0 <==> a == b
  {
    var diff := a - b;
    if diff > SEQUENCE_HALF_RANGE then diff - SEQUENCE_MODULO
    else if diff < -SEQUENCE_HALF_RANGE then diff + SEQUENCE_MODULO
    else diff
  }

  predicate SeqIsNewer(a: u16, b: u16) {
    SeqDiff(a, b) > 0
  }

  lemma SeqDiffSelf(a: u16)
    ensures SeqDiff(a, a) == 0 && !SeqIsNewer(a, a)
  {
  }

  /** The distance is antisymmetric for every pair, including the pairs
      exactly half the space apart (which fold to +32768 and -32768). */
  lemma SeqDiffAntisymmetric(a: u16, b: u16)
    ensures SeqDiff(b, a) == -SeqDiff(a, b)
  {
  }

  /** At distance exactly half the space the numerically larger value is the
      newer one. */
  lemma HalfRangeTieBreak(a: u16, b: u16)
    requires SeqDiff(a, b) == SEQUENCE_HALF_RANGE || SeqDiff(a, b) == -SEQUENCE_HALF_RANGE
    ensures SeqIsNewer(a, b) <==> a > b
  {
  }

  /** Distinct sequence numbers are strictly ordered: exactly one is newer. */
  lemma NewerIsTotalAndAsymmetric(a: u16, b: u16)
    requires a != b
    ensures SeqIsNewer(a, b) != SeqIsNewer(b, a)
  {
    SeqDiffAntisymmetric(a, b);
  }

  // ---------------------------------------------------------------------
  // Cursor arithmetic used by the buffers (`u16::wrapping_add`).

  /** `x.wrapping_add(1)`. */
  function Inc(x: u16): (r: u16)
    ensures r == (x + 1) % SEQUENCE_MODULO
  {
    if x == U16_MAX then 0 else x + 1
  }

  /** `a` advanced by `k` steps, with wrap-around. */
  function Add(a: u16, k: nat): (r: u16)
    requires k <= SEQUENCE_MODULO
    ensures r == (a + k) % SEQUENCE_MODULO
  {
    if a + k < SEQUENCE_MODULO then a + k else a + k - SEQUENCE_MODULO
  }

  /** Number of forward steps from `a` to `b` (`b.wrapping_sub(a)`). */
  function Dist(a: u16, b: u16): (d: nat)
    ensures d < SEQUENCE_MODULO
    ensures Add(a, d) == b
  {
    if a <= b then b - a else b - a + SEQUENCE_MODULO
  }

  lemma AddSucc(a: u16, k: nat)
    requires k < SEQUENCE_MODULO
    ensures Add(a, k + 1) == Inc(Add(a, k))
  {
  }

  /** Within one lap, `a + k` reaches `b` exactly when `k` is the distance. */
  lemma AddReaches(a: u16, b: u16, k: nat)
    requires k < SEQUENCE_MODULO
    ensures Add(a, k) == b <==> k == Dist(a, b)
  {
  }

  /** The forward distance shrinks by the steps already taken. */
  lemma DistAfterAdd(a: u16, b: u16, j: nat)
    requires j <= Dist(a, b)
    ensures Dist(Add(a, j), b) == Dist(a, b) - j
  {
  }

  /** Stopping points along one forward walk from `a` to `b` compose: if
      `m` lies on it and `r` lies on the rest, `r` lies on the whole walk. */
  lemma DistChain(a: u16, m: u16, r: u16, b: u16)
    requires Dist(a, m) + Dist(m, b) == Dist(a, b)
    requires Dist(m, r) + Dist(r, b) == Dist(m, b)
    ensures Dist(a, r) + Dist(r, b) == Dist(a, b)
  {
  }

  /** Walking from `a`, the position one past `b` is reached only after
      every position up to `b`. */
  lemma AddStopsPastEnd(a: u16, b: u16, j: nat)
    requires 1 <= j <= Dist(a, b) + 1
    ensures Add(a, j) == Inc(b) <==> j == Dist(a, b) + 1
  {
  }

  /** A short walk forward from `a` is seen by `seq_diff` as its length. */
  lemma SeqDiffOfAdd(a: u16, k: nat)
    requires k < SEQUENCE_HALF_RANGE
    ensures SeqDiff(Add(a, k), a) == k
  {
  }

  // ---------------------------------------------------------------------

  /** The scripting-side packet counter: an i64 field starting at -1. */
  class PacketSequence {
    var sequence: int

    ghost predicate Valid()
      reads this
    {
      -1 <= sequence <= U16_MAX
    }

    constructor ()
      ensures Valid() && sequence == -1
    {
      sequence := -1;
    }

    function Current(): (r: int)
      reads this
      ensures r == sequence
    {
      sequence
    }

    /** Advances the counter modulo 65536 and returns the new value. */
    method Next() returns (r: int)
      requires Valid()
      modifies this
      ensures Valid()
      ensures sequence == (old(sequence) + 1) % SEQUENCE_MODULO
      ensures r == sequence && IsU16(r)
    {
      sequence := (sequence + 1) % SEQUENCE_MODULO;
      r := sequence;
    }

    /** Both arguments converted with `u16::from_i64`, or nothing. */
    static function ValidSequences(a: int, b: int): (r: Option<(u16, u16)>)
      ensures r.Some? <==> IsU16(a) && IsU16(b)
      ensures r.Some? ==> r.value.0 == a && r.value.1 == b
    {
      if !IsU16(a) then None
      else if !IsU16(b) then None
      else Some((a, b))
    }

    static function Diff(a: int, b: int): int {
      match ValidSequences(a, b)
      case None => -1
      case Some((x, y)) => SeqDiff(x, y)
    }

    static predicate IsNewer(a: int, b: int) {
      match ValidSequences(a, b)
      case None => false
      case Some((x, y)) => SeqIsNewer(x, y)
    }

    static predicate IsNewerOrEqual(a: int, b: int) {
      match ValidSequences(a, b)
      case None => false
      case Some((x, y)) => SeqIsNewer(x, y) || x == y
    }
  }

  /** A fresh counter yields 0 on its first `next`, then 1. */
  method FirstNextYieldsZero() returns (first: int, second: int)
    ensures first == 0 && second == 1
  {
    var p := new PacketSequence();
    first := p.Next();
    second := p.Next();
    assert p.Current() == second;
  }

  /** Out-of-range arguments give the fallback values -1, false, false. */
  lemma InvalidArgumentsFallBack(a: int, b: int)
    requires !IsU16(a) || !IsU16(b)
    ensures PacketSequence.Diff(a, b) == -1
    ensures !PacketSequence.IsNewer(a, b) && !PacketSequence.IsNewerOrEqual(a, b)
  {
  }

  /** On valid arguments the static helpers agree with `seq_diff`, and
      "newer or equal" is "newer" or "equal". */
  lemma ValidArgumentsAgree(a: int, b: int)
    requires IsU16(a) && IsU16(b)
    ensures PacketSequence.Diff(a, b) == SeqDiff(a, b)
    ensures PacketSequence.IsNewer(a, b) == SeqIsNewer(a, b)
    ensures PacketSequence.IsNewerOrEqual(a, b) == (PacketSequence.IsNewer(a, b) || a == b)
  {
  }

  /** On valid arguments "newer or equal" is a total relation. */
  lemma NewerOrEqualTotal(a: int, b: int)
    requires IsU16(a) && IsU16(b)
    ensures PacketSequence.IsNewerOrEqual(a, b) || PacketSequence.IsNewerOrEqual(b, a)
  {
    if a != b {
      NewerIsTotalAndAsymmetric(a, b);
    }
  }
}
