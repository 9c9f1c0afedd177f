/**
 The isolated I/O example's loop-back test. The two digital outputs are
 wired to the two digital inputs; each round drives the outputs one way
 (DO0 high, DO1 low), reads both inputs, drives them the other way, and
 reads again. A round passes when both readings show the driven pattern.
 The test ends green at the first passing round and red after three
 failing rounds.

 Each input read is the raw input-register byte the expander returns;
 the ten-millisecond settling delays are left out.
 */
module IsolationTest {
  import opened Bytes
  import opened I2cBus
  import opened IoExtension

  const MAX_ROUNDS: nat := 3

  /** The four input-register bytes one round reads: DI0 and DI1 with
      the first pattern driven, then DI0 and DI1 with the second. */
  datatype Readings = Readings(firstDi0: byte, firstDi1: byte, secondDi0: byte, secondDi1: byte)

  datatype Verdict = Green | Red

  /** The independent statement of a passing round: the inputs follow
      the outputs in both patterns. */
  predicate RoundPasses(r: Readings) {
    && BitSet(r.firstDi0, DI0) && !BitSet(r.firstDi1, DI1)
    && !BitSet(r.secondDi0, DI0) && BitSet(r.secondDi1, DI1)
  }

  /** One half of a round: drive DO0 and DO1 to the given levels (0 or
      1), then read DI0 and DI1 from the two input-register bytes. The
      half passes when each input reads back the level its output was
      driven to. */
  function Phase(d: Device, level0: byte, level1: byte, raw0: byte, raw1: byte): (res: (Device, bool, seq<Op>))
    requires level0 <= 1 && level1 <= 1
    ensures res.1 <==> (BitSet(raw0, DI0) <==> level0 == 1) && (BitSet(raw1, DI1) <==> level1 == 1)
    ensures |res.2| == 4
    ensures (BitSet(res.0.lastIo, DO0) <==> level0 == 1) && (BitSet(res.0.lastIo, DO1) <==> level1 == 1)
    ensures forall p :: 0 <= p < 8 && p != DO0 && p != DO1 ==> (BitSet(res.0.lastIo, p) <==> BitSet(d.lastIo, p))
  {
    var (d1, w1) := Output(d, DO0, level0);
    var (d2, w2) := Output(d1, DO1, level1);
    var (_, a, r1) := Input(d2, DI0, raw0);
    var (_, b, r2) := Input(d2, DI1, raw1);
    (d2, a == level0 && b == level1, w1 + w2 + r1 + r2)
  }

  /** One round as the example performs it: the first pattern, then the
      second, counting in `DI_flag` each pattern read back as driven. */
  function Round(d: Device, r: Readings): (res: (Device, nat, seq<Op>))
    ensures res.1 <= 2
    ensures res.1 >= 2 <==> RoundPasses(r)
    ensures |res.2| == 8
    ensures !BitSet(res.0.lastIo, DO0) && BitSet(res.0.lastIo, DO1)
    ensures forall p :: 0 <= p < 8 && p != DO0 && p != DO1 ==> (BitSet(res.0.lastIo, p) <==> BitSet(d.lastIo, p))
  {
    var (d1, first, o1) := Phase(d, 1, 0, r.firstDi0, r.firstDi1);
    var (d2, second, o2) := Phase(d1, 0, 1, r.secondDi0, r.secondDi1);
    var flag: nat := (if first then 1 else 0) + (if second then 1 else 0);
    (d2, flag, o1 + o2)
  }

  /** The test loop: rounds run until one passes (green) or the third
      fails (red). `rounds` holds what each possible round reads; the
      result says how many rounds ran. */
  method RunTest(d0: Device, rounds: seq<Readings>) returns (verdict: Verdict, used: nat, d: Device, ops: seq<Op>)
    requires |rounds| >= MAX_ROUNDS
    ensures 1 <= used <= MAX_ROUNDS && |ops| == 8 * used
    ensures verdict == Green <==> exists k :: 0 <= k < MAX_ROUNDS && RoundPasses(rounds[k])
    ensures forall k :: 0 <= k < used - 1 ==> !RoundPasses(rounds[k])
    ensures verdict == Green ==> RoundPasses(rounds[used - 1])
    ensures verdict == Red ==> used == MAX_ROUNDS
    ensures !BitSet(d.lastIo, DO0) && BitSet(d.lastIo, DO1)
  {
    var num := 0;
    d, ops := d0, [];
    while true
      invariant num < MAX_ROUNDS && |ops| == 8 * num
      invariant forall k :: 0 <= k < num ==> !RoundPasses(rounds[k])
      decreases MAX_ROUNDS - num
    {
      var (d', flag, o) := Round(d, rounds[num]);
      d, ops := d', ops + o;
      if flag >= 2 {
        verdict, used := Green, num + 1;
        return;
      }
      num := num + 1;
      if num == MAX_ROUNDS {
        verdict, used := Red, num;
        return;
      }
    }
  }

  /** A round that passes only its first pattern, followed by one that
      passes only its second, does not add up to a pass: the count starts
      again each round. */
  lemma HalfPassesDoNotAccumulate(d: Device)
    ensures Round(d, Readings(0x01, 0x00, 0x01, 0x00)).1 == 1
    ensures Round(d, Readings(0x00, 0x00, 0x00, 0x20)).1 == 1
    ensures !RoundPasses(Readings(0x01, 0x00, 0x01, 0x00)) && !RoundPasses(Readings(0x00, 0x00, 0x00, 0x20))
  {
    assert BitSet(0x01, DI0) && !BitSet(0x00, DI1) && BitSet(0x20, DI1);
  }
}
