/** UUIDv7 generation (backend/src/ade_api/common/ids.py), after sections 5.7 and 6.2 of
    RFC 9562.  Clock readings and random bytes are inputs. */
module Uuid7 {
  import opened Wrappers
  import opened Arithmetic

  const RAND_SPACE: nat := 0x400_0000_0000_0000_0000   // 2^74
  const TS_SPACE: nat := 0x1_0000_0000_0000            // 2^48
  const TWO_62: nat := 0x4000_0000_0000_0000
  const TWO_64: nat := 0x1_0000_0000_0000_0000
  const TWO_76: nat := 0x1000_0000_0000_0000_0000
  const TWO_80: nat := 0x1_0000_0000_0000_0000_0000

  // ----- Bitwise or

  /** `a | b`, bit by bit. */
  function Or(a: nat, b: nat): (r: nat) {
    if a == 0 && b == 0 then 0 else 2 * Or(a / 2, b / 2) + Max(a % 2, b % 2)
  }

  lemma {:induction false} OrZero(b: nat)
    ensures Or(0, b) == b
  {
    if b > 0 {
      OrZero(b / 2);
    }
  }

  /** Bits that are apart are added by `|`. */
  lemma {:induction false} OrOfApart(a: nat, b: nat, k: nat)
    requires b < Pow2(k)
    ensures Or(a * Pow2(k), b) == a * Pow2(k) + b
    decreases k
  {
    if k == 0 {
      OrOfMultiple(a);
    } else {
      var half := a * Pow2(k - 1);
      assert a * Pow2(k) == 2 * half;
      OrOfApart(a, b / 2, k - 1);
      if half == 0 && b == 0 {
        OrZero(0);
      } else {
        assert (2 * half) / 2 == half && (2 * half) % 2 == 0;
      }
    }
  }

  lemma {:induction false} OrOfMultiple(a: nat)
    ensures Or(a, 0) == a
  {
    if a > 0 {
      OrOfMultiple(a / 2);
    }
  }

  lemma {:induction false} Pow2Sum(m: nat, n: nat)
    ensures Pow2(m + n) == Pow2(m) * Pow2(n)
    decreases n
  {
    if n > 0 {
      Pow2Sum(m, n - 1);
      DoubleProduct(Pow2(m), Pow2(n - 1));
    }
  }

  lemma DoubleProduct(a: nat, b: nat)
    ensures 2 * (a * b) == a * (2 * b)
  {
  }

  lemma Pow2Product(m: nat, n: nat, p: nat, q: nat)
    requires Pow2(m) == p && Pow2(n) == q
    ensures Pow2(m + n) == p * q
  {
    Pow2Sum(m, n);
  }

  lemma Powers()
    ensures Pow2(62) == TWO_62 && Pow2(64) == TWO_64 && Pow2(76) == TWO_76 && Pow2(80) == TWO_80
  {
    assert Pow2(2) == 4 && Pow2(4) == 16 by { assert Pow2(3) == 8; }
    Pow2Product(4, 4, 16, 16);
    Pow2Product(4, 8, 16, 256);
    Pow2Product(4, 12, 16, 4096);
    Pow2Product(16, 16, 0x1_0000, 0x1_0000);
    Pow2Product(32, 32, 0x1_0000_0000, 0x1_0000_0000);
    Pow2Product(2, 62, 4, Pow2(62));
    Pow2Product(64, 12, TWO_64, 4096);
    Pow2Product(76, 4, TWO_76, 16);
  }

  // ----- The identifier of a timestamp and 74 random bits

  /** The fields side by side: 48 bits of timestamp, version 7, 12 random bits, variant 10,
      62 random bits. */
  function Encode(ts: int, rand: nat): (value: nat) {
    (ts % TS_SPACE) * TWO_80 + 7 * TWO_76 + (rand / TWO_62 % 4096) * TWO_64 + 2 * TWO_62 + rand % TWO_62
  }

  /** The shifts and ors put the fields there. */
  method Assemble(ts: int, rand: nat) returns (value: nat)
    requires rand < RAND_SPACE
    ensures value == Encode(ts, rand)
  {
    var randA := rand / TWO_62;
    var randB := rand % TWO_62;
    Powers();
    value := (ts % TS_SPACE) * TWO_80;
    OrOfApart(ts % TS_SPACE, 7 * TWO_76, 80);
    value := Or(value, 7 * TWO_76);
    OrField(value, 16 * (ts % TS_SPACE) + 7, (randA % 4096) * TWO_64, 76, TWO_76);
    value := Or(value, (randA % 4096) * TWO_64);
    OrField(value, 4096 * (16 * (ts % TS_SPACE) + 7) + randA % 4096, 2 * TWO_62, 64, TWO_64);
    value := Or(value, 2 * TWO_62);
    OrField(value, 4 * (4096 * (16 * (ts % TS_SPACE) + 7) + randA % 4096) + 2, randB, 62, TWO_62);
    value := Or(value, randB);
  }

  lemma OrField(value: nat, a: nat, b: nat, k: nat, p: nat)
    requires p == Pow2(k) && b < p && value == a * p
    ensures Or(value, b) == value + b
  {
    OrOfApart(a, b, k);
  }

  lemma Quotient(value: nat, high: nat, low: nat, p: nat)
    requires low < p && value == high * p + low
    ensures value / p == high && value % p == low
  {
    ScaleGap(value / p, high, p);
    ScaleGap(high, value / p, p);
  }

  lemma ScaleGap(a: int, b: int, p: nat)
    ensures a < b ==> a * p + p <= b * p
  {
    if a < b {
      ScaleMonotone(p, a + 1, b);
    }
  }

  /** Every identifier fits in 128 bits and gives its five fields back: version 7, variant 10,
      the low 48 bits of the timestamp and both parts of the random bits. */
  lemma FieldsOfIdentifier(ts: int, rand: nat)
    requires rand < RAND_SPACE
    ensures var value := Encode(ts, rand);
            && value < TS_SPACE * TWO_80
            && value / TWO_80 == ts % TS_SPACE
            && value / TWO_76 % 16 == 7
            && value / TWO_64 % 4096 == rand / TWO_62
            && value / TWO_62 % 4 == 2
            && value % TWO_62 == rand % TWO_62
  {
    var value, t, a, b := Encode(ts, rand), ts % TS_SPACE, rand / TWO_62, rand % TWO_62;
    Quotient(value, 4 * (4096 * (16 * t + 7) + a) + 2, b, TWO_62);
    Quotient(value, 4096 * (16 * t + 7) + a, 2 * TWO_62 + b, TWO_64);
    Quotient(4096 * (16 * t + 7) + a, 16 * t + 7, a, 4096);
    Quotient(value, 16 * t + 7, a * TWO_64 + 2 * TWO_62 + b, TWO_76);
    Quotient(value, t, 7 * TWO_76 + a * TWO_64 + 2 * TWO_62 + b, TWO_80);
  }

  /** Identifiers are ordered as timestamp and then random bits, whatever these are. */
  lemma OrderOfIdentifiers(ts1: int, rand1: nat, ts2: int, rand2: nat)
    requires rand1 < RAND_SPACE && rand2 < RAND_SPACE
    ensures Encode(ts1, rand1) < Encode(ts2, rand2)
       <==> ts1 % TS_SPACE < ts2 % TS_SPACE || (ts1 % TS_SPACE == ts2 % TS_SPACE && rand1 < rand2)
  {
  }

  /** The 74 random bits of an identifier, around its variant. */
  function RandomOf(value: nat): nat {
    value / TWO_64 % 4096 * TWO_62 + value % TWO_62
  }

  function TimeOf(value: nat): nat {
    value / TWO_80
  }

  lemma PartsOf(ts: int, rand: nat)
    requires rand < RAND_SPACE
    ensures RandomOf(Encode(ts, rand)) == rand && TimeOf(Encode(ts, rand)) == ts % TS_SPACE
  {
    FieldsOfIdentifier(ts, rand);
  }

  // ----- The generator

  /** `_UUID7_LAST_TS_MS` and `_UUID7_LAST_RAND`. */
  datatype State = State(ts: int, rand: nat)

  /** One call: the clock when it starts, the random bits for that, and, should the counter
      wrap, the readings while it waits and the random bits drawn then. */
  datatype Call = Call(now: int, entropy: nat, readings: seq<int>, entropy2: nat)

  /** The first reading past `ts`. */
  function FirstPast(readings: seq<int>, ts: int): Option<int> {
    if readings == [] then None
    else if readings[0] > ts then Some(readings[0])
    else FirstPast(readings[1..], ts)
  }

  predicate Wraps(s: State, call: Call) {
    call.now <= s.ts && (s.rand + 1) % RAND_SPACE == 0
  }

  /** The wait ends because the clock gets past the last timestamp at some reading. */
  predicate Ends(s: State, call: Call) {
    Wraps(s, call) ==> FirstPast(call.readings, s.ts).Some?
  }

  function Advance(s: State, call: Call): State
    requires Ends(s, call)
  {
    if call.now > s.ts then State(call.now, call.entropy % RAND_SPACE)
    else if Wraps(s, call) then State(FirstPast(call.readings, s.ts).value, call.entropy2 % RAND_SPACE)
    else State(s.ts, s.rand + 1)
  }

  function Identifier(s: State): nat {
    Encode(s.ts, s.rand)
  }

  /** The first reading past the last timestamp, and none before it is. */
  lemma {:induction false} FirstPastIsPast(readings: seq<int>, ts: int) returns (k: nat)
    requires FirstPast(readings, ts).Some?
    ensures k < |readings| && readings[k] == FirstPast(readings, ts).value > ts
    ensures forall j :: 0 <= j < k ==> readings[j] <= ts
  {
    k := 0;
    if readings[0] <= ts {
      k := FirstPastIsPast(readings[1..], ts);
      k := k + 1;
    }
  }

  class Generator {
    var lastTs: int
    var lastRand: nat

    predicate Valid()
      reads this
    {
      lastRand < RAND_SPACE
    }

    constructor ()
      ensures Valid() && lastTs == -1 && lastRand == 0
    {
      lastTs, lastRand := -1, 0;
    }

    /** `generate_uuid7`. */
    method Generate(call: Call) returns (value: nat)
      requires Valid() && Ends(State(lastTs, lastRand), call)
      modifies this
      ensures Valid() && State(lastTs, lastRand) == Advance(old(State(lastTs, lastRand)), call)
      ensures value == Identifier(State(lastTs, lastRand))
      ensures call.now > old(lastTs) ==> TimeOf(value) == call.now % TS_SPACE && RandomOf(value) == call.entropy % RAND_SPACE
      ensures call.now <= old(lastTs) && old(lastRand) + 1 < RAND_SPACE ==>
        TimeOf(value) == old(lastTs) % TS_SPACE && RandomOf(value) == old(lastRand) + 1
      ensures call.now <= old(lastTs) && old(lastRand) + 1 == RAND_SPACE ==>
        RandomOf(value) == call.entropy2 % RAND_SPACE && TimeOf(value) == lastTs % TS_SPACE && FirstPast(call.readings, old(lastTs)) == Some(lastTs)
    {
      var ts := call.now;
      if ts > lastTs {
        lastTs, lastRand := ts, call.entropy % RAND_SPACE;
      } else {
        ts, lastRand := lastTs, (lastRand + 1) % RAND_SPACE;
        if lastRand == 0 {
          var i := 0;
          while call.readings[i] <= lastTs
            invariant 0 <= i < |call.readings| && FirstPast(call.readings[i..], lastTs) == FirstPast(call.readings, lastTs)
            invariant FirstPast(call.readings, lastTs).Some?
            decreases |call.readings| - i
          {
            i := i + 1;
          }
          ts := call.readings[i];
          lastTs, lastRand := ts, call.entropy2 % RAND_SPACE;
        }
      }
      value := Assemble(ts, lastRand);
      PartsOf(ts, lastRand);
    }
  }

  /** The clock may stall or go back between calls, even to before 1970; no reading is past
      the 48-bit range. */
  predicate InRange(call: Call) {
    call.now < TS_SPACE && forall i :: 0 <= i < |call.readings| ==> call.readings[i] < TS_SPACE
  }

  /** All calls, none as late as the very last timestamp. */
  predicate AllInRange(calls: seq<Call>) {
    forall i :: 0 <= i < |calls| ==>
      calls[i].now < TS_SPACE - 1 && forall j :: 0 <= j < |calls[i].readings| ==> calls[i].readings[j] < TS_SPACE - 1
  }

  predicate ValidState(s: State) {
    -1 <= s.ts < TS_SPACE && s.rand < RAND_SPACE
  }

  /** Each call moves on: a later timestamp, or the same one with one more random value. */
  lemma AdvanceMovesOn(s: State, call: Call)
    requires ValidState(s) && InRange(call) && Ends(s, call)
    ensures var next := Advance(s, call);
            && ValidState(next) && (0 <= call.now || 0 <= s.ts ==> 0 <= next.ts)
            && (s.ts < next.ts || (s.ts == next.ts && next.rand == s.rand + 1))
            && (!Wraps(s, call) ==> next.ts == Max(s.ts, call.now))
  {
    if Wraps(s, call) {
      var k := FirstPastIsPast(call.readings, s.ts);
    }
  }

  /** What is drawn is what is used: after a reading past the last timestamp the first random
      bits, after a wrap the second, and else one more than the last. */
  lemma RandomIsDrawn(s: State, call: Call)
    requires s.rand < RAND_SPACE && Ends(s, call)
    ensures var value := Identifier(Advance(s, call));
            RandomOf(value) == if call.now > s.ts then call.entropy % RAND_SPACE
                               else if s.rand + 1 == RAND_SPACE then call.entropy2 % RAND_SPACE
                               else s.rand + 1
  {
    var next := Advance(s, call);
    PartsOf(next.ts, next.rand);
  }

  /** Two processes whose clocks read the same new millisecond give the same identifier exactly
      when they draw the same 74 bits. */
  lemma SameIdentifierIff(s: State, s': State, call: Call, call': Call)
    requires s.rand < RAND_SPACE && s'.rand < RAND_SPACE && call.now == call'.now && s.ts < call.now && s'.ts < call.now
    ensures Identifier(Advance(s, call)) == Identifier(Advance(s', call')) <==> call.entropy % RAND_SPACE == call'.entropy % RAND_SPACE
  {
    RandomIsDrawn(s, call);
    RandomIsDrawn(s', call');
  }

  predicate AllEnd(s: State, calls: seq<Call>)
    decreases |calls|
  {
    calls == [] || (Ends(s, calls[0]) && AllEnd(Advance(s, calls[0]), calls[1..]))
  }

  function Identifiers(s: State, calls: seq<Call>): (ids: seq<nat>)
    requires AllEnd(s, calls)
    ensures |ids| == |calls|
    decreases |calls|
  {
    if calls == [] then []
    else
      var next := Advance(s, calls[0]);
      [Identifier(next)] + Identifiers(next, calls[1..])
  }

  lemma {:induction false} AllAfter(s: State, calls: seq<Call>)
    requires ValidState(s) && 0 <= s.ts && AllEnd(s, calls) && forall i :: 0 <= i < |calls| ==> InRange(calls[i])
    ensures forall i :: 0 <= i < |calls| ==> Identifier(s) < Identifiers(s, calls)[i]
    decreases |calls|
  {
    if calls != [] {
      var next := Advance(s, calls[0]);
      AdvanceMovesOn(s, calls[0]);
      OrderOfIdentifiers(s.ts, s.rand, next.ts, next.rand);
      AllAfter(next, calls[1..]);
    }
  }

  /** Once the clock has read a time since 1970, over any number of calls with a clock that
      may stall, go back or jump, and any random bits, the identifiers strictly increase. */
  lemma {:induction false} IdentifiersIncrease(s: State, calls: seq<Call>, i: nat, j: nat)
    requires ValidState(s) && AllEnd(s, calls) && forall k :: 0 <= k < |calls| ==> InRange(calls[k])
    requires i < j < |calls| && (0 <= s.ts || 0 <= calls[0].now)
    ensures Identifiers(s, calls)[i] < Identifiers(s, calls)[j]
    decreases |calls|
  {
    var next := Advance(s, calls[0]);
    AdvanceMovesOn(s, calls[0]);
    if i == 0 {
      AllAfter(next, calls[1..]);
    } else {
      IdentifiersIncrease(next, calls[1..], i - 1, j - 1);
    }
  }

  // ----- Before 1970

  /** While the clock has only read times before 1970, the timestamp is the -1 it started as
      and the random value counts the calls. */
  lemma {:induction false} CountsBefore1970(r: nat, calls: seq<Call>, i: nat)
    requires r + |calls| < RAND_SPACE && i < |calls| && AllEnd(State(-1, r), calls)
    requires forall k :: 0 <= k < |calls| ==> calls[k].now < 0
    ensures Identifiers(State(-1, r), calls)[i] == Identifier(State(-1, r + 1 + i))
    decreases |calls|
  {
    assert Advance(State(-1, r), calls[0]) == State(-1, r + 1);
    if i > 0 {
      CountsBefore1970(r + 1, calls[1..], i - 1);
    }
  }

  /** The low 48 bits of -1 are all ones: any identifier with a real timestamp is smaller. */
  lemma RealTimeIsSmaller(s: State, r: nat)
    requires 0 <= s.ts < TS_SPACE - 1 && s.rand < RAND_SPACE && r < RAND_SPACE
    ensures Identifier(s) < Identifier(State(-1, r))
  {
    OrderOfIdentifiers(s.ts, s.rand, -1, r);
  }

  lemma {:induction false} FallsBack(r: nat, calls: seq<Call>, top: nat) returns (j: nat)
    requires r < RAND_SPACE && top < RAND_SPACE && AllEnd(State(-1, r), calls) && AllInRange(calls)
    requires RAND_SPACE <= r + |calls| || exists k :: 0 <= k < |calls| && 0 <= calls[k].now
    ensures j < |calls| && Identifiers(State(-1, r), calls)[j] < Identifier(State(-1, top))
    decreases |calls|
  {
    var s := State(-1, r);
    var next := Advance(s, calls[0]);
    if 0 <= calls[0].now {
      RealTimeIsSmaller(next, top);
      j := 0;
    } else if r + 1 == RAND_SPACE {
      var k := FirstPastIsPast(calls[0].readings, -1);
      RealTimeIsSmaller(next, top);
      j := 0;
    } else {
      assert next == State(-1, r + 1);
      ShiftLater(calls);
      j := FallsBack(r + 1, calls[1..], top);
      j := j + 1;
    }
  }

  lemma ShiftLater(calls: seq<Call>)
    requires calls != [] && calls[0].now < 0
    ensures (exists k :: 0 <= k < |calls| && 0 <= calls[k].now) ==> exists k :: 0 <= k < |calls[1..]| && 0 <= calls[1..][k].now
  {
    if k :| 0 <= k < |calls| && 0 <= calls[k].now {
      assert calls[1..][k - 1].now == calls[k].now;
    }
  }

  ghost predicate StrictlyIncreasing(ids: seq<nat>) {
    forall i, j :: 0 <= i < j < |ids| ==> ids[i] < ids[j]
  }

  predicate AllBefore1970(calls: seq<Call>) {
    forall k :: 0 <= k < |calls| ==> calls[k].now < 0
  }

  lemma IncreaseBefore1970(calls: seq<Call>, ids: seq<nat>)
    requires |calls| < RAND_SPACE && AllBefore1970(calls) && AllEnd(State(-1, 0), calls) && ids == Identifiers(State(-1, 0), calls)
    ensures StrictlyIncreasing(ids)
  {
    forall i, j | 0 <= i < j < |ids|
      ensures ids[i] < ids[j]
    {
      CountsBefore1970(0, calls, i);
      CountsBefore1970(0, calls, j);
      OrderOfIdentifiers(-1, 1 + i, -1, 1 + j);
    }
  }

  lemma IncreaseSince1970(calls: seq<Call>, ids: seq<nat>)
    requires calls != [] && 0 <= calls[0].now && AllInRange(calls)
    requires AllEnd(State(-1, 0), calls) && ids == Identifiers(State(-1, 0), calls)
    ensures StrictlyIncreasing(ids)
  {
    forall i, j | 0 <= i < j < |ids|
      ensures ids[i] < ids[j]
    {
      IdentifiersIncrease(State(-1, 0), calls, i, j);
    }
  }

  lemma DecreaseAfter1970(calls: seq<Call>, ids: seq<nat>)
    requires calls != [] && calls[0].now < 0 && AllInRange(calls) && !(|calls| < RAND_SPACE && AllBefore1970(calls))
    requires AllEnd(State(-1, 0), calls) && ids == Identifiers(State(-1, 0), calls)
    ensures !StrictlyIncreasing(ids)
  {
    assert Advance(State(-1, 0), calls[0]) == State(-1, 1) && ids[0] == Identifier(State(-1, 1));
    ShiftLater(calls);
    var j := FallsBack(1, calls[1..], 1);
    assert ids[j + 1] < ids[0];
  }

  /** From the start of the process the identifiers strictly increase exactly when the first
      call reads a time since 1970, or none does and the random value does not wrap. */
  lemma IncreaseIff(calls: seq<Call>)
    requires calls != [] && AllEnd(State(-1, 0), calls) && AllInRange(calls)
    ensures StrictlyIncreasing(Identifiers(State(-1, 0), calls))
       <==> 0 <= calls[0].now || (|calls| < RAND_SPACE && AllBefore1970(calls))
  {
    var ids := Identifiers(State(-1, 0), calls);
    if 0 <= calls[0].now {
      IncreaseSince1970(calls, ids);
    } else if |calls| < RAND_SPACE && AllBefore1970(calls) {
      IncreaseBefore1970(calls, ids);
    } else {
      DecreaseAfter1970(calls, ids);
    }
  }

  /** Such a fall, call by call. */
  lemma FirstCallBefore1970(entropy: nat)
    ensures var first := Advance(State(-1, 0), Call(-5, entropy, [], 0));
            var second := Advance(first, Call(7, entropy, [], 0));
            first == State(-1, 1) && second.ts == 7 && Identifier(second) < Identifier(first)
  {
    OrderOfIdentifiers(7, entropy % RAND_SPACE, -1, 1);
  }
}
