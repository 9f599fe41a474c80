/**
 The snowflake id generator. Each call to NextId reads the clock once (and keeps
 reading it while it waits for the next millisecond); the clock is a parameter here:
 the sequence of readings, in milliseconds since the Unix epoch, that the calls to
 `time.Now().UnixMilli()` would return, first reading first.
 */
module Snowflake {
  import opened Wrappers
  import opened Bits
  import opened SnowflakeConfig

  /** Timestamps relative to the epoch fit in the 41-bit field: they are below 2^41. */
  const TimestampBits: nat := 41
  const TimestampLimit: nat := 0x200_0000_0000

  lemma TimestampLimitIsPow2()
    ensures Pow2(TimestampBits) == TimestampLimit
  {
    assert Pow2(10) == 1024;
    Pow2Add(10, 10);
    Pow2Add(20, 20);
    Pow2Add(40, 1);
  }

  /** The generator's mutable part: the millisecond of the last id and its sequence
      number within that millisecond. */
  datatype GenState = GenState(lastTimestamp: int, sequence: int)

  /** What NextId returns and leaves behind. */
  datatype Outcome = Outcome(state: GenState, id: int, err: Option<SnowflakeError>)

  /** Every reading, less the epoch, is a timestamp the 41-bit field can hold. */
  predicate Readings(c: SnowConfig, clock: seq<int>) {
    forall k :: 0 <= k < |clock| ==> 0 <= clock[k] - c.epoch < TimestampLimit
  }

  /** Some reading from index k on is later than `last`: the busy wait ends. */
  predicate HasLater(c: SnowConfig, clock: seq<int>, k: nat, last: int)
    decreases |clock| - k
  {
    k < |clock| && (clock[k] - c.epoch > last || HasLater(c, clock, k + 1, last))
  }

  /** The first reading from index k on that is later than `last`, less the epoch. */
  function LaterReading(c: SnowConfig, clock: seq<int>, k: nat, last: int): (now: int)
    requires Readings(c, clock) && HasLater(c, clock, k, last)
    ensures last < now < TimestampLimit && now >= 0
    decreases |clock| - k
  {
    if clock[k] - c.epoch > last then clock[k] - c.epoch
    else LaterReading(c, clock, k + 1, last)
  }

  /** The sequence number after `sequence` within one millisecond:
      Go's `(sequence + 1) & sequenceMask`. */
  function NextSequence(c: SnowConfig, sequence: nat): nat
    requires WellFormed(c)
  {
    And(sequence + 1, c.sequenceMask)
  }

  /** The id `(now << timestampLeftShift) | datacenterIdWorkId | sequence`. */
  function ComposeId(c: SnowConfig, now: nat, datacenterIdWorkId: nat, sequence: nat): nat {
    Or(Or(ShlNat(now, c.timestampLeftShift), datacenterIdWorkId), sequence)
  }

  /** The generator state NextId keeps: the sequence number fits its field and the
      last timestamp is -1 (no id yet) or a timestamp of the 41-bit field. */
  predicate StateOk(c: SnowConfig, st: GenState) {
    && 0 <= st.sequence <= c.sequenceMask
    && -1 <= st.lastTimestamp < TimestampLimit
  }

  /** What NextId needs of the clock: a first reading, every reading in range, and,
      when this call exhausts the sequence of the current millisecond, a later
      reading to end the wait. */
  predicate ClockOk(c: SnowConfig, st: GenState, clock: seq<int>) {
    && |clock| >= 1 && Readings(c, clock)
    && (clock[0] - c.epoch == st.lastTimestamp && st.sequence == c.sequenceMask
        ==> HasLater(c, clock, 1, st.lastTimestamp))
  }

  /** One call of NextId, as a function of the state and the clock. The state stays
      in range and the last timestamp never decreases. */
  function Next(c: SnowConfig, datacenterIdWorkId: nat, st: GenState, clock: seq<int>): (o: Outcome)
    requires WellFormed(c) && StateOk(c, st) && ClockOk(c, st, clock)
    ensures StateOk(c, o.state) && o.state.lastTimestamp >= st.lastTimestamp
  {
    var now := clock[0] - c.epoch;
    if now < st.lastTimestamp then
      Outcome(st, 0, Some(ClockMovedBackwards))
    else if now == st.lastTimestamp then
      SequenceWraps(c, st.sequence);
      var sequence := NextSequence(c, st.sequence);
      var now' := if sequence == 0 then LaterReading(c, clock, 1, st.lastTimestamp) else now;
      Outcome(GenState(now', sequence), ComposeId(c, now', datacenterIdWorkId, sequence), None)
    else
      Outcome(GenState(now, 0), ComposeId(c, now, datacenterIdWorkId, 0), None)
  }

  /** Within one millisecond the sequence counts up modulo 2^sequenceBits; it wraps to
      0 exactly when the previous one was the mask. */
  lemma SequenceWraps(c: SnowConfig, sequence: nat)
    requires WellFormed(c) && sequence <= c.sequenceMask
    ensures NextSequence(c, sequence) == (sequence + 1) % Pow2(c.sequenceBits)
    ensures NextSequence(c, sequence) == 0 <==> sequence == c.sequenceMask
    ensures NextSequence(c, sequence) != 0 ==> NextSequence(c, sequence) == sequence + 1
  {
    AndLowMask(sequence + 1, c.sequenceBits);
    if sequence == c.sequenceMask {
      DivModUnique(sequence + 1, Pow2(c.sequenceBits), 1, 0);
    } else {
      DivModUnique(sequence + 1, Pow2(c.sequenceBits), 0, sequence + 1);
    }
  }

  /** The id's fields do not overlap, so the two ORs are sums; each field of the id
      is read back by a shift and a mask, and the id is a non-negative int64
      (below 2^41 * 2^22). */
  lemma IdFields(c: SnowConfig, now: nat, datacenterId: nat, workerId: nat, sequence: nat)
    requires WellFormed(c) && IdsInRange(c, workerId, datacenterId)
    requires now < TimestampLimit && sequence <= c.sequenceMask
    ensures var id := ComposeId(c, now, DatacenterIdWorkId(c, datacenterId, workerId), sequence);
      && id == ShlNat(now, c.timestampLeftShift) + DatacenterIdWorkId(c, datacenterId, workerId) + sequence
      && id < TimestampLimit * Pow2(c.timestampLeftShift)
      && Shr(id, c.timestampLeftShift) == now
      && id % Pow2(c.sequenceBits) == sequence
      && Shr(id, c.workerIdShift) % Pow2(c.workerIdBits) == workerId
      && Shr(id, c.datacenterIdShift) % Pow2(c.datacenterIdBits) == datacenterId
  {
    IdIsSum(c, now, datacenterId, workerId, sequence);
    PackedIdsFields(c, datacenterId, workerId);
    SumHasFields(c, now, datacenterId, workerId, sequence);
  }

  /** Every id NextId can compose is a non-negative int64: it stays below 2^63, so
      the shift of a 41-bit timestamp by 22 never reaches the sign bit. */
  lemma IdIsInt64(c: SnowConfig, now: nat, datacenterId: nat, workerId: nat, sequence: nat)
    requires WellFormed(c) && IdsInRange(c, workerId, datacenterId)
    requires now < TimestampLimit && sequence <= c.sequenceMask
    ensures ComposeId(c, now, DatacenterIdWorkId(c, datacenterId, workerId), sequence) < Pow2(63)
  {
    IdFields(c, now, datacenterId, workerId, sequence);
    TimestampLimitIsPow2();
    Pow2Split(TimestampBits, c.timestampLeftShift, 63);
  }

  lemma IdIsSum(c: SnowConfig, now: nat, datacenterId: nat, workerId: nat, sequence: nat)
    requires WellFormed(c) && IdsInRange(c, workerId, datacenterId) && sequence <= c.sequenceMask
    ensures ComposeId(c, now, DatacenterIdWorkId(c, datacenterId, workerId), sequence)
         == ShlNat(now, c.timestampLeftShift) + DatacenterIdWorkId(c, datacenterId, workerId) + sequence
  {
    PackedIdsFields(c, datacenterId, workerId);
    ComposeOrIsSum(c.sequenceBits, c.timestampLeftShift, now,
      DatacenterIdWorkId(c, datacenterId, workerId), sequence);
  }

  lemma SumHasFields(c: SnowConfig, now: nat, datacenterId: nat, workerId: nat, sequence: nat)
    requires WellFormed(c) && IdsInRange(c, workerId, datacenterId)
    requires now < TimestampLimit && sequence <= c.sequenceMask
    ensures var id := ShlNat(now, c.timestampLeftShift)
                      + (ShlNat(datacenterId, c.datacenterIdShift) + ShlNat(workerId, c.workerIdShift)) + sequence;
      && id < TimestampLimit * Pow2(c.timestampLeftShift)
      && Shr(id, c.timestampLeftShift) == now
      && id % Pow2(c.sequenceBits) == sequence
      && Shr(id, c.workerIdShift) % Pow2(c.workerIdBits) == workerId
      && Shr(id, c.datacenterIdShift) % Pow2(c.datacenterIdBits) == datacenterId
  {
    FieldsOfSum(c.workerIdShift, c.workerIdBits, c.datacenterIdBits, c.datacenterIdShift,
      c.timestampLeftShift, now, datacenterId, workerId, sequence);
  }

  /** With the packed ids in bits [s, t) and the sequence number below 2^s, both ORs
      of `(now << t) | packed | sequence` add. */
  lemma ComposeOrIsSum(s: nat, t: nat, now: nat, packed: nat, sequence: nat)
    requires s <= t && sequence < Pow2(s) && packed % Pow2(s) == 0 && packed + Pow2(s) <= Pow2(t)
    ensures Or(Or(ShlNat(now, t), packed), sequence) == ShlNat(now, t) + packed + sequence
  {
    ShiftedMultiples(s, t, now, packed);
    OrDisjoint(ShlNat(now, t), packed, t);
    OrDisjoint(ShlNat(now, t) + packed, sequence, s);
  }

  lemma ShiftedMultiples(s: nat, t: nat, now: nat, packed: nat)
    requires s <= t && packed % Pow2(s) == 0
    ensures ShlNat(now, t) % Pow2(t) == 0
    ensures (ShlNat(now, t) + packed) % Pow2(s) == 0
  {
    var rest := t - s;
    Pow2Split(s, rest, t);
    Multiples(now, packed, Pow2(s), Pow2(rest), Pow2(t));
  }

  lemma Multiples(now: nat, packed: nat, ps: nat, pr: nat, pt: nat)
    requires ps >= 1 && pr >= 1 && pt == ps * pr && packed % ps == 0
    ensures (now * pt) % pt == 0 && (now * pt + packed) % ps == 0
  {
    DivModUnique(now * pt, pt, now, 0);
    var q := packed / ps;
    assert packed == q * ps;
    MulRegroup(now, ps, pr);
    Distrib(now * pr, q, ps);
    DivModUnique(now * pt + packed, ps, now * pr + q, 0);
  }

  /** Reading the four fields back from the id written as a sum, in terms of the
      widths s, w, d and the shifts sw == s + w and t == sw + d. */
  lemma FieldsOfSum(s: nat, w: nat, d: nat, sw: nat, t: nat, now: nat, dc: nat, wk: nat, sequence: nat)
    requires sw == s + w && t == sw + d
    requires wk < Pow2(w) && dc < Pow2(d) && sequence < Pow2(s) && now < TimestampLimit
    ensures var id := ShlNat(now, t) + (ShlNat(dc, sw) + ShlNat(wk, s)) + sequence;
      && id < TimestampLimit * Pow2(t)
      && Shr(id, t) == now
      && id % Pow2(s) == sequence
      && Shr(id, s) % Pow2(w) == wk
      && Shr(id, sw) % Pow2(d) == dc
  {
    Pow2Split(s, w, sw);
    Pow2Split(sw, d, t);
    ThreeFields(now, dc, wk, sequence, Pow2(s), Pow2(w), Pow2(sw), Pow2(d), TimestampLimit);
  }

  /** The id layout in plain arithmetic: now above dc above wk above sq, in units
      ps, pw, pd, with psw == ps * pw. */
  lemma ThreeFields(now: nat, dc: nat, wk: nat, sq: nat, ps: nat, pw: nat, psw: nat, pd: nat, limit: nat)
    requires sq < ps && wk < pw && dc < pd && now < limit && psw == ps * pw
    ensures var x := now * (psw * pd) + (dc * psw + wk * ps) + sq;
      && x < limit * (psw * pd)
      && x % ps == sq
      && (x / ps) % pw == wk
      && (x / psw) % pd == dc
      && x / (psw * pd) == now
  {
    var p := psw * pd;
    var b := now * pd + dc;
    var a := b * pw + wk;
    var x := now * p + (dc * psw + wk * ps) + sq;
    // x == a * ps + sq
    MulRegroup(now, psw, pd);
    Distrib(now * pd, dc, psw);
    MulRegroup(b, ps, pw);
    Distrib(b * pw, wk, ps);
    DivModUnique(x, ps, a, sq);
    DivModUnique(a, pw, b, wk);
    // x == b * psw + (wk * ps + sq)
    BelowProduct(wk, pw, ps);
    DivModUnique(x, psw, b, wk * ps + sq);
    DivModUnique(b, pd, now, dc);
    // x == now * p + below, with below < p
    BelowProduct(dc, pd, psw);
    DivModUnique(x, p, now, dc * psw + wk * ps + sq);
    BelowProduct(now, limit, p);
  }

  /** A clock reading earlier than the last timestamp is refused with
      ClockMovedBackwards, id 0 and no change of state; every other reading gives an
      id. */
  lemma NextBackwards(c: SnowConfig, datacenterIdWorkId: nat, st: GenState, clock: seq<int>)
    requires WellFormed(c) && StateOk(c, st) && ClockOk(c, st, clock)
    ensures var o := Next(c, datacenterIdWorkId, st, clock);
      && (o.err.Some? <==> clock[0] - c.epoch < st.lastTimestamp)
      && (o.err.Some? ==> o == Outcome(st, 0, Some(ClockMovedBackwards)))
  {
  }

  /** The sequence update: within the same millisecond the sequence counts up modulo
      2^sequenceBits, and when it wraps to 0 the timestamp moves to a strictly later
      reading; in a new millisecond it restarts at 0. */
  lemma NextUpdatesSequence(c: SnowConfig, datacenterIdWorkId: nat, st: GenState, clock: seq<int>)
    requires WellFormed(c) && StateOk(c, st) && ClockOk(c, st, clock)
    ensures var o := Next(c, datacenterIdWorkId, st, clock);
      var now := clock[0] - c.epoch;
      && (now == st.lastTimestamp ==> o.state.sequence == (st.sequence + 1) % Pow2(c.sequenceBits))
      && (now == st.lastTimestamp && st.sequence < c.sequenceMask
          ==> o.state == GenState(now, st.sequence + 1))
      && (now == st.lastTimestamp && st.sequence == c.sequenceMask
          ==> o.state.sequence == 0 && o.state.lastTimestamp > st.lastTimestamp)
      && (now > st.lastTimestamp ==> o.state == GenState(now, 0))
  {
    if clock[0] - c.epoch == st.lastTimestamp {
      SequenceWraps(c, st.sequence);
    }
  }

  /** Each id moves the state strictly forward in (timestamp, sequence) order. */
  lemma NextAdvances(c: SnowConfig, datacenterIdWorkId: nat, st: GenState, clock: seq<int>)
    requires WellFormed(c) && StateOk(c, st) && ClockOk(c, st, clock)
    ensures var o := Next(c, datacenterIdWorkId, st, clock);
      o.err.None? ==>
        || o.state.lastTimestamp > st.lastTimestamp
        || (o.state.lastTimestamp == st.lastTimestamp && o.state.sequence == st.sequence + 1)
  {
    NextUpdatesSequence(c, datacenterIdWorkId, st, clock);
  }

  /** The id NextId returns carries the new state and the generator's ids: its
      timestamp field is the new last timestamp, its sequence field the new
      sequence number, and its middle fields the worker and datacenter ids. */
  lemma NextIdDecodes(c: SnowConfig, datacenterId: nat, workerId: nat, st: GenState, clock: seq<int>)
    requires WellFormed(c) && IdsInRange(c, workerId, datacenterId)
    requires StateOk(c, st) && ClockOk(c, st, clock)
    ensures var o := Next(c, DatacenterIdWorkId(c, datacenterId, workerId), st, clock);
      o.err.None? ==>
        && 0 <= o.state.lastTimestamp
        && o.id == ComposeId(c, o.state.lastTimestamp, DatacenterIdWorkId(c, datacenterId, workerId), o.state.sequence)
        && o.id < TimestampLimit * Pow2(c.timestampLeftShift)
        && Shr(o.id, c.timestampLeftShift) == o.state.lastTimestamp
        && o.id % Pow2(c.sequenceBits) == o.state.sequence
        && Shr(o.id, c.workerIdShift) % Pow2(c.workerIdBits) == workerId
        && Shr(o.id, c.datacenterIdShift) % Pow2(c.datacenterIdBits) == datacenterId
  {
    var o := Next(c, DatacenterIdWorkId(c, datacenterId, workerId), st, clock);
    NextIdIsStateId(c, DatacenterIdWorkId(c, datacenterId, workerId), st, clock);
    if o.err.None? {
      IdFields(c, o.state.lastTimestamp, datacenterId, workerId, o.state.sequence);
    }
  }

  /** A successful call returns the id of the state it leaves behind. */
  lemma NextIdIsStateId(c: SnowConfig, datacenterIdWorkId: nat, st: GenState, clock: seq<int>)
    requires WellFormed(c) && StateOk(c, st) && ClockOk(c, st, clock)
    ensures var o := Next(c, datacenterIdWorkId, st, clock);
      o.err.None? ==>
        && 0 <= o.state.lastTimestamp < TimestampLimit
        && o.id == ComposeId(c, o.state.lastTimestamp, datacenterIdWorkId, o.state.sequence)
  {
  }

  /** Ids of one generator are ordered as their (timestamp, sequence) pairs. */
  lemma IdOrder(c: SnowConfig, datacenterId: nat, workerId: nat, now1: nat, seq1: nat, now2: nat, seq2: nat)
    requires WellFormed(c) && IdsInRange(c, workerId, datacenterId)
    requires seq1 <= c.sequenceMask && seq2 <= c.sequenceMask
    requires now1 < now2 || (now1 == now2 && seq1 < seq2)
    ensures ComposeId(c, now1, DatacenterIdWorkId(c, datacenterId, workerId), seq1)
          < ComposeId(c, now2, DatacenterIdWorkId(c, datacenterId, workerId), seq2)
  {
    var packed := DatacenterIdWorkId(c, datacenterId, workerId);
    var p := Pow2(c.timestampLeftShift);
    IdIsSum(c, now1, datacenterId, workerId, seq1);
    IdIsSum(c, now2, datacenterId, workerId, seq2);
    PackedIdsFields(c, datacenterId, workerId);
    if now1 < now2 {
      BelowProduct(now1, now2, p);
    }
  }

  /** Two successive calls that both succeed return strictly increasing ids. */
  lemma IdsIncrease(c: SnowConfig, datacenterId: nat, workerId: nat, st: GenState, clock1: seq<int>, clock2: seq<int>)
    requires WellFormed(c) && IdsInRange(c, workerId, datacenterId)
    requires StateOk(c, st) && ClockOk(c, st, clock1)
    requires var o1 := Next(c, DatacenterIdWorkId(c, datacenterId, workerId), st, clock1);
      o1.err.None? && ClockOk(c, o1.state, clock2)
    ensures var packed := DatacenterIdWorkId(c, datacenterId, workerId);
      var o1 := Next(c, packed, st, clock1);
      var o2 := Next(c, packed, o1.state, clock2);
      o2.err.None? ==> o1.id < o2.id
  {
    var packed := DatacenterIdWorkId(c, datacenterId, workerId);
    var o1 := Next(c, packed, st, clock1);
    NextIdDecodes(c, datacenterId, workerId, st, clock1);
    NextUpdatesSequence(c, packed, st, clock1);
    var o2 := Next(c, packed, o1.state, clock2);
    NextIdDecodes(c, datacenterId, workerId, o1.state, clock2);
    NextUpdatesSequence(c, packed, o1.state, clock2);
    NextAdvances(c, packed, o1.state, clock2);
    if o2.err.None? {
      IdOrder(c, datacenterId, workerId, o1.state.lastTimestamp, o1.state.sequence,
        o2.state.lastTimestamp, o2.state.sequence);
    }
  }

  /** A fresh generator (last timestamp -1, sequence 0) accepts any first reading and
      starts that millisecond at sequence 0. */
  lemma FirstNext(c: SnowConfig, datacenterIdWorkId: nat, clock: seq<int>)
    requires WellFormed(c) && |clock| >= 1 && Readings(c, clock)
    ensures StateOk(c, GenState(-1, 0)) && ClockOk(c, GenState(-1, 0), clock)
    ensures var o := Next(c, datacenterIdWorkId, GenState(-1, 0), clock);
      o.err.None? && o.state == GenState(clock[0] - c.epoch, 0)
  {
  }

  /** The generator: its configuration, its ids and their packed form, which never
      change, and the state NextId updates under the generator's mutex. */
  class Snowflake {
    const c: SnowConfig
    const workerId: int
    const datacenterId: int
    const datacenterIdWorkId: nat
    var lastTimestamp: int
    var sequence: int

    predicate Valid()
      reads this
    {
      && WellFormed(c)
      && IdsInRange(c, workerId, datacenterId)
      && datacenterIdWorkId == DatacenterIdWorkId(c, datacenterId, workerId)
      && StateOk(c, State())
    }

    function State(): GenState
      reads this
    {
      GenState(lastTimestamp, sequence)
    }

    /** The generator NewSnowflake builds once the ids are checked. */
    constructor (c: SnowConfig, workerId: int, datacenterId: int)
      requires WellFormed(c) && IdsInRange(c, workerId, datacenterId)
      ensures Valid()
      ensures this.c == c && this.workerId == workerId && this.datacenterId == datacenterId
      ensures State() == GenState(-1, 0)
    {
      this.c := c;
      this.workerId := workerId;
      this.datacenterId := datacenterId;
      this.datacenterIdWorkId := DatacenterIdWorkId(c, datacenterId, workerId);
      this.lastTimestamp := -1;
      this.sequence := 0;
    }

    /** NextId: reads the clock, refuses a clock that moved backwards, otherwise
        advances the sequence (waiting for the next millisecond when it wraps) and
        returns the id of the new state. */
    method NextId(clock: seq<int>) returns (id: int, err: Option<SnowflakeError>)
      requires Valid() && ClockOk(c, State(), clock)
      modifies this
      ensures Valid()
      ensures Outcome(State(), id, err) == Next(c, datacenterIdWorkId, old(State()), clock)
    {
      NextUpdatesSequence(c, datacenterIdWorkId, State(), clock);
      var now := clock[0] - c.epoch;
      if now < lastTimestamp {
        return 0, Some(ClockMovedBackwards);
      }
      if now == lastTimestamp {
        SequenceWraps(c, sequence);
        sequence := NextSequence(c, sequence);
        if sequence == 0 {
          var k := 1;
          while now <= lastTimestamp
            invariant 1 <= k <= |clock|
            invariant now <= lastTimestamp ==> HasLater(c, clock, k, lastTimestamp)
            invariant now <= lastTimestamp ==>
              LaterReading(c, clock, k, lastTimestamp) == LaterReading(c, clock, 1, lastTimestamp)
            invariant now > lastTimestamp ==> now == LaterReading(c, clock, 1, lastTimestamp)
            decreases |clock| - k
          {
            now := clock[k] - c.epoch;
            k := k + 1;
          }
        }
      } else {
        sequence := 0;
      }
      lastTimestamp := now;
      id := ComposeId(c, now, datacenterIdWorkId, sequence);
      err := None;
    }
  }

  /** NewSnowflake: the worker id is checked first, then the datacenter id; a
      generator is built only when both fit their fields. */
  method NewSnowflake(c: SnowConfig, workerId: int, datacenterId: int)
    returns (s: Snowflake?, err: Option<SnowflakeError>)
    requires WellFormed(c)
    ensures err == Some(InvalidWorkerId) <==> !(0 <= workerId <= c.maxWorkerId)
    ensures err == Some(InvalidDatacenterId)
        <==> 0 <= workerId <= c.maxWorkerId && !(0 <= datacenterId <= c.maxDatacenterId)
    ensures err == None <==> IdsInRange(c, workerId, datacenterId)
    ensures err.Some? ==> s == null
    ensures err.None? ==> s != null && fresh(s) && s.Valid() && s.State() == GenState(-1, 0)
    ensures err.None? ==> s.c == c && s.workerId == workerId && s.datacenterId == datacenterId
  {
    if workerId < 0 || workerId > c.maxWorkerId {
      return null, Some(InvalidWorkerId);
    }
    if datacenterId < 0 || datacenterId > c.maxDatacenterId {
      return null, Some(InvalidDatacenterId);
    }
    s := new Snowflake(c, workerId, datacenterId);
    err := None;
  }

  /** NewSnowflakeByDefaultConfig: NewSnowflake with the default configuration. */
  method NewSnowflakeByDefaultConfig(workerId: int, datacenterId: int)
    returns (s: Snowflake?, err: Option<SnowflakeError>)
    ensures err == Some(InvalidWorkerId) <==> !(0 <= workerId <= 31)
    ensures err == Some(InvalidDatacenterId) <==> 0 <= workerId <= 31 && !(0 <= datacenterId <= 31)
    ensures err == None <==> 0 <= workerId <= 31 && 0 <= datacenterId <= 31
    ensures err.Some? ==> s == null
    ensures err.None? ==> s != null && fresh(s) && s.Valid() && s.State() == GenState(-1, 0)
    ensures err.None? ==> s.c == DefaultSnowConfig() && s.workerId == workerId && s.datacenterId == datacenterId
  {
    s, err := NewSnowflake(DefaultSnowConfig(), workerId, datacenterId);
  }
}
