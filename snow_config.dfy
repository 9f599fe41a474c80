/**
 Snowflake id layout. An id is 0 (1 bit) | timestamp (41 bits) | datacenter id |
 worker id | sequence, where the three low fields share 22 bits. A configuration
 fixes the three widths and derives from them the largest ids, the sequence mask and
 the shift of each field.
 */
module SnowflakeConfig {
  import opened Bits

  /** The errors NewSnowflake and NextId report. */
  datatype SnowflakeError = InvalidWorkerId | InvalidDatacenterId | ClockMovedBackwards

  /** Defaults: the Unix epoch, 5 + 5 + 12 bits. */
  const Epoch: int := 0
  const WorkerIdBits: nat := 5
  const DatacenterIdBits: nat := 5
  const SequenceBits: nat := 12
  /** Go's `int64(-1) ^ (int64(-1) << n)` for each width. */
  const MaxWorkerId: int := LowMask(WorkerIdBits)
  const MaxDatacenterId: int := LowMask(DatacenterIdBits)
  const SequenceMask: int := LowMask(SequenceBits)
  const WorkerIdShift: nat := SequenceBits
  const DatacenterIdShift: nat := SequenceBits + WorkerIdBits
  const TimestampLeftShift: nat := SequenceBits + WorkerIdBits + DatacenterIdBits

  /** The bits below the timestamp field. */
  const LowFieldBits: nat := 22

  /** The configuration record; Go's `epochTime` copy of `epoch` is not kept. */
  datatype SnowConfig = SnowConfig(
    epoch: int,
    sequenceBits: nat,
    workerIdBits: nat,
    datacenterIdBits: nat,
    maxWorkerId: int,
    maxDatacenterId: int,
    workerIdShift: nat,
    datacenterIdShift: nat,
    timestampLeftShift: nat,
    sequenceMask: int)

  /** The widths NewSnowConfig accepts; it panics on any others. */
  predicate ValidWidths(datacenterIdBits: int, workerIdBits: int, sequenceBits: int) {
    sequenceBits + workerIdBits + datacenterIdBits == LowFieldBits
    && sequenceBits >= 1 && workerIdBits >= 1 && datacenterIdBits >= 1
  }

  /** What every configuration promises: widths that NewSnowConfig accepts, each
      maximum and the mask the all-ones value of its width, and each field shifted
      past the fields below it. */
  predicate WellFormed(c: SnowConfig) {
    && ValidWidths(c.datacenterIdBits, c.workerIdBits, c.sequenceBits)
    && c.maxWorkerId == Pow2(c.workerIdBits) - 1
    && c.maxDatacenterId == Pow2(c.datacenterIdBits) - 1
    && c.sequenceMask == Pow2(c.sequenceBits) - 1
    && c.workerIdShift == c.sequenceBits
    && c.datacenterIdShift == c.sequenceBits + c.workerIdBits
    && c.timestampLeftShift == LowFieldBits
  }

  /** defaultSnowConfig: 12 sequence bits, 5 worker bits, 5 datacenter bits. */
  function DefaultSnowConfig(): (c: SnowConfig)
    ensures WellFormed(c) && c.epoch == 0
    ensures c.sequenceBits == 12 && c.workerIdBits == 5 && c.datacenterIdBits == 5
    ensures c.maxWorkerId == 31 && c.maxDatacenterId == 31 && c.sequenceMask == 4095
    ensures c.workerIdShift == 12 && c.datacenterIdShift == 17 && c.timestampLeftShift == 22
  {
    SnowConfig(
      epoch := Epoch,
      sequenceBits := SequenceBits,
      workerIdBits := WorkerIdBits,
      datacenterIdBits := DatacenterIdBits,
      maxWorkerId := MaxWorkerId,
      maxDatacenterId := MaxDatacenterId,
      workerIdShift := WorkerIdShift,
      datacenterIdShift := DatacenterIdShift,
      timestampLeftShift := TimestampLeftShift,
      sequenceMask := SequenceMask)
  }

  /** NewSnowConfig: panics unless the widths add up to 22 and each is at least 1;
      the epoch is the start time in milliseconds. */
  function NewSnowConfig(epoch: int, datacenterIdBits: int, workerIdBits: int, sequenceBits: int): (c: SnowConfig)
    requires ValidWidths(datacenterIdBits, workerIdBits, sequenceBits)
    ensures WellFormed(c)
    ensures c.epoch == epoch && c.datacenterIdBits == datacenterIdBits
    ensures c.workerIdBits == workerIdBits && c.sequenceBits == sequenceBits
  {
    SnowConfig(
      epoch := epoch,
      sequenceBits := sequenceBits,
      workerIdBits := workerIdBits,
      datacenterIdBits := datacenterIdBits,
      maxWorkerId := LowMask(workerIdBits),
      maxDatacenterId := LowMask(datacenterIdBits),
      workerIdShift := sequenceBits,
      datacenterIdShift := sequenceBits + workerIdBits,
      timestampLeftShift := sequenceBits + workerIdBits + datacenterIdBits,
      sequenceMask := LowMask(sequenceBits))
  }

  /** A well-formed configuration is fixed by its epoch and widths: it is the one
      NewSnowConfig builds from them. The default is NewSnowConfig(0, 5, 5, 12). */
  lemma WellFormedIsNewSnowConfig(c: SnowConfig)
    requires WellFormed(c)
    ensures c == NewSnowConfig(c.epoch, c.datacenterIdBits, c.workerIdBits, c.sequenceBits)
  {
  }

  lemma DefaultIsNewSnowConfig()
    ensures DefaultSnowConfig() == NewSnowConfig(0, 5, 5, 12)
  {
    WellFormedIsNewSnowConfig(DefaultSnowConfig());
  }

  /** NewSnowflake's pre-packed `(datacenterId << datacenterIdShift) | (workerId << workerIdShift)`. */
  function DatacenterIdWorkId(c: SnowConfig, datacenterId: nat, workerId: nat): nat {
    Or(ShlNat(datacenterId, c.datacenterIdShift), ShlNat(workerId, c.workerIdShift))
  }

  /** The ids NewSnowflake accepts. */
  predicate IdsInRange(c: SnowConfig, workerId: int, datacenterId: int) {
    0 <= workerId <= c.maxWorkerId && 0 <= datacenterId <= c.maxDatacenterId
  }

  /** The datacenter and worker fields do not overlap, so the OR is their sum; the
      packed value lies in bits [sequenceBits, 22) and both ids can be read back. */
  lemma PackedIdsFields(c: SnowConfig, datacenterId: nat, workerId: nat)
    requires WellFormed(c) && IdsInRange(c, workerId, datacenterId)
    ensures var p := DatacenterIdWorkId(c, datacenterId, workerId);
      && p == ShlNat(datacenterId, c.datacenterIdShift) + ShlNat(workerId, c.workerIdShift)
      && p + Pow2(c.sequenceBits) <= Pow2(c.timestampLeftShift)
      && p % Pow2(c.sequenceBits) == 0
      && Shr(p, c.workerIdShift) % Pow2(c.workerIdBits) == workerId
      && Shr(p, c.datacenterIdShift) == datacenterId
  {
    PackedOrIsSum(c.workerIdShift, c.workerIdBits, c.datacenterIdBits, c.datacenterIdShift,
      c.timestampLeftShift, datacenterId, workerId);
  }

  /** The same in terms of the widths s, w, d and the shifts sw == s + w and
      t == sw + d. */
  lemma PackedOrIsSum(s: nat, w: nat, d: nat, sw: nat, t: nat, dc: nat, wk: nat)
    requires sw == s + w && t == sw + d && wk < Pow2(w) && dc < Pow2(d)
    ensures Or(ShlNat(dc, sw), ShlNat(wk, s)) == ShlNat(dc, sw) + ShlNat(wk, s)
    ensures var p := ShlNat(dc, sw) + ShlNat(wk, s);
      && p + Pow2(s) <= Pow2(t)
      && p % Pow2(s) == 0
      && Shr(p, s) % Pow2(w) == wk
      && Shr(p, sw) == dc
  {
    PackedSum(s, w, d, sw, t, dc, wk);
    OrDisjoint(ShlNat(dc, sw), ShlNat(wk, s), sw);
  }

  lemma PackedSum(s: nat, w: nat, d: nat, sw: nat, t: nat, dc: nat, wk: nat)
    requires sw == s + w && t == sw + d && wk < Pow2(w) && dc < Pow2(d)
    ensures var p := ShlNat(dc, sw) + ShlNat(wk, s);
      && ShlNat(wk, s) < Pow2(sw) && ShlNat(dc, sw) % Pow2(sw) == 0
      && p + Pow2(s) <= Pow2(t)
      && p % Pow2(s) == 0
      && Shr(p, s) % Pow2(w) == wk
      && Shr(p, sw) == dc
  {
    PackedBounds(s, w, d, sw, t, dc, wk);
    PackedWorker(s, w, d, sw, dc, wk);
    PackedDatacenter(s, w, d, sw, dc, wk);
  }

  lemma PackedBounds(s: nat, w: nat, d: nat, sw: nat, t: nat, dc: nat, wk: nat)
    requires sw == s + w && t == sw + d && wk < Pow2(w) && dc < Pow2(d)
    ensures ShlNat(wk, s) < Pow2(sw) && ShlNat(dc, sw) % Pow2(sw) == 0
    ensures ShlNat(dc, sw) + ShlNat(wk, s) + Pow2(s) <= Pow2(t)
  {
    Pow2Split(s, w, sw);
    Pow2Split(sw, d, t);
    TwoFields(dc, wk, Pow2(s), Pow2(w), Pow2(sw), Pow2(d));
  }

  lemma PackedWorker(s: nat, w: nat, d: nat, sw: nat, dc: nat, wk: nat)
    requires sw == s + w && wk < Pow2(w) && dc < Pow2(d)
    ensures (ShlNat(dc, sw) + ShlNat(wk, s)) % Pow2(s) == 0
    ensures Shr(ShlNat(dc, sw) + ShlNat(wk, s), s) % Pow2(w) == wk
  {
    Pow2Split(s, w, sw);
    TwoFields(dc, wk, Pow2(s), Pow2(w), Pow2(sw), Pow2(d));
  }

  lemma PackedDatacenter(s: nat, w: nat, d: nat, sw: nat, dc: nat, wk: nat)
    requires sw == s + w && wk < Pow2(w) && dc < Pow2(d)
    ensures Shr(ShlNat(dc, sw) + ShlNat(wk, s), sw) == dc
  {
    Pow2Split(s, w, sw);
    TwoFields(dc, wk, Pow2(s), Pow2(w), Pow2(sw), Pow2(d));
  }

  /** Two fields, dc above wk, over a unit ps, with psw == ps * pw: the fields do not
      overlap, the packed value stays below psw * pd by at least ps, and both fields
      are read back by division. */
  lemma TwoFields(dc: nat, wk: nat, ps: nat, pw: nat, psw: nat, pd: nat)
    requires ps >= 1 && wk < pw && dc < pd && psw == ps * pw
    ensures wk * ps < psw && (dc * psw) % psw == 0
    ensures dc * psw + wk * ps + ps <= psw * pd
    ensures (dc * psw + wk * ps) % ps == 0
    ensures ((dc * psw + wk * ps) / ps) % pw == wk
    ensures (dc * psw + wk * ps) / psw == dc
  {
    BelowProduct(wk, pw, ps);
    BelowProduct(dc, pd, psw);
    DivModUnique(dc * psw, psw, dc, 0);
    var q := dc * pw + wk;
    MulRegroup(dc, ps, pw);
    Distrib(dc * pw, wk, ps);
    DivModUnique(dc * psw + wk * ps, ps, q, 0);
    DivModUnique(q, pw, dc, wk);
    DivModUnique(dc * psw + wk * ps, psw, dc, wk * ps);
  }
}
