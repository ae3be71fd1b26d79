/** The sensor as the driver sees it through the bus: a file of 256 byte
    registers, a log of the register transactions issued so far, and an
    oracle that decides whether each transaction succeeds. This stands in
    for the vendor's blocking memory read and write calls. */
module Transport {
  import opened Bits

  /** One register transaction: `data` is what was read (whatever the
      buffer holds, when the read failed) or what was sent. */
  datatype Access =
    | Read(reg: uint8, data: seq<uint8>, ok: bool)
    | Write(reg: uint8, data: seq<uint8>, ok: bool)

  /** The register file after `data` has been written from `reg` on. */
  function Stored(regs: seq<uint8>, reg: nat, data: seq<uint8>): (r: seq<uint8>)
    requires reg + |data| <= |regs|
    ensures |r| == |regs|
    ensures forall i :: 0 <= i < |r| ==>
              r[i] == if reg <= i < reg + |data| then data[i - reg] else regs[i]
  {
    regs[..reg] + data + regs[reg + |data|..]
  }

  /** `a` is a read of `n` registers from `reg`, with outcome `ok`, that
      delivered the registers' contents if it succeeded. */
  ghost predicate IsRead(a: Access, reg: uint8, n: nat, regs: seq<uint8>, ok: bool)
  {
    a.Read? && a.reg == reg && a.ok == ok && |a.data| == n &&
    (ok ==> reg + n <= |regs| && a.data == regs[reg..reg + n])
  }

  class Bus {
    var regs: seq<uint8>
    var log: seq<Access>
    /** Whether transaction number `t` (counting from 0) succeeds. */
    const busOk: nat -> bool

    ghost predicate Valid()
      reads this
    {
      |regs| == 256
    }

    constructor (regs0: seq<uint8>, outcome: nat -> bool)
      requires |regs0| == 256
      ensures Valid() && regs == regs0 && log == [] && busOk == outcome
    {
      regs := regs0;
      log := [];
      busOk := outcome;
    }

    /** Reads `n` consecutive registers starting at `reg`. */
    method MemRead(reg: uint8, n: nat) returns (ok: bool, data: seq<uint8>)
      requires Valid() && reg + n <= 256
      modifies this
      ensures Valid() && regs == old(regs)
      ensures ok == busOk(|old(log)|)
      ensures IsRead(Read(reg, data, ok), reg, n, regs, ok)
      ensures log == old(log) + [Read(reg, data, ok)]
    {
      ok := busOk(|log|);
      if ok {
        data := regs[reg..reg + n];
      } else {
        assert |seq(n, _ => 0)| == n;
        data :| |data| == n;
      }
      log := log + [Read(reg, data, ok)];
    }

    /** Writes `data` to consecutive registers starting at `reg`; a failed
        write leaves the registers as they were. */
    method MemWrite(reg: uint8, data: seq<uint8>) returns (ok: bool)
      requires Valid() && reg + |data| <= 256
      modifies this
      ensures Valid()
      ensures ok == busOk(|old(log)|)
      ensures regs == if ok then Stored(old(regs), reg, data) else old(regs)
      ensures log == old(log) + [Write(reg, data, ok)]
    {
      ok := busOk(|log|);
      if ok {
        regs := Stored(regs, reg, data);
      }
      log := log + [Write(reg, data, ok)];
    }
  }
}
