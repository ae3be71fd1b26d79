/** The write sequence of the driver's initialisation, as a function of the
    register file and of the bus outcomes: each write is issued only when
    every write before it succeeded. */
module InitSequence {
  import opened Bits
  import opened Registers
  import opened Transport

  datatype RegWrite = RegWrite(reg: uint8, value: uint8)

  /** The configuration writes of the initialisation, in the order it issues
      them. */
  const INIT_PLAN: seq<RegWrite> := [
    RegWrite(PWR_MGMT_1_REG, PWR_MGMT_1_WAKE),
    RegWrite(SMPRT_DIV_REG, SMPRT_DIV_1KHZ),
    RegWrite(GYRO_CONFIG_REG, GYRO_FS_2000),
    RegWrite(ACCEL_CONFIG_REG, ACCEL_FS_16G)
  ]

  /** Result of issuing a plan: whether every write succeeded, the register
      file afterwards, and the transactions issued. */
  datatype Run = Run(ok: bool, regs: seq<uint8>, trace: seq<Access>)

  /** The `n` transactions numbered from `t` on all succeed. */
  ghost predicate AllOk(busOk: nat -> bool, t: nat, n: nat)
  {
    forall u: nat :: t <= u < t + n ==> busOk(u)
  }

  /** Issues the single-byte writes of `plan` one after another, the first
      as transaction number `t`, and stops after the first one that fails. */
  function Issue(regs: seq<uint8>, plan: seq<RegWrite>, busOk: nat -> bool, t: nat): (run: Run)
    requires |regs| == 256
    ensures |run.regs| == 256
    decreases |plan|
  {
    if plan == [] then Run(true, regs, [])
    else
      var w := plan[0];
      var issued := Write(w.reg, [w.value], busOk(t));
      if !busOk(t) then Run(false, regs, [issued])
      else
        var rest := Issue(Stored(regs, w.reg, [w.value]), plan[1..], busOk, t + 1);
        Run(rest.ok, rest.regs, [issued] + rest.trace)
  }

  /** The register file after every write of `plan` has taken effect. */
  function Apply(regs: seq<uint8>, plan: seq<RegWrite>): (r: seq<uint8>)
    requires |regs| == 256
    ensures |r| == 256
    ensures forall i :: 0 <= i < 256 && (forall k :: 0 <= k < |plan| ==> plan[k].reg != i) ==>
              r[i] == regs[i]
    decreases |plan|
  {
    if plan == [] then regs
    else Apply(Stored(regs, plan[0].reg, [plan[0].value]), plan[1..])
  }

  lemma StoredByte(regs: seq<uint8>, reg: uint8, v: uint8)
    requires |regs| == 256
    ensures Stored(regs, reg, [v]) == regs[reg := v]
  {
  }

  lemma AllOkShift(busOk: nat -> bool, t: nat, n: nat)
    requires n >= 1
    ensures AllOk(busOk, t, n) <==> busOk(t) && AllOk(busOk, t + 1, n - 1)
  {
  }

  /** Issuing a plan issues a prefix of it: write i of the trace is plan
      write i, with its own register and value, as transaction t + i. */
  lemma {:induction false} IssueFollowsPlan(regs: seq<uint8>, plan: seq<RegWrite>, busOk: nat -> bool, t: nat)
    requires |regs| == 256
    ensures var run := Issue(regs, plan, busOk, t);
            && |run.trace| <= |plan|
            && (forall i :: 0 <= i < |run.trace| ==>
                  run.trace[i] == Write(plan[i].reg, [plan[i].value], busOk(t + i)))
    decreases |plan|
  {
    if plan != [] && busOk(t) {
      var w := plan[0];
      var after := Stored(regs, w.reg, [w.value]);
      var rest := Issue(after, plan[1..], busOk, t + 1);
      IssueFollowsPlan(after, plan[1..], busOk, t + 1);
      var trace := Issue(regs, plan, busOk, t).trace;
      assert trace == [Write(w.reg, [w.value], true)] + rest.trace;
      forall i | 1 <= i < |trace|
        ensures trace[i] == Write(plan[i].reg, [plan[i].value], busOk(t + i))
      {
        assert trace[i] == rest.trace[i - 1];
      }
    }
  }

  /** Write i is issued exactly when every write before it succeeded, and
      the run succeeds exactly when every write does. */
  lemma {:induction false} IssueStopsAtFirstFailure(regs: seq<uint8>, plan: seq<RegWrite>, busOk: nat -> bool, t: nat)
    requires |regs| == 256
    ensures var run := Issue(regs, plan, busOk, t);
            && (forall i :: 0 <= i < |plan| ==> (i < |run.trace| <==> AllOk(busOk, t, i)))
            && (run.ok <==> AllOk(busOk, t, |plan|))
    decreases |plan|
  {
    var run := Issue(regs, plan, busOk, t);
    if plan != [] {
      AllOkShift(busOk, t, |plan|);
      if busOk(t) {
        var w := plan[0];
        var after := Stored(regs, w.reg, [w.value]);
        var rest := Issue(after, plan[1..], busOk, t + 1);
        IssueStopsAtFirstFailure(after, plan[1..], busOk, t + 1);
        assert |run.trace| == 1 + |rest.trace|;
        forall i | 1 <= i < |plan| ensures i < |run.trace| <==> AllOk(busOk, t, i) {
          AllOkShift(busOk, t, i);
          assert i - 1 < |rest.trace| <==> AllOk(busOk, t + 1, i - 1);
        }
      } else {
        forall i | 1 <= i < |plan| ensures i < |run.trace| <==> AllOk(busOk, t, i) {
          AllOkShift(busOk, t, i);
        }
      }
    }
  }

  /** Afterwards the register file holds the effect of the writes that
      succeeded: all of the plan, or the issued writes but the failed last
      one. */
  lemma {:induction false} IssueEffect(regs: seq<uint8>, plan: seq<RegWrite>, busOk: nat -> bool, t: nat)
    requires |regs| == 256
    ensures var run := Issue(regs, plan, busOk, t);
            && (run.ok ==> run.regs == Apply(regs, plan))
            && (!run.ok ==> 1 <= |run.trace| <= |plan| && run.regs == Apply(regs, plan[..|run.trace| - 1]))
    decreases |plan|
  {
    var run := Issue(regs, plan, busOk, t);
    if plan == [] {
    } else if !busOk(t) {
      assert plan[..0] == [];
    } else {
      var w := plan[0];
      var after := Stored(regs, w.reg, [w.value]);
      IssueEffect(after, plan[1..], busOk, t + 1);
      if !run.ok {
        var k := |run.trace| - 1;
        assert plan[..k][0] == w && plan[..k][1..] == plan[1..][..k - 1];
      }
    }
  }

  /** The initialisation writes set the power, sample-rate, gyroscope range
      and accelerometer range registers and nothing else. */
  lemma InitPlanEffect(regs: seq<uint8>)
    requires |regs| == 256
    ensures Apply(regs, INIT_PLAN) ==
              regs[PWR_MGMT_1_REG := 0x00][SMPRT_DIV_REG := 0x07][GYRO_CONFIG_REG := 0x18][ACCEL_CONFIG_REG := 0x18]
  {
    var p := INIT_PLAN;
    var r1 := Stored(regs, PWR_MGMT_1_REG, [0x00]);
    StoredByte(regs, PWR_MGMT_1_REG, 0x00);
    var r2 := Stored(r1, SMPRT_DIV_REG, [0x07]);
    StoredByte(r1, SMPRT_DIV_REG, 0x07);
    var r3 := Stored(r2, GYRO_CONFIG_REG, [0x18]);
    StoredByte(r2, GYRO_CONFIG_REG, 0x18);
    var r4 := Stored(r3, ACCEL_CONFIG_REG, [0x18]);
    StoredByte(r3, ACCEL_CONFIG_REG, 0x18);
    assert p[1..][1..][1..][1..] == [];
    assert Apply(r3, p[1..][1..][1..]) == Apply(r4, []);
    assert Apply(r2, p[1..][1..]) == Apply(r3, p[1..][1..][1..]);
    assert Apply(r1, p[1..]) == Apply(r2, p[1..][1..]);
    assert Apply(regs, p) == Apply(r1, p[1..]);
  }

  /** Running the initialisation writes on an already configured device
      leaves its registers as they are. */
  lemma InitPlanIdempotent(regs: seq<uint8>)
    requires |regs| == 256
    ensures Apply(Apply(regs, INIT_PLAN), INIT_PLAN) == Apply(regs, INIT_PLAN)
  {
    InitPlanEffect(regs);
    InitPlanEffect(Apply(regs, INIT_PLAN));
  }

  /** The run `goal` of the whole plan, begun as transaction `start`, is
      the transactions logged since then followed by the run of what is
      left of the plan, `rest`. */
  ghost predicate Remaining(goal: Run, regs: seq<uint8>, log: seq<Access>, busOk: nat -> bool,
                            start: nat, rest: seq<RegWrite>)
    requires |regs| == 256
  {
    var tail := Issue(regs, rest, busOk, |log|);
    start <= |log| && goal == Run(tail.ok, tail.regs, log[start..] + tail.trace)
  }

  /** Issuing the next write of the plan keeps `Remaining`; a failed write
      ends the run. */
  lemma Advance(goal: Run, regs: seq<uint8>, log: seq<Access>, busOk: nat -> bool,
                start: nat, rest: seq<RegWrite>)
    requires |regs| == 256 && rest != []
    requires Remaining(goal, regs, log, busOk, start, rest)
    ensures var w := rest[0];
            var log' := log + [Write(w.reg, [w.value], busOk(|log|))];
            if busOk(|log|) then
              Remaining(goal, Stored(regs, w.reg, [w.value]), log', busOk, start, rest[1..])
            else
              goal == Run(false, regs, log'[start..])
  {
    var w := rest[0];
    var log' := log + [Write(w.reg, [w.value], busOk(|log|))];
    assert log'[start..] == log[start..] + [Write(w.reg, [w.value], busOk(|log|))];
  }

  /** With the bus outcomes of transactions t .. t+3, the initialisation
      writes succeed exactly when all four transactions do; then they are
      issued in the order power management, sample-rate divider, gyroscope
      range, accelerometer range, and leave those four registers at 0x00,
      0x07, 0x18, 0x18 and every other register as it was. */
  lemma InitRunWrites(regs: seq<uint8>, busOk: nat -> bool, t: nat)
    requires |regs| == 256
    ensures var run := Issue(regs, INIT_PLAN, busOk, t);
            && (run.ok <==> busOk(t) && busOk(t + 1) && busOk(t + 2) && busOk(t + 3))
            && (run.ok ==>
                  run.trace == [Write(PWR_MGMT_1_REG, [0x00], true), Write(SMPRT_DIV_REG, [0x07], true),
                                Write(GYRO_CONFIG_REG, [0x18], true), Write(ACCEL_CONFIG_REG, [0x18], true)])
            && (run.ok ==>
                  run.regs == regs[PWR_MGMT_1_REG := 0x00][SMPRT_DIV_REG := 0x07]
                                  [GYRO_CONFIG_REG := 0x18][ACCEL_CONFIG_REG := 0x18])
  {
    var run := Issue(regs, INIT_PLAN, busOk, t);
    IssueStopsAtFirstFailure(regs, INIT_PLAN, busOk, t);
    IssueFollowsPlan(regs, INIT_PLAN, busOk, t);
    IssueEffect(regs, INIT_PLAN, busOk, t);
    InitPlanEffect(regs);
    assert AllOk(busOk, t, 4) <==> busOk(t + 0) && busOk(t + 1) && busOk(t + 2) && busOk(t + 3);
    if run.ok {
      assert AllOk(busOk, t, 3);
      assert |run.trace| == 4;
    }
  }

}
