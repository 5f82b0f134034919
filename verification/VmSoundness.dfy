/** What the verifier buys: an accepted image can only stop the machine in the listed ways. */
module VmSoundness {
  import opened Common
  import opened Hbc
  import opened Machine
  import opened Verifier

  /** Operand height at which the code running in frame k started (k == |frames|: the current code). */
  function Base(frames: seq<Frame>, k: nat): nat
    requires k <= |frames|
  {
    if k == 0 then 0 else frames[k - 1].baseSp
  }

  /** The machine agrees with the depth assignment, in the running code and in every suspended frame. */
  ghost predicate Safe(code: seq<byte>, depth: seq<int>, s: State)
    requires |depth| == |code|
  {
    && s.Valid()
    && (s.pc == |code| ||
        (IsStart(code, s.pc) && depth[s.pc] >= 0 && |s.stack| == Base(s.frames, |s.frames|) + depth[s.pc]))
    && (forall k :: 0 <= k < |s.frames| ==> Suspended(code, depth, s.frames, k))
  }

  ghost predicate Suspended(code: seq<byte>, depth: seq<int>, frames: seq<Frame>, k: nat)
    requires |depth| == |code| && k < |frames|
  {
    var f := frames[k];
    && Base(frames, k) <= f.baseSp <= STACK_SIZE
    && (f.returnPc == |code| ||
        (IsStart(code, f.returnPc) && f.baseSp + 1 == Base(frames, k) + depth[f.returnPc]))
  }

  /** The only reasons for which a verified image may be stopped in state s. */
  ghost predicate Allowed(code: seq<byte>, s: State, gpio: nat -> bool, cause: Cause) {
    match cause
    case PcOutOfRange => s.pc == |code|
    case PushTrap => IsStart(code, s.pc) && InstrAt(code, s.pc).PushI32? && |s.stack| == STACK_SIZE && s.frames != []
    case LoadTrap => IsStart(code, s.pc) && InstrAt(code, s.pc).LoadLocal? && |s.stack| == STACK_SIZE && s.frames != []
    case DivideByZero =>
      IsStart(code, s.pc) && InstrAt(code, s.pc) == Binary(Div) && s.stack != [] && s.stack[|s.stack| - 1] == 0
    case CallFrame => IsStart(code, s.pc) && InstrAt(code, s.pc).Call? && |s.frames| == FRAME_COUNT
    case ReturnFrame => IsStart(code, s.pc) && InstrAt(code, s.pc).Ret? && s.frames == []
    case GpioAccess => IsStart(code, s.pc) && InstrAt(code, s.pc).Gpio? && !gpio(|s.trace|)
    case InvalidOpcode => IsStart(code, s.pc) && InstrAt(code, s.pc).Marker?
    case _ => false
  }

  lemma EnterFrame(code: seq<byte>, depth: seq<int>, frames: seq<Frame>, f: Frame)
    requires |depth| == |code| && forall k :: 0 <= k < |frames| ==> Suspended(code, depth, frames, k)
    requires Base(frames, |frames|) <= f.baseSp <= STACK_SIZE
    requires f.returnPc == |code| ||
             (IsStart(code, f.returnPc) && f.baseSp + 1 == Base(frames, |frames|) + depth[f.returnPc])
    ensures forall k :: 0 <= k <= |frames| ==> Suspended(code, depth, frames + [f], k)
  {
    hide IsStart;
    forall k | 0 <= k < |frames| ensures Suspended(code, depth, frames + [f], k) {
      assert Suspended(code, depth, frames, k);
    }
  }

  lemma LeaveFrame(code: seq<byte>, depth: seq<int>, frames: seq<Frame>, rest: seq<Frame>)
    requires |depth| == |code| && frames != [] && rest == frames[..|frames| - 1]
    requires forall k :: 0 <= k < |frames| ==> Suspended(code, depth, frames, k)
    ensures forall k :: 0 <= k < |rest| ==> Suspended(code, depth, rest, k)
    ensures Suspended(code, depth, frames, |frames| - 1)
  {
    hide IsStart;
    forall k | 0 <= k < |rest| ensures Suspended(code, depth, rest, k) {
      assert Suspended(code, depth, frames, k);
    }
  }

  /** The facts about the instruction at a safe state that every case uses. */
  lemma AtInstruction(code: seq<byte>, depth: seq<int>, s: State)
    requires Decodes(code, 0) && Consistent(code, depth) && Safe(code, depth, s) && s.pc < |code|
    ensures FlowOk(code, depth, s.pc) && (Decode(code, s.pc).next < |code| ==> IsStart(code, Decode(code, s.pc).next))
    ensures -1 <= depth[s.pc] <= STACK_SIZE
  {
    hide Decode, Decodes, Start;
    StartStep(code, 0, s.pc);
  }

  lemma CallSafe(code: seq<byte>, depth: seq<int>, s: State, gpio: nat -> bool)
    requires Decodes(code, 0) && TargetsAreStarts(code) && Consistent(code, depth) && Safe(code, depth, s)
    requires s.pc < |code| && InstrAt(code, s.pc).Call?
    ensures var r := Step(code, s, gpio);
            (r.Running? ==> Safe(code, depth, r.s)) && (r.Trapped? ==> Allowed(code, s, gpio, r.cause))
  {
    hide Decode, Decodes, Start;
    AtInstruction(code, depth, s);
    if |s.frames| < FRAME_COUNT {
      EnterFrame(code, depth, s.frames, Frame(Decode(code, s.pc).next, |s.stack|, s.locals));
    }
  }

  lemma ReturnSafe(code: seq<byte>, depth: seq<int>, s: State, gpio: nat -> bool)
    requires Decodes(code, 0) && Consistent(code, depth) && Safe(code, depth, s)
    requires s.pc < |code| && InstrAt(code, s.pc).Ret?
    ensures var r := Step(code, s, gpio);
            (r.Running? ==> Safe(code, depth, r.s)) && (r.Trapped? ==> Allowed(code, s, gpio, r.cause))
  {
    hide Decode, Decodes, Start;
    AtInstruction(code, depth, s);
    if s.frames != [] {
      LeaveFrame(code, depth, s.frames, s.frames[..|s.frames| - 1]);
    }
  }

  /** Instructions that stay in their frame. */
  lemma StraightSafe(code: seq<byte>, depth: seq<int>, s: State, gpio: nat -> bool)
    requires Decodes(code, 0) && TargetsAreStarts(code) && Consistent(code, depth) && Safe(code, depth, s)
    requires s.pc < |code| && !InstrAt(code, s.pc).Call? && !InstrAt(code, s.pc).Ret?
    ensures var r := Step(code, s, gpio);
            (r.Running? ==> Safe(code, depth, r.s)) && (r.Trapped? ==> Allowed(code, s, gpio, r.cause))
  {
    hide Decode, Decodes, Start, Suspended;
    AtInstruction(code, depth, s);
    SlotInRange(code, s.pc);
    hide Consistent;
  }

  lemma StepSafe(code: seq<byte>, depth: seq<int>, s: State, gpio: nat -> bool)
    requires Decodes(code, 0) && TargetsAreStarts(code) && Consistent(code, depth) && Safe(code, depth, s)
    ensures var r := Step(code, s, gpio);
            (r.Running? ==> Safe(code, depth, r.s)) && (r.Trapped? ==> Allowed(code, s, gpio, r.cause))
  {
    hide Decode, Decodes, Start, Execute, Consistent, Suspended;
    if s.pc < |code| {
      if InstrAt(code, s.pc).Call? {
        CallSafe(code, depth, s, gpio);
      } else if InstrAt(code, s.pc).Ret? {
        ReturnSafe(code, depth, s, gpio);
      } else {
        StraightSafe(code, depth, s, gpio);
      }
    }
  }

  lemma SlotInRange(code: seq<byte>, at: nat)
    requires IsStart(code, at)
    ensures var i := InstrAt(code, at); i.LoadLocal? || i.StoreLocal? ==> i.slot < LOCAL_COUNT
  {
  }

  /** The outcome of a run is safe: still in step, finished, or trapped for an allowed reason in a
      state that was in step. */
  ghost predicate SafeOutcome(code: seq<byte>, depth: seq<int>, gpio: nat -> bool, r: Outcome)
    requires |depth| == |code|
  {
    match r
    case Running(s) => Safe(code, depth, s)
    case Exited(_) => true
    case Trapped(cause, _) => exists s :: Safe(code, depth, s) && Allowed(code, s, gpio, cause)
  }

  lemma {:induction false} RunSafe(code: seq<byte>, depth: seq<int>, s: State, gpio: nat -> bool, n: nat)
    requires Decodes(code, 0) && TargetsAreStarts(code) && Consistent(code, depth) && Safe(code, depth, s)
    ensures SafeOutcome(code, depth, gpio, Run(code, s, gpio, n))
    decreases n
  {
    hide Decode, Decodes, Start, Consistent, Allowed, Step;
    if n > 0 {
      StepSafe(code, depth, s, gpio);
      var r := Step(code, s, gpio);
      if r.Running? {
        RunSafe(code, depth, r.s, gpio, n - 1);
      }
    }
  }

  /** Main result: however long an accepted image runs from reset, and whatever the GPIO requests
      answer, it stays in step with one depth assignment and traps only for an allowed reason. */
  lemma VerifiedCodeIsSafe(code: seq<byte>, gpio: nat -> bool)
    requires Acceptable(code)
    ensures exists depth :: Consistent(code, depth) &&
              forall n: nat :: SafeOutcome(code, depth, gpio, Run(code, RESET, gpio, n))
  {
    hide Decode, Decodes, Start, Allowed, Run, SafeOutcome;
    var depth :| Consistent(code, depth);
    FirstStart(code);
    assert Safe(code, depth, RESET);
    forall n: nat ensures SafeOutcome(code, depth, gpio, Run(code, RESET, gpio, n)) {
      RunSafe(code, depth, RESET, gpio, n);
    }
  }
}
