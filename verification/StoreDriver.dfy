/** The application store as the kernel runs it: the Flash primitives, the transactional write and the
    boot scan over one array of half-words. */
module StoreDriver {
  import opened Common
  import opened Hbc
  import opened Verifier
  import opened AppStore

  /** How many Flash operations a write performs before it returns, for an injected fault of each stage. */
  function StopAt(stage: nat, size: nat): nat {
    var words := HEADER + (size + 1) / 2;
    if stage == 1 then 1
    else if stage == 2 then 1 + HEADER
    else if stage == 3 && size > 2 then 1 + HEADER + 2
    else if stage == 4 then words + 2
    else words + 3
  }

  function Code(stage: nat, size: nat): int {
    if stage == 1 then -31 else if stage == 2 then -32 else if stage == 3 && size > 2 then -33 else if stage == 4
         then -34 else 0
  }

  class Store {
    const crc: seq<byte> -> u32
    const cells: array<u16>
    const staging: array<byte>
    var compileCount: u32
    var appSlot: nat
    var appType: u16
    var appValid: bool
    var failStage: nat
    var recoveries: nat
    ghost var first: Flash     // the Flash when this object was made
    ghost var log: seq<Op>     // every Flash operation since

    ghost predicate Valid()
      reads this, cells
    {
      cells.Length == 2 * SLOT && staging.Length == 258 && cells[..] == ApplyAll(first, log)
    }

    /** What survives in the abstract: Flash and sequence counter. */
    ghost function Abstract(): System
      requires Valid()
      reads this, cells
    {
      System(cells[..], compileCount)
    }

    /** A board with the given Flash contents. */
    constructor (crc: seq<byte> -> u32, cells: array<u16>)
      requires cells.Length == 2 * SLOT
      ensures Valid() && this.crc == crc && this.cells == cells && log == [] && first == cells[..] && compileCount == 0
    {
      this.crc, this.cells := crc, cells;
      staging := new byte[258](_ => 0);
      compileCount, appSlot, appType, appValid, failStage, recoveries := 0, 0, 0, false, 0, 0;
      first, log := cells[..], [];
    }

    method FlashErasePage(base: nat)
      requires Valid() && base + PAGE <= 2 * SLOT
      modifies this`log, cells
      ensures Valid() && log == old(log) + [Erase(base)] && cells[..] == Apply(old(cells[..]), Erase(base))
    {
      forall i | base <= i < base + PAGE { cells[i] := 0xFFFF; }
      log := log + [Erase(base)];
      assert cells[..] == Apply(old(cells[..]), Erase(base));
    }

    method FlashProgramHalf(at: nat, value: u16)
      requires Valid() && at < 2 * SLOT
      modifies this`log, cells
      ensures Valid() && log == old(log) + [Program(at, value)]
              && cells[..] == Apply(old(cells[..]), Program(at, value))
    {
      cells[at] := And(cells[at], value);
      log := log + [Program(at, value)];
      assert cells[..] == Apply(old(cells[..]), Program(at, value));
    }

    method NameCopy(d: array<byte>, name: seq<byte>)
      requires d.Length == 12
      modifies d
      ensures forall i :: 0 <= i < 12 ==> d[i] == if i < 11 && i < Length(name) then name[i] else 0
    {
      var i := 0;
      while i < 11 && i < |name| && name[i] != 0
        invariant i <= 11 && i <= |name| && Length(name) == i + Length(name[i..])
        invariant forall k :: 0 <= k < i ==> d[k] == name[k]
      {
        d[i] := name[i];
        i := i + 1;
        assert name[i - 1..][1..] == name[i..];
      }
      while i < 12
        invariant i <= 12 && forall k :: 0 <= k < i ==> d[k] == if k < 11 && k < Length(name) then name[k] else 0
      {
        d[i] := 0;
        i := i + 1;
      }
    }

    /** Reads `size` code bytes of a slot. */
    method ReadCode(slot: nat, size: nat) returns (code: seq<byte>)
      requires Valid() && size <= 2 * (SLOT - HEADER)
      ensures code == CodeAt(cells[..], slot, size)
    {
      code := seq(size, i requires 0 <= i < size reads cells => ByteAt(cells[..], Base(slot) + HEADER, i));
    }

    method AppVerifySlot(slot: nat) returns (ok: bool)
      requires Valid()
      ensures ok <==> SlotOk(cells[..], slot, crc)
    {
      hide Acceptable, And;
      var b := Base(slot);
      if cells[b] != STATUS_VALID || cells[b + 2] != Low(MAGIC) || cells[b + 3] != High(MAGIC)
         || cells[b + 1] != VERSION
         || cells[b + 4] == 0 || cells[b + 4] > 2 * (SLOT - HEADER) {
        return false;
      }
      var code := ReadCode(slot, cells[b + 4]);
      var lo: nat, hi: nat := cells[b + 6], cells[b + 7];
      if crc(code) != lo + 0x1_0000 * hi {
        return false;
      }
      var counted;
      ok, counted := BytecodeVerify(code);
    }

    /** The boot scan. */
    method AppScan() returns (found: bool)
      requires Valid()
      modifies this`appSlot, this`compileCount, this`appType, this`recoveries
      ensures Valid()
      ensures var s := Selected(cells[..], crc);
              && found == s.Some?
              && (found ==> appSlot == s.value && compileCount == SequenceAt(cells[..], s.value)
                            && appType == cells[Base(s.value) + 5] && recoveries == old(recoveries) + 1)
              && (!found ==> unchanged(this))
    {
      hide SlotOk, And, Selected;
      var bestSeq: u32, best: nat := 0, 0;
      found := false;
      var i := 0;
      while i < 2
        invariant i <= 2 && unchanged(this) && Best(cells[..], i, found, best, bestSeq, crc)
      {
        var ok := AppVerifySlot(i);
        if ok {
          var lo: nat, hi: nat := cells[Base(i) + 8], cells[Base(i) + 9];
          var number := lo + 0x1_0000 * hi;
          if !found || number > bestSeq {
            bestSeq, best, found := number, i, true;
          }
        }
        i := i + 1;
      }
      BestIsSelected(cells[..], found, best, bestSeq, crc);
      if found {
        appSlot, compileCount, appType := best, bestSeq, cells[Base(best) + 5];
        recoveries := recoveries + 1;
      }
    }

    /** The best of the first i slots: the earliest one with the highest sequence number. */
    static ghost predicate Best(f: Flash, i: nat, found: bool, best: nat, bestSeq: u32, crc: seq<byte> -> u32)
      requires |f| == 2 * SLOT && i <= 2
    {
      && (found <==> exists k: nat :: k < i && SlotOk(f, k, crc))
      && (found ==> best < i && SlotOk(f, best, crc) && bestSeq == SequenceAt(f, best))
      && forall k: nat :: k < i && SlotOk(f, k, crc) ==>
           SequenceAt(f, k) <= bestSeq && (k < best ==> SequenceAt(f, k) < bestSeq)
    }

    static lemma BestIsSelected(f: Flash, found: bool, best: nat, bestSeq: u32, crc: seq<byte> -> u32)
      requires |f| == 2 * SLOT && Best(f, 2, found, best, bestSeq, crc)
      ensures Selected(f, crc) == if found then Some(best) else None
      ensures found ==> bestSeq == SequenceAt(f, best)
    {
      hide SlotOk;
      assert SlotOk(f, 0, crc) || SlotOk(f, 1, crc) ==> found;
    }

    /** Power on: memory is cleared, then the store is scanned. */
    method Boot()
      requires Valid()
      modifies this
      ensures Valid() && cells[..] == old(cells[..]) && log == old(log)
      ensures Abstract() == Scanned(cells[..], crc) && appValid == Selected(cells[..], crc).Some?
    {
      hide SlotOk, And, ApplyAll;
      compileCount, appSlot, appType, appValid, failStage, recoveries := 0, 0, 0, false, 0, 0;
      appValid := AppScan();
    }

    /** The first ten header words. */
    method ProgramFixed(base: nat, app: App, seqNo: u32, sum: u32)
      requires Valid() && base + PAGE <= 2 * SLOT && Sized(app)
      modifies this`log, cells
      ensures Valid() && log == old(log) + FixedOps(base, app, seqNo, sum)
    {
      hide And, ApplyAll, Apply, Valid;
      FlashProgramHalf(base, STATUS_WRITING);
      FlashProgramHalf(base + 1, 2);
      FlashProgramHalf(base + 2, Low(MAGIC));
      FlashProgramHalf(base + 3, High(MAGIC));
      FlashProgramHalf(base + 4, |app.code|);
      FlashProgramHalf(base + 5, app.flags);
      FlashProgramHalf(base + 6, Low(sum));
      FlashProgramHalf(base + 7, High(sum));
      FlashProgramHalf(base + 8, Low(seqNo));
      FlashProgramHalf(base + 9, High(seqNo));
    }

    static function FixedOps(base: nat, app: App, seqNo: u32, sum: u32): (r: seq<Op>)
      requires Sized(app)
      ensures |r| == 10
    {
      [Program(base, STATUS_WRITING), Program(base + 1, VERSION), Program(base + 2, Low(MAGIC)),
       Program(base + 3, High(MAGIC)),
       Program(base + 4, |app.code|), Program(base + 5, app.flags), Program(base + 6, Low(sum)), Program(base + 7,
           High(sum)),
       Program(base + 8, Low(seqNo)), Program(base + 9, High(seqNo))]
    }

    /** The six words of the name. */
    method ProgramName(base: nat, name: seq<byte>)
      requires Valid() && base + PAGE <= 2 * SLOT
      modifies this`log, cells
      ensures Valid() && log == old(log) + Programs(base + 10, Pack(NameField(name)))
    {
      hide And, ApplyAll, Apply, Valid;
      hide Programs, Pack, NameField;
      ghost var words := Pack(NameField(name));
      ghost var ops := Programs(base + 10, words);
      var nm := new byte[12](_ => 0);
      NameCopy(nm, if |name| > 0 && name[0] != 0 then name else APP0);
      assert nm[..] == NameField(name) by { NameFieldIs(name, nm[..]); }
      var i := 0;
      while i < 12
        invariant i <= 12 && i % 2 == 0 && Valid() && nm[..] == NameField(name)
        invariant log == old(log) + ops[..i / 2]
      {
        PackedAt(nm[..], i / 2);
        OpsStep(base + 10, words, i / 2);
        FlashProgramHalf(base + 10 + i / 2, Half(nm[i], nm[i + 1]));
        i := i + 2;
      }
      assert ops[..6] == ops;
    }

    static lemma PackedAt(b: seq<byte>, k: nat)
      requires 2 * k < |b|
      ensures Pack(b)[k] == Half(b[2 * k], if 2 * k + 1 < |b| then b[2 * k + 1] else 0xFF)
    {
      hide Half;
    }

    /** One more half-word to program. */
    static lemma OpsStep(base: nat, w: seq<u16>, k: nat)
      requires k < |w|
      ensures var ops := Programs(base, w); ops[..k + 1] == ops[..k] + [Program(base + k, w[k])]
    {
    }

    method ProgramHeader(base: nat, app: App, seqNo: u32, sum: u32)
      requires Valid() && base + PAGE <= 2 * SLOT && Sized(app)
      modifies this`log, cells
      ensures Valid() && log == old(log) + Programs(base, HeaderWords(app, seqNo, sum))
    {
      hide And, ApplyAll, Apply, Valid;
      HeaderOps(base, app, seqNo, sum);
      ProgramFixed(base, app, seqNo, sum);
      ProgramName(base, app.name);
    }

    static lemma HeaderOps(base: nat, app: App, seqNo: u32, sum: u32)
      requires Sized(app)
      ensures Programs(base, HeaderWords(app, seqNo, sum)) ==
                FixedOps(base, app, seqNo, sum) + Programs(base + 10, Pack(NameField(app.name)))
    {
      hide Pack, NameField;
    }

    static lemma NameFieldIs(name: seq<byte>, d: seq<byte>)
      requires |d| == 12
      requires var n := if |name| > 0 && name[0] != 0 then name else APP0;
               forall i :: 0 <= i < 12 ==> d[i] == if i < 11 && i < Length(n) then n[i] else 0
      ensures d == NameField(name)
    {
      assert Length(APP0) == 4 by {
        assert APP0[1..][1..][1..][1..] == [];
        assert Length(APP0[1..][1..][1..]) == 1;
        assert Length(APP0[1..][1..]) == 2;
      }
    }

    /** The code words; an injected fault of stage 3 stops after the second one. */
    method ProgramCode(base: nat, code: seq<byte>) returns (stopped: bool)
      requires Valid() && base + PAGE <= 2 * SLOT && 0 < |code| <= MAX_CODE
      modifies this`log, cells, staging
      ensures Valid() && stopped == (failStage == 3 && |code| > 2)
      ensures log == old(log) + Programs(base + HEADER, Pack(code))[..if stopped then 2 else (|code| + 1) / 2]
    {
      hide And, ApplyAll, Apply, Programs, Pack;
      ghost var ops := Programs(base + HEADER, Pack(code));
      forall k | 0 <= k < |code| { staging[k] := code[k]; }
      staging[|code|] := 0xFF;
      var i := 0;
      while i < |code|
        invariant i <= |code| + 1 && i % 2 == 0 && Valid()
        invariant (forall k :: 0 <= k < |code| ==> staging[k] == code[k]) && staging[|code|] == 0xFF
        invariant log == old(log) + ops[..i / 2] && (failStage == 3 ==> i <= 2)
      {
        PackedAt(code, i / 2);
        OpsStep(base + HEADER, Pack(code), i / 2);
        FlashProgramHalf(base + HEADER + i / 2, Half(staging[i], staging[i + 1]));
        if failStage == 3 && i >= 2 { return true; }
        i := i + 2;
      }
      return false;
    }

    /** The Flash operations of a write, up to an injected fault. */
    method Transact(app: App, seqNo: u32) returns (r: int)
      requires Valid() && Sized(app)
      modifies this`log, cells, staging
      ensures Valid() && r == Code(failStage, |app.code|)
      ensures log == old(log) + OpsOf(app, seqNo, crc)[..StopAt(failStage, |app.code|)]
    {
      hide And, ApplyAll, Apply, Pack, NameField, Programs, WriteOps, Words, HeaderWords, Valid;
      ghost var before := cells[..];
      Contents();
      var base, sum := Base(seqNo), crc(app.code);
      ghost var w := Words(app, seqNo, sum);
      OpsParts(base, app, seqNo, sum);
      FlashErasePage(base);
      if failStage == 1 { return -31; }
      ProgramHeader(base, app, seqNo, sum);
      if failStage == 2 { return -32; }
      var stopped := ProgramCode(base, app.code);
      if stopped { return -33; }
      FlashProgramHalf(base, STATUS_VERIFYING);
      if failStage == 4 { return -34; }
      Logged(before, old(log), OpsOf(app, seqNo, crc), |w| + 2);
      var stored := ReadCode(seqNo, |app.code|);
      ReadBack(before, app, seqNo, sum);
      if crc(stored) != sum {
        assert false;
        return -2;
      }
      FlashProgramHalf(base, STATUS_VALID);
      return 0;
    }

    /** The transactional write. */
    method AppWrite(code: seq<byte>, flags: u16, name: seq<byte>) returns (r: int)
      requires Valid()
      modifies this`log, this`compileCount, this`appSlot, this`appType, this`appValid, this`failStage, cells, staging
      ensures Valid()
      ensures var (app, n, stage) := (App(code, flags, name), NextNumber(old(compileCount)), old(failStage));
              && (!Sized(app) ==> r == -1 && log == old(log))
              && (Sized(app) && !Acceptable(code) ==> r == -3 && log == old(log))
              && (Admitted(app) ==> r == Code(stage, |code|) && log == old(log) + OpsOf(app, n,
                  crc)[..StopAt(stage, |code|)])
              && Abstract() == AppStore.Step(old(Abstract()), Attempt(app, StopAt(stage, |code|), false), crc)
      ensures r == 0 ==> appSlot == NextNumber(old(compileCount)) % 2 && appType == flags && appValid && failStage == 0
      ensures r != 0 ==> unchanged(this`compileCount, this`appSlot, this`appType, this`appValid, this`failStage)
    {
      hide And, ApplyAll, Apply, Acceptable, Pack, NameField, Words, WriteOps, Programs;
      ghost var before, start, stage := cells[..], log, failStage;
      var app := App(code, flags, name);
      if |code| == 0 || |code| > 256 {
        return -1;
      }
      var ok, counted := BytecodeVerify(code);
      if !ok {
        return -3;
      }
      var seqNo := (compileCount + 1) % 0x1_0000_0000;
      r := Transact(app, seqNo);
      ghost var ops := OpsOf(app, seqNo, crc);
      Logged(before, start, ops, StopAt(stage, |code|));
      assert ops[..|ops|] == ops;
      if r == 0 {
        compileCount, appSlot, appType, appValid, failStage := seqNo, seqNo % 2, flags, true, 0;
      }
    }

    lemma Contents()
      requires Valid()
      ensures cells.Length == 2 * SLOT && cells[..] == ApplyAll(first, log)
    {
    }

    /** The log tells the Flash contents. */
    lemma Logged(before: Flash, start: seq<Op>, ops: seq<Op>, k: nat)
      requires Valid() && k <= |ops| && log == start + ops[..k] && before == ApplyAll(first, start)
      ensures cells[..] == ApplyAll(before, ops[..k])
    {
      hide ApplyAll;
      ApplyAppend(first, start, ops[..k]);
    }

    /** The operations of a write, piece by piece. */
    static lemma OpsParts(base: nat, app: App, seqNo: u32, sum: u32)
      requires Sized(app)
      ensures var w := Words(app, seqNo, sum); var ops := WriteOps(base, w);
              var head, body := Programs(base, HeaderWords(app, seqNo, sum)), Programs(base + HEADER, Pack(app.code));
              && |w| == HEADER + (|app.code| + 1) / 2 && |ops| == |w| + 3
              && ops[..1] == [Erase(base)] && ops[..1 + HEADER] == [Erase(base)] + head
              && (|app.code| > 2 ==> ops[..3 + HEADER] == [Erase(base)] + head + body[..2])
              && body[..(|app.code| + 1) / 2] == body
              && ops[..|w| + 2] == [Erase(base)] + head + body + [Program(base, STATUS_VERIFYING)]
              && ops[..|w| + 3] == ops == [Erase(base)] + head + body + [Program(base,
                  STATUS_VERIFYING)] + [Program(base, STATUS_VALID)]
    {
      hide NameField;
      var w := Words(app, seqNo, sum);
      var head, body := Programs(base, HeaderWords(app, seqNo, sum)), Programs(base + HEADER, Pack(app.code));
      assert Programs(base, w) == head + body;
    }

    /** The code read back is the code given, so the check before the commit cannot fail. */
    static lemma ReadBack(before: Flash, app: App, seqNo: u32, sum: u32)
      requires Sized(app)
      ensures var w := Words(app, seqNo, sum);
              CodeAt(ApplyAll(before, WriteOps(Base(seqNo), w)[..|w| + 2]), seqNo, |app.code|) == app.code
    {
      hide Pack, NameField, ApplyAll, WriteOps;
      var w, b := Words(app, seqNo, sum), Base(seqNo);
      PrefixState(before, b, w, |w| + 2);
      var g := After(before, b, w, |w| + 2);
      assert g[b + HEADER..b + |w|] == w[HEADER..] == Pack(app.code);
      CodeRoundTrip(g, seqNo, app.code);
    }
  }
}
