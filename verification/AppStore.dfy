/** The A/B application store: a slot is erased and programmed half-word by half-word, and its status
    word turns to VALID with the last program. Power may fail between any two Flash operations; the next
    boot scans both slots. */
module AppStore {
  import opened Common
  import opened Hbc
  import opened Verifier

  const STATUS_WRITING: u16 := 0x7FFF
  const STATUS_VERIFYING: u16 := 0x3FFF
  const STATUS_VALID: u16 := 0x1FFF
  const VERSION: u16 := 2
  const MAGIC: nat := 0x4841_5050
  const SLOT: nat := 2048          // half-words in a slot
  const PAGE: nat := 512           // half-words erased together
  const HEADER: nat := 16          // half-words in a header
  const APP0: seq<byte> := [97, 112, 112, 48]

  // ---------- Flash ----------

  type Flash = f: seq<u16> | |f| == 2 * SLOT witness seq(2 * SLOT, _ => 0)

  datatype Op = Erase(base: nat) | Program(at: nat, value: u16)

  /** Bitwise AND: programming can only clear bits. */
  function And(a: nat, b: nat): (c: nat)
    ensures c <= a && c <= b
  {
    if a == 0 || b == 0 then 0 else a % 2 * (b % 2) + 2 * And(a / 2, b / 2)
  }

  function Ones(n: nat): nat {
    if n == 0 then 0 else 1 + 2 * Ones(n - 1)
  }

  lemma {:induction false} AndOnes(v: nat, n: nat)
    requires v <= Ones(n)
    ensures And(Ones(n), v) == v
  {
    if n > 0 && v > 0 {
      assert Ones(n) % 2 == 1 && Ones(n) / 2 == Ones(n - 1);
      AndOnes(v / 2, n - 1);
    }
  }

  lemma AndErased(v: u16)
    ensures And(0xFFFF, v) == v
  {
    assert Ones(8) == 0xFF;
    assert Ones(16) == 0xFFFF;
    AndOnes(v, 16);
  }

  lemma {:induction false} AndPrefix(n: nat, m: nat)
    requires m <= n
    ensures And(Ones(n), Ones(m)) == Ones(m)
  {
    OnesGrow(m, n);
    AndOnes(Ones(m), n);
  }

  lemma {:induction false} OnesGrow(m: nat, n: nat)
    requires m <= n
    ensures Ones(m) <= Ones(n)
    decreases n
  {
    if m < n { OnesGrow(m, n - 1); }
  }

  lemma StatusSteps()
    ensures And(STATUS_WRITING, STATUS_VERIFYING) == STATUS_VERIFYING
    ensures And(STATUS_VERIFYING, STATUS_VALID) == STATUS_VALID
  {
    assert Ones(8) == 0xFF;
    assert Ones(13) == 0x1FFF && Ones(14) == 0x3FFF && Ones(15) == 0x7FFF;
    AndPrefix(15, 14);
    AndPrefix(14, 13);
  }

  function Apply(f: Flash, op: Op): Flash {
    match op
    case Erase(base) => seq(|f|, i requires 0 <= i < |f| => if base <= i < base + PAGE then 0xFFFF else f[i])
    case Program(at, v) => if at < |f| then f[at := And(f[at], v)] else f
  }

  function ApplyAll(f: Flash, ops: seq<Op>): Flash {
    if ops == [] then f else Apply(ApplyAll(f, ops[..|ops| - 1]), ops[|ops| - 1])
  }

  lemma {:induction false} ApplyAppend(f: Flash, a: seq<Op>, b: seq<Op>)
    ensures ApplyAll(f, a + b) == ApplyAll(ApplyAll(f, a), b)
    decreases |b|
  {
    if b == [] {
      assert a + b == a;
    } else {
      ApplyAppend(f, a, b[..|b| - 1]);
      assert (a + b)[..|a + b| - 1] == a + b[..|b| - 1];
    }
  }

  // ---------- what a write programs ----------

  function Base(slot: nat): nat {
    slot % 2 * SLOT
  }

  function Low(w: u32): u16 { w % 0x1_0000 }

  function High(w: u32): u16 { w / 0x1_0000 }

  /** Characters before the terminator. */
  function Length(name: seq<byte>): (n: nat)
    ensures n <= |name|
  {
    if name == [] || name[0] == 0 then 0 else 1 + Length(name[1..])
  }

  /** At most eleven characters, zero filled; a missing name becomes `app0`. */
  function NameField(name: seq<byte>): (r: seq<byte>)
    ensures |r| == 12
  {
    var n := if Length(name) == 0 then APP0 else name[..Length(name)];
    seq(12, i requires 0 <= i < 12 => if i < 11 && i < |n| then n[i] else 0)
  }

  /** Bytes paired into half-words, an odd last byte padded with 0xFF. */
  function Pack(b: seq<byte>): (r: seq<u16>)
    ensures |r| == (|b| + 1) / 2
  {
    seq((|b| + 1) / 2,
        i requires 0 <= i < (|b| + 1) / 2 => Half(b[2 * i], if 2 * i + 1 < |b| then b[2 * i + 1] else 0xFF))
  }

  datatype App = App(code: seq<byte>, flags: u16, name: seq<byte>)

  predicate Sized(app: App) {
    0 < |app.code| <= MAX_CODE
  }

  function HeaderWords(app: App, seqNo: u32, crc: u32): (r: seq<u16>)
    requires Sized(app)
    ensures |r| == HEADER
  {
    [STATUS_WRITING, VERSION, Low(MAGIC), High(MAGIC), |app.code|, app.flags, Low(crc), High(crc), Low(seqNo),
     High(seqNo)] +
    Pack(NameField(app.name))
  }

  function Words(app: App, seqNo: u32, crc: u32): (r: seq<u16>)
    requires Sized(app)
    ensures |r| == HEADER + (|app.code| + 1) / 2 < PAGE && r[0] == STATUS_WRITING
  {
    HeaderWords(app, seqNo, crc) + Pack(app.code)
  }

  function Programs(base: nat, w: seq<u16>): (r: seq<Op>)
    ensures |r| == |w|
  {
    seq(|w|, i requires 0 <= i < |w| => Program(base + i, w[i]))
  }

  /** The Flash operations of one write, in order. */
  function WriteOps(base: nat, w: seq<u16>): (r: seq<Op>)
    ensures |r| == |w| + 3
  {
    [Erase(base)] + Programs(base, w) + [Program(base, STATUS_VERIFYING), Program(base, STATUS_VALID)]
  }

  /** The Flash with the first k words of w at base, the rest of the page erased. */
  function Written(f: Flash, base: nat, w: seq<u16>, k: nat): Flash
    requires k <= |w|
  {
    seq(|f|, i requires 0 <= i < |f| =>
      if base <= i < base + k then w[i - base] else if base <= i < base + PAGE then 0xFFFF else f[i])
  }

  lemma {:induction false} ProgramsWrite(f: Flash, base: nat, w: seq<u16>, k: nat)
    requires base + PAGE <= |f| && k <= |w| <= PAGE
    ensures ApplyAll(f, ([Erase(base)] + Programs(base, w))[..k + 1]) == Written(f, base, w, k)
    decreases k
  {
    hide And;
    var ops := [Erase(base)] + Programs(base, w);
    assert ops[..k + 1][..k] == ops[..k];
    if k == 0 {
      assert ApplyAll(f, []) == f;
    } else {
      hide Written;
      ProgramsWrite(f, base, w, k - 1);
      OneWritten(f, base, w, k);
      assert ops[..k + 1][k] == Program(base + k - 1, w[k - 1]);
    }
  }

  lemma OneWritten(f: Flash, base: nat, w: seq<u16>, k: nat)
    requires base + PAGE <= |f| && 0 < k <= |w| <= PAGE
    ensures Apply(Written(f, base, w, k - 1), Program(base + k - 1, w[k - 1])) == Written(f, base, w, k)
  {
    hide And;
    AndErased(w[k - 1]);
    assert Written(f, base, w, k) == Written(f, base, w, k - 1)[base + k - 1 := w[k - 1]];
  }

  /** The Flash after the first k operations of a write. */
  function After(f: Flash, base: nat, w: seq<u16>, k: nat): Flash
    requires base + PAGE <= |f| && 0 < |w| <= PAGE && k <= |w| + 3
  {
    if k == 0 then f
    else if k <= |w| + 1 then Written(f, base, w, k - 1)
    else Written(f, base, w, |w|)[base := if k == |w| + 2 then STATUS_VERIFYING else STATUS_VALID]
  }

  lemma PrefixState(f: Flash, base: nat, w: seq<u16>, k: nat)
    requires base + PAGE <= |f| && 0 < |w| <= PAGE && w[0] == STATUS_WRITING && k <= |w| + 3
    ensures ApplyAll(f, WriteOps(base, w)[..k]) == After(f, base, w, k)
  {
    hide And, Apply, Programs, Written, ApplyAll;
    var ops, front := WriteOps(base, w), [Erase(base)] + Programs(base, w);
    if k == 0 {
      NoOps(f);
      assert ops[..0] == [];
    } else if k <= |w| + 1 {
      ProgramsWrite(f, base, w, k - 1);
      assert ops[..k] == front[..k];
    } else {
      ProgramsWrite(f, base, w, |w|);
      assert front[..|w| + 1] == front;
      StatusState(f, front, base, w, k);
      assert ops[..k] == front + [Program(base, STATUS_VERIFYING), Program(base, STATUS_VALID)][..k - |w| - 1];
    }
  }

  lemma NoOps(f: Flash)
    ensures ApplyAll(f, []) == f
  {
  }

  lemma StatusState(f: Flash, front: seq<Op>, base: nat, w: seq<u16>, k: nat)
    requires base + PAGE <= |f| && 0 < |w| <= PAGE && w[0] == STATUS_WRITING && |w| + 2 <= k <= |w| + 3
    requires ApplyAll(f, front) == Written(f, base, w, |w|)
    ensures ApplyAll(f, front + [Program(base, STATUS_VERIFYING), Program(base, STATUS_VALID)][..k - |w| - 1]) ==
              After(f, base, w, k)
  {
    hide And;
    var v, d := Program(base, STATUS_VERIFYING), Program(base, STATUS_VALID);
    var g := Written(f, base, w, |w|);
    StatusSteps();
    assert (front + [v])[..|front|] == front && (front + [v, d])[..|front| + 1] == front + [v];
    assert ApplyAll(f, front + [v]) == g[base := STATUS_VERIFYING];
    if k == |w| + 2 {
      assert [v, d][..1] == [v];
    } else {
      assert [v, d][..2] == [v, d];
      assert ApplyAll(f, front + [v, d]) == g[base := STATUS_VERIFYING][base := STATUS_VALID];
    }
  }

  // ---------- reading a slot back ----------

  function Word(f: Flash, at: nat): u32
    requires at + 1 < |f|
  {
    var lo: nat, hi: nat := f[at], f[at + 1];
    lo + 0x1_0000 * hi
  }

  function ByteAt(f: Flash, base: nat, i: nat): byte
    requires base + i / 2 < |f|
  {
    if i % 2 == 0 then f[base + i / 2] % 0x100 else f[base + i / 2] / 0x100
  }

  function CodeAt(f: Flash, slot: nat, n: nat): (r: seq<byte>)
    requires n <= 2 * (SLOT - HEADER)
    ensures |r| == n
  {
    seq(n, i requires 0 <= i < n => ByteAt(f, Base(slot) + HEADER, i))
  }

  function SizeAt(f: Flash, slot: nat): u16 { f[Base(slot) + 4] }

  function SequenceAt(f: Flash, slot: nat): u32 { Word(f, Base(slot) + 8) }

  /** What the boot scan accepts. */
  ghost predicate SlotOk(f: Flash, slot: nat, crc: seq<byte> -> u32) {
    var b := Base(slot);
    && f[b] == STATUS_VALID && Word(f, b + 2) == MAGIC && f[b + 1] == VERSION
    && 0 < SizeAt(f, slot) <= 2 * (SLOT - HEADER)
    && crc(CodeAt(f, slot, SizeAt(f, slot))) == Word(f, b + 6)
    && Acceptable(CodeAt(f, slot, SizeAt(f, slot)))
  }

  /** The slot the scan selects: slot 0, unless slot 1 is the only valid one or has the higher sequence. */
  ghost function Selected(f: Flash, crc: seq<byte> -> u32): Option<nat> {
    if SlotOk(f, 0, crc) then
      if SlotOk(f, 1, crc) && SequenceAt(f, 1) > SequenceAt(f, 0) then Some(1) else Some(0)
    else if SlotOk(f, 1, crc) then Some(1) else None
  }

  /** The slot holds the application, complete. */
  predicate Holds(f: Flash, slot: nat, app: App) {
    && Sized(app) && SizeAt(f, slot) == |app.code| && CodeAt(f, slot, |app.code|) == app.code
    && f[Base(slot) + 5] == app.flags && f[Base(slot) + 10..Base(slot) + HEADER] == Pack(NameField(app.name))
  }

  // ---------- one write ----------

  lemma WordRoundTrip(w: u32)
    ensures Low(w) + 0x1_0000 * High(w) == w
  {
  }

  /** Either byte of a packed half-word. */
  lemma PackedByte(code: seq<byte>, i: nat)
    requires i < |code|
    ensures code[i] == if i % 2 == 0 then Pack(code)[i / 2] % 0x100 else Pack(code)[i / 2] / 0x100
  {
    var k := i / 2;
    Halves(code[2 * k], if 2 * k + 1 < |code| then code[2 * k + 1] else 0xFF);
  }

  lemma Halves(lo: byte, hi: byte)
    ensures Half(lo, hi) % 0x100 == lo && Half(lo, hi) / 0x100 == hi
  {
  }

  /** Unpacking undoes packing. */
  lemma CodeRoundTrip(f: Flash, slot: nat, code: seq<byte>)
    requires |code| <= MAX_CODE
    requires var at := Base(slot) + HEADER; f[at..at + (|code| + 1) / 2] == Pack(code)
    ensures CodeAt(f, slot, |code|) == code
  {
    var at := Base(slot) + HEADER;
    hide Pack, Half;
    forall i | 0 <= i < |code| ensures CodeAt(f, slot, |code|)[i] == code[i] {
      assert f[at + i / 2] == f[at..at + (|code| + 1) / 2][i / 2];
      PackedByte(code, i);
    }
  }

  /** After all the operations of a write its slot is valid and holds the application. */
  lemma CommittedSlot(f: Flash, app: App, seqNo: u32, crc: seq<byte> -> u32)
    requires Sized(app) && Acceptable(app.code)
    ensures var w := Words(app, seqNo, crc(app.code));
            var g := After(f, Base(seqNo), w, |w| + 3);
            SlotOk(g, seqNo, crc) && Holds(g, seqNo, app) && SequenceAt(g, seqNo) == seqNo
  {
    hide Acceptable, Pack, NameField;
    var w, b := Words(app, seqNo, crc(app.code)), Base(seqNo);
    var g := After(f, b, w, |w| + 3);
    assert forall i :: 0 < i < |w| ==> g[b + i] == w[i];
    assert g[b + 10..b + HEADER] == w[10..HEADER] == Pack(NameField(app.name));
    assert g[b + HEADER..b + |w|] == w[HEADER..] == Pack(app.code);
    CodeRoundTrip(g, seqNo, app.code);
    WordRoundTrip(crc(app.code));
    WordRoundTrip(seqNo);
    WordRoundTrip(MAGIC);
  }

  /** In between, the slot being written is not valid. */
  lemma UncommittedSlot(f: Flash, app: App, seqNo: u32, crc: seq<byte> -> u32, k: nat)
    requires Sized(app)
    requires var w := Words(app, seqNo, crc(app.code)); 0 < k < |w| + 3
    ensures var w := Words(app, seqNo, crc(app.code)); !SlotOk(After(f, Base(seqNo), w, k), seqNo, crc)
  {
    hide Acceptable, Pack, NameField;
  }

  /** The other slot does not change. */
  lemma OtherSlot(f: Flash, app: App, seqNo: u32, crc: seq<byte> -> u32, k: nat, other: nat)
    requires Sized(app) && other % 2 != seqNo % 2
    requires k <= |Words(app, seqNo, crc(app.code))| + 3
    ensures var w := Words(app, seqNo, crc(app.code));
            var g := After(f, Base(seqNo), w, k);
            && g[Base(other)..Base(other) + SLOT] == f[Base(other)..Base(other) + SLOT]
            && (SlotOk(g, other, crc) <==> SlotOk(f, other, crc)) && SequenceAt(g, other) == SequenceAt(f, other)
            && forall a :: Holds(g, other, a) <==> Holds(f, other, a)
  {
    hide Acceptable, Pack, NameField, Words;
    var w, b := Words(app, seqNo, crc(app.code)), Base(other);
    var g := After(f, Base(seqNo), w, k);
    assert forall i :: b <= i < b + SLOT ==> g[i] == f[i];
    SameSlot(f, g, other, crc);
  }

  lemma SameSlot(f: Flash, g: Flash, slot: nat, crc: seq<byte> -> u32)
    requires forall i :: Base(slot) <= i < Base(slot) + SLOT ==> g[i] == f[i]
    ensures (SlotOk(g, slot, crc) <==> SlotOk(f, slot, crc)) && SequenceAt(g, slot) == SequenceAt(f, slot)
    ensures forall a :: Holds(g, slot, a) <==> Holds(f, slot, a)
  {
    hide Acceptable, Pack, NameField;
    assert forall n: nat :: n <= 2 * (SLOT - HEADER) ==> CodeAt(g, slot, n) == CodeAt(f, slot, n);
    assert g[Base(slot) + 10..Base(slot) + HEADER] == f[Base(slot) + 10..Base(slot) + HEADER];
  }

  // ---------- runs with power failures ----------

  /** What the kernel remembers: nothing but the highest sequence number. */
  datatype System = System(flash: Flash, count: nat)

  /** A call of app_write, cut off after `cut` Flash operations if it has more, then perhaps a reboot. */
  datatype Attempt = Attempt(app: App, cut: nat, reboot: bool)

  ghost predicate Admitted(app: App) {
    Sized(app) && Acceptable(app.code)
  }

  ghost function Scanned(f: Flash, crc: seq<byte> -> u32): System {
    var s := Selected(f, crc);
    System(f, if s.None? then 0 else SequenceAt(f, s.value))
  }

  function OpsOf(app: App, seqNo: u32, crc: seq<byte> -> u32): (r: seq<Op>)
    requires Sized(app)
  {
    WriteOps(Base(seqNo), Words(app, seqNo, crc(app.code)))
  }

  function NextNumber(count: nat): u32 {
    (count + 1) % 0x1_0000_0000
  }

  ghost predicate Commits(s: System, a: Attempt, crc: seq<byte> -> u32) {
    Admitted(a.app) && a.cut >= |OpsOf(a.app, NextNumber(s.count), crc)|
  }

  ghost function Step(s: System, a: Attempt, crc: seq<byte> -> u32): System {
    var f := if !Admitted(a.app) then s.flash
             else
               var ops := OpsOf(a.app, NextNumber(s.count), crc);
               ApplyAll(s.flash, if a.cut < |ops| then ops[..a.cut] else ops);
    if a.reboot then Scanned(f, crc)
    else System(f, if Commits(s, a, crc) then NextNumber(s.count) else s.count)
  }

  /** System and last committed application after a run. */
  ghost function Outcome(s: System, last: Option<App>, run: seq<Attempt>, crc: seq<byte> -> u32): (System, Option<App>)
    decreases |run|
  {
    if run == [] then (s, last)
    else Outcome(Step(s, run[0], crc), if Commits(s, run[0], crc) then Some(run[0].app) else last, run[1..], crc)
  }

  /** No valid slot is newer than the kernel knows; the last commit is in slot count % 2, valid, and the newest. */
  ghost predicate Consistent(s: System, last: Option<App>, crc: seq<byte> -> u32) {
    && s.count < 0x1_0000_0000
    && (forall slot: nat :: slot < 2 && SlotOk(s.flash, slot, crc) ==> SequenceAt(s.flash, slot) <= s.count)
    && (last.Some? ==>
          && SlotOk(s.flash, s.count % 2, crc) && Holds(s.flash, s.count % 2, last.value)
          && SequenceAt(s.flash, s.count % 2) == s.count
          && (SlotOk(s.flash, 1 - s.count % 2, crc) ==> SequenceAt(s.flash, 1 - s.count % 2) < s.count))
  }

  /** A boot scan finds what a consistent system committed last. */
  lemma ScanFinds(s: System, last: Option<App>, crc: seq<byte> -> u32)
    requires Consistent(s, last, crc)
    ensures Scanned(s.flash, crc).count <= s.count && Consistent(Scanned(s.flash, crc), last, crc)
    ensures last.Some? ==> Selected(s.flash, crc) == Some(s.count % 2)
  {
    hide SlotOk, SequenceAt;
    if last.Some? { assert s.count % 2 == 0 || s.count % 2 == 1; }
  }

  lemma WriteKeeps(s: System, last: Option<App>, app: App, k: nat, crc: seq<byte> -> u32)
    requires Consistent(s, last, crc) && Admitted(app) && s.count + 1 < 0x1_0000_0000
    requires k <= |OpsOf(app, s.count + 1, crc)|
    ensures var ops := OpsOf(app, s.count + 1, crc);
            Consistent(System(ApplyAll(s.flash, ops[..k]), if k == |ops| then s.count + 1 else s.count),
                       if k == |ops| then Some(app) else last, crc)
  {
    hide SlotOk, SequenceAt, Words, After, ApplyAll, WriteOps, Acceptable, Holds;
    var n := s.count + 1;
    var w, ops := Words(app, n, crc(app.code)), OpsOf(app, n, crc);
    var g := After(s.flash, Base(n), w, k);
    PrefixState(s.flash, Base(n), w, k);
    OtherSlot(s.flash, app, n, crc, k, s.count);
    assert n % 2 == 1 - s.count % 2;
    SlotModulo(g, n, crc);
    SlotModulo(g, s.count, crc);
    SlotModulo(s.flash, s.count, crc);
    if k == |ops| {
      CommittedSlot(s.flash, app, n, crc);
    } else if k > 0 {
      UncommittedSlot(s.flash, app, n, crc, k);
    } else {
      assert g == s.flash by { AfterNothing(s.flash, Base(n), w); }
    }
  }

  lemma AfterNothing(f: Flash, base: nat, w: seq<u16>)
    requires base + PAGE <= |f| && 0 < |w| <= PAGE
    ensures After(f, base, w, 0) == f
  {
  }

  /** Slots are named modulo 2. */
  lemma SlotModulo(f: Flash, slot: nat, crc: seq<byte> -> u32)
    ensures SlotOk(f, slot, crc) <==> SlotOk(f, slot % 2, crc)
    ensures SequenceAt(f, slot) == SequenceAt(f, slot % 2)
    ensures forall a :: Holds(f, slot, a) <==> Holds(f, slot % 2, a)
  {
    hide Acceptable, Pack, NameField;
    assert Base(slot) == Base(slot % 2);
    assert forall n: nat :: n <= 2 * (SLOT - HEADER) ==> CodeAt(f, slot, n) == CodeAt(f, slot % 2, n);
  }

  lemma StepKeeps(s: System, last: Option<App>, a: Attempt, crc: seq<byte> -> u32)
    requires Consistent(s, last, crc) && s.count + 1 < 0x1_0000_0000
    ensures var t := Step(s, a, crc);
            Consistent(t, if Commits(s, a, crc) then Some(a.app) else last, crc) && t.count <= s.count + 1
  {
    hide SlotOk, SequenceAt, ApplyAll, WriteOps, Acceptable, Consistent, Selected, OpsOf;
    var now := if Commits(s, a, crc) then Some(a.app) else last;
    var f := Step(s, a.(reboot := false), crc).flash;
    var count := if Commits(s, a, crc) then s.count + 1 else s.count;
    if Admitted(a.app) {
      var ops := OpsOf(a.app, s.count + 1, crc);
      var k := if a.cut < |ops| then a.cut else |ops|;
      assert ops[..|ops|] == ops;
      WriteKeeps(s, last, a.app, k, crc);
    }
    assert Consistent(System(f, count), now, crc);
    if a.reboot { ScanFinds(System(f, count), now, crc); }
  }

  lemma {:induction false} RunKeeps(s: System, last: Option<App>, run: seq<Attempt>, crc: seq<byte> -> u32)
    requires Consistent(s, last, crc) && s.count + |run| < 0x1_0000_0000
    ensures var (t, now) := Outcome(s, last, run, crc); Consistent(t, now, crc)
    decreases |run|
  {
    hide Consistent, Step, Commits;
    if run != [] {
      StepKeeps(s, last, run[0], crc);
      RunKeeps(Step(s, run[0], crc), if Commits(s, run[0], crc) then Some(run[0].app) else last, run[1..], crc);
    }
  }

  /** Main result: from any Flash contents, after any run of writes each cut off anywhere and any reboots,
      a boot scan succeeds and selects the last committed application, byte for byte. */
  lemma CrashAtomic(flash: Flash, run: seq<Attempt>, crc: seq<byte> -> u32)
    requires Scanned(flash, crc).count + |run| < 0x1_0000_0000
    ensures var (t, last) := Outcome(Scanned(flash, crc), None, run, crc);
            last.Some? ==>
              var slot := Selected(t.flash, crc);
              slot.Some? && Holds(t.flash, slot.value, last.value) && SequenceAt(t.flash, slot.value) == t.count
  {
    hide SlotOk, SequenceAt, Outcome, Holds;
    var s := Scanned(flash, crc);
    RunKeeps(s, None, run, crc);
    var (t, last) := Outcome(s, None, run, crc);
    ScanFinds(t, last, crc);
  }
}
