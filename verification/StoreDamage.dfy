/** What a boot makes of Flash that has changed since it was written. Slots are described by the raw half-words
    that a completed write leaves, with the offsets and values of the header written out. */
module StoreDamage {
  import opened Common
  import V = Verifier
  import opened AppStore

  /** The ten half-words before the name, as a completed write of the application leaves them. */
  predicate HeaderOf(f: Flash, slot: nat, app: App, number: nat, sum: nat) {
    var b := slot % 2 * 2048;
    && f[b] == 0x1FFF && f[b + 1] == 2 && f[b + 2] == 0x5050 && f[b + 3] == 0x4841
    && f[b + 4] == |app.code| && f[b + 5] == app.flags
    && f[b + 6] == sum % 0x1_0000 && f[b + 7] == sum / 0x1_0000
    && f[b + 8] == number % 0x1_0000 && f[b + 9] == number / 0x1_0000
  }

  /** The character at k of the name that is stored. */
  function Letter(name: seq<byte>, k: nat): nat {
    if k >= 11 || k >= |name| || exists j :: 0 <= j <= k && name[j] == 0 then 0 else name[k]
  }

  /** The half-words of name and code. */
  predicate BodyOf(f: Flash, slot: nat, app: App) {
    var b := slot % 2 * 2048;
    && (forall k :: 0 <= k < 6 && app.name != [] && app.name[0] != 0 ==>
          f[b + 10 + k] == Letter(app.name, 2 * k) + 256 * Letter(app.name, 2 * k + 1))
    && (app.name == [] || app.name[0] == 0 ==> f[b + 10..b + 16] == [0x7061, 0x3070, 0, 0, 0, 0])
    && (forall k :: 0 <= k < (|app.code| + 1) / 2 && 16 + k < 2048 ==>
          f[b + 16 + k] == app.code[2 * k] as int
                           + 256 * if 2 * k + 1 < |app.code| then app.code[2 * k + 1] as int else 0xFF)
  }

  lemma {:induction false} LengthMeans(name: seq<byte>, k: nat)
    ensures k < Length(name) <==> k < |name| && forall j :: 0 <= j <= k ==> name[j] != 0
    decreases k
  {
    if name != [] && name[0] != 0 && k > 0 {
      LengthMeans(name[1..], k - 1);
      assert forall j :: 0 < j <= k && j < |name| ==> name[j] == name[1..][j - 1];
    }
  }

  lemma NameMeans(name: seq<byte>, k: nat)
    requires k < 12
    ensures name != [] && name[0] != 0 ==> NameField(name)[k] as int == Letter(name, k)
    ensures name == [] || name[0] == 0 ==> NameField(name) == [97, 112, 112, 48, 0, 0, 0, 0, 0, 0, 0, 0]
  {
    LengthMeans(name, 0);
    LengthMeans(name, k);
  }

  lemma NamePacked(name: seq<byte>)
    requires name == [] || name[0] == 0
    ensures Pack(NameField(name)) == [0x7061, 0x3070, 0, 0, 0, 0]
  {
    hide NameField;
    NameMeans(name, 0);
  }

  /** What a completed write leaves in its slot, half-word by half-word. */
  lemma CommitLeaves(f: Flash, app: App, number: u32, crc: seq<byte> -> u32)
    requires Sized(app)
    ensures var w := Words(app, number, crc(app.code));
            var g := After(f, Base(number), w, |w| + 3);
            HeaderOf(g, number, app, number, crc(app.code)) && BodyOf(g, number, app)
  {
    hide NameField, Pack, Words, HeaderOf, Letter;
    var w, b := Words(app, number, crc(app.code)), Base(number);
    var g := After(f, b, w, |w| + 3);
    assert forall i :: 0 < i < |w| ==> g[b + i] == w[i];
    HeaderLeft(g, app, number, crc(app.code));
    NameLeft(g, app, number, w);
    CodeLeft(g, app, number, w);
  }

  lemma HeaderLeft(g: Flash, app: App, number: u32, sum: u32)
    requires Sized(app) && g[Base(number)] == STATUS_VALID
    requires var w := Words(app, number, sum); forall i :: 0 < i < |w| ==> g[Base(number) + i] == w[i]
    ensures HeaderOf(g, number, app, number, sum)
    ensures Words(app, number, sum)[10..16] == Pack(NameField(app.name))
    ensures Words(app, number, sum)[16..] == Pack(app.code)
  {
    hide NameField, Pack;
    var w, b := Words(app, number, sum), Base(number);
    assert g[b + 1] == w[1] && g[b + 2] == w[2] && g[b + 3] == w[3] && g[b + 4] == w[4] && g[b + 5] == w[5];
    assert g[b + 6] == w[6] && g[b + 7] == w[7] && g[b + 8] == w[8] && g[b + 9] == w[9];
  }

  lemma NameLeft(g: Flash, app: App, number: u32, w: seq<u16>)
    requires Sized(app) && |w| == HEADER + (|app.code| + 1) / 2 && w[10..16] == Pack(NameField(app.name))
    requires forall i :: 0 < i < |w| ==> g[Base(number) + i] == w[i]
    ensures var b := Base(number);
            && (forall k :: 0 <= k < 6 && app.name != [] && app.name[0] != 0 ==>
                  g[b + 10 + k] == Letter(app.name, 2 * k) + 256 * Letter(app.name, 2 * k + 1))
            && (app.name == [] || app.name[0] == 0 ==> g[b + 10..b + 16] == [0x7061, 0x3070, 0, 0, 0, 0])
  {
    hide NameField;
    var b := Base(number);
    forall k | 0 <= k < 6 && app.name != [] && app.name[0] != 0
      ensures g[b + 10 + k] == Letter(app.name, 2 * k) + 256 * Letter(app.name, 2 * k + 1)
    {
      NameMeans(app.name, 2 * k);
      NameMeans(app.name, 2 * k + 1);
      assert g[b + 10 + k] == w[10..16][k];
    }
    if app.name == [] || app.name[0] == 0 {
      NamePacked(app.name);
      assert g[b + 10..b + 16] == w[10..16];
    }
  }

  lemma CodeLeft(g: Flash, app: App, number: u32, w: seq<u16>)
    requires Sized(app) && |w| == HEADER + (|app.code| + 1) / 2 && w[16..] == Pack(app.code)
    requires forall i :: 0 < i < |w| ==> g[Base(number) + i] == w[i]
    ensures var b := Base(number);
            forall k :: 0 <= k < (|app.code| + 1) / 2 && 16 + k < 2048 ==>
              g[b + 16 + k] == app.code[2 * k] as int
                               + 256 * if 2 * k + 1 < |app.code| then app.code[2 * k + 1] as int else 0xFF
  {
    var b := Base(number);
    forall k | 0 <= k < (|app.code| + 1) / 2 && 16 + k < 2048
      ensures g[b + 16 + k] == app.code[2 * k] as int
                               + 256 * if 2 * k + 1 < |app.code| then app.code[2 * k + 1] as int else 0xFF
    {
      assert w[16 + k] == w[16..][k];
    }
  }

  /** Under such a header a slot is valid exactly when its code still has the checksum of the code written, and
      passes the bytecode verifier. */
  lemma ValidExactly(g: Flash, slot: nat, app: App, number: u32, crc: seq<byte> -> u32)
    requires Sized(app) && HeaderOf(g, slot, app, number, crc(app.code))
    ensures var stored := CodeAt(g, slot, |app.code|);
            SlotOk(g, slot, crc) <==> crc(stored) == crc(app.code) && V.Acceptable(stored)
    ensures SequenceAt(g, slot) == number
  {
    hide V.Acceptable;
    Recombined(crc(app.code));
    Recombined(number);
  }

  lemma Recombined(w: u32)
    ensures w % 0x1_0000 + 0x1_0000 * (w / 0x1_0000) == w
  {
  }

  /** The application that the slot was written with is intact there. */
  ghost predicate Intact(g: Flash, slot: nat, app: App, number: nat, crc: seq<byte> -> u32) {
    Admitted(app) && HeaderOf(g, slot, app, number, crc(app.code)) && CodeAt(g, slot, |app.code|) == app.code
  }

  /** The code in the slot is not what was written: another checksum, or not acceptable. */
  ghost predicate Spoiled(g: Flash, slot: nat, app: App, number: nat, crc: seq<byte> -> u32) {
    Sized(app) && HeaderOf(g, slot, app, number, crc(app.code))
    && var stored := CodeAt(g, slot, |app.code|); crc(stored) != crc(app.code) || !V.Acceptable(stored)
  }

  /** A spoiled slot is never booted; the other one is, if its application is intact. Of two intact ones the one
      with the higher number is. */
  lemma SpoiledNeverBoots(g: Flash, slot: nat, app: App, number: u32, other: App, count: u32, crc: seq<byte> -> u32)
    requires slot < 2
    ensures Spoiled(g, slot, app, number, crc) ==> Selected(g, crc) != Some(slot)
    ensures Spoiled(g, slot, app, number, crc) && Intact(g, 1 - slot, other, count, crc) ==>
              Selected(g, crc) == Some(1 - slot)
    ensures Intact(g, slot, app, number, crc) && Intact(g, 1 - slot, other, count, crc) && number > count ==>
              Selected(g, crc) == Some(slot)
  {
    hide SlotOk, SequenceAt, V.Acceptable, HeaderOf;
    if Sized(app) && HeaderOf(g, slot, app, number, crc(app.code)) { ValidExactly(g, slot, app, number, crc); }
    if Sized(other) && HeaderOf(g, 1 - slot, other, count, crc(other.code)) {
      ValidExactly(g, 1 - slot, other, count, crc);
    }
  }

  /** A slot whose status, version, magic or size word is wrong is never booted, whatever its checksum. */
  lemma BadHeaderNeverBoots(g: Flash, slot: nat, crc: seq<byte> -> u32)
    requires slot < 2
    requires var b := slot * 2048;
             || g[b] != 0x1FFF || g[b + 1] != 2 || g[b + 2] != 0x5050 || g[b + 3] != 0x4841
             || g[b + 4] == 0 || g[b + 4] > 4064
    ensures Selected(g, crc) != Some(slot)
  {
    hide V.Acceptable;
    var b := slot * 2048;
    assert Word(g, b + 2) == MAGIC ==> g[b + 2] == 0x5050 && g[b + 3] == 0x4841 by {
      if Word(g, b + 2) == MAGIC { Split(g[b + 2], g[b + 3]); }
    }
  }

  lemma Split(lo: u16, hi: u16)
    requires var l: nat, h: nat := lo, hi; l + 0x1_0000 * h == 0x4841_5050
    ensures lo == 0x5050 && hi == 0x4841
  {
  }

  /** Main result: after any run that had committed `last`, and a further write that commits, let the new slot's code
      change in any way that gives it another checksum or that the verifier refuses. The next boot then selects the
      slot of `last`, which still holds it byte for byte. */
  lemma OlderApplicationBoots(s: System, last: App, a: Attempt, g: Flash, crc: seq<byte> -> u32)
    requires Consistent(s, Some(last), crc) && s.count + 1 < 0x1_0000_0000 && Commits(s, a, crc) && !a.reboot
    requires var f, b := Step(s, a, crc).flash, (s.count + 1) % 2 * 2048;
             forall i :: 0 <= i < |f| && !(b + 16 <= i < b + 2048) ==> g[i] == f[i]
    requires var stored := CodeAt(g, s.count + 1, |a.app.code|);
             crc(stored) != crc(a.app.code) || !V.Acceptable(stored)
    ensures Selected(g, crc) == Some(s.count % 2) && Holds(g, s.count % 2, last)
    ensures Scanned(g, crc) == System(g, s.count)
  {
    hide SlotOk, SequenceAt, V.Acceptable, Words, After, ApplyAll, WriteOps, Holds, CodeAt, HeaderOf;
    var n, app := s.count + 1, a.app;
    var ops, w := OpsOf(app, n, crc), Words(app, n, crc(app.code));
    var f := After(s.flash, Base(n), w, |w| + 3);
    assert ops[..|ops|] == ops;
    PrefixState(s.flash, Base(n), w, |w| + 3);
    assert Step(s, a, crc).flash == f;
    CommitLeaves(s.flash, app, n, crc);
    SameHeader(f, g, n, app, crc);
    ValidExactly(g, n, app, n, crc);
    SlotModulo(g, n, crc);
    OtherSlot(s.flash, app, n, crc, |w| + 3, s.count);
    OtherCells(f, g, s.count);
    SameSlot(f, g, s.count, crc);
    SlotModulo(g, s.count, crc);
    SlotModulo(s.flash, s.count, crc);
  }

  lemma SameHeader(f: Flash, g: Flash, n: nat, app: App, crc: seq<byte> -> u32)
    requires HeaderOf(f, n, app, n, crc(app.code))
    requires var b := n % 2 * 2048; forall i :: 0 <= i < |f| && !(b + 16 <= i < b + 2048) ==> g[i] == f[i]
    ensures HeaderOf(g, n, app, n, crc(app.code))
  {
  }

  lemma OtherCells(f: Flash, g: Flash, count: nat)
    requires var b := (count + 1) % 2 * 2048; forall i :: 0 <= i < |f| && !(b + 16 <= i < b + 2048) ==> g[i] == f[i]
    ensures forall i :: Base(count) <= i < Base(count) + SLOT ==> g[i] == f[i]
  {
  }

  // ---------- programming is bitwise ----------

  /** Bit k of a number. */
  function BitOf(n: nat, k: nat): nat
    decreases k
  {
    if k == 0 then n % 2 else BitOf(n / 2, k - 1)
  }

  /** A half-word programmed keeps exactly the bits that are set in both. */
  lemma {:induction false} AndIsBitwise(a: nat, b: nat, k: nat)
    ensures BitOf(And(a, b), k) == 1 <==> BitOf(a, k) == 1 && BitOf(b, k) == 1
    decreases k
  {
    if a == 0 || b == 0 {
      NoBits(k);
    } else if k > 0 {
      assert And(a, b) / 2 == And(a / 2, b / 2);
      AndIsBitwise(a / 2, b / 2, k - 1);
    }
  }

  lemma {:induction false} NoBits(k: nat)
    ensures BitOf(0, k) == 0
  {
    if k > 0 { NoBits(k - 1); }
  }
}
