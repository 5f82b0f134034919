/** The real-time ready lists: sixteen singly linked lists threaded through one array, with head, tail
    and a bitmap of the levels in use. */
module ReadyList {
  import opened Common

  const LEVELS: nat := 16

  type Queues = q: seq<seq<nat>> | |q| == LEVELS witness seq(LEVELS, _ => [])

  // ---------- what the operations mean ----------

  function Level(prio: nat): (p: nat)
    ensures p < LEVELS
  {
    if prio >= LEVELS then LEVELS - 1 else prio
  }

  function Enqueue(q: Queues, prio: nat, i: nat): Queues {
    q[Level(prio) := q[Level(prio)] + [i]]
  }

  function Without(l: seq<nat>, i: nat): (r: seq<nat>)
    ensures i !in l ==> r == l
    ensures forall k :: k in r ==> k in l
  {
    if l == [] then [] else if l[0] == i then l[1..] else [l[0]] + Without(l[1..], i)
  }

  function Remove(q: Queues, prio: nat, i: nat): Queues {
    q[Level(prio) := Without(q[Level(prio)], i)]
  }

  /** The first of a level goes to its end. */
  function Rotate(q: Queues, p: nat): Queues {
    if p < LEVELS && |q[p]| > 1 then q[p := q[p][1..] + [q[p][0]]] else q
  }

  /** Head of the first level in use at or after p, INVALID if there is none. */
  function Highest(q: Queues, p: nat): nat
    requires p <= LEVELS
    decreases LEVELS - p
  {
    if p == LEVELS then INVALID else if q[p] != [] then q[p][0] else Highest(q, p + 1)
  }

  predicate Queued(q: Queues, i: nat) {
    exists p :: 0 <= p < LEVELS && i in q[p]
  }

  /** No task stands in two places. */
  ghost predicate Disjoint(q: Queues) {
    && (forall p, k :: 0 <= p < LEVELS && 0 <= k < |q[p]| ==> q[p][k] < MAX_TASKS)
    && (forall p, k, r,
        l :: 0 <= p < LEVELS && 0 <= k < |q[p]| && 0 <= r < LEVELS && 0 <= l < |q[r]| && q[p][k] == q[r][l] ==>
          p == r && k == l)
  }

  lemma {:induction false} WithoutSplit(l: seq<nat>, k: nat)
    requires k < |l| && l[k] !in l[..k]
    ensures Without(l, l[k]) == l[..k] + l[k + 1..]
  {
    if k > 0 {
      assert l[0] == l[..k][0];
      assert l[k] !in l[1..][..k - 1] by {
        assert forall j :: 0 <= j < k - 1 ==> l[1..][j] == l[..k][j + 1];
      }
      WithoutSplit(l[1..], k - 1);
      assert [l[0]] + (l[1..][..k - 1] + l[1..][k..]) == l[..k] + l[k + 1..];
    }
  }

  lemma Fresh(q: Queues, i: nat)
    requires Disjoint(q) && !Queued(q, i)
    ensures forall r, k :: 0 <= r < LEVELS && 0 <= k < |q[r]| ==> q[r][k] != i
  {
    forall r, k | 0 <= r < LEVELS && 0 <= k < |q[r]| ensures q[r][k] != i {
      assert q[r][k] in q[r];
    }
  }

  lemma DisjointAppend(q: Queues, p: nat, i: nat)
    requires Disjoint(q) && p < LEVELS && i < MAX_TASKS && !Queued(q, i)
    ensures Disjoint(q[p := q[p] + [i]])
  {
    Fresh(q, i);
  }

  lemma DisjointCut(q: Queues, p: nat, k: nat)
    requires Disjoint(q) && p < LEVELS && k < |q[p]|
    ensures q[p][k] !in q[p][..k]
    ensures Disjoint(q[p := q[p][..k] + q[p][k + 1..]])
  {
    var l := q[p][..k] + q[p][k + 1..];
    assert forall j :: 0 <= j < |l| ==> l[j] == q[p][if j < k then j else j + 1];
    var r := q[p := l];
    forall a, i, b, j | 0 <= a < LEVELS && 0 <= i < |r[a]| && 0 <= b < LEVELS && 0 <= j < |r[b]| && r[a][i] == r[b][j]
      ensures a == b && i == j
    {
      var i1, j1 := if a == p && i >= k then i + 1 else i, if b == p && j >= k then j + 1 else j;
      assert r[a][i] == q[a][i1] && r[b][j] == q[b][j1];
    }
  }

  lemma DisjointRotate(q: Queues, p: nat)
    requires Disjoint(q) && p < LEVELS && |q[p]| > 1
    ensures Disjoint(q[p := q[p][1..] + [q[p][0]]])
  {
    var l := q[p][1..] + [q[p][0]];
    assert forall j :: 0 <= j < |l| ==> l[j] == if j + 1 < |l| then q[p][j + 1] else q[p][0];
  }

  lemma EnqueueMembers(q: Queues, prio: nat, i: nat)
    requires Disjoint(q) && i < MAX_TASKS && !Queued(q, i)
    ensures Disjoint(Enqueue(q, prio, i))
    ensures forall r, j :: 0 <= r < LEVELS ==>
              (j in Enqueue(q, prio, i)[r] <==> j in q[r] || (j == i && r == Level(prio)))
  {
    DisjointAppend(q, Level(prio), i);
  }

  lemma CutMembers(l: seq<nat>, k: nat)
    requires k < |l| && forall a, b :: 0 <= a < |l| && 0 <= b < |l| && l[a] == l[b] ==> a == b
    ensures forall j :: j in l[..k] + l[k + 1..] <==> j in l && j != l[k]
  {
    assert l == l[..k] + [l[k]] + l[k + 1..];
  }

  lemma RemoveMembers(q: Queues, prio: nat, i: nat)
    requires Disjoint(q)
    ensures Disjoint(Remove(q, prio, i))
    ensures forall r, j :: 0 <= r < LEVELS ==>
              (j in Remove(q, prio, i)[r] <==> j in q[r] && !(j == i && r == Level(prio)))
  {
    var p := Level(prio);
    if i in q[p] {
      var k :| 0 <= k < |q[p]| && q[p][k] == i;
      DisjointCut(q, p, k);
      WithoutSplit(q[p], k);
      CutMembers(q[p], k);
      hide Without, Disjoint;
    } else {
      assert q[p := Without(q[p], i)] == q;
    }
  }

  lemma RotateMembers(q: Queues, p: nat)
    requires Disjoint(q)
    ensures Disjoint(Rotate(q, p))
    ensures forall r, j :: 0 <= r < LEVELS ==> (j in Rotate(q, p)[r] <==> j in q[r])
  {
    if p < LEVELS && |q[p]| > 1 {
      DisjointRotate(q, p);
      assert q[p] == [q[p][0]] + q[p][1..];
    }
  }

  // ---------- the bitmap ----------

  function Bit(p: nat): bv16
    requires p < LEVELS
  {
    match p
    case 0 => 1 case 1 => 2 case 2 => 4 case 3 => 8 case 4 => 16 case 5 => 32 case 6 => 64 case 7 => 128
    case 8 => 256 case 9 => 512 case 10 => 1024 case 11 => 2048
    case 12 => 4096 case 13 => 8192 case 14 => 16384 case 15 => 32768
  }

  predicate Meets(x: bv16, y: bv16) { x & y != 0 }

  lemma Distributes(b: bv16, x: bv16, y: bv16)
    ensures (b | x) & y == (b & y) | (x & y)
  {
  }

  lemma OrZero(a: bv16, b: bv16)
    ensures a | b == 0 <==> a == 0 && b == 0
  {
  }

  lemma MeetsOr(b: bv16, x: bv16, y: bv16)
    ensures Meets(b | x, y) <==> Meets(b, y) || Meets(x, y)
  {
    Distributes(b, x, y);
    OrZero(b & y, x & y);
  }

  lemma MeetsBut(b: bv16, x: bv16, y: bv16)
    requires !Meets(x, y)
    ensures Meets(b & !x, y) <==> Meets(b, y)
  {
    AndNot(b, x, y);
  }

  lemma AndNot(b: bv16, x: bv16, y: bv16)
    ensures (b & !x) & x == 0
    ensures (b & !x) & y == (b & y) & !(x & y)
  {
  }

  lemma ClearsOwn(b: bv16, x: bv16)
    ensures !Meets(b & !x, x)
  {
    AndNot(b, x, x);
  }

  lemma BitsApart(p: nat, r: nat)
    requires p < LEVELS && r < LEVELS
    ensures Meets(Bit(p), Bit(r)) <==> p == r
  {
  }

  predicate Has(b: bv16, p: nat)
    requires p < LEVELS
  {
    Meets(b, Bit(p))
  }

  function With(b: bv16, p: nat): bv16
    requires p < LEVELS
  {
    b | Bit(p)
  }

  function But(b: bv16, p: nat): bv16
    requires p < LEVELS
  {
    b & !Bit(p)
  }

  lemma HasWith(b: bv16, p: nat, r: nat)
    requires p < LEVELS && r < LEVELS
    ensures Has(With(b, p), r) <==> p == r || Has(b, r)
  {
    hide Bit, Meets;
    BitsApart(p, r);
    MeetsOr(b, Bit(p), Bit(r));
  }

  lemma HasBut(b: bv16, p: nat, r: nat)
    requires p < LEVELS && r < LEVELS
    ensures Has(But(b, p), r) <==> p != r && Has(b, r)
  {
    hide Bit, Meets;
    BitsApart(p, r);
    if p == r { ClearsOwn(b, Bit(p)); } else { MeetsBut(b, Bit(p), Bit(r)); }
  }

  /** List l is threaded from h to t. */
  predicate Linked(l: seq<nat>, h: nat, t: nat, next: seq<nat>)
  {
    && |next| == MAX_TASKS && (forall k :: 0 <= k < |l| ==> l[k] < MAX_TASKS)
    && h == (if l == [] then INVALID else l[0]) && t == (if l == [] then INVALID else l[|l| - 1])
    && forall k :: 0 <= k < |l| ==> next[l[k]] == if k + 1 < |l| then l[k + 1] else INVALID
  }

  lemma {:induction false} CutLinked(l: seq<nat>, k: nat, h: nat, t: nat, before: seq<nat>, h1: nat, t1: nat,
                                     after: seq<nat>)
    requires k < |l| && Linked(l, h, t, before) && |after| == MAX_TASKS
    requires forall a, b :: 0 <= a < b < |l| ==> l[a] != l[b]
    requires h1 == (if k == 0 then before[l[0]] else h)
             && t1 == if k == |l| - 1 then (if k == 0 then INVALID else l[k - 1]) else t
    requires forall j :: 0 <= j < MAX_TASKS && j != l[k] && (k > 0 ==> j != l[k - 1]) ==> after[j] == before[j]
    requires k > 0 ==> after[l[k - 1]] == before[l[k]]
    ensures Linked(l[..k] + l[k + 1..], h1, t1, after)
  {
    var m := l[..k] + l[k + 1..];
    assert forall j :: 0 <= j < |m| ==> m[j] == if j < k then l[j] else l[j + 1];
    forall j | 0 <= j < |m| ensures m[j] < MAX_TASKS && after[m[j]] == if j + 1 < |m| then m[j + 1] else INVALID {
      CutAt(l, k, h, t, before, after, m, j);
    }
    assert before[l[0]] == if 0 + 1 < |l| then l[0 + 1] else INVALID;
    assert h1 == if m == [] then INVALID else m[0];
    assert t1 == if m == [] then INVALID else m[|m| - 1];
    assert forall i :: 0 <= i < |m| ==> after[m[i]] == if i + 1 < |m| then m[i + 1] else INVALID;
    assert Linked(m, h1, t1, after);
  }

  lemma CutAt(l: seq<nat>, k: nat, h: nat, t: nat, before: seq<nat>, after: seq<nat>, m: seq<nat>, j: nat)
    requires k < |l| && Linked(l, h, t, before) && |after| == MAX_TASKS
    requires forall a, b :: 0 <= a < b < |l| ==> l[a] != l[b]
    requires forall i :: 0 <= i < MAX_TASKS && i != l[k] && (k > 0 ==> i != l[k - 1]) ==> after[i] == before[i]
    requires k > 0 ==> after[l[k - 1]] == before[l[k]]
    requires m == l[..k] + l[k + 1..] && j < |m|
    ensures m[j] < MAX_TASKS && after[m[j]] == if j + 1 < |m| then m[j + 1] else INVALID
  {
    if j == k - 1 {
      assert before[l[k]] == if k + 1 < |l| then l[k + 1] else INVALID;
    } else {
      var from := if j < k then j else j + 1;
      assert m[j] == l[from] && before[l[from]] == if from + 1 < |l| then l[from + 1] else INVALID;
      assert l[from] != l[k] && (k > 0 ==> l[from] != l[k - 1]) by {
        if from < k { assert l[from] != l[k]; } else { assert l[k] != l[from]; }
        if k > 0 { if from < k - 1 { assert l[from] != l[k - 1]; } else { assert l[k - 1] != l[from]; } }
      }
    }
  }

  /** Writing the links of level p and of a task queued nowhere else leaves the other levels linked. */
  lemma OthersLinked(q: Queues, p: nat, r: nat, i: nat, h: nat, t: nat, before: seq<nat>, after: seq<nat>)
    requires Disjoint(q) && p < LEVELS && r < LEVELS && r != p && (i in q[p] || !Queued(q, i))
    requires Linked(q[r], h, t, before) && |after| == MAX_TASKS
    requires forall j :: 0 <= j < MAX_TASKS && j !in q[p] && j != i ==> after[j] == before[j]
    ensures Linked(q[r], h, t, after)
  {
    forall k | 0 <= k < |q[r]| ensures after[q[r][k]] == before[q[r][k]] {
      var j := q[r][k];
      assert j in q[r];
      if j in q[p] {
        assert false;
      }
    }
  }

  class ReadyQueues {
    const head: array<nat>
    const tail: array<nat>
    const next: array<nat>
    var bitmap: bv16
    ghost var queues: Queues

    lemma LinkAt(p: nat, k: nat)
      requires Valid() && p < LEVELS && k < |queues[p]|
      ensures queues[p][k] < MAX_TASKS < INVALID
              && next[queues[p][k]] == if k + 1 < |queues[p]| then queues[p][k + 1] else INVALID
      ensures k + 1 < |queues[p]| ==> queues[p][k + 1] != INVALID
      ensures head[p] == queues[p][0] && tail[p] == queues[p][|queues[p]| - 1]
    {
      assert Linked(queues[p], head[p], tail[p], next[..]);
    }

    ghost predicate Shaped() {
      head.Length == tail.Length == LEVELS && next.Length == MAX_TASKS && head != tail && head != next && tail != next
    }

    ghost predicate Marked(q: Queues, b: bv16) {
      forall p :: 0 <= p < LEVELS ==> (Has(b, p) <==> q[p] != [])
    }

    ghost predicate Valid()
      reads this, head, tail, next
    {
      && Shaped() && Disjoint(queues) && Marked(queues, bitmap)
      && (forall p :: 0 <= p < LEVELS ==> Linked(queues[p], head[p], tail[p], next[..]))
    }

    constructor ()
      ensures Valid() && queues == seq(LEVELS, _ => []) && fresh(head) && fresh(tail) && fresh(next)
    {
      head, tail := new nat[16](_ => INVALID), new nat[16](_ => INVALID);
      next := new nat[13](_ => INVALID);
      bitmap := 0;
      queues := seq(LEVELS, _ => []);
    }

    /** Appends to the links of one level. */
    method Link(p: nat, i: nat)
      requires Valid() && p < LEVELS && i < MAX_TASKS && !Queued(queues, i)
      modifies head, tail, next
      ensures Linked(queues[p] + [i], head[p], tail[p], next[..])
      ensures forall r :: 0 <= r < LEVELS && r != p ==> Linked(queues[r], head[r], tail[r], next[..])
    {
      hide Marked;
      Fresh(queues, i);
      ghost var l := queues[p];
      assert Linked(l, head[p], tail[p], next[..]);
      assert l != [] ==> tail[p] == queues[p][|l| - 1];
      next[i] := INVALID;
      if tail[p] == INVALID {
        head[p] := i;
        tail[p] := i;
      } else {
        next[tail[p]] := i;
        tail[p] := i;
      }
      forall r | 0 <= r < LEVELS && r != p ensures Linked(queues[r], head[r], tail[r], next[..]) {
        OthersLinked(queues, p, r, i, head[r], tail[r], old(next[..]), next[..]);
      }
    }

    lemma MarkedAdd(p: nat, q: seq<nat>)
      requires p < LEVELS && q != [] && Marked(queues, bitmap)
      ensures Marked(queues[p := q], With(bitmap, p))
    {
      hide Has, With;
      forall r | 0 <= r < LEVELS ensures Has(With(bitmap, p), r) <==> queues[p := q][r] != [] {
        HasWith(bitmap, p, r);
      }
    }

    lemma MarkedClear(p: nat)
      requires p < LEVELS && Marked(queues, bitmap)
      ensures Marked(queues[p := []], But(bitmap, p))
    {
      hide Has, But;
      forall r | 0 <= r < LEVELS ensures Has(But(bitmap, p), r) <==> queues[p := []][r] != [] {
        HasBut(bitmap, p, r);
      }
    }

    method RtEnqueue(i: nat, prio: nat)
      requires Valid() && i < MAX_TASKS && !Queued(queues, i)
      modifies this, head, tail, next
      ensures Valid() && queues == Enqueue(old(queues), prio, i)
    {
      hide Disjoint, Marked, Linked, Has, With;
      var p := prio;
      if p >= LEVELS { p := LEVELS - 1; }
      DisjointAppend(queues, p, i);
      MarkedAdd(p, queues[p] + [i]);
      Link(p, i);
      bitmap := With(bitmap, p);
      queues := queues[p := queues[p] + [i]];
    }

    /** Takes the task at position k out of the links of a level; `prev` stands before it. */
    method Unlink(p: nat, i: nat, prev: nat, ghost k: nat)
      requires Valid() && p < LEVELS && k < |queues[p]| && queues[p][k] == i
      requires prev == if k == 0 then INVALID else queues[p][k - 1]
      modifies head, tail, next
      ensures Linked(queues[p][..k] + queues[p][k + 1..], head[p], tail[p], next[..]) && next[i] == INVALID
      ensures forall r :: 0 <= r < LEVELS && r != p ==> Linked(queues[r], head[r], tail[r], next[..])
    {
      hide Marked, Linked, Disjoint;
      LinkAt(p, k);
      Places(p, k);
      if k > 0 { LinkAt(p, k - 1); }
      var n := next[i];
      if prev == INVALID {
        head[p] := n;
      } else {
        next[prev] := n;
      }
      if tail[p] == i {
        tail[p] := prev;
      }
      next[i] := INVALID;
      CutLinked(queues[p], k, old(head[p]), old(tail[p]), old(next[..]), head[p], tail[p], next[..]);
      forall r | 0 <= r < LEVELS && r != p ensures Linked(queues[r], head[r], tail[r], next[..]) {
        OthersLinked(queues, p, r, i, head[r], tail[r], old(next[..]), next[..]);
      }
    }

    lemma Places(p: nat, k: nat)
      requires Disjoint(queues) && p < LEVELS && k < |queues[p]|
      ensures forall a, b :: 0 <= a < b < |queues[p]| ==> queues[p][a] != queues[p][b]
      ensures queues[p][k] == queues[p][|queues[p]| - 1] <==> k == |queues[p]| - 1
      ensures queues[p][k] in queues[p] && (k > 0 ==> queues[p][k - 1] in queues[p])
    {
    }

    /** No effect if the task is not queued at its level. */
    method RtRemove(i: nat, prio: nat)
      requires Valid()
      modifies this, head, tail, next
      ensures Valid() && queues == Remove(old(queues), prio, i)
    {
      hide Disjoint, Marked, Has, But, Without;
      var p := prio;
      if p >= LEVELS { p := LEVELS - 1; }
      var prev, cur := INVALID, head[p];
      ghost var k, l := 0, queues[p];
      assert Linked(l, head[p], tail[p], next[..]);
      while cur != INVALID
        invariant k <= |l| && cur == (if k < |l| then l[k] else INVALID) && prev == if k == 0 then INVALID else l[k - 1]
        invariant i !in l[..k] && unchanged(this, head, tail, next) && Valid()
        decreases |l| - k
      {
        LinkAt(p, k);
        if cur == i {
          DisjointCut(queues, p, k);
          WithoutSplit(l, k);
          Unlink(p, i, prev, k);
          if head[p] == INVALID {
            MarkedClear(p);
            bitmap := But(bitmap, p);
          } else {
            MarkedKept(p, Without(l, i));
          }
          queues := queues[p := Without(l, i)];
          return;
        }
        prev := cur;
        cur := next[cur];
        k := k + 1;
      }
      assert l[..k] == l;
      assert queues[p := l] == queues;
    }

    lemma MarkedKept(p: nat, q: seq<nat>)
      requires p < LEVELS && q != [] && queues[p] != [] && Marked(queues, bitmap)
      ensures Marked(queues[p := q], bitmap)
    {
    }

    method RtRotate(p: nat) returns (rotated: bool)
      requires Valid()
      modifies this, head, tail, next
      ensures Valid() && queues == Rotate(old(queues), p)
      ensures rotated <==> p < LEVELS && |old(queues)[p]| > 1
    {
      hide Disjoint, Marked;
      if p >= LEVELS { return false; }
      var h := head[p];
      ghost var l := queues[p];
      assert Linked(l, head[p], tail[p], next[..]);
      if h == INVALID || next[h] == INVALID {
        if l != [] { LinkAt(p, 0); }
        return false;
      }
      LinkAt(p, 0);
      DisjointRotate(queues, p);
      MarkedKept(p, l[1..] + [l[0]]);
      Relink(p, h);
      queues := queues[p := l[1..] + [l[0]]];
      return true;
    }

    method Relink(p: nat, h: nat)
      requires Valid() && p < LEVELS && |queues[p]| > 1 && h == queues[p][0]
      modifies head, tail, next
      ensures Linked(queues[p][1..] + [h], head[p], tail[p], next[..])
      ensures forall r :: 0 <= r < LEVELS && r != p ==> Linked(queues[r], head[r], tail[r], next[..])
    {
      hide Marked;
      ghost var l := queues[p];
      assert Linked(l, head[p], tail[p], next[..]);
      assert tail[p] == queues[p][|l| - 1] && next[h] == queues[p][1];
      head[p] := next[h];
      next[h] := INVALID;
      next[tail[p]] := h;
      tail[p] := h;
      ghost var m := l[1..] + [h];
      assert forall j :: 0 <= j < |m| ==> m[j] == if j + 1 < |l| then queues[p][j + 1] else queues[p][0];
      forall r | 0 <= r < LEVELS && r != p ensures Linked(queues[r], head[r], tail[r], next[..]) {
        OthersLinked(queues, p, r, h, head[r], tail[r], old(next[..]), next[..]);
      }
    }

    method HighestRt() returns (i: nat)
      requires Valid()
      ensures i == Highest(queues, 0)
    {
      hide Disjoint, Meets, Bit, Has;
      var p := 0;
      while p < LEVELS
        invariant p <= LEVELS && Highest(queues, 0) == Highest(queues, p)
      {
        if Has(bitmap, p) {
          assert Linked(queues[p], head[p], tail[p], next[..]);
          return head[p];
        }
        p := p + 1;
      }
      return INVALID;
    }
  }

  /** The task found is queued, its level is the first in use, and none is found only if all are empty. */
  lemma {:induction false} HighestIsFirst(q: Queues, p: nat)
    requires p <= LEVELS && Disjoint(q)
    ensures var i := Highest(q, p);
            && (i == INVALID <==> forall r :: p <= r < LEVELS ==> q[r] == [])
            && (i != INVALID ==>
                  exists r :: p <= r < LEVELS && q[r] != [] && q[r][0] == i && forall l :: p <= l < r ==> q[l] == [])
    decreases LEVELS - p
  {
    if p < LEVELS && q[p] == [] {
      HighestIsFirst(q, p + 1);
    }
  }

  /** The lists are lines: who comes joins at the end of the line of its priority, 15 for all above; who leaves goes
      from where it stands and the others keep their order; who is turned goes from the front to the end. */
  lemma LinesMean(q: Queues, prio: nat, i: nat, k: nat)
    requires Disjoint(q)
    ensures var l := if prio < 16 then prio else 15;
            && Enqueue(q, prio, i) == q[l := q[l] + [i]]
            && (k < |q[l]| && q[l][k] == i ==> Remove(q, prio, i) == q[l := q[l][..k] + q[l][k + 1..]])
            && (i !in q[l] ==> Remove(q, prio, i) == q)
            && (prio < 16 && |q[prio]| > 1 ==> Rotate(q, prio) == q[prio := q[prio][1..] + [q[prio][0]]])
            && (prio >= 16 || |q[prio]| <= 1 ==> Rotate(q, prio) == q)
  {
    var l := Level(prio);
    if k < |q[l]| && q[l][k] == i {
      DisjointCut(q, l, k);
      WithoutSplit(q[l], k);
    }
    if i !in q[l] { assert q[l := q[l]] == q; }
  }

  /** Removal undoes enqueueing; what was queued before keeps its order. */
  lemma {:induction false} RemoveUndoesEnqueue(q: Queues, prio: nat, i: nat)
    requires !Queued(q, i)
    ensures Remove(Enqueue(q, prio, i), prio, i) == q
  {
    var l := q[Level(prio)];
    WithoutSplit(l + [i], |l|);
    assert (l + [i])[..|l|] + (l + [i])[|l| + 1..] == l;
  }
}
