/** The compact device tree blob: the generator's encoder, the boot-time validator and the lookup. */
module Dtb {
  import opened Common
  import opened Hbc

  const MAGIC: u32 := 0x4844_5442
  const VERSION: u32 := 2
  const HEADER: nat := 24
  const STRING: byte := 1
  const U32: byte := 2
  const PAIR: byte := 3
  const TRIPLE: byte := 4
  const BOOL: byte := 5

  datatype Prop = Prop(name: seq<byte>, kind: byte, value: seq<byte>)

  datatype Node = Node(path: seq<byte>, props: seq<Prop>)

  // ---------- encoding ----------

  function WordOf(w: u32): (s: seq<byte>)
    ensures |s| == 4 && Word(s[0], s[1], s[2], s[3]) == w
  {
    var q1, q2, q3 := w / 0x100, w / 0x100 / 0x100, w / 0x100 / 0x100 / 0x100;
    assert w == w % 0x100 + 0x100 * q1 && q1 == q1 % 0x100 + 0x100 * q2 && q2 == q2 % 0x100 + 0x100 * q3;
    [w % 0x100, q1 % 0x100, q2 % 0x100, q3 % 0x100]
  }

  function PropSize(p: Prop): nat { 5 + |p.name| + |p.value| }

  function PropsSize(ps: seq<Prop>): nat {
    if ps == [] then 0 else PropSize(ps[0]) + PropsSize(ps[1..])
  }

  function NodeSize(n: Node): nat { 5 + |n.path| + PropsSize(n.props) }

  /** Length of the name with its terminator, type, length of the value, then both. */
  function EncodeProp(p: Prop): (s: seq<byte>)
    ensures |s| == PropSize(p)
  {
    [(|p.name| + 1) % 0x100, p.kind] + HalfBytes(|p.value|) + (p.name + [0]) + p.value
  }

  function EncodeProps(ps: seq<Prop>): (s: seq<byte>)
    ensures |s| == PropsSize(ps)
  {
    if ps == [] then [] else EncodeProp(ps[0]) + EncodeProps(ps[1..])
  }

  /** Length of the path with its terminator, number of properties, size of the record, then both. */
  function EncodeNode(n: Node): (s: seq<byte>)
    ensures |s| == NodeSize(n)
  {
    [(|n.path| + 1) % 0x100, |n.props| % 0x100] + HalfBytes(NodeSize(n)) + (n.path + [0]) + EncodeProps(n.props)
  }

  function EncodeNodes(ns: seq<Node>): seq<byte> {
    if ns == [] then [] else EncodeNode(ns[0]) + EncodeNodes(ns[1..])
  }

  function CountProps(ns: seq<Node>): nat {
    if ns == [] then 0 else |ns[0].props| + CountProps(ns[1..])
  }

  /** Everything but the checksum. */
  function Body(ns: seq<Node>): seq<byte>
    requires Fits(ns)
  {
    WordOf(MAGIC) + WordOf(VERSION) + WordOf(HEADER + |EncodeNodes(ns)| + 4) + WordOf(|ns|) + WordOf(CountProps(ns)) +
    WordOf(HEADER)
    + EncodeNodes(ns)
  }

  function Blob(ns: seq<Node>, crc: seq<byte> -> u32): seq<byte>
    requires Fits(ns)
  {
    Body(ns) + WordOf(crc(Body(ns)))
  }

  /** The value has the form its type asks for. */
  predicate Typed(kind: byte, value: seq<byte>) {
    && STRING <= kind <= BOOL
    && (kind == STRING ==> value != [] && value[|value| - 1] == 0)
    && (kind == U32 ==> |value| == 4) && (kind == PAIR ==> |value| == 8) && (kind == TRIPLE ==> |value| == 12)
    && (kind == BOOL ==> |value| == 1)
  }

  predicate GoodProp(p: Prop) {
    0 < |p.name| < 0xFF && |p.value| < 0x1_0000 && Typed(p.kind, p.value)
  }

  /** Well typed and within the field widths. */
  predicate GoodNode(n: Node) {
    0 < |n.path| < 0xFF && |n.props| < 0x100 && NodeSize(n) < 0x1_0000 && forall k :: 0 <= k < |n.props| ==>
          GoodProp(n.props[k])
  }

  predicate GoodNodes(ns: seq<Node>) {
    forall k :: 0 <= k < |ns| ==> GoodNode(ns[k])
  }

  predicate Fits(ns: seq<Node>) {
    |EncodeNodes(ns)| + HEADER + 4 < 0x1_0000_0000 && |ns| < 0x1_0000_0000 && CountProps(ns) < 0x1_0000_0000
  }

  // ---------- parsing, as the validator does it ----------

  /** One property at q, inside a record that ends at `end`. */
  predicate PropFits(b: seq<byte>, q: nat, end: nat)
    requires end <= |b|
  {
    && q + 4 <= end
    && var nameLen, valueLen := b[q], Half(b[q + 2], b[q + 3]);
       && nameLen >= 2 && q + 4 + nameLen + valueLen <= end && b[q + 4 + nameLen - 1] == 0
       && Typed(b[q + 1], b[q + 4 + nameLen..q + 4 + nameLen + valueLen])
  }

  function PropAt(b: seq<byte>, q: nat, end: nat): (p: Prop)
    requires end <= |b| && PropFits(b, q, end)
    ensures GoodProp(p) && q + PropSize(p) <= end
  {
    var nameLen, valueLen := b[q], Half(b[q + 2], b[q + 3]);
    Prop(b[q + 4..q + 4 + nameLen - 1], b[q + 1], b[q + 4 + nameLen..q + 4 + nameLen + valueLen])
  }

  /** n properties that fill the record exactly. */
  function ParseProps(b: seq<byte>, q: nat, n: nat, end: nat): (r: Option<seq<Prop>>)
    requires end <= |b|
    ensures r.Some? ==> |r.value| == n && q <= end
    decreases n
  {
    if n == 0 then if q == end then Some([]) else None
    else if !PropFits(b, q, end) then None
    else
      var p := PropAt(b, q, end);
      var rest := ParseProps(b, q + PropSize(p), n - 1, end);
      if rest.Some? then Some([p] + rest.value) else None
  }

  predicate NodeFits(b: seq<byte>, pos: nat, end: nat)
    requires end <= |b|
  {
    && pos + 4 <= end
    && var pathLen: nat, size: nat := b[pos], Half(b[pos + 2], b[pos + 3]);
       pathLen >= 2 && size >= 4 + pathLen && pos + size <= end && b[pos + 4 + pathLen - 1] == 0
  }

  function ParseNode(b: seq<byte>, pos: nat, end: nat): Option<Node>
    requires end <= |b|
  {
    if !NodeFits(b, pos, end) then None
    else
      var pathLen, size := b[pos], Half(b[pos + 2], b[pos + 3]);
      var ps := ParseProps(b, pos + 4 + pathLen, b[pos + 1], pos + size);
      if ps.Some? then Some(Node(b[pos + 4..pos + 4 + pathLen - 1], ps.value)) else None
  }

  function ParseNodes(b: seq<byte>, pos: nat, end: nat): Option<seq<Node>>
    requires pos <= end <= |b|
    decreases end - pos
  {
    if pos == end then Some([])
    else
      var n := ParseNode(b, pos, end);
      if n.None? then None
      else
        assert NodeFits(b, pos, end);
        var rest := ParseNodes(b, pos + Half(b[pos + 2], b[pos + 3]), end);
        if rest.Some? then Some([n.value] + rest.value) else None
  }

  function WordAt(b: seq<byte>, at: nat): (w: nat)
    requires at + 4 <= |b|
    ensures w < 0x1_0000_0000
  {
    Word(b[at], b[at + 1], b[at + 2], b[at + 3])
  }

  predicate HeaderOk(b: seq<byte>, crc: seq<byte> -> u32)
    requires |b| >= HEADER
  {
    && WordAt(b, 0) == MAGIC && WordAt(b, 4) == VERSION && WordAt(b, 8) == |b| >= HEADER + 4
    && HEADER <= WordAt(b, 20) < |b| - 4 && crc(b[..|b| - 4]) == WordAt(b, |b| - 4)
  }

  /** The tree in the blob. */
  function Tree(b: seq<byte>, crc: seq<byte> -> u32): Option<seq<Node>>
    requires |b| >= HEADER
  {
    if !HeaderOk(b, crc) then None
    else
      var t := ParseNodes(b, WordAt(b, 20), |b| - 4);
      if t.Some? && |t.value| == WordAt(b, 12) && CountProps(t.value) == WordAt(b, 16) then t else None
  }

  // ---------- the two undo each other ----------

  /** The four bytes that start a property or a record. */
  lemma LeadingBytes(b: seq<byte>, q: nat, x: byte, y: byte, h: nat)
    requires h < 0x1_0000 && At(b, q, [x, y] + HalfBytes(h))
    ensures q + 4 <= |b| && b[q] == x && b[q + 1] == y && Half(b[q + 2], b[q + 3]) == h
  {
    var s := [x, y] + HalfBytes(h);
    assert forall k :: 0 <= k < 4 ==> b[q + k] == b[q..q + 4][k] == s[k];
    assert b[q + 2] == HalfBytes(h)[0] && b[q + 3] == HalfBytes(h)[1];
  }

  /** A terminated name. */
  lemma NameBytes(b: seq<byte>, q: nat, name: seq<byte>)
    requires At(b, q, name + [0])
    ensures q + |name| < |b| && b[q..q + |name|] == name && b[q + |name|] == 0
  {
    AtSplit(b, q, name, [0]);
    assert b[q + |name|] == b[q + |name|..q + |name| + 1][0];
  }

  lemma PropRoundTrip(b: seq<byte>, q: nat, p: Prop, end: nat)
    requires end <= |b| && GoodProp(p) && At(b, q, EncodeProp(p)) && q + PropSize(p) <= end
    ensures PropFits(b, q, end) && PropAt(b, q, end) == p
  {
    hide At, HalfBytes, Half, Typed;
    var n, head := |p.name|, [(|p.name| + 1) % 0x100, p.kind] + HalfBytes(|p.value|);
    AtSplit(b, q, head + (p.name + [0]), p.value);
    AtSplit(b, q, head, p.name + [0]);
    LeadingBytes(b, q, n + 1, p.kind, |p.value|);
    NameBytes(b, q + 4, p.name);
    assert b[q + 5 + n..q + 5 + n + |p.value|] == p.value by { Slice(b, q + 5 + n, p.value); }
  }

  lemma Slice(b: seq<byte>, q: nat, part: seq<byte>)
    requires At(b, q, part)
    ensures q + |part| <= |b| && b[q..q + |part|] == part
  {
  }

  lemma {:induction false} PropsRoundTrip(b: seq<byte>, q: nat, ps: seq<Prop>, end: nat)
    requires end <= |b| && At(b, q, EncodeProps(ps)) && q + PropsSize(ps) == end
    requires forall k :: 0 <= k < |ps| ==> GoodProp(ps[k])
    ensures ParseProps(b, q, |ps|, end) == Some(ps)
    decreases |ps|
  {
    hide PropFits, PropAt, EncodeProp;
    if ps != [] {
      AtSplit(b, q, EncodeProp(ps[0]), EncodeProps(ps[1..]));
      PropRoundTrip(b, q, ps[0], end);
      PropsRoundTrip(b, q + PropSize(ps[0]), ps[1..], end);
      assert [ps[0]] + ps[1..] == ps;
    }
  }

  lemma NodeRoundTrip(b: seq<byte>, pos: nat, n: Node, end: nat)
    requires end <= |b| && GoodNode(n) && At(b, pos, EncodeNode(n)) && pos + NodeSize(n) <= end
    ensures NodeFits(b, pos, end) && Half(b[pos + 2], b[pos + 3]) == NodeSize(n) && ParseNode(b, pos, end) == Some(n)
  {
    hide ParseProps, GoodProp, EncodeProps, At, HalfBytes, Half;
    var k, head := |n.path|, [(|n.path| + 1) % 0x100, |n.props| % 0x100] + HalfBytes(NodeSize(n));
    AtSplit(b, pos, head + (n.path + [0]), EncodeProps(n.props));
    AtSplit(b, pos, head, n.path + [0]);
    LeadingBytes(b, pos, k + 1, |n.props|, NodeSize(n));
    NameBytes(b, pos + 4, n.path);
    PropsRoundTrip(b, pos + 5 + k, n.props, pos + NodeSize(n));
  }

  lemma {:induction false} NodesRoundTrip(b: seq<byte>, pos: nat, ns: seq<Node>, end: nat)
    requires pos <= end <= |b| && GoodNodes(ns) && At(b, pos, EncodeNodes(ns)) && pos + |EncodeNodes(ns)| == end
    ensures ParseNodes(b, pos, end) == Some(ns)
    decreases |ns|
  {
    hide ParseNode, NodeFits, EncodeNode, GoodNode;
    if ns != [] {
      AtSplit(b, pos, EncodeNode(ns[0]), EncodeNodes(ns[1..]));
      NodeRoundTrip(b, pos, ns[0], end);
      NodesRoundTrip(b, pos + NodeSize(ns[0]), ns[1..], end);
      assert [ns[0]] + ns[1..] == ns;
    }
  }

  lemma WordAtOf(b: seq<byte>, at: nat, w: u32)
    requires At(b, at, WordOf(w))
    ensures WordAt(b, at) == w
  {
    hide WordOf, Word;
    var s := WordOf(w);
    assert forall k :: 0 <= k < 4 ==> b[at + k] == b[at..at + 4][k] == s[k];
  }

  lemma WholeAt(b: seq<byte>)
    ensures At(b, 0, b)
  {
  }

  /** The fields of an encoded blob. */
  lemma BlobFields(ns: seq<Node>, crc: seq<byte> -> u32)
    requires Fits(ns)
    ensures var b := Blob(ns, crc);
            && |b| == HEADER + |EncodeNodes(ns)| + 4 && b[..|b| - 4] == Body(ns)
            && WordAt(b, 0) == MAGIC && WordAt(b, 4) == VERSION && WordAt(b, 8) == |b| && WordAt(b, 12) == |ns|
            && WordAt(b, 16) == CountProps(ns) && WordAt(b, 20) == HEADER && WordAt(b, |b| - 4) == crc(Body(ns))
            && At(b, HEADER, EncodeNodes(ns))
  {
    hide WordOf, At, EncodeNodes, CountProps;
    var b, total: u32 := Blob(ns, crc), HEADER + |EncodeNodes(ns)| + 4;
    var f0, f1, f2 := WordOf(MAGIC), WordOf(VERSION), WordOf(total);
    var f3, f4, f5 := WordOf(|ns|), WordOf(CountProps(ns)), WordOf(HEADER);
    WholeAt(b);
    AtSplit(b, 0, Body(ns), WordOf(crc(Body(ns))));
    AtSplit(b, 0, f0 + f1 + f2 + f3 + f4 + f5, EncodeNodes(ns));
    AtSplit(b, 0, f0 + f1 + f2 + f3 + f4, f5);
    AtSplit(b, 0, f0 + f1 + f2 + f3, f4);
    AtSplit(b, 0, f0 + f1 + f2, f3);
    AtSplit(b, 0, f0 + f1, f2);
    AtSplit(b, 0, f0, f1);
    WordAtOf(b, 0, MAGIC);
    WordAtOf(b, 4, VERSION);
    WordAtOf(b, 8, total);
    WordAtOf(b, 12, |ns|);
    WordAtOf(b, 16, CountProps(ns));
    WordAtOf(b, 20, HEADER);
    WordAtOf(b, |b| - 4, crc(Body(ns)));
  }

  /** Main result, one way: the blob of every non-empty tree of well-typed properties parses to that tree. */
  lemma EncodedTreeIsRead(ns: seq<Node>, crc: seq<byte> -> u32)
    requires ns != [] && GoodNodes(ns) && Fits(ns)
    ensures Tree(Blob(ns, crc), crc) == Some(ns)
  {
    hide ParseNodes, EncodeNodes, CountProps, WordOf, WordAt, Body, At;
    var b := Blob(ns, crc);
    BlobFields(ns, crc);
    assert EncodeNodes(ns) != [] by { FirstNode(ns); }
    NodesRoundTrip(b, HEADER, ns, |b| - 4);
  }

  lemma FirstNode(ns: seq<Node>)
    requires ns != []
    ensures |EncodeNodes(ns)| > 0
  {
  }

  lemma PropAtEncodes(b: seq<byte>, q: nat, end: nat)
    requires end <= |b| && PropFits(b, q, end)
    ensures var p := PropAt(b, q, end); At(b, q, EncodeProp(p))
  {
    var p := PropAt(b, q, end);
    var s := EncodeProp(p);
    assert |p.name| + 1 == b[q] && |p.value| == Half(b[q + 2], b[q + 3]);
    HalfUnique(b[q + 2], b[q + 3]);
    forall k | 0 <= k < |s| ensures b[q + k] == s[k] {
    }
    assert b[q..q + |s|] == s;
  }

  lemma HalfUnique(lo: byte, hi: byte)
    ensures HalfBytes(Half(lo, hi)) == [lo, hi]
  {
  }

  lemma AtJoin(b: seq<byte>, at: nat, x: seq<byte>, y: seq<byte>)
    requires At(b, at, x) && At(b, at + |x|, y)
    ensures At(b, at, x + y)
  {
    assert b[at..at + |x + y|] == b[at..at + |x|] + b[at + |x|..at + |x| + |y|];
  }

  lemma {:induction false} ParsedPropsEncode(b: seq<byte>, q: nat, n: nat, end: nat)
    requires end <= |b| && ParseProps(b, q, n, end).Some?
    ensures var ps := ParseProps(b, q, n, end).value;
            At(b, q, EncodeProps(ps)) && q + PropsSize(ps) == end && forall k :: 0 <= k < |ps| ==> GoodProp(ps[k])
    decreases n
  {
    hide PropFits, PropAt, EncodeProp, GoodProp, At;
    if n > 0 {
      var p := PropAt(b, q, end);
      PropAtEncodes(b, q, end);
      ParsedPropsEncode(b, q + PropSize(p), n - 1, end);
      var rest := ParseProps(b, q + PropSize(p), n - 1, end).value;
      AtJoin(b, q, EncodeProp(p), EncodeProps(rest));
      assert ([p] + rest)[1..] == rest;
    } else {
      EmptyAt(b, q);
    }
  }

  lemma EmptyAt(b: seq<byte>, at: nat)
    requires at <= |b|
    ensures At(b, at, [])
  {
  }

  lemma ParsedNodeEncodes(b: seq<byte>, pos: nat, end: nat)
    requires end <= |b| && ParseNode(b, pos, end).Some?
    ensures var n := ParseNode(b, pos, end).value;
            GoodNode(n) && At(b, pos, EncodeNode(n)) && NodeFits(b, pos, end)
            && NodeSize(n) == Half(b[pos + 2], b[pos + 3]) && pos + NodeSize(n) <= end
  {
    hide ParseProps, GoodProp, EncodeProps;
    var n, pathLen := ParseNode(b, pos, end).value, b[pos];
    var head := [(|n.path| + 1) % 0x100, |n.props| % 0x100] + HalfBytes(NodeSize(n)) + (n.path + [0]);
    ParsedPropsEncode(b, pos + 4 + pathLen, b[pos + 1], pos + Half(b[pos + 2], b[pos + 3]));
    HalfUnique(b[pos + 2], b[pos + 3]);
    assert b[pos..pos + |head|] == head;
    AtJoin(b, pos, head, EncodeProps(n.props));
  }

  lemma {:induction false} ParsedNodesEncode(b: seq<byte>, pos: nat, end: nat)
    requires pos <= end <= |b| && ParseNodes(b, pos, end).Some?
    ensures var ns := ParseNodes(b, pos, end).value; GoodNodes(ns) && b[pos..end] == EncodeNodes(ns)
    decreases end - pos
  {
    hide ParseNode, NodeFits, EncodeNode, GoodNode;
    if pos < end {
      var n := ParseNode(b, pos, end).value;
      ParsedNodeEncodes(b, pos, end);
      var next := pos + NodeSize(n);
      ParsedNodesEncode(b, next, end);
      var rest := ParseNodes(b, next, end).value;
      assert b[pos..end] == b[pos..next] + b[next..end];
      assert ([n] + rest)[1..] == rest;
    }
  }

  /** Main result, the other way: a blob that is accepted holds, between its header and its checksum, exactly
      the encoding of a tree of well-typed properties, and the counts of its header are that tree's. */
  lemma AcceptedBlobIsEncoded(b: seq<byte>, crc: seq<byte> -> u32)
    requires |b| >= HEADER && Tree(b, crc).Some?
    ensures var ns := Tree(b, crc).value;
            && GoodNodes(ns) && ns != [] && b[WordAt(b, 20)..|b| - 4] == EncodeNodes(ns)
            && |ns| == WordAt(b, 12) && CountProps(ns) == WordAt(b, 16)
  {
    hide ParseNode, WordAt, EncodeNode, GoodNode, CountProps;
    ParsedNodesEncode(b, WordAt(b, 20), |b| - 4);
  }

  // ---------- the validator and the lookup ----------

  /** The first property so named in a node so named, in document order. */
  function Lookup(ns: seq<Node>, path: seq<byte>, name: seq<byte>): Option<Prop> {
    if ns == [] then None
    else
      var p := if ns[0].path == path then FindProp(ns[0].props, name) else None;
      if p.Some? then p else Lookup(ns[1..], path, name)
  }

  function FindProp(ps: seq<Prop>, name: seq<byte>): Option<Prop> {
    if ps == [] then None else if ps[0].name == name then Some(ps[0]) else FindProp(ps[1..], name)
  }

  /** Compares n bytes at p, a terminated name of the blob, with a C string. */
  method NameEq(b: seq<byte>, p: nat, n: nat, s: seq<byte>) returns (eq: bool)
    requires p + n <= |b| && n > 0 && b[p + n - 1] == 0 && 0 !in s
    ensures eq <==> b[p..p + n - 1] == s
  {
    var i := 0;
    while i + 1 < n && i < |s| && b[p + i] == s[i]
      invariant i < n && i <= |s| && b[p..p + i] == s[..i]
    {
      assert b[p..p + i + 1] == b[p..p + i] + [b[p + i]];
      i := i + 1;
    }
    Matched(b[p..p + n - 1], s, i);
    return i + 1 == n && i == |s| && b[p + i] == 0;
  }

  lemma Matched(t: seq<byte>, s: seq<byte>, i: nat)
    requires i <= |t| && i <= |s| && t[..i] == s[..i]
    requires i == |t| || i == |s| || t[i] != s[i]
    ensures t == s <==> i == |t| == |s|
  {
    assert i == |t| == |s| ==> t == t[..i] && s == s[..i];
  }

  /** One record: its properties counted, or an error. */
  method ValidateNode(b: seq<byte>, pos: nat, end: nat) returns (ok: bool, count: nat)
    requires pos <= end <= |b|
    ensures ok <==> ParseNode(b, pos, end).Some?
    ensures ok ==> count == |ParseNode(b, pos, end).value.props|
  {
    hide Typed;
    count := 0;
    if pos + 4 > end { return false, 0; }
    var pathLen: nat, pc: nat := b[pos], b[pos + 1];
    var rec := Half(b[pos + 2], b[pos + 3]);
    if pathLen < 2 || rec < 4 + pathLen || pos + rec > end { return false, 0; }
    if b[pos + 4 + pathLen - 1] != 0 { return false, 0; }
    ok, count := ValidateProps(b, pos + 4 + pathLen, pc, pos + rec);
  }

  /** The properties of one record. */
  method ValidateProps(b: seq<byte>, start: nat, pc: nat, end: nat) returns (ok: bool, count: nat)
    requires start <= end <= |b|
    ensures ok <==> ParseProps(b, start, pc, end).Some?
    ensures ok ==> count == pc
  {
    hide PropFits, PropAt;
    var q: nat, i: nat := start, 0;
    count := 0;
    while i < pc
      invariant i <= pc && q <= end && count == i
      invariant ParseProps(b, start, pc, end).Some? <==> ParseProps(b, q, pc - i, end).Some?
    {
      var fits, next := ValidateProp(b, q, end);
      if !fits { return false, 0; }
      q := next;
      count := count + 1;
      i := i + 1;
    }
    return q == end, count;
  }

  /** One property of a record that ends at `end`. */
  method ValidateProp(b: seq<byte>, start: nat, end: nat) returns (ok: bool, next: nat)
    requires end <= |b|
    ensures ok <==> PropFits(b, start, end)
    ensures ok ==> next == start + PropSize(PropAt(b, start, end)) <= end
  {
    hide Typed;
    var q := start;
    if q + 4 > end { return false, 0; }
    var nameLen: nat, kind := b[q], b[q + 1];
    var valueLen := Half(b[q + 2], b[q + 3]);
    q := q + 4;
    if nameLen < 2 || q + nameLen + valueLen > end { return false, 0; }
    if b[q + nameLen - 1] != 0 { return false, 0; }
    ok := ValidateValue(b, q + nameLen, kind, valueLen);
    return ok, q + nameLen + valueLen;
  }

  method ValidateValue(b: seq<byte>, at: nat, kind: byte, valueLen: nat) returns (ok: bool)
    requires at + valueLen <= |b|
    ensures ok <==> Typed(kind, b[at..at + valueLen])
  {
    if kind < STRING || kind > BOOL { return false; }
    if kind == STRING && (valueLen < 1 || b[at + valueLen - 1] != 0) { return false; }
    if kind == U32 && valueLen != 4 { return false; }
    if kind == PAIR && valueLen != 8 { return false; }
    if kind == TRIPLE && valueLen != 12 { return false; }
    if kind == BOOL && valueLen != 1 { return false; }
    return true;
  }

  /** The validator run at boot. */
  method ValidateBlob(b: seq<byte>, crc: seq<byte> -> u32) returns (ok: bool)
    requires |b| >= HEADER
    ensures ok <==> Tree(b, crc).Some?
  {
    hide ParseNode, WordAt, NodeFits;
    var total, nodes, props, off := WordAt(b, 8), WordAt(b, 12), WordAt(b, 16), WordAt(b, 20);
    if WordAt(b, 0) != MAGIC || WordAt(b, 4) != VERSION { return false; }
    if total != |b| || total < HEADER + 4 || off < HEADER || off >= total - 4 { return false; }
    if crc(b[..total - 4]) != WordAt(b, total - 4) { return false; }
    var seenNodes, seenProps, pos: nat := 0, 0, off;
    ghost var end := total - 4;
    while pos < total - 4
      invariant off <= pos <= end
      invariant ParseNodes(b, off, end).Some? <==> ParseNodes(b, pos, end).Some?
      invariant ParseNodes(b, off, end).Some? ==>
        && |ParseNodes(b, off, end).value| == seenNodes + |ParseNodes(b, pos, end).value|
        && CountProps(ParseNodes(b, off, end).value) == seenProps + CountProps(ParseNodes(b, pos, end).value)
      decreases end - pos
    {
      var valid, count := ValidateNode(b, pos, total - 4);
      if !valid { return false; }
      ParsedNodeEncodes(b, pos, end);
      var rec := Half(b[pos + 2], b[pos + 3]);
      CountStep(b, pos, end);
      pos := pos + rec;
      seenNodes := seenNodes + 1;
      seenProps := seenProps + count;
    }
    return seenNodes == nodes && seenProps == props;
  }

  lemma CountStep(b: seq<byte>, pos: nat, end: nat)
    requires pos < end <= |b| && ParseNode(b, pos, end).Some?
    ensures pos + 6 <= end && pos < pos + Half(b[pos + 2], b[pos + 3]) <= end
    ensures var next := ParseNodes(b, pos + Half(b[pos + 2], b[pos + 3]), end); var here := ParseNodes(b, pos, end);
            && (here.Some? <==> next.Some?)
            && (here.Some? ==> here.value == [ParseNode(b, pos, end).value] + next.value)
            && (here.Some? ==> CountProps(here.value) == |ParseNode(b, pos, end).value.props| + CountProps(next.value))
  {
    hide ParseProps;
    if ParseNodes(b, pos, end).Some? {
      var n := ParseNode(b, pos, end).value;
      var next := ParseNodes(b, pos + Half(b[pos + 2], b[pos + 3]), end).value;
      assert ([n] + next)[1..] == next;
    }
  }

  lemma PropParts(b: seq<byte>, q: nat, end: nat)
    requires end <= |b| && PropFits(b, q, end)
    ensures var nameLen: nat, valueLen: nat := b[q], Half(b[q + 2], b[q + 3]); var p := PropAt(b, q, end);
            && nameLen >= 2 && q + 4 + nameLen + valueLen <= end && b[q + 4 + nameLen - 1] == 0
            && p == Prop(b[q + 4..q + 4 + nameLen - 1], b[q + 1], b[q + 4 + nameLen..q + 4 + nameLen + valueLen])
            && PropSize(p) == 4 + nameLen + valueLen
  {
    hide Typed;
  }

  lemma PropStep(b: seq<byte>, q: nat, n: nat, end: nat, name: seq<byte>)
    requires end <= |b| && n > 0 && ParseProps(b, q, n, end).Some?
    ensures PropFits(b, q, end)
    ensures var p := PropAt(b, q, end); var rest := ParseProps(b, q + PropSize(p), n - 1, end);
            && rest.Some?
            && FindProp(ParseProps(b, q, n, end).value, name) == if p.name == name then Some(p)
                 else FindProp(rest.value, name)
  {
    hide PropFits, PropAt;
    var p := PropAt(b, q, end);
    var rest := ParseProps(b, q + PropSize(p), n - 1, end).value;
    assert ([p] + rest)[1..] == rest && ([p] + rest)[0] == p;
  }

  /** The properties of one record, searched for a name. */
  method SearchProps(b: seq<byte>, start: nat, pc: nat, end: nat, name: seq<byte>) returns (r: Option<Prop>)
    requires end <= |b| && ParseProps(b, start, pc, end).Some? && 0 !in name
    ensures r == FindProp(ParseProps(b, start, pc, end).value, name)
  {
    hide Typed, PropFits, PropAt, ParseProps, FindProp;
    var q: nat, i: nat := start, 0;
    while i < pc
      invariant i <= pc && ParseProps(b, q, pc - i, end).Some?
      invariant FindProp(ParseProps(b, start, pc, end).value, name) ==
                  FindProp(ParseProps(b, q, pc - i, end).value, name)
    {
      PropStep(b, q, pc - i, end, name);
      PropParts(b, q, end);
      var nameLen: nat, kind := b[q], b[q + 1];
      var valueLen := Half(b[q + 2], b[q + 3]);
      var eq := NameEq(b, q + 4, nameLen, name);
      if eq {
        return Some(Prop(name, kind, b[q + 4 + nameLen..q + 4 + nameLen + valueLen]));
      }
      q := q + (4 + nameLen + valueLen);
      i := i + 1;
    }
    NothingLeft(b, q, end, name);
    return None;
  }

  lemma NothingLeft(b: seq<byte>, q: nat, end: nat, name: seq<byte>)
    requires end <= |b| && ParseProps(b, q, 0, end).Some?
    ensures FindProp(ParseProps(b, q, 0, end).value, name) == None
  {
  }

  lemma LookupStep(b: seq<byte>, pos: nat, end: nat, path: seq<byte>, name: seq<byte>)
    requires pos < end <= |b| && ParseNodes(b, pos, end).Some?
    ensures ParseNode(b, pos, end).Some? && pos < pos + Half(b[pos + 2], b[pos + 3]) <= end
    ensures var n := ParseNode(b, pos, end).value; var rest := ParseNodes(b, pos + Half(b[pos + 2], b[pos + 3]), end);
            var found := if n.path == path then FindProp(n.props, name) else None;
            && rest.Some?
            && Lookup(ParseNodes(b, pos, end).value, path, name) == if found.Some? then found
                 else Lookup(rest.value, path, name)
  {
    hide ParseNode, FindProp;
    CountStep(b, pos, end);
    var n, rest := ParseNode(b, pos, end).value, ParseNodes(b, pos + Half(b[pos + 2], b[pos + 3]), end).value;
    assert ([n] + rest)[0] == n && ([n] + rest)[1..] == rest;
  }

  /** The lookup, on any blob: nothing if it is not valid, otherwise the first match of its tree. */
  method Get(b: seq<byte>, crc: seq<byte> -> u32, path: seq<byte>, name: seq<byte>) returns (r: Option<Prop>)
    requires |b| >= HEADER && 0 !in path && 0 !in name
    ensures r == if Tree(b, crc).Some? then Lookup(Tree(b, crc).value, path, name) else None
  {
    hide ParseNode, ParseNodes, WordAt, CountProps, FindProp, Lookup, ParseProps;
    var valid := ValidateBlob(b, crc);
    if !valid { return None; }
    var total, pos: nat := WordAt(b, 8), WordAt(b, 20);
    ghost var end, off := |b| - 4, pos;
    while pos < total - 4
      invariant off <= pos <= end && ParseNodes(b, pos, end).Some?
      invariant Lookup(ParseNodes(b, off, end).value, path, name) == Lookup(ParseNodes(b, pos, end).value, path, name)
      decreases end - pos
    {
      LookupStep(b, pos, end, path, name);
      RecordParts(b, pos, end);
      var pathLen: nat, pc: nat := b[pos], b[pos + 1];
      var rec := Half(b[pos + 2], b[pos + 3]);
      var eq := NameEq(b, pos + 4, pathLen, path);
      if eq {
        r := SearchProps(b, pos + 4 + pathLen, pc, pos + rec, name);
        if r.Some? { return; }
      }
      pos := pos + rec;
    }
    NoNodes(b, end, path, name);
    return None;
  }

  lemma NoNodes(b: seq<byte>, end: nat, path: seq<byte>, name: seq<byte>)
    requires end <= |b|
    ensures ParseNodes(b, end, end) == Some([]) && Lookup([], path, name) == None
  {
  }

  lemma RecordParts(b: seq<byte>, pos: nat, end: nat)
    requires end <= |b| && ParseNode(b, pos, end).Some?
    ensures var n := ParseNode(b, pos, end).value; var pathLen: nat := b[pos]; var rec := Half(b[pos + 2], b[pos + 3]);
            && pathLen >= 2 && pos + 4 + pathLen <= pos + rec <= end && b[pos + 4 + pathLen - 1] == 0
            && n.path == b[pos + 4..pos + 4 + pathLen - 1]
            && ParseProps(b, pos + 4 + pathLen, b[pos + 1], pos + rec) == Some(n.props)
  {
  }

  /** Round trip: looking up in an encoded blob finds what a search of the tree finds. */
  method GetEncoded(ns: seq<Node>, crc: seq<byte> -> u32, path: seq<byte>, name: seq<byte>) returns (r: Option<Prop>)
    requires ns != [] && GoodNodes(ns) && Fits(ns) && 0 !in path && 0 !in name
    ensures r == Lookup(ns, path, name)
  {
    hide Tree, GoodNodes, Fits, Blob;
    EncodedTreeIsRead(ns, crc);
    BlobLong(ns, crc);
    r := Get(Blob(ns, crc), crc, path, name);
  }

  lemma BlobLong(ns: seq<Node>, crc: seq<byte> -> u32)
    requires Fits(ns)
    ensures |Blob(ns, crc)| >= HEADER
  {
    hide EncodeNodes;
  }
}
