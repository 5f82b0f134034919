/** Exactly which device tree blobs are accepted, byte for byte, and what a lookup finds in a tree. */
module DtbLaws {
  import opened Common
  import opened Hbc
  import opened Dtb

  /** The number in the four bytes at `at`, the lowest first. */
  function Le32(b: seq<byte>, at: nat): nat
    requires at + 4 <= |b|
  {
    var b0: nat, b1: nat, b2: nat, b3: nat := b[at], b[at + 1], b[at + 2], b[at + 3];
    b0 + 256 * b1 + 65536 * b2 + 16777216 * b3
  }

  /** The header and the checksum, byte by byte. */
  predicate Framed(b: seq<byte>, crc: seq<byte> -> u32)
    requires |b| >= 24
  {
    && b[..4] == [0x42, 0x54, 0x44, 0x48] && b[4..8] == [2, 0, 0, 0]
    && Le32(b, 8) == |b| >= 28 && 24 <= Le32(b, 20) < |b| - 4
    && crc(b[..|b| - 4]) == Le32(b, |b| - 4)
  }

  lemma FourBytes(b: seq<byte>)
    requires |b| == 4
    ensures Le32(b, 0) == 0x4844_5442 <==> b == [0x42, 0x54, 0x44, 0x48]
    ensures Le32(b, 0) == 2 <==> b == [2, 0, 0, 0]
  {
    assert b == [b[0], b[1], b[2], b[3]];
  }

  lemma HeaderExactly(b: seq<byte>, crc: seq<byte> -> u32)
    requires |b| >= 24
    ensures HeaderOk(b, crc) <==> Framed(b, crc)
    ensures forall at :: 0 <= at <= |b| - 4 ==> WordAt(b, at) == Le32(b, at)
  {
    FourBytes(b[..4]);
    FourBytes(b[4..8]);
  }

  /** The records of the blob are the encoding of ns, with the counts of the header. */
  ghost predicate Records(b: seq<byte>, ns: seq<Node>)
    requires |b| >= 28
  {
    && GoodNodes(ns) && Le32(b, 20) <= |b| - 4 && b[Le32(b, 20)..|b| - 4] == EncodeNodes(ns)
    && |ns| == Le32(b, 12) && CountProps(ns) == Le32(b, 16)
  }

  /** Main result: a blob is accepted, as the tree ns, exactly when its header is right byte for byte, the four bytes at
      its end are the checksum of all before, and the records are the encoding of ns. */
  lemma AcceptedExactly(b: seq<byte>, crc: seq<byte> -> u32, ns: seq<Node>)
    requires |b| >= 28
    ensures Tree(b, crc) == Some(ns) <==> Framed(b, crc) && Records(b, ns)
  {
    hide ParseNodes, EncodeNodes, CountProps, WordAt, GoodNodes, Framed, HeaderOk;
    HeaderExactly(b, crc);
    if Tree(b, crc) == Some(ns) { AcceptedBlobIsEncoded(b, crc); FramedOffset(b, crc); }
    if Framed(b, crc) && Records(b, ns) { RecordsParse(b, ns); FramedOffset(b, crc); }
  }

  lemma FramedOffset(b: seq<byte>, crc: seq<byte> -> u32)
    requires |b| >= 28
    ensures Framed(b, crc) || HeaderOk(b, crc) ==> 24 <= Le32(b, 20) <= |b| - 4
  {
    HeaderExactly(b, crc);
  }

  lemma RecordsParse(b: seq<byte>, ns: seq<Node>)
    requires |b| >= 28 && Records(b, ns)
    ensures ParseNodes(b, Le32(b, 20), |b| - 4) == Some(ns)
  {
    hide EncodeNodes, CountProps, GoodNodes, ParseNodes;
    var off := Le32(b, 20);
    assert |EncodeNodes(ns)| == |b| - 4 - off;
    NodesRoundTrip(b, off, ns, |b| - 4);
  }

  /** A blob whose bytes have come to have another checksum than the one stored with it is refused, whatever they
      are. */
  lemma DamageIsRefused(ns: seq<Node>, g: seq<byte>, crc: seq<byte> -> u32)
    requires Fits(ns) && |g| == |Blob(ns, crc)| && g[|g| - 4..] == Blob(ns, crc)[|g| - 4..]
    requires crc(g[..|g| - 4]) != crc(Body(ns))
    ensures |g| >= 28 && Tree(g, crc) == None
  {
    hide Body, WordAt, Framed;
    var b := Blob(ns, crc);
    BlobFields(ns, crc);
    HeaderExactly(g, crc);
    HeaderExactly(b, crc);
    SameWord(g, b, |g| - 4);
    FramedSum(g, crc);
  }

  lemma FramedSum(b: seq<byte>, crc: seq<byte> -> u32)
    requires |b| >= 28
    ensures Framed(b, crc) ==> crc(b[..|b| - 4]) == Le32(b, |b| - 4)
  {
  }

  lemma SameWord(g: seq<byte>, b: seq<byte>, at: nat)
    requires at + 4 == |g| == |b| && g[at..] == b[at..]
    ensures Le32(g, at) == Le32(b, at)
  {
    assert g[at] == g[at..][0] && g[at + 1] == g[at..][1] && g[at + 2] == g[at..][2] && g[at + 3] == g[at..][3];
    assert b[at] == b[at..][0] && b[at + 1] == b[at..][1] && b[at + 2] == b[at..][2] && b[at + 3] == b[at..][3];
  }

  /** What a value may be, by its type: text with its terminator, four, eight or twelve bytes, or one. */
  lemma TypesMean(kind: byte, value: seq<byte>)
    ensures Typed(kind, value) <==>
              || (kind == 1 && value != [] && value[|value| - 1] == 0)
              || (kind == 2 && |value| == 4) || (kind == 3 && |value| == 8) || (kind == 4 && |value| == 12)
              || (kind == 5 && |value| == 1)
  {
  }

  /** The bytes of a record and of a property. */
  lemma RecordsMean(n: Node, p: Prop)
    requires GoodNode(n) && GoodProp(p)
    ensures EncodeProp(p) == [|p.name| + 1, p.kind, |p.value| % 256, |p.value| / 256] + p.name + [0] + p.value
    ensures EncodeNode(n) == [|n.path| + 1, |n.props|, NodeSize(n) % 256, NodeSize(n) / 256] + n.path + [0]
                             + EncodeProps(n.props)
    ensures NodeSize(n) == |EncodeNode(n)|
  {
    hide HalfBytes, EncodeProps, Typed;
    HalfMeans(|p.value|);
    HalfMeans(NodeSize(n));
  }

  lemma HalfMeans(h: nat)
    requires h < 0x1_0000
    ensures HalfBytes(h) == [h % 256, h / 256]
  {
  }

  // ---------- lookup ----------

  /** Property j of node i has both names. */
  predicate Hit(ns: seq<Node>, path: seq<byte>, name: seq<byte>, i: nat, j: nat) {
    i < |ns| && j < |ns[i].props| && ns[i].path == path && ns[i].props[j].name == name
  }

  lemma {:induction false} FindFirst(ps: seq<Prop>, name: seq<byte>) returns (j: nat)
    ensures FindProp(ps, name).None? ==> forall k :: 0 <= k < |ps| ==> ps[k].name != name
    ensures FindProp(ps, name).Some? ==>
              && j < |ps| && ps[j].name == name && FindProp(ps, name).value == ps[j]
              && forall k :: 0 <= k < j ==> ps[k].name != name
    decreases |ps|
  {
    j := 0;
    if ps != [] && ps[0].name != name {
      var i := FindFirst(ps[1..], name);
      j := i + 1;
      assert forall k :: 0 < k < |ps| ==> ps[k] == ps[1..][k - 1];
    }
  }

  /** A lookup finds nothing exactly when no node of that path has a property of that name, and otherwise the first of
      them: in the earliest node, the earliest. */
  lemma {:induction false} LookupExactly(ns: seq<Node>, path: seq<byte>, name: seq<byte>) returns (i: nat, j: nat)
    ensures Lookup(ns, path, name).None? <==> forall a: nat, b: nat :: !Hit(ns, path, name, a, b)
    ensures Lookup(ns, path, name).Some? ==>
              && Hit(ns, path, name, i, j) && Lookup(ns, path, name).value == ns[i].props[j]
              && forall a: nat, b: nat :: Hit(ns, path, name, a, b) ==> i < a || (i == a && j <= b)
    decreases |ns|
  {
    i, j := 0, 0;
    if ns != [] {
      var k := FindFirst(ns[0].props, name);
      if ns[0].path == path && FindProp(ns[0].props, name).Some? {
        j := k;
        assert Hit(ns, path, name, 0, j);
      } else {
        var a, b := LookupExactly(ns[1..], path, name);
        i, j := a + 1, b;
        Shifted(ns, path, name);
        if Lookup(ns, path, name).Some? { assert Hit(ns, path, name, i, j); }
      }
    }
  }

  lemma Shifted(ns: seq<Node>, path: seq<byte>, name: seq<byte>)
    requires ns != [] && forall b: nat :: !Hit(ns, path, name, 0, b)
    ensures forall a: nat, b: nat :: Hit(ns[1..], path, name, a, b) ==> Hit(ns, path, name, a + 1, b)
    ensures forall a: nat, b: nat :: Hit(ns, path, name, a, b) ==> a > 0 && Hit(ns[1..], path, name, a - 1, b)
  {
    assert forall a: nat :: a + 1 < |ns| ==> ns[1..][a] == ns[a + 1];
  }
}
