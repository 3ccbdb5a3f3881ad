/** The HSDir hash ring (pkg/onion/hashring.go): sort, binary search and wrap-around selection,
    against the selection rule of [WHERE-HSDESC], section 2.2.3 of rend-spec-v3. */
module HashRing {
  import opened Bytes

  const REPLICAS: nat := 2
  const SPREAD: nat := 3

  type Digest = d: seq<byte> | |d| == 32 witness Zeros(32)

  type Ed = seq<byte>

  datatype Node = Node(ed: Ed, payload: int)

  /** What the indices depend on; `hash` is SHA3-256. */
  datatype Query = Query(hash: seq<byte> -> Digest, blindedKey: seq<byte>, periodNum: nat, periodLength: nat,
                         srv: seq<byte>)

  /* ----- Indices ----- */

  function Int8be(v: nat): (b: seq<byte>) {
    PutU32(v / 0x1_0000_0000 % 0x1_0000_0000) + PutU32(v % 0x1_0000_0000)
  }

  const STORE_AT_IDX: seq<byte> := [0x73, 0x74, 0x6f, 0x72, 0x65, 0x2d, 0x61, 0x74, 0x2d, 0x69, 0x64, 0x78]
  const NODE_IDX: seq<byte> := [0x6e, 0x6f, 0x64, 0x65, 0x2d, 0x69, 0x64, 0x78]

  function ServiceIndex(q: Query, replica: nat): (d: Digest) {
    q.hash(STORE_AT_IDX + q.blindedKey + Int8be(replica) + Int8be(q.periodLength) + Int8be(q.periodNum))
  }

  function NodeIndex(q: Query, ed: Ed): (d: Digest) {
    q.hash(NODE_IDX + ed + q.srv + Int8be(q.periodNum) + Int8be(q.periodLength))
  }

  /** bytes.Compare(a, b) < 0, on strings of one length: less at the first byte that differs. */
  predicate Less(a: seq<byte>, b: seq<byte>)
    requires |a| == |b|
  {
    exists i :: 0 <= i < |a| && FirstDiffLess(a, b, i)
  }

  predicate FirstDiffLess(a: seq<byte>, b: seq<byte>, i: nat)
    requires |a| == |b| && i < |a|
  {
    a[..i] == b[..i] && a[i] < b[i]
  }

  function Power(n: nat): (p: nat) {
    if n == 0 then 1 else 256 * Power(n - 1)
  }

  /** The number that a big-endian byte string denotes. */
  function Value(s: seq<byte>): (v: nat) {
    if s == [] then 0 else 256 * Value(s[..|s| - 1]) + s[|s| - 1]
  }

  lemma {:induction false} ValueBound(s: seq<byte>)
    ensures Value(s) < Power(|s|)
  {
    if s == [] {
    } else {
      ValueBound(s[..|s| - 1]);
    }
  }

  lemma LessSnoc(a: seq<byte>, b: seq<byte>)
    requires |a| == |b| > 0
    ensures var n := |a| - 1;
      Less(a, b) <==> Less(a[..n], b[..n]) || (a[..n] == b[..n] && a[n] < b[n])
  {
    var n := |a| - 1;
    forall i | 0 <= i < n
      ensures FirstDiffLess(a, b, i) <==> FirstDiffLess(a[..n], b[..n], i)
    {
      assert a[..n][..i] == a[..i] && b[..n][..i] == b[..i];
    }
    if a[..n] == b[..n] && a[n] < b[n] {
      assert FirstDiffLess(a, b, n);
    }
  }

  /** On strings of one length the byte order is the order of the numbers. */
  lemma {:induction false} LessIsValue(a: seq<byte>, b: seq<byte>)
    requires |a| == |b|
    ensures Less(a, b) <==> Value(a) < Value(b)
    ensures Value(a) == Value(b) ==> a == b
  {
    if a == [] {
    } else {
      var n := |a| - 1;
      LessIsValue(a[..n], b[..n]);
      LessSnoc(a, b);
      assert a == a[..n] + [a[n]] && b == b[..n] + [b[n]];
    }
  }

  lemma Value4(s: seq<byte>)
    requires |s| == 4
    ensures Value(s) == GetU32(s)
  {
    assert s[..3][..2] == s[..2] && s[..2][..1] == s[..1] && s[..1][..0] == [];
    assert Value(s[..1]) == s[0] as int;
    assert Value(s[..2]) == 256 * Value(s[..1]) + s[1] as int;
    assert Value(s[..3]) == 256 * Value(s[..2]) + s[2] as int;
    assert Value(s) == 256 * Value(s[..3]) + s[3] as int;
    assert s[2..4][0] == s[2] && s[2..4][1] == s[3];
  }

  lemma Value8(s: seq<byte>)
    requires |s| == 8
    ensures Value(s) == 0x1_0000_0000 * Value(s[..4]) + Value(s[4..])
  {
    var t := s[4..];
    assert s[..7][..6] == s[..6] && s[..6][..5] == s[..5] && s[..5][..4] == s[..4];
    assert t[..3][..2] == t[..2] && t[..2][..1] == t[..1] && t[..1][..0] == [];
    assert Value(t[..1]) == t[0] as int && Value(s[..5]) == 256 * Value(s[..4]) + t[0] as int;
    assert Value(t[..2]) == 256 * Value(t[..1]) + t[1] as int && Value(s[..6]) == 256 * Value(s[..5]) + t[1] as int;
    assert Value(t[..3]) == 256 * Value(t[..2]) + t[2] as int && Value(s[..7]) == 256 * Value(s[..6]) + t[2] as int;
    assert Value(t) == 256 * Value(t[..3]) + t[3] as int && Value(s) == 256 * Value(s[..7]) + t[3] as int;
  }

  /** An eight-byte field holds its 64-bit number in big-endian order. */
  lemma Int8beValue(v: nat)
    requires v < 0x1_0000_0000_0000_0000
    ensures |Int8be(v)| == 8 && Value(Int8be(v)) == v
  {
    var b := Int8be(v);
    assert b[..4] == PutU32(v / 0x1_0000_0000 % 0x1_0000_0000) && b[4..] == PutU32(v % 0x1_0000_0000);
    Value8(b);
    Value4(b[..4]);
    Value4(b[4..]);
  }

  predicate Ascii(s: seq<byte>, text: string) {
    |s| == |text| && forall i :: 0 <= i < |s| ==> s[i] == text[i] as int
  }

  /** A 64-bit query: what the source's types admit. */
  predicate Fits64(q: Query) {
    q.periodNum < 0x1_0000_0000_0000_0000 && q.periodLength < 0x1_0000_0000_0000_0000
  }

  /** The string hashed for a service index: the text store-at-idx, the blinded key, then replica,
      period length and period number in eight bytes each. */
  lemma ServiceIndexInput(q: Query, replica: nat) returns (s: seq<byte>)
    requires Fits64(q) && replica < 0x1_0000_0000_0000_0000
    ensures q.hash(s) == ServiceIndex(q, replica)
    ensures var k := 12 + |q.blindedKey|;
      && |s| == k + 24 && Ascii(s[..12], "store-at-idx") && s[12..k] == q.blindedKey
      && Value(s[k..k + 8]) == replica
      && Value(s[k + 8..k + 16]) == q.periodLength && Value(s[k + 16..k + 24]) == q.periodNum
  {
    s := STORE_AT_IDX + q.blindedKey + Int8be(replica) + Int8be(q.periodLength) + Int8be(q.periodNum);
    Int8beValue(replica);
    Int8beValue(q.periodLength);
    Int8beValue(q.periodNum);
    var k := 12 + |q.blindedKey|;
    assert s[..12] == STORE_AT_IDX && s[12..k] == q.blindedKey;
    assert s[k..k + 8] == Int8be(replica) && s[k + 8..k + 16] == Int8be(q.periodLength);
    assert s[k + 16..k + 24] == Int8be(q.periodNum);
  }

  /** The string hashed for a node index: the text node-idx, the identity, the shared-random value,
      then period number and period length in eight bytes each. */
  lemma NodeIndexInput(q: Query, ed: Ed) returns (s: seq<byte>)
    requires Fits64(q)
    ensures q.hash(s) == NodeIndex(q, ed)
    ensures var k := 8 + |ed| + |q.srv|;
      && |s| == k + 16 && Ascii(s[..8], "node-idx") && s[8..8 + |ed|] == ed && s[8 + |ed|..k] == q.srv
      && Value(s[k..k + 8]) == q.periodNum && Value(s[k + 8..k + 16]) == q.periodLength
  {
    s := NODE_IDX + ed + q.srv + Int8be(q.periodNum) + Int8be(q.periodLength);
    Int8beValue(q.periodNum);
    Int8beValue(q.periodLength);
    var k := 8 + |ed| + |q.srv|;
    assert s[..8] == NODE_IDX && s[8..8 + |ed|] == ed && s[8 + |ed|..k] == q.srv;
    assert s[k..k + 8] == Int8be(q.periodNum) && s[k + 8..k + 16] == Int8be(q.periodLength);
  }

  /* ----- The selection rule ----- */

  /** Steps clockwise from just after `from` to `to`, on the ring of 32-byte numbers. */
  function Clockwise(from: Digest, to: Digest): (d: int) {
    if Value(to) > Value(from) then Value(to) - Value(from) - 1 else Value(to) - Value(from) - 1 + Power(32)
  }

  /** Clockwise distance is the difference of places on the ring, less one, modulo its size. */
  lemma ClockwiseIsModular(from: Digest, to: Digest)
    ensures 0 <= Clockwise(from, to) < Power(32)
    ensures exists turns: int :: Value(to) - Value(from) - 1 == Clockwise(from, to) + turns * Power(32)
  {
    ValueBound(from);
    ValueBound(to);
    var turns := if Value(to) > Value(from) then 0 else -1;
    assert Value(to) - Value(from) - 1 == Clockwise(from, to) + turns * Power(32);
  }

  function Ids(eds: seq<Ed>): (s: set<Ed>)
    ensures forall e :: e in s <==> e in eds
  {
    set e | e in eds
  }

  /** `ed` is the unused identity that follows `from` most closely. */
  ghost predicate Nearest(q: Query, ids: set<Ed>, from: Digest, used: set<Ed>, ed: Ed) {
    && ed in ids && ed !in used
    && forall f :: f in ids && f !in used ==> Clockwise(from, NodeIndex(q, ed)) <= Clockwise(from, NodeIndex(q, f))
  }

  /** Each of `picks` is the nearest identity not used before it. */
  ghost predicate NearestEach(q: Query, ids: set<Ed>, from: Digest, used: set<Ed>, picks: seq<Ed>) {
    forall i :: 0 <= i < |picks| ==> Nearest(q, ids, from, used + Ids(picks[..i]), picks[i])
  }

  /** One replica's share: three picks, or fewer when no identity is left. */
  ghost predicate Share(q: Query, ids: set<Ed>, from: Digest, used: set<Ed>, picks: seq<Ed>) {
    && NearestEach(q, ids, from, used, picks)
    && |picks| <= SPREAD && (|picks| < SPREAD ==> ids <= used + Ids(picks))
  }

  /** The shares of the first `replicas` replicas, one after the other. */
  ghost predicate Responsible(q: Query, ids: set<Ed>, replicas: nat, out: seq<Ed>)
    decreases replicas, 1
  {
    if replicas == 0 then out == []
    else exists k :: 0 <= k <= |out| && SharesSplit(q, ids, replicas, out, k)
  }

  ghost predicate SharesSplit(q: Query, ids: set<Ed>, replicas: nat, out: seq<Ed>, k: nat)
    requires replicas > 0 && k <= |out|
    decreases replicas, 0
  {
    && Responsible(q, ids, replicas - 1, out[..k])
    && Share(q, ids, ServiceIndex(q, replicas), Ids(out[..k]), out[k..])
  }

  /* ----- What the rule implies ----- */

  ghost predicate Distinct(eds: seq<Ed>) {
    forall i, j :: 0 <= i < j < |eds| ==> eds[i] != eds[j]
  }

  lemma NearestDistinct(q: Query, ids: set<Ed>, from: Digest, used: set<Ed>, picks: seq<Ed>)
    requires NearestEach(q, ids, from, used, picks)
    ensures Distinct(picks) && Ids(picks) <= ids && Ids(picks) !! used
  {
  }

  lemma {:induction false} DistinctCount(eds: seq<Ed>)
    requires Distinct(eds)
    ensures |Ids(eds)| == |eds|
  {
    if eds == [] {
    } else {
      var n := |eds| - 1;
      DistinctCount(eds[..n]);
      assert eds == eds[..n] + [eds[n]];
      assert Ids(eds) == Ids(eds[..n]) + {eds[n]};
    }
  }

  lemma SubsetCount(a: set<Ed>, b: set<Ed>)
    requires a <= b
    ensures |a| <= |b| && (|a| == |b| ==> a == b)
  {
    assert b == a + (b - a);
    assert |b| == |a| + |b - a|;
  }

  lemma DistinctJoin(a: seq<Ed>, b: seq<Ed>)
    requires Distinct(a) && Distinct(b) && Ids(a) !! Ids(b)
    ensures Distinct(a + b) && Ids(a + b) == Ids(a) + Ids(b)
  {
    forall i, j | 0 <= i < j < |a + b|
      ensures (a + b)[i] != (a + b)[j]
    {
      if i < |a| <= j {
        assert (a + b)[i] in Ids(a) && (a + b)[j] in Ids(b);
      }
    }
  }

  function Min(a: nat, b: nat): (m: nat) {
    if a <= b then a else b
  }

  /** No identity is chosen twice, and as many as there are, up to three for each replica. */
  lemma {:induction false} ResponsibleSize(q: Query, ids: set<Ed>, replicas: nat, out: seq<Ed>)
    requires Responsible(q, ids, replicas, out)
    ensures Distinct(out) && Ids(out) <= ids && |out| == Min(SPREAD * replicas, |ids|)
  {
    if replicas == 0 {
    } else {
      var k :| 0 <= k <= |out| && SharesSplit(q, ids, replicas, out, k);
      var first, picks := out[..k], out[k..];
      assert out == first + picks;
      ResponsibleSize(q, ids, replicas - 1, first);
      NearestDistinct(q, ids, ServiceIndex(q, replicas), Ids(first), picks);
      DistinctJoin(first, picks);
      DistinctCount(first);
      DistinctCount(out);
      SubsetCount(Ids(first), ids);
      SubsetCount(Ids(out), ids);
      ShareSize(ids, first, picks, out, replicas);
    }
  }

  lemma ShareSize(ids: set<Ed>, first: seq<Ed>, picks: seq<Ed>, out: seq<Ed>, replicas: nat)
    requires replicas > 0 && out == first + picks
    requires |first| == Min(SPREAD * (replicas - 1), |ids|)
    requires Ids(out) == Ids(first) + Ids(picks) && Ids(out) <= ids
    requires |out| <= |ids| && |Ids(out)| == |out|
    requires |picks| <= SPREAD && (|picks| < SPREAD ==> ids <= Ids(first) + Ids(picks))
    ensures |out| == Min(SPREAD * replicas, |ids|)
  {
    if |picks| < SPREAD {
      assert ids == Ids(out);
    }
  }

  /** Distinct identities have distinct places on the ring. */
  ghost predicate NoTies(q: Query, ids: set<Ed>) {
    forall e, f :: e in ids && f in ids && e != f ==> NodeIndex(q, e) != NodeIndex(q, f)
  }

  lemma ClockwiseInjective(from: Digest, a: Digest, b: Digest)
    requires Clockwise(from, a) == Clockwise(from, b)
    ensures a == b
  {
    LessIsValue(a, b);
    ValueBound(a);
    ValueBound(b);
  }

  lemma NearestUnique(q: Query, ids: set<Ed>, from: Digest, used: set<Ed>, e: Ed, f: Ed)
    requires NoTies(q, ids) && Nearest(q, ids, from, used, e) && Nearest(q, ids, from, used, f)
    ensures e == f
  {
    ClockwiseInjective(from, NodeIndex(q, e), NodeIndex(q, f));
  }

  lemma NearestAt(q: Query, ids: set<Ed>, from: Digest, used: set<Ed>, picks: seq<Ed>, i: nat)
    requires NearestEach(q, ids, from, used, picks) && i < |picks|
    ensures Nearest(q, ids, from, used + Ids(picks[..i]), picks[i])
  {
  }

  lemma NextAgrees(q: Query, ids: set<Ed>, from: Digest, used: set<Ed>, a: seq<Ed>, b: seq<Ed>, i: nat)
    requires NoTies(q, ids) && NearestEach(q, ids, from, used, a) && NearestEach(q, ids, from, used, b)
    requires i < |a| && i < |b| && a[..i] == b[..i]
    ensures a[i] == b[i]
  {
    NearestAt(q, ids, from, used, a, i);
    NearestAt(q, ids, from, used, b, i);
    NearestUnique(q, ids, from, used + Ids(a[..i]), a[i], b[i]);
  }

  lemma SamePrefixes(a: seq<Ed>, b: seq<Ed>, n: nat)
    requires 0 < n <= |a| && n <= |b| && a[..n - 1] == b[..n - 1] && a[n - 1] == b[n - 1]
    ensures a[..n] == b[..n]
  {
  }

  /** Two shares agree as far as both go. */
  lemma {:induction false} SharesAgree(q: Query, ids: set<Ed>, from: Digest, used: set<Ed>,
                                       a: seq<Ed>, b: seq<Ed>, n: nat)
    requires NoTies(q, ids) && NearestEach(q, ids, from, used, a) && NearestEach(q, ids, from, used, b)
    requires n <= |a| && n <= |b|
    ensures a[..n] == b[..n]
  {
    if n == 0 {
    } else {
      SharesAgree(q, ids, from, used, a, b, n - 1);
      NextAgrees(q, ids, from, used, a, b, n - 1);
      SamePrefixes(a, b, n);
    }
  }

  lemma ShareNotLonger(q: Query, ids: set<Ed>, from: Digest, used: set<Ed>, a: seq<Ed>, b: seq<Ed>)
    requires NoTies(q, ids) && Share(q, ids, from, used, a) && Share(q, ids, from, used, b)
    ensures |a| >= |b|
  {
    assert a[..|a|] == a;
    if |a| < |b| {
      assert Nearest(q, ids, from, used + Ids(b[..|a|]), b[|a|]);
      SharesAgree(q, ids, from, used, a, b, |a|);
      assert false;
    }
  }

  lemma ShareUnique(q: Query, ids: set<Ed>, from: Digest, used: set<Ed>, a: seq<Ed>, b: seq<Ed>)
    requires NoTies(q, ids) && Share(q, ids, from, used, a) && Share(q, ids, from, used, b)
    ensures a == b
  {
    ShareNotLonger(q, ids, from, used, a, b);
    ShareNotLonger(q, ids, from, used, b, a);
    SharesAgree(q, ids, from, used, a, b, |a|);
    assert a[..|a|] == a && b[..|b|] == b;
  }

  lemma SameHalves(a: seq<Ed>, k: nat, b: seq<Ed>, l: nat)
    requires k <= |a| && l <= |b| && a[..k] == b[..l] && a[k..] == b[l..]
    ensures a == b
  {
  }

  /** Without ties the rule fixes the list of identities: it depends on the set of candidates and
      not on the order in which they came. */
  lemma {:induction false} ResponsibleUnique(q: Query, ids: set<Ed>, replicas: nat, a: seq<Ed>, b: seq<Ed>)
    requires NoTies(q, ids) && Responsible(q, ids, replicas, a) && Responsible(q, ids, replicas, b)
    ensures a == b
  {
    if replicas == 0 {
    } else {
      var k :| 0 <= k <= |a| && SharesSplit(q, ids, replicas, a, k);
      var l :| 0 <= l <= |b| && SharesSplit(q, ids, replicas, b, l);
      ResponsibleUnique(q, ids, replicas - 1, a[..k], b[..l]);
      ShareUnique(q, ids, ServiceIndex(q, replicas), Ids(a[..k]), a[k..], b[l..]);
      SameHalves(a, k, b, l);
    }
  }

  /* ----- The ring ----- */

  datatype Entry = Entry(idx: Digest, node: Node)

  predicate Sorted(ring: seq<Entry>) {
    forall i, j :: 0 <= i < j < |ring| ==> Value(ring[i].idx) <= Value(ring[j].idx)
  }

  ghost predicate Indexed(q: Query, ring: seq<Entry>) {
    forall i :: 0 <= i < |ring| ==> ring[i].idx == NodeIndex(q, ring[i].node.ed)
  }

  function RingIds(ring: seq<Entry>): (s: set<Ed>) {
    set e | e in ring :: e.node.ed
  }

  /** The identities of the well-formed candidates. */
  function ValidIds(nodes: seq<Node>): (s: set<Ed>) {
    set n | n in nodes && |n.ed| == 32 :: n.ed
  }

  function Eds(nodes: seq<Node>): (eds: seq<Ed>)
    ensures |eds| == |nodes| && forall i :: 0 <= i < |nodes| ==> eds[i] == nodes[i].ed
  {
    seq(|nodes|, i requires 0 <= i < |nodes| => nodes[i].ed)
  }

  /** The ring position looked at after `off` steps. */
  function Slot(start: nat, off: nat, n: nat): (k: nat)
    requires n > 0
  {
    (start + off) % n
  }

  lemma QuotientUnique(k: int, n: int, d: int, r: int)
    requires k == d * n + r && 0 <= r < n && 0 <= k < n + n
    ensures d == if k < n then 0 else 1
  {
    assert d < 0 ==> d * n <= -n;
    assert d > 1 ==> d * n >= n + n;
  }

  lemma WrapOnce(k: nat, n: nat)
    requires k < n + n
    ensures k % n == if k < n then k else k - n
  {
    QuotientUnique(k, n, k / n, k % n);
  }

  lemma SlotIs(start: nat, off: nat, n: nat)
    requires start <= n && off < n
    ensures Slot(start, off, n) == if start + off < n then start + off else start + off - n
  {
    WrapOnce(start + off, n);
  }

  /** `start` is the first position past `from`. */
  ghost predicate StartsAfter(ring: seq<Entry>, from: Digest, start: nat) {
    && start <= |ring|
    && (forall i :: 0 <= i < start ==> Value(ring[i].idx) <= Value(from))
    && (forall i :: start <= i < |ring| ==> Value(ring[i].idx) > Value(from))
  }

  /** The wrap-around scan meets the entries in clockwise order. */
  lemma ScanOrder(ring: seq<Entry>, from: Digest, start: nat, o: nat, p: nat)
    requires Sorted(ring) && StartsAfter(ring, from, start) && o <= p < |ring|
    ensures Clockwise(from, ring[Slot(start, o, |ring|)].idx) <= Clockwise(from, ring[Slot(start, p, |ring|)].idx)
  {
    SlotIs(start, o, |ring|);
    SlotIs(start, p, |ring|);
    var a, b := Slot(start, o, |ring|), Slot(start, p, |ring|);
    assert o < p ==> a != b;
    ClockwiseOrder(from, ring[a].idx, ring[b].idx);
  }

  lemma ClockwiseOrder(from: Digest, a: Digest, b: Digest)
    requires Value(b) > Value(from) ==> Value(a) > Value(from)
    requires (Value(a) > Value(from) <==> Value(b) > Value(from)) ==> Value(a) <= Value(b)
    ensures Clockwise(from, a) <= Clockwise(from, b)
  {
    ValueBound(a);
  }

  /** Every entry is met. */
  lemma ScanCovers(start: nat, n: nat, i: nat) returns (o: nat)
    requires start <= n && i < n
    ensures o < n && Slot(start, o, n) == i
  {
    o := if i >= start then i - start else i - start + n;
    SlotIs(start, o, n);
  }

  /* ----- The code ----- */

  /** The loop that keeps the candidates with a 32-byte identity. */
  method BuildRing(q: Query, nodes: seq<Node>) returns (ring: seq<Entry>)
    ensures Indexed(q, ring) && RingIds(ring) == ValidIds(nodes)
    ensures forall n :: n in RingNodes(ring) ==> n in nodes
  {
    ring := [];
    for i := 0 to |nodes|
      invariant Indexed(q, ring) && RingIds(ring) == ValidIds(nodes[..i])
      invariant forall e :: e in ring ==> e.node in nodes
    {
      ValidSnoc(nodes[..i], nodes[i]);
      assert nodes[..i + 1] == nodes[..i] + [nodes[i]];
      if |nodes[i].ed| == 32 {
        RingSnoc(ring, Entry(NodeIndex(q, nodes[i].ed), nodes[i]));
        ring := ring + [Entry(NodeIndex(q, nodes[i].ed), nodes[i])];
      }
    }
    assert nodes[..|nodes|] == nodes;
  }

  lemma ValidSnoc(nodes: seq<Node>, n: Node)
    ensures ValidIds(nodes + [n]) == ValidIds(nodes) + if |n.ed| == 32 then {n.ed} else {}
  {
  }

  lemma RingSnoc(ring: seq<Entry>, e: Entry)
    ensures RingIds(ring + [e]) == RingIds(ring) + {e.node.ed}
  {
  }

  method IsPast(from: Digest, idx: Digest) returns (past: bool)
    ensures past <==> Value(idx) > Value(from)
  {
    LessIsValue(from, idx);
    past := Less(from, idx);
  }

  /** sort.Search for the first index past `from`. */
  method SearchAfter(ring: seq<Entry>, from: Digest) returns (start: nat)
    requires Sorted(ring)
    ensures StartsAfter(ring, from, start)
  {
    var i, j := 0, |ring|;
    while i < j
      invariant 0 <= i <= j <= |ring|
      invariant forall k :: 0 <= k < i ==> Value(ring[k].idx) <= Value(from)
      invariant forall k :: j <= k < |ring| ==> Value(ring[k].idx) > Value(from)
    {
      var h := (i + j) / 2;
      var past := IsPast(from, ring[h].idx);
      if !past {
        i := h + 1;
      } else {
        j := h;
      }
    }
    start := i;
  }

  /* ----- One replica's scan ----- */

  /** The identities of the first `off` entries met are all used. */
  ghost predicate Passed(ring: seq<Entry>, start: nat, off: nat, used: set<Ed>) {
    forall o :: 0 <= o < off && off <= |ring| ==> ring[Slot(start, o, |ring|)].node.ed in used
  }

  /** When all entries before it are used, an unused entry of the scan is the nearest. */
  lemma ScanNearest(q: Query, ring: seq<Entry>, from: Digest, start: nat, off: nat, used: set<Ed>)
    requires Sorted(ring) && Indexed(q, ring) && StartsAfter(ring, from, start)
    requires off < |ring| && Passed(ring, start, off, used)
    requires ring[Slot(start, off, |ring|)].node.ed !in used
    ensures Nearest(q, RingIds(ring), from, used, ring[Slot(start, off, |ring|)].node.ed)
  {
    var e := ring[Slot(start, off, |ring|)];
    assert e in ring;
    forall f | f in RingIds(ring) && f !in used
      ensures Clockwise(from, NodeIndex(q, e.node.ed)) <= Clockwise(from, NodeIndex(q, f))
    {
      var x :| x in ring && x.node.ed == f;
      var i :| 0 <= i < |ring| && ring[i] == x;
      var o := ScanCovers(start, |ring|, i);
      assert o >= off;
      ScanOrder(ring, from, start, off, o);
    }
  }

  /** A scan that has gone round has used every identity. */
  lemma ScanExhausts(ring: seq<Entry>, start: nat, used: set<Ed>)
    requires start <= |ring| && Passed(ring, start, |ring|, used)
    ensures RingIds(ring) <= used
  {
    forall f | f in RingIds(ring)
      ensures f in used
    {
      var x :| x in ring && x.node.ed == f;
      var i :| 0 <= i < |ring| && ring[i] == x;
      var o := ScanCovers(start, |ring|, i);
    }
  }

  lemma NearestSnoc(q: Query, ids: set<Ed>, from: Digest, used: set<Ed>, picks: seq<Ed>, ed: Ed)
    requires NearestEach(q, ids, from, used, picks) && Nearest(q, ids, from, used + Ids(picks), ed)
    ensures NearestEach(q, ids, from, used, picks + [ed])
    ensures Ids(picks + [ed]) == Ids(picks) + {ed}
  {
    var all := picks + [ed];
    forall i | 0 <= i < |all|
      ensures Nearest(q, ids, from, used + Ids(all[..i]), all[i])
    {
      if i < |picks| {
        assert all[..i] == picks[..i];
      } else {
        assert all[..i] == picks;
      }
    }
  }

  lemma EdsSnoc(nodes: seq<Node>, n: Node)
    ensures Eds(nodes + [n]) == Eds(nodes) + [n.ed]
  {
  }

  function RingNodes(ring: seq<Entry>): (s: set<Node>) {
    set e | e in ring :: e.node
  }

  predicate FromSet(nodes: seq<Node>, s: set<Node>) {
    forall i :: 0 <= i < |nodes| ==> nodes[i] in s
  }

  /** The scan after `off` steps. */
  ghost predicate Scanned(q: Query, ring: seq<Entry>, from: Digest, start: nat, chosen: set<Ed>,
                          off: nat, picks: seq<Node>, now: set<Ed>)
  {
    && off <= |ring| && |picks| <= SPREAD
    && now == chosen + Ids(Eds(picks))
    && NearestEach(q, RingIds(ring), from, chosen, Eds(picks))
    && Passed(ring, start, off, now)
    && FromSet(picks, RingNodes(ring))
  }

  lemma PassedMore(ring: seq<Entry>, start: nat, off: nat, used: set<Ed>, more: set<Ed>)
    requires off < |ring| && Passed(ring, start, off, used) && used <= more
    requires ring[Slot(start, off, |ring|)].node.ed in more
    ensures Passed(ring, start, off + 1, more)
  {
  }

  lemma ScanTakes(q: Query, ring: seq<Entry>, from: Digest, start: nat, chosen: set<Ed>,
                  off: nat, picks: seq<Node>, now: set<Ed>, e: Entry)
    requires Sorted(ring) && Indexed(q, ring) && StartsAfter(ring, from, start)
    requires Scanned(q, ring, from, start, chosen, off, picks, now) && off < |ring| && |picks| < SPREAD
    requires e == ring[Slot(start, off, |ring|)] && e.node.ed !in now
    ensures Scanned(q, ring, from, start, chosen, off + 1, picks + [e.node], now + {e.node.ed})
  {
    ScanNearest(q, ring, from, start, off, now);
    NearestSnoc(q, RingIds(ring), from, chosen, Eds(picks), e.node.ed);
    EdsSnoc(picks, e.node);
    PassedMore(ring, start, off, now, now + {e.node.ed});
    assert e in ring;
  }

  /** The inner loop: walk the ring from the first entry past the service index, skipping the
      chosen, until three are taken or the ring has been gone round. */
  method PickShare(q: Query, ring: seq<Entry>, from: Digest, chosen: set<Ed>) returns (picks: seq<Node>, now: set<Ed>)
    requires Sorted(ring) && Indexed(q, ring)
    ensures Share(q, RingIds(ring), from, chosen, Eds(picks)) && now == chosen + Ids(Eds(picks))
    ensures FromSet(picks, RingNodes(ring))
  {
    var start := SearchAfter(ring, from);
    var off := 0;
    picks, now := [], chosen;
    while off < |ring| && |picks| < SPREAD
      invariant Scanned(q, ring, from, start, chosen, off, picks, now)
      decreases |ring| - off
    {
      var e := ring[(start + off) % |ring|];
      assert e == ring[Slot(start, off, |ring|)];
      if e.node.ed in now {
        PassedMore(ring, start, off, now, now);
      } else {
        ScanTakes(q, ring, from, start, chosen, off, picks, now, e);
        picks, now := picks + [e.node], now + {e.node.ed};
      }
      off := off + 1;
    }
    if |picks| < SPREAD {
      ScanExhausts(ring, start, now);
    }
  }

  /* ----- Sorting ----- */

  /** Any order by index will do: sort.Slice promises no more. */
  method SortRing(ring: seq<Entry>) returns (r: seq<Entry>)
    ensures Sorted(r) && multiset(r) == multiset(ring)
  {
    r := [];
    for i := 0 to |ring|
      invariant Sorted(r) && multiset(r) == multiset(ring[..i])
    {
      var k := SearchAfter(r, ring[i].idx);
      assert ring[..i + 1] == ring[..i] + [ring[i]];
      InsertSorted(r, k, ring[i]);
      r := r[..k] + [ring[i]] + r[k..];
    }
    assert ring[..|ring|] == ring;
  }

  lemma InsertSorted(r: seq<Entry>, k: nat, e: Entry)
    requires Sorted(r) && StartsAfter(r, e.idx, k)
    ensures Sorted(r[..k] + [e] + r[k..])
    ensures multiset(r[..k] + [e] + r[k..]) == multiset(r) + multiset{e}
  {
    assert r == r[..k] + r[k..];
    var s := r[..k] + [e] + r[k..];
    forall i, j | 0 <= i < j < |s|
      ensures Value(s[i].idx) <= Value(s[j].idx)
    {
      if i < k && j > k {
        assert s[i] == r[i] && s[j] == r[j - 1];
      }
    }
  }

  lemma SortedSame(q: Query, ring: seq<Entry>, r: seq<Entry>)
    requires multiset(r) == multiset(ring) && Indexed(q, ring)
    ensures Indexed(q, r) && RingIds(r) == RingIds(ring) && RingNodes(r) == RingNodes(ring)
  {
    forall e
      ensures e in r <==> e in ring
    {
      assert e in r <==> e in multiset(r);
      assert e in ring <==> e in multiset(ring);
    }
    forall i | 0 <= i < |r|
      ensures r[i].idx == NodeIndex(q, r[i].node.ed)
    {
      assert r[i] in ring;
    }
  }

  /* ----- ResponsibleHSDirs ----- */

  lemma SplitHere(q: Query, ids: set<Ed>, replicas: nat, out: seq<Ed>, picks: seq<Ed>)
    requires replicas > 0 && Responsible(q, ids, replicas - 1, out)
    requires Share(q, ids, ServiceIndex(q, replicas), Ids(out), picks)
    ensures Responsible(q, ids, replicas, out + picks) && Ids(out + picks) == Ids(out) + Ids(picks)
  {
    var all, k := out + picks, |out|;
    assert all[..k] == out && all[k..] == picks;
    assert SharesSplit(q, ids, replicas, all, k);
  }

  /** What the first `replicas` replicas have chosen. */
  ghost predicate ChosenBy(q: Query, ring: seq<Entry>, replicas: nat, out: seq<Node>, chosen: set<Ed>) {
    && Responsible(q, RingIds(ring), replicas, Eds(out))
    && chosen == Ids(Eds(out)) && FromSet(out, RingNodes(ring))
  }

  lemma EdsJoin(a: seq<Node>, b: seq<Node>)
    ensures Eds(a + b) == Eds(a) + Eds(b)
  {
  }

  lemma ChosenMore(q: Query, ring: seq<Entry>, replica: nat, soFar: seq<Node>, chosen: set<Ed>,
                   picks: seq<Node>, now: set<Ed>)
    requires replica > 0 && ChosenBy(q, ring, replica - 1, soFar, chosen)
    requires Share(q, RingIds(ring), ServiceIndex(q, replica), chosen, Eds(picks)) && now == chosen + Ids(Eds(picks))
    requires FromSet(picks, RingNodes(ring))
    ensures ChosenBy(q, ring, replica, soFar + picks, now)
  {
    SplitHere(q, RingIds(ring), replica, Eds(soFar), Eds(picks));
    EdsJoin(soFar, picks);
  }

  method PickNext(q: Query, ring: seq<Entry>, replica: nat, soFar: seq<Node>, chosen: set<Ed>)
    returns (out: seq<Node>, now: set<Ed>)
    requires Sorted(ring) && Indexed(q, ring) && replica > 0 && ChosenBy(q, ring, replica - 1, soFar, chosen)
    ensures ChosenBy(q, ring, replica, out, now)
  {
    var picks;
    picks, now := PickShare(q, ring, ServiceIndex(q, replica), chosen);
    out := soFar + picks;
    ChosenMore(q, ring, replica, soFar, chosen, picks, now);
  }

  /** The outer loop, over replicas. */
  method PickAll(q: Query, ring: seq<Entry>) returns (out: seq<Node>)
    requires Sorted(ring) && Indexed(q, ring)
    ensures Responsible(q, RingIds(ring), REPLICAS, Eds(out)) && FromSet(out, RingNodes(ring))
  {
    out := [];
    var chosen: set<Ed> := {};
    for replica := 1 to REPLICAS + 1
      invariant ChosenBy(q, ring, replica - 1, out, chosen)
    {
      out, chosen := PickNext(q, ring, replica, out, chosen);
    }
  }

  /** `out` is a choice that the rule allows for the candidates `nodes`. */
  ghost predicate Chooses(q: Query, nodes: seq<Node>, out: seq<Node>) {
    Responsible(q, ValidIds(nodes), REPLICAS, Eds(out))
  }

  /** The whole function: its identities are those that the rule picks. */
  method ResponsibleHSDirs(q: Query, nodes: seq<Node>) returns (out: seq<Node>)
    ensures Chooses(q, nodes, out)
    ensures forall i :: 0 <= i < |out| ==> out[i] in nodes && |out[i].ed| == 32
  {
    var ring := BuildRing(q, nodes);
    var sorted := SortRing(ring);
    SortedSame(q, ring, sorted);
    out := PickAll(q, sorted);
    ResponsibleSize(q, ValidIds(nodes), REPLICAS, Eds(out));
    assert forall i :: 0 <= i < |out| ==> Eds(out)[i] in Ids(Eds(out));
  }

  /** The result of the rule for the code's two replicas: no identity twice, and six of them or
      all there are. */
  lemma SizeOfResult(q: Query, nodes: seq<Node>, out: seq<Node>)
    requires Chooses(q, nodes, out)
    ensures Distinct(Eds(out)) && |out| == Min(6, |ValidIds(nodes)|)
  {
    ResponsibleSize(q, ValidIds(nodes), REPLICAS, Eds(out));
  }

  /** The first three, or all if there are fewer, are the choice of replica 1, the rest of replica 2. */
  lemma TwoShares(q: Query, nodes: seq<Node>, out: seq<Node>)
    requires Chooses(q, nodes, out)
    ensures var ids := set n | n in nodes && |n.ed| == 32 :: n.ed; var k := Min(3, |ids|);
      && k <= |out|
      && Share(q, ids, ServiceIndex(q, 1), {}, Eds(out)[..k])
      && Share(q, ids, ServiceIndex(q, 2), Ids(Eds(out)[..k]), Eds(out)[k..])
  {
    var ids, eds := ValidIds(nodes), Eds(out);
    var k :| 0 <= k <= |eds| && SharesSplit(q, ids, 2, eds, k);
    var first := eds[..k];
    ResponsibleSize(q, ids, 1, first);
    var j :| 0 <= j <= |first| && SharesSplit(q, ids, 1, first, j);
    assert first[..j] == [] && first[j..] == first && Ids([]) == {};
  }

  /** Reordering the candidates, or repeating some, does not change the identities chosen. */
  lemma OrderIrrelevant(q: Query, nodes: seq<Node>, out: seq<Node>, nodes': seq<Node>, out': seq<Node>)
    requires forall n :: n in nodes <==> n in nodes'
    ensures NoTies(q, ValidIds(nodes)) && Chooses(q, nodes, out) && Chooses(q, nodes', out') ==> Eds(out) == Eds(out')
  {
    assert ValidIds(nodes) == ValidIds(nodes');
    if NoTies(q, ValidIds(nodes)) && Chooses(q, nodes, out) && Chooses(q, nodes', out') {
      ResponsibleUnique(q, ValidIds(nodes), REPLICAS, Eds(out), Eds(out'));
    }
  }
}
