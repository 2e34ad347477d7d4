/**
 The layout of a Robin Hood hash table: one info byte and one node per slot. An info byte of zero
 marks an empty slot; otherwise it holds, in units of the info increment, one more than the distance
 of the node from its home slot, plus a few bits of the node's hash. The hash function is arbitrary.
 */
module RobinHood {
  import opened Sums

  /** A node; what an empty slot holds is arbitrary. */
  datatype Node<K, V> = Node(key: K, val: V)

  /** What decides where a key belongs: the hash, its multiplier, the info increment and shift, the mask. */
  datatype Params<!K> = Params(hash: (nat, K) -> nat, mult: nat, inc: nat, shift: nat, mask: nat)

  const MAX_LOAD_FACTOR_100: nat := 80
  const INITIAL_NUM_ELEMENTS: nat := 8
  const INITIAL_INFO_INC: nat := 32

  function CalcMaxNumElementsAllowed(maxElements: nat): nat {
    maxElements * MAX_LOAD_FACTOR_100 / 100
  }

  /** Slots of an allocated table: the addressable ones and a buffer for what is pushed past them. */
  function CalcNumElementsWithBuffer(numElements: nat): nat {
    var allowed := CalcMaxNumElementsAllowed(numElements);
    numElements + if allowed < 0xFF then allowed else 0xFF
  }

  function Capacity(mask: nat): nat {
    if mask == 0 then 0 else CalcNumElementsWithBuffer(mask + 1)
  }

  /** The increment is 32 shifted right by the hash shift, and never below 2. */
  predicate IncOk(inc: nat, shift: nat) {
    (inc == 32 && shift == 0) || (inc == 16 && shift == 1) || (inc == 8 && shift == 2)
    || (inc == 4 && shift == 3) || (inc == 2 && shift == 4)
  }

  function ShiftRight(x: nat, shift: nat): nat {
    if shift == 0 then x else ShiftRight(x, shift - 1) / 2
  }

  function Home<K>(p: Params<K>, k: K): (h: nat)
    ensures h <= p.mask
  {
    p.hash(p.mult, k) / 32 % (p.mask + 1)
  }

  function HashBits<K>(p: Params<K>, k: K): nat {
    ShiftRight(p.hash(p.mult, k) % 32, p.shift)
  }

  lemma HashBitsFit<K>(p: Params<K>, k: K)
    requires IncOk(p.inc, p.shift)
    ensures HashBits(p, k) < p.inc
  {
    var x := p.hash(p.mult, k) % 32;
    assert ShiftRight(x, 0) == x && ShiftRight(x, 1) == x / 2 && ShiftRight(x, 2) == x / 2 / 2;
    assert ShiftRight(x, 3) == x / 2 / 2 / 2 && ShiftRight(x, 4) == x / 2 / 2 / 2 / 2;
  }

  /** The info byte of key k when it sits in slot i. */
  function InfoAt<K>(p: Params<K>, k: K, i: nat): nat
    requires Home(p, k) <= i
    decreases i
  {
    if i == Home(p, k) then p.inc + HashBits(p, k) else InfoAt(p, k, i - 1) + p.inc
  }

  /** An info byte is at least twice the increment exactly when the node is away from home. */
  lemma {:induction false} InfoAtBounds<K>(p: Params<K>, k: K, i: nat)
    requires IncOk(p.inc, p.shift) && Home(p, k) <= i
    ensures InfoAt(p, k, i) >= p.inc
    ensures InfoAt(p, k, i) >= 2 * p.inc <==> i > Home(p, k)
    ensures InfoAt(p, k, i) >= 2 * (1 + i - Home(p, k))
    decreases i
  {
    HashBitsFit(p, k);
    if i > Home(p, k) { InfoAtBounds(p, k, i - 1); }
  }

  // ---------------------------------------------------------------- well-formed tables

  ghost predicate SlotOk<K, V>(p: Params<K>, info: seq<nat>, kv: seq<Node<K, V>>, i: nat)
    requires i < |kv| && i < |info|
  {
    info[i] != 0 ==>
      Home(p, kv[i].key) <= i && info[i] == InfoAt(p, kv[i].key, i) && info[i] <= 0xFF
  }

  /** Poorer nodes come first: an info byte away from home exceeds its predecessor by at most the increment. */
  predicate Ordered(info: seq<nat>, inc: nat, n: nat)
    requires n <= |info|
  {
    forall i | 0 < i < n :: StepOk(info, inc, i)
  }

  predicate StepOk(info: seq<nat>, inc: nat, i: nat)
    requires 0 < i < |info|
  {
    info[i] >= 2 * inc ==> info[i] <= info[i - 1] + inc
  }

  ghost predicate UniqueKeys<K, V>(info: seq<nat>, kv: seq<Node<K, V>>)
    requires |kv| <= |info|
  {
    forall i, j | 0 <= i < j < |kv| && info[i] != 0 && info[j] != 0 ::
      kv[i].key != kv[j].key
  }

  /** Sizes, sentinel and padding. */
  predicate Frame(mask: nat, info: seq<nat>, n: nat) {
    && n == Capacity(mask)
    && |info| == n + 8
    && info[n] == (if mask == 0 then 0 else 1)
    && forall i | n < i < n + 8 :: info[i] == 0
  }

  ghost predicate WellFormed<K, V>(p: Params<K>, info: seq<nat>, kv: seq<Node<K, V>>) {
    && IncOk(p.inc, p.shift)
    && Frame(p.mask, info, |kv|)
    && (forall i | 0 <= i < |kv| :: SlotOk(p, info, kv, i))
    && Ordered(info, p.inc, |kv|)
    && UniqueKeys(info, kv)
  }

  /** The table stores exactly the bindings of m. */
  ghost predicate Stores<K, V>(info: seq<nat>, kv: seq<Node<K, V>>, m: map<K, V>)
    requires |kv| <= |info|
  {
    && (forall i | 0 <= i < |kv| && info[i] != 0 :: kv[i].key in m && m[kv[i].key] == kv[i].val)
    && (forall k | k in m :: exists i :: 0 <= i < |kv| && info[i] != 0 && kv[i].key == k)
  }

  // ---------------------------------------------------------------- finding

  /** Along the way from its home to a node, no info byte is smaller than the node's own would be. */
  lemma {:induction false} PathToNode<K, V>(p: Params<K>, info: seq<nat>, kv: seq<Node<K, V>>, i: nat, j: nat)
    requires WellFormed(p, info, kv) && i < |kv| && info[i] != 0
    requires Home(p, kv[i].key) <= j <= i
    ensures info[j] >= InfoAt(p, kv[i].key, j) > 0
    decreases i - j
  {
    assert SlotOk(p, info, kv, i);
    InfoAtBounds(p, kv[i].key, j);
    if j < i {
      PathToNode(p, info, kv, i, j + 1);
      InfoAtBounds(p, kv[i].key, j + 1);
      assert StepOk(info, p.inc, j + 1);
    }
  }

  /** The probe has passed every slot from the home of k up to i, and each was at least as poor as k would be. */
  ghost predicate Passed<K>(p: Params<K>, info: seq<nat>, k: K, i: nat)
    requires Home(p, k) <= i <= |info|
  {
    forall j | Home(p, k) <= j < i :: info[j] >= InfoAt(p, k, j)
  }

  /** Where the probe meets a richer slot, the key cannot be further on. */
  lemma AbsentBeyond<K, V>(p: Params<K>, info: seq<nat>, kv: seq<Node<K, V>>, k: K, i: nat, at: nat)
    requires WellFormed(p, info, kv) && Home(p, k) <= i < |info| && info[i] < InfoAt(p, k, i)
    requires at < |kv| && info[at] != 0 && kv[at].key == k
    ensures at < i
  {
    assert SlotOk(p, info, kv, at);
    if i <= at { PathToNode(p, info, kv, at, i); }
  }

  ghost predicate Absent<K, V>(info: seq<nat>, kv: seq<Node<K, V>>, k: K)
    requires |kv| <= |info|
  {
    forall i | 0 <= i < |kv| && info[i] != 0 :: kv[i].key != k
  }

  /** None of the slots from a up to b holds the key. */
  ghost predicate Skipped<K, V>(info: seq<nat>, kv: seq<Node<K, V>>, k: K, a: nat, b: nat)
    requires |kv| <= |info|
  {
    forall j | a <= j < b && j < |kv| && info[j] != 0 :: kv[j].key != k
  }

  /** How far a probe has come: the byte it looks for at slot i, and nothing found before. */
  ghost predicate Probing<K, V>(p: Params<K>, info: seq<nat>, kv: seq<Node<K, V>>, k: K, i: nat, byte: nat) {
    && |kv| + 8 == |info| && Home(p, k) <= i <= |kv| + 2 && byte == InfoAt(p, k, i)
    && Skipped(info, kv, k, Home(p, k), i)
  }

  /**
   One step of a probe: a byte that matches is not the sentinel's, and a slot that does not match is
   not the key's.
   */
  lemma ProbeStep<K, V>(p: Params<K>, info: seq<nat>, kv: seq<Node<K, V>>, k: K, i: nat, byte: nat)
    requires WellFormed(p, info, kv) && Probing(p, info, kv, k, i, byte)
    ensures info[i] >= byte ==> i < |kv| && info[i] != 0
    ensures (i < |kv| && info[i] == byte && kv[i].key == k) || i == |kv| + 2
            || Probing(p, info, kv, k, i + 1, byte + p.inc)
  {
    InfoAtBounds(p, k, i);
    if i < |kv| { assert SlotOk(p, info, kv, i); }
  }

  /** Where a probe meets a smaller byte, the key is not in the table. */
  lemma ProbeEnds<K, V>(p: Params<K>, info: seq<nat>, kv: seq<Node<K, V>>, k: K, i: nat, byte: nat)
    requires WellFormed(p, info, kv) && Probing(p, info, kv, k, i, byte) && info[i] < byte
    ensures Absent(info, kv, k)
  {
    forall at | 0 <= at < |kv| && info[at] != 0 ensures kv[at].key != k {
      assert SlotOk(p, info, kv, at);
      if kv[at].key == k { AbsentBeyond(p, info, kv, k, i, at); }
    }
  }

  lemma AbsentMeansUnbound<K, V>(info: seq<nat>, kv: seq<Node<K, V>>, m: map<K, V>, k: K)
    requires |kv| <= |info| && Stores(info, kv, m) && Absent(info, kv, k)
    ensures k !in m
  {
  }

  lemma UsedMeansNonEmpty<K, V>(info: seq<nat>, kv: seq<Node<K, V>>, m: map<K, V>, i: nat)
    requires |kv| <= |info| && Stores(info, kv, m) && i < |kv| && info[i] != 0
    ensures kv[i].key in m && |m| >= 1
  {
    assert |m.Keys - {kv[i].key}| == |m| - 1;
  }

  lemma UnboundMeansAbsent<K, V>(info: seq<nat>, kv: seq<Node<K, V>>, m: map<K, V>, k: K)
    requires |kv| <= |info| && Stores(info, kv, m) && k !in m
    ensures Absent(info, kv, k)
  {
  }

  /** Slots at least as poor as the key would be are used, so the probe stays before the sentinel. */
  lemma PassStep<K, V>(p: Params<K>, info: seq<nat>, kv: seq<Node<K, V>>, k: K, i: nat, byte: nat)
    requires WellFormed(p, info, kv) && Home(p, k) <= i <= |kv| && Passed(p, info, k, i) && byte == InfoAt(p, k, i)
    ensures byte >= 2
    ensures info[i] >= byte ==> i < |kv| && Passed(p, info, k, i + 1) && byte + p.inc == InfoAt(p, k, i + 1)
    ensures info[i] == byte ==> info[i + 1] <= byte + p.inc
  {
    InfoAtBounds(p, k, i);
    if info[i] == byte && i + 1 < |kv| { assert StepOk(info, p.inc, i + 1); }
  }

  /** Home slots are addressable, and no node is further than 126 slots from its home. */
  lemma NodesAreNearHome<K, V>(p: Params<K>, info: seq<nat>, kv: seq<Node<K, V>>, i: nat)
    requires WellFormed(p, info, kv) && i < |kv| && info[i] != 0
    ensures i <= p.mask + 126
  {
    assert SlotOk(p, info, kv, i);
    InfoAtBounds(p, kv[i].key, i);
  }

  // ---------------------------------------------------------------- inserting

  /** Where the probe for an absent key stops: all before are at least as poor, this slot is richer. */
  ghost predicate InsertionPoint<K>(p: Params<K>, info: seq<nat>, k: K, i: nat) {
    Home(p, k) <= i < |info| && Passed(p, info, k, i) && info[i] < InfoAt(p, k, i)
  }

  /** The first empty slot at or after the insertion point. */
  predicate FirstEmpty(info: seq<nat>, i: nat, e: nat) {
    i <= e < |info| && info[e] == 0 && forall j | i <= j < e :: info[j] != 0
  }

  /** Info bytes after the nodes in [i, e) have moved up one slot and the new byte stands at i. */
  predicate ShiftedUp(info: seq<nat>, info': seq<nat>, i: nat, e: nat, byte: nat, inc: nat) {
    && i <= e < |info| == |info'|
    && info'[i] == byte
    && (forall j | i < j <= e :: info'[j] == info[j - 1] + inc)
    && (forall j | 0 <= j < |info| && !(i <= j <= e) :: info'[j] == info[j])
  }

  predicate NodesUp<K(==), V(==)>(kv: seq<Node<K, V>>, kv': seq<Node<K, V>>, i: nat, e: nat, node: Node<K, V>) {
    && i <= e < |kv| == |kv'|
    && kv'[i] == node
    && (forall j | i < j <= e :: kv'[j] == kv[j - 1])
    && (forall j | 0 <= j < |kv| && !(i <= j <= e) :: kv'[j] == kv[j])
  }

  lemma InsertKeepsSlots<K, V>(p: Params<K>, info: seq<nat>, kv: seq<Node<K, V>>, info': seq<nat>, kv': seq<Node<K, V>>,
                               i: nat, e: nat, node: Node<K, V>)
    requires WellFormed(p, info, kv) && (forall j | 0 <= j < |kv| :: info[j] + p.inc <= 0xFF)
    requires e < |kv| && FirstEmpty(info, i, e) && InsertionPoint(p, info, node.key, i)
    requires ShiftedUp(info, info', i, e, InfoAt(p, node.key, i), p.inc) && NodesUp(kv, kv', i, e, node)
    ensures forall j | 0 <= j < |kv'| :: SlotOk(p, info', kv', j)
  {
    forall j | 0 <= j < |kv'| ensures SlotOk(p, info', kv', j) {
      if i < j <= e {
        assert SlotOk(p, info, kv, j - 1);
      } else if j != i {
        assert SlotOk(p, info, kv, j);
      } else if i > Home(p, node.key) {
        assert info[i - 1] >= InfoAt(p, node.key, i - 1);
      } else {
        HashBitsFit(p, node.key);
      }
    }
  }

  lemma InsertKeepsOrder<K, V>(p: Params<K>, info: seq<nat>, kv: seq<Node<K, V>>, info': seq<nat>, i: nat, e: nat, k: K)
    requires WellFormed(p, info, kv) && e < |kv| && FirstEmpty(info, i, e) && InsertionPoint(p, info, k, i)
    requires ShiftedUp(info, info', i, e, InfoAt(p, k, i), p.inc)
    ensures Ordered(info', p.inc, |kv|)
  {
    InfoAtBounds(p, k, i);
    forall j | 0 < j < |kv| ensures StepOk(info', p.inc, j) {
      assert StepOk(info, p.inc, j);
      if j == i {
        if i > Home(p, k) { assert info[i - 1] >= InfoAt(p, k, i - 1); }
      } else if i < j <= e {
        assert info[j - 1] != 0 && SlotOk(p, info, kv, j - 1);
        InfoAtBounds(p, kv[j - 1].key, j - 1);
        if j - 1 > i {
          assert StepOk(info, p.inc, j - 1);
          assert info[j - 2] != 0 && SlotOk(p, info, kv, j - 2);
          InfoAtBounds(p, kv[j - 2].key, j - 2);
        }
      }
    }
  }

  lemma InsertKeepsUnique<K, V>(info: seq<nat>, kv: seq<Node<K, V>>, info': seq<nat>, kv': seq<Node<K, V>>,
                                i: nat, e: nat, node: Node<K, V>, byte: nat, inc: nat)
    requires |kv| <= |info| && UniqueKeys(info, kv) && Absent(info, kv, node.key) && FirstEmpty(info, i, e)
    requires ShiftedUp(info, info', i, e, byte, inc) && NodesUp(kv, kv', i, e, node)
    ensures UniqueKeys(info', kv')
  {
    forall a, b | 0 <= a < b < |kv'| && info'[a] != 0 && info'[b] != 0 ensures kv'[a].key != kv'[b].key {
      var a', b' := if i < a <= e then a - 1 else a, if i < b <= e then b - 1 else b;
      if a == i {
        assert info[b'] != 0 && kv'[b] == kv[b'];
      } else if b == i {
        assert info[a'] != 0 && kv'[a] == kv[a'];
      } else {
        assert info[a'] != 0 && info[b'] != 0 && a' < b';
      }
    }
  }

  lemma InsertedNodesAreStored<K, V>(info: seq<nat>, kv: seq<Node<K, V>>, info': seq<nat>, kv': seq<Node<K, V>>,
                                     i: nat, e: nat, node: Node<K, V>, byte: nat, inc: nat, m: map<K, V>, a: nat)
    requires |kv| <= |info| && Stores(info, kv, m) && Absent(info, kv, node.key) && FirstEmpty(info, i, e)
    requires ShiftedUp(info, info', i, e, byte, inc) && NodesUp(kv, kv', i, e, node)
    requires a < |kv'| && info'[a] != 0
    ensures kv'[a].key in m[node.key := node.val] && m[node.key := node.val][kv'[a].key] == kv'[a].val
  {
    if a != i {
      var a' := if i < a <= e then a - 1 else a;
      assert info[a'] != 0 && kv'[a] == kv[a'];
    }
  }

  lemma InsertedKeysAreFound<K, V>(info: seq<nat>, kv: seq<Node<K, V>>, info': seq<nat>, kv': seq<Node<K, V>>,
                                   i: nat, e: nat, node: Node<K, V>, byte: nat, inc: nat, a: nat)
    requires |kv| <= |info| && FirstEmpty(info, i, e) && a < |kv| && info[a] != 0
    requires ShiftedUp(info, info', i, e, byte, inc) && NodesUp(kv, kv', i, e, node)
    ensures exists a' :: 0 <= a' < |kv'| && info'[a'] != 0 && kv'[a'].key == kv[a].key
  {
    var a' := if i <= a < e then a + 1 else a;
    assert info'[a'] != 0 && kv'[a'].key == kv[a].key;
  }

  lemma InsertStores<K, V>(info: seq<nat>, kv: seq<Node<K, V>>, info': seq<nat>, kv': seq<Node<K, V>>,
                           i: nat, e: nat, node: Node<K, V>, byte: nat, inc: nat, m: map<K, V>)
    requires |kv| <= |info| && Stores(info, kv, m) && Absent(info, kv, node.key) && FirstEmpty(info, i, e) && byte > 0
    requires ShiftedUp(info, info', i, e, byte, inc) && NodesUp(kv, kv', i, e, node)
    ensures node.key !in m && Stores(info', kv', m[node.key := node.val])
  {
    var m' := m[node.key := node.val];
    forall a | 0 <= a < |kv'| && info'[a] != 0 ensures kv'[a].key in m' && m'[kv'[a].key] == kv'[a].val {
      InsertedNodesAreStored(info, kv, info', kv', i, e, node, byte, inc, m, a);
    }
    forall k | k in m' ensures exists a :: 0 <= a < |kv'| && info'[a] != 0 && kv'[a].key == k {
      if k == node.key {
        assert info'[i] != 0 && kv'[i].key == k;
      } else {
        var a :| 0 <= a < |kv| && info[a] != 0 && kv[a].key == k;
        InsertedKeysAreFound(info, kv, info', kv', i, e, node, byte, inc, a);
      }
    }
  }

  /** A whole insertion: the table stays well formed and gains exactly the new binding. */
  lemma InsertRefines<K, V>(p: Params<K>, info: seq<nat>, kv: seq<Node<K, V>>, info': seq<nat>, kv': seq<Node<K, V>>,
                            i: nat, e: nat, node: Node<K, V>, m: map<K, V>)
    requires WellFormed(p, info, kv) && (forall j | 0 <= j < |kv| :: info[j] + p.inc <= 0xFF) && Stores(info, kv, m)
    requires Absent(info, kv, node.key) && p.mask != 0
    requires e < |kv| && FirstEmpty(info, i, e) && InsertionPoint(p, info, node.key, i)
    requires ShiftedUp(info, info', i, e, InfoAt(p, node.key, i), p.inc) && NodesUp(kv, kv', i, e, node)
    ensures WellFormed(p, info', kv') && node.key !in m && Stores(info', kv', m[node.key := node.val])
  {
    InfoAtBounds(p, node.key, i);
    InsertKeepsSlots(p, info, kv, info', kv', i, e, node);
    InsertKeepsOrder(p, info, kv, info', i, e, node.key);
    InsertKeepsUnique(info, kv, info', kv', i, e, node, InfoAt(p, node.key, i), p.inc);
    InsertStores(info, kv, info', kv', i, e, node, InfoAt(p, node.key, i), p.inc, m);
  }

  ghost function KeysIn<K, V>(kv: seq<Node<K, V>>, a: nat, b: nat): set<K>
    requires a <= b <= |kv|
    decreases b - a
  {
    if a == b then {} else KeysIn(kv, a, b - 1) + {kv[b - 1].key}
  }

  lemma {:induction false} KeysInWitness<K, V>(kv: seq<Node<K, V>>, a: nat, b: nat, k: K) returns (j: nat)
    requires a <= b <= |kv| && k in KeysIn(kv, a, b)
    ensures a <= j < b && kv[j].key == k
    decreases b - a
  {
    if kv[b - 1].key == k { j := b - 1; } else { j := KeysInWitness(kv, a, b - 1, k); }
  }

  lemma {:induction false} KeysAreStored<K, V>(info: seq<nat>, kv: seq<Node<K, V>>, m: map<K, V>, a: nat, b: nat)
    requires |kv| <= |info| && a <= b <= |kv| && Stores(info, kv, m) && forall j | a <= j < b :: info[j] != 0
    ensures KeysIn(kv, a, b) <= m.Keys
    decreases b - a
  {
    if a < b {
      KeysAreStored(info, kv, m, a, b - 1);
      assert info[b - 1] != 0;
    }
  }

  lemma {:induction false} KeysAreMany<K, V>(info: seq<nat>, kv: seq<Node<K, V>>, a: nat, b: nat)
    requires |kv| <= |info| && a <= b <= |kv| && UniqueKeys(info, kv) && forall j | a <= j < b :: info[j] != 0
    ensures |KeysIn(kv, a, b)| == b - a
    decreases b - a
  {
    if a < b {
      KeysAreMany(info, kv, a, b - 1);
      NextKeyIsNew(info, kv, a, b - 1);
    }
  }

  /** A stretch without an empty slot stores as many keys as it has slots. */
  lemma FullStretch<K, V>(info: seq<nat>, kv: seq<Node<K, V>>, m: map<K, V>, a: nat, b: nat)
    requires |kv| <= |info| && a <= b <= |kv| && Stores(info, kv, m) && UniqueKeys(info, kv)
    requires forall j | a <= j < b :: info[j] != 0
    ensures KeysIn(kv, a, b) <= m.Keys && |KeysIn(kv, a, b)| == b - a
  {
    KeysAreStored(info, kv, m, a, b);
    KeysAreMany(info, kv, a, b);
  }

  lemma NextKeyIsNew<K, V>(info: seq<nat>, kv: seq<Node<K, V>>, a: nat, b: nat)
    requires |kv| <= |info| && a <= b < |kv| && UniqueKeys(info, kv) && forall j | a <= j <= b :: info[j] != 0
    ensures kv[b].key !in KeysIn(kv, a, b)
  {
    if kv[b].key in KeysIn(kv, a, b) {
      var j := KeysInWitness(kv, a, b, kv[b].key);
      assert false;
    }
  }

  /**
   While the table holds fewer nodes than it may, there is an empty slot at or after every insertion
   point and before the sentinel: no node is ever placed in or past the sentinel.
   */
  lemma RoomBeforeSentinel<K, V>(p: Params<K>, info: seq<nat>, kv: seq<Node<K, V>>, m: map<K, V>, k: K, i: nat)
    requires WellFormed(p, info, kv) && Stores(info, kv, m) && p.mask != 0
    requires |m| < CalcMaxNumElementsAllowed(p.mask + 1) && InsertionPoint(p, info, k, i)
    ensures exists e :: i <= e < |kv| && info[e] == 0
  {
    var a := p.mask + 1;
    if forall j | a <= j < |kv| :: info[j] != 0 {
      if |kv| == a + 0xFF {
        NodesAreNearHome(p, info, kv, a + 0xFE);
        assert false;
      } else {
        FullStretch(info, kv, m, a, |kv|);
        SubsetSize(KeysIn(kv, a, |kv|), m.Keys);
        assert false;
      }
    }
    var e :| a <= e < |kv| && info[e] == 0;
    if e < i {
      assert info[e] >= InfoAt(p, k, e);
      InfoAtBounds(p, k, e);
    }
  }

  // ---------------------------------------------------------------- erasing

  /** The nodes after slot i, up to e, have moved down one slot: e is the last before an empty or home slot. */
  predicate ShiftedDown(info: seq<nat>, info': seq<nat>, i: nat, e: nat, inc: nat) {
    && i <= e && e + 1 < |info| == |info'|
    && (forall j | i < j <= e :: info[j] >= 2 * inc)
    && (forall j | i <= j < e :: info'[j] == info[j + 1] - inc)
    && info[e + 1] < 2 * inc && info'[e] == 0
    && (forall j | 0 <= j < |info| && !(i <= j <= e) :: info'[j] == info[j])
  }

  predicate NodesDown<K(==), V(==)>(kv: seq<Node<K, V>>, kv': seq<Node<K, V>>, i: nat, e: nat) {
    && i <= e < |kv| == |kv'|
    && (forall j | i <= j < e :: kv'[j] == kv[j + 1])
    && (forall j | 0 <= j < |kv| && !(i <= j <= e) :: kv'[j] == kv[j])
  }

  lemma EraseKeepsSlots<K, V>(p: Params<K>, info: seq<nat>, kv: seq<Node<K, V>>, info': seq<nat>, kv': seq<Node<K, V>>,
                              i: nat, e: nat)
    requires WellFormed(p, info, kv) && ShiftedDown(info, info', i, e, p.inc) && NodesDown(kv, kv', i, e)
    ensures forall j | 0 <= j < |kv'| :: SlotOk(p, info', kv', j)
  {
    forall j | 0 <= j < |kv'| ensures SlotOk(p, info', kv', j) {
      if i <= j < e {
        assert info'[j] == info[j + 1] - p.inc && info[j + 1] >= 2 * p.inc;
        assert SlotOk(p, info, kv, j + 1);
        InfoAtBounds(p, kv[j + 1].key, j + 1);
      } else if j != e {
        assert SlotOk(p, info, kv, j);
      }
    }
  }

  lemma EraseKeepsOrder<K, V>(p: Params<K>, info: seq<nat>, kv: seq<Node<K, V>>, info': seq<nat>, i: nat, e: nat)
    requires WellFormed(p, info, kv) && e < |kv| && ShiftedDown(info, info', i, e, p.inc)
    ensures Ordered(info', p.inc, |kv|)
  {
    forall j | 0 < j < |kv| ensures StepOk(info', p.inc, j) {
      assert StepOk(info, p.inc, j);
      if i <= j < e { assert StepOk(info, p.inc, j + 1); }
    }
  }

  lemma EraseKeepsUnique<K, V>(info: seq<nat>, kv: seq<Node<K, V>>, info': seq<nat>, kv': seq<Node<K, V>>, i: nat,
                               e: nat, inc: nat)
    requires |kv| <= |info| && UniqueKeys(info, kv) && inc > 0
    requires ShiftedDown(info, info', i, e, inc) && NodesDown(kv, kv', i, e)
    ensures UniqueKeys(info', kv')
  {
    forall a, b | 0 <= a < b < |kv'| && info'[a] != 0 && info'[b] != 0 ensures kv'[a].key != kv'[b].key {
      var a', b' := if i <= a < e then a + 1 else a, if i <= b < e then b + 1 else b;
      assert info[a'] != 0 && info[b'] != 0 && a' < b' && kv'[a] == kv[a'] && kv'[b] == kv[b'];
    }
  }

  lemma KeptNodesAreStored<K, V>(info: seq<nat>, kv: seq<Node<K, V>>, info': seq<nat>, kv': seq<Node<K, V>>,
                                 i: nat, e: nat, inc: nat, m: map<K, V>, a: nat)
    requires |kv| <= |info| && Stores(info, kv, m) && UniqueKeys(info, kv) && inc > 0 && i < |kv| && info[i] != 0
    requires ShiftedDown(info, info', i, e, inc) && NodesDown(kv, kv', i, e)
    requires a < |kv'| && info'[a] != 0
    ensures kv'[a].key in m && kv'[a].key != kv[i].key && m[kv'[a].key] == kv'[a].val
  {
    var a' := if i <= a < e then a + 1 else a;
    assert info[a'] != 0 && kv'[a] == kv[a'] && a' != i;
  }

  lemma KeptKeysAreFound<K, V>(info: seq<nat>, kv: seq<Node<K, V>>, info': seq<nat>, kv': seq<Node<K, V>>,
                               i: nat, e: nat, inc: nat, a: nat)
    requires |kv| <= |info| && inc > 0 && a < |kv| && info[a] != 0 && a != i
    requires ShiftedDown(info, info', i, e, inc) && NodesDown(kv, kv', i, e)
    ensures exists a' :: 0 <= a' < |kv'| && info'[a'] != 0 && kv'[a'].key == kv[a].key
  {
    var a' := if i < a <= e then a - 1 else a;
    assert i < a <= e ==> info'[a'] == info[a' + 1] - inc && info[a' + 1] >= 2 * inc;
    assert info'[a'] != 0 && kv'[a'].key == kv[a].key;
  }

  lemma EraseStores<K, V>(info: seq<nat>, kv: seq<Node<K, V>>, info': seq<nat>, kv': seq<Node<K, V>>,
                          i: nat, e: nat, inc: nat, m: map<K, V>)
    requires |kv| <= |info| && Stores(info, kv, m) && UniqueKeys(info, kv) && inc > 0 && i < |kv| && info[i] != 0
    requires ShiftedDown(info, info', i, e, inc) && NodesDown(kv, kv', i, e)
    ensures kv[i].key in m && Stores(info', kv', m - {kv[i].key})
  {
    var m' := m - {kv[i].key};
    forall a | 0 <= a < |kv'| && info'[a] != 0 ensures kv'[a].key in m' && m'[kv'[a].key] == kv'[a].val {
      KeptNodesAreStored(info, kv, info', kv', i, e, inc, m, a);
    }
    forall k | k in m' ensures exists a :: 0 <= a < |kv'| && info'[a] != 0 && kv'[a].key == k {
      var a :| 0 <= a < |kv| && info[a] != 0 && kv[a].key == k;
      KeptKeysAreFound(info, kv, info', kv', i, e, inc, a);
    }
  }

  /** A whole erasure: the table stays well formed and loses exactly the binding in slot i. */
  lemma EraseRefines<K, V>(p: Params<K>, info: seq<nat>, kv: seq<Node<K, V>>, info': seq<nat>, kv': seq<Node<K, V>>,
                           i: nat, e: nat, m: map<K, V>)
    requires WellFormed(p, info, kv) && Stores(info, kv, m) && i <= e < |kv| && info[i] != 0
    requires ShiftedDown(info, info', i, e, p.inc) && NodesDown(kv, kv', i, e)
    ensures WellFormed(p, info', kv') && kv[i].key in m && Stores(info', kv', m - {kv[i].key})
  {
    EraseKeepsSlots(p, info, kv, info', kv', i, e);
    EraseKeepsOrder(p, info, kv, info', i, e);
    EraseKeepsUnique(info, kv, info', kv', i, e, p.inc);
    EraseStores(info, kv, info', kv', i, e, p.inc, m);
  }

  // ---------------------------------------------------------------- making room in the info bytes

  function Halved<K>(p: Params<K>): Params<K> {
    p.(inc := p.inc / 2, shift := p.shift + 1)
  }

  lemma {:induction false} InfoAtHalves<K>(p: Params<K>, k: K, i: nat)
    requires IncOk(p.inc, p.shift) && p.inc > 2 && Home(p, k) <= i
    ensures Home(Halved(p), k) == Home(p, k)
    ensures InfoAt(Halved(p), k, i) == InfoAt(p, k, i) / 2
    decreases i
  {
    if i > Home(p, k) { InfoAtHalves(p, k, i - 1); }
  }

  predicate AllHalved(info: seq<nat>, info': seq<nat>, n: nat) {
    && n <= |info| == |info'|
    && (forall i | 0 <= i < n :: info'[i] == info[i] / 2)
    && (forall i | n <= i < |info| :: info'[i] == info[i])
  }

  lemma HalvedSlot<K, V>(p: Params<K>, info: seq<nat>, kv: seq<Node<K, V>>, info': seq<nat>, i: nat)
    requires IncOk(p.inc, p.shift) && p.inc > 2 && |kv| <= |info| && AllHalved(info, info', |kv|)
    requires i < |kv| && SlotOk(p, info, kv, i)
    ensures SlotOk(Halved(p), info', kv, i) && (info'[i] == 0 <==> info[i] == 0)
    ensures info'[i] + Halved(p).inc <= 0xFF
  {
    if info[i] != 0 {
      InfoAtHalves(p, kv[i].key, i);
      InfoAtBounds(p, kv[i].key, i);
    }
  }

  lemma HalvedOrder(info: seq<nat>, info': seq<nat>, inc: nat, shift: nat, n: nat)
    requires AllHalved(info, info', n) && Ordered(info, inc, n) && IncOk(inc, shift) && inc > 2
    ensures Ordered(info', inc / 2, n)
  {
    forall i | 0 < i < n ensures StepOk(info', inc / 2, i) {
      assert StepOk(info, inc, i);
    }
  }

  lemma HalvedStores<K, V>(info: seq<nat>, kv: seq<Node<K, V>>, info': seq<nat>, m: map<K, V>)
    requires |kv| <= |info| && |kv| <= |info'| && Stores(info, kv, m) && UniqueKeys(info, kv)
    requires forall i | 0 <= i < |kv| :: info'[i] == 0 <==> info[i] == 0
    ensures Stores(info', kv, m) && UniqueKeys(info', kv)
  {
    forall k | k in m ensures exists a :: 0 <= a < |kv| && info'[a] != 0 && kv[a].key == k {
      var a :| 0 <= a < |kv| && info[a] != 0 && kv[a].key == k;
      assert info'[a] != 0;
    }
  }

  /** Halving every info byte drops one hash bit from each and keeps the table and its contents. */
  lemma HalvingRefines<K, V>(p: Params<K>, info: seq<nat>, kv: seq<Node<K, V>>, info': seq<nat>, m: map<K, V>)
    requires WellFormed(p, info, kv) && p.inc > 2 && AllHalved(info, info', |kv|) && Stores(info, kv, m)
    ensures WellFormed(Halved(p), info', kv) && Stores(info', kv, m)
    ensures forall i | 0 <= i < |kv| :: info'[i] + Halved(p).inc <= 0xFF
  {
    forall i | 0 <= i < |kv|
      ensures SlotOk(Halved(p), info', kv, i) && (info'[i] == 0 <==> info[i] == 0) && info'[i] + Halved(p).inc <= 0xFF
    {
      HalvedSlot(p, info, kv, info', i);
    }
    HalvedOrder(info, info', p.inc, p.shift, |kv|);
    HalvedStores(info, kv, info', m);
  }

  // ---------------------------------------------------------------- the state of a whole table

  /** While more nodes are allowed, every info byte can grow once more without overflowing. */
  predicate CanGrow(info: seq<nat>, inc: nat, n: nat)
    requires n <= |info|
  {
    forall i | 0 <= i < n :: info[i] + inc <= 0xFF
  }

  /** The stored nodes, whatever parameters placed them. */
  ghost predicate Loaded<K, V>(mask: nat, num: nat, info: seq<nat>, kv: seq<Node<K, V>>, m: map<K, V>) {
    && Frame(mask, info, |kv|)
    && UniqueKeys(info, kv) && Stores(info, kv, m)
    && num == |m| <= CalcMaxNumElementsAllowed(mask + 1)
  }

  ghost predicate TableOk<K, V>(p: Params<K>, num: nat, maxAllowed: nat, info: seq<nat>, kv: seq<Node<K, V>>,
                                m: map<K, V>)
  {
    && Loaded(p.mask, num, info, kv, m)
    && WellFormed(p, info, kv)
    && (maxAllowed != 0 ==>
          p.mask != 0 && maxAllowed == CalcMaxNumElementsAllowed(p.mask + 1) && CanGrow(info, p.inc, |kv|))
  }

  lemma EraseKeepsTable<K, V>(p: Params<K>, num: nat, maxAllowed: nat, info: seq<nat>, kv: seq<Node<K, V>>,
                              m: map<K, V>,
                              info': seq<nat>, kv': seq<Node<K, V>>, i: nat, e: nat)
    requires TableOk(p, num, maxAllowed, info, kv, m) && i <= e < |kv| && info[i] != 0
    requires ShiftedDown(info, info', i, e, p.inc) && NodesDown(kv, kv', i, e)
    ensures num >= 1 && kv[i].key in m && TableOk(p, num - 1, maxAllowed, info', kv', m - {kv[i].key})
  {
    EraseRefines(p, info, kv, info', kv', i, e, m);
    OneFewer(m, kv[i].key);
    BytesOnlyFall(info, info', i, e, p.inc, |kv|);
  }

  lemma OneFewer<K, V>(m: map<K, V>, k: K)
    requires k in m
    ensures |m - {k}| == |m| - 1
  {
    assert (m - {k}).Keys == m.Keys - {k};
  }

  lemma BytesOnlyFall(info: seq<nat>, info': seq<nat>, i: nat, e: nat, inc: nat, n: nat)
    requires ShiftedDown(info, info', i, e, inc) && n <= |info| && Ordered(info, inc, n) && e < n
    ensures forall j | 0 <= j < n :: info'[j] <= info[j]
  {
    forall j | 0 <= j < n ensures info'[j] <= info[j] {
      if i <= j < e { assert StepOk(info, inc, j + 1); }
    }
  }

  lemma HalvingKeepsTable<K, V>(p: Params<K>, num: nat, maxAllowed: nat, info: seq<nat>, kv: seq<Node<K, V>>,
                                m: map<K, V>,
                                info': seq<nat>)
    requires TableOk(p, num, maxAllowed, info, kv, m) && p.inc > 2 && p.mask != 0 && AllHalved(info, info', |kv|)
    ensures TableOk(Halved(p), num, CalcMaxNumElementsAllowed(p.mask + 1), info', kv, m)
  {
    HalvingRefines(p, info, kv, info', m);
  }

  /** The bytes after an insertion, and the flag that says whether they can grow again. */
  lemma InsertKeepsTable<K, V>(p: Params<K>, num: nat, maxAllowed: nat, info: seq<nat>, kv: seq<Node<K, V>>,
                               m: map<K, V>,
                               info': seq<nat>, kv': seq<Node<K, V>>, maxAllowed': nat,
                               i: nat, e: nat, node: Node<K, V>)
    requires TableOk(p, num, maxAllowed, info, kv, m) && num < maxAllowed && Absent(info, kv, node.key)
    requires e < |kv| && FirstEmpty(info, i, e) && InsertionPoint(p, info, node.key, i)
    requires ShiftedUp(info, info', i, e, InfoAt(p, node.key, i), p.inc) && NodesUp(kv, kv', i, e, node)
    requires maxAllowed' == maxAllowed || maxAllowed' == 0
    requires maxAllowed' != 0 ==> forall j | i <= j <= e :: info'[j] + p.inc <= 0xFF
    ensures node.key !in m && TableOk(p, num + 1, maxAllowed', info', kv', m[node.key := node.val])
  {
    InsertRefines(p, info, kv, info', kv', i, e, node, m);
    OneMore(m, node.key, node.val);
    if maxAllowed' != 0 {
      RoomAfterInsert(info, info', i, e, InfoAt(p, node.key, i), p.inc, |kv|);
    }
  }

  lemma OneMore<K, V>(m: map<K, V>, k: K, v: V)
    requires k !in m
    ensures |m[k := v]| == |m| + 1
  {
    assert m[k := v].Keys == m.Keys + {k};
  }

  lemma RoomAfterInsert(info: seq<nat>, info': seq<nat>, i: nat, e: nat, byte: nat, inc: nat, n: nat)
    requires n <= |info| && CanGrow(info, inc, n) && e < n && ShiftedUp(info, info', i, e, byte, inc)
    requires forall j | i <= j <= e :: info'[j] + inc <= 0xFF
    ensures n <= |info'| && CanGrow(info', inc, n)
  {
  }

  /** Before an insertion: room before the sentinel, and a byte that fits. */
  lemma ReadyToInsert<K, V>(p: Params<K>, num: nat, maxAllowed: nat, info: seq<nat>, kv: seq<Node<K, V>>, m: map<K, V>,
                            k: K, i: nat)
    requires TableOk(p, num, maxAllowed, info, kv, m) && num < maxAllowed && InsertionPoint(p, info, k, i)
    ensures i < |kv| && exists j :: i <= j < |kv| && info[j] == 0
    ensures 0 < InfoAt(p, k, i) <= 0xFF
    ensures CanGrow(info, p.inc, |kv|)
  {
    RoomBeforeSentinel(p, info, kv, m, k, i);
    InfoAtBounds(p, k, i);
    if i > Home(p, k) {
      assert info[i - 1] >= InfoAt(p, k, i - 1);
    } else {
      HashBitsFit(p, k);
    }
  }

  /** The part of a table already carried over by a rehash: the nodes in the first i slots. */
  ghost predicate CarriedOver<K, V>(info: seq<nat>, kv: seq<Node<K, V>>, m: map<K, V>, i: nat, done: map<K, V>)
    requires i <= |kv| <= |info|
  {
    && (forall j | 0 <= j < i && info[j] != 0 :: kv[j].key in done)
    && (forall k | k in done :: k in m && done[k] == m[k] && exists j :: 0 <= j < i && info[j] != 0 && kv[j].key == k)
  }

  lemma CarryUnused<K, V>(info: seq<nat>, kv: seq<Node<K, V>>, m: map<K, V>, i: nat, done: map<K, V>)
    requires i < |kv| <= |info| && CarriedOver(info, kv, m, i, done) && info[i] == 0
    ensures CarriedOver(info, kv, m, i + 1, done)
  {
    forall k | k in done ensures exists j :: 0 <= j < i + 1 && info[j] != 0 && kv[j].key == k {
      var j :| 0 <= j < i && info[j] != 0 && kv[j].key == k;
    }
  }

  lemma NextIsNew<K, V>(info: seq<nat>, kv: seq<Node<K, V>>, m: map<K, V>, i: nat, done: map<K, V>)
    requires i < |kv| <= |info| && Stores(info, kv, m) && UniqueKeys(info, kv) && CarriedOver(info, kv, m, i, done)
    requires info[i] != 0
    ensures kv[i].key !in done && |done| < |m|
  {
    assert done.Keys <= m.Keys - {kv[i].key};
    SubsetSize(done.Keys, m.Keys - {kv[i].key});
  }

  lemma CarryUsed<K, V>(info: seq<nat>, kv: seq<Node<K, V>>, m: map<K, V>, i: nat, done: map<K, V>)
    requires i < |kv| <= |info| && CarriedOver(info, kv, m, i, done) && info[i] != 0
    requires kv[i].key in m && m[kv[i].key] == kv[i].val
    ensures CarriedOver(info, kv, m, i + 1, done[kv[i].key := kv[i].val])
  {
    var done' := done[kv[i].key := kv[i].val];
    forall k | k in done' ensures exists j :: 0 <= j < i + 1 && info[j] != 0 && kv[j].key == k {
      if k == kv[i].key {
        assert info[i] != 0 && kv[i].key == k;
      } else {
        var j :| 0 <= j < i && info[j] != 0 && kv[j].key == k;
      }
    }
  }

  lemma CarriedAll<K, V>(info: seq<nat>, kv: seq<Node<K, V>>, m: map<K, V>, done: map<K, V>)
    requires |kv| <= |info| && Stores(info, kv, m) && CarriedOver(info, kv, m, |kv|, done)
    ensures done == m
  {
    forall k | k in m ensures k in done {
      var j :| 0 <= j < |kv| && info[j] != 0 && kv[j].key == k;
    }
  }

  /** Nodes moved up around a slot left for the caller to fill. */
  predicate NodesOpened<K(==), V(==)>(kv: seq<Node<K, V>>, kv': seq<Node<K, V>>, i: nat, e: nat) {
    && i <= e < |kv| == |kv'|
    && (forall j | i < j <= e :: kv'[j] == kv[j - 1])
    && (forall j | 0 <= j < |kv| && !(i <= j <= e) :: kv'[j] == kv[j])
  }

  lemma OpenedThenStored<K, V>(p: Params<K>, num: nat, maxAllowed: nat, info: seq<nat>, kv: seq<Node<K, V>>,
                               m: map<K, V>,
                               info': seq<nat>, kv': seq<Node<K, V>>, maxAllowed': nat,
                               i: nat, e: nat, node: Node<K, V>)
    requires TableOk(p, num, maxAllowed, info, kv, m) && num < maxAllowed && Absent(info, kv, node.key)
    requires e < |kv| && FirstEmpty(info, i, e) && InsertionPoint(p, info, node.key, i)
    requires ShiftedUp(info, info', i, e, InfoAt(p, node.key, i), p.inc) && NodesOpened(kv, kv', i, e)
    requires maxAllowed' == maxAllowed || maxAllowed' == 0
    requires maxAllowed' != 0 ==> forall j | i <= j <= e :: info'[j] + p.inc <= 0xFF
    ensures TableOk(p, num + 1, maxAllowed', info', kv'[i := node], m[node.key := node.val])
  {
    InsertKeepsTable(p, num, maxAllowed, info, kv, m, info', kv'[i := node], maxAllowed', i, e, node);
  }

  lemma OverwriteKeepsTable<K, V>(p: Params<K>, num: nat, maxAllowed: nat, info: seq<nat>, kv: seq<Node<K, V>>,
                                  m: map<K, V>,
                                  i: nat, val: V)
    requires TableOk(p, num, maxAllowed, info, kv, m) && i < |kv| && info[i] != 0
    ensures TableOk(p, num, maxAllowed, info, kv[i := Node(kv[i].key, val)], m[kv[i].key := val])
  {
    var kv', m' := kv[i := Node(kv[i].key, val)], m[kv[i].key := val];
    assert m'.Keys == m.Keys;
    assert |m'| == |m'.Keys|;
    forall j | 0 <= j < |kv'| ensures SlotOk(p, info, kv', j) {
      assert SlotOk(p, info, kv, j);
    }
    OverwriteStores(info, kv, m, i, val);
  }

  lemma OverwriteStores<K, V>(info: seq<nat>, kv: seq<Node<K, V>>, m: map<K, V>, i: nat, val: V)
    requires |kv| <= |info| && Stores(info, kv, m) && UniqueKeys(info, kv) && i < |kv| && info[i] != 0
    ensures Stores(info, kv[i := Node(kv[i].key, val)], m[kv[i].key := val])
    ensures UniqueKeys(info, kv[i := Node(kv[i].key, val)])
  {
    var kv', m' := kv[i := Node(kv[i].key, val)], m[kv[i].key := val];
    forall k | k in m' ensures exists j :: 0 <= j < |kv'| && info[j] != 0 && kv'[j].key == k {
      var j :| 0 <= j < |kv| && info[j] != 0 && kv[j].key == k;
      assert info[j] != 0 && kv'[j].key == k;
    }
  }

  /** Eight, doubled some number of times. */
  predicate PowerOfTwo(n: nat) {
    n == INITIAL_NUM_ELEMENTS || (n > INITIAL_NUM_ELEMENTS && n % 2 == 0 && PowerOfTwo(n / 2))
  }

  /** The mask selects the low bits of the hash because it is one less than a power of two. */
  predicate MaskOk(mask: nat) {
    mask == 0 || PowerOfTwo(mask + 1)
  }

  lemma GrownSize(mask: nat, num: nat)
    requires MaskOk(mask) && mask != 0 && num <= CalcMaxNumElementsAllowed(mask + 1)
    ensures mask + 1 >= INITIAL_NUM_ELEMENTS && MaskOk((mask + 1) * 2 - 1)
    ensures num <= CalcMaxNumElementsAllowed((mask + 1) * 2)
  {
    assert (mask + 1) * 2 / 2 == mask + 1 && (mask + 1) * 2 % 2 == 0;
  }

  lemma EmptyTableOk<K, V>(p: Params<K>, info: seq<nat>, kv: seq<Node<K, V>>)
    requires IncOk(p.inc, p.shift) && p.inc <= 0xFF && Frame(p.mask, info, |kv|)
    requires p.mask != 0 && forall i | 0 <= i < |kv| :: info[i] == 0
    ensures TableOk(p, 0, CalcMaxNumElementsAllowed(p.mask + 1), info, kv, map[])
  {
  }
}
