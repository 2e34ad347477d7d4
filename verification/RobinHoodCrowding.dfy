/**
 When a set of keys is too crowded for a Robin Hood table: with the smallest increment an info byte can
 count 126 slots of distance. Where nodes end up depends on how many keys share which home slots, so
 whether they can be placed at all is a property of the keys, the hash and the size of the table.
 */
module RobinHoodCrowding {
  import opened Sums
  import opened RobinHood

  /** The least distance from home at which an info byte cannot grow any more, whatever the increment. */
  const FULL_DISTANCE: nat := 126

  ghost function HomesIn<K>(p: Params<K>, keys: set<K>, a: nat, b: nat): set<K> {
    set k | k in keys && a <= Home(p, k) <= b
  }

  /** More keys belong between the slots a and b than a table can keep near them. */
  ghost predicate CrowdedAt<K>(p: Params<K>, keys: set<K>, a: nat, b: nat) {
    a <= b && |HomesIn(p, keys, a, b)| >= b - a + 1 + FULL_DISTANCE
  }

  ghost predicate Crowded<K>(p: Params<K>, keys: set<K>) {
    exists a: nat, b: nat :: CrowdedAt(p, keys, a, b)
  }

  // ---------------------------------------------------------------- crowding as a property of keys

  /** It takes at least 127 keys to crowd a table. */
  lemma CrowdedAreMany<K>(p: Params<K>, keys: set<K>)
    requires Crowded(p, keys)
    ensures |keys| > FULL_DISTANCE
  {
    var a: nat, b: nat :| CrowdedAt(p, keys, a, b);
    SubsetSize(HomesIn(p, keys, a, b), keys);
  }

  lemma MoreAreMoreCrowded<K>(p: Params<K>, some: set<K>, all: set<K>)
    requires Crowded(p, some) && some <= all
    ensures Crowded(p, all)
  {
    var a: nat, b: nat :| CrowdedAt(p, some, a, b);
    SubsetSize(HomesIn(p, some, a, b), HomesIn(p, all, a, b));
    assert CrowdedAt(p, all, a, b);
  }

  ghost predicate SameHomes<K>(p: Params<K>, q: Params<K>) {
    p.hash == q.hash && p.mult == q.mult && p.mask == q.mask
  }

  /** The bits of the hash that an info byte keeps do not matter. */
  lemma SameHomesCrowdAlike<K>(p: Params<K>, q: Params<K>, keys: set<K>)
    requires SameHomes(p, q) && Crowded(p, keys)
    ensures Crowded(q, keys)
  {
    var a: nat, b: nat :| CrowdedAt(p, keys, a, b);
    assert HomesIn(q, keys, a, b) == HomesIn(p, keys, a, b);
    assert CrowdedAt(q, keys, a, b);
  }

  /** Any 127 keys that share a home are crowded. */
  lemma SharedHomeCrowds<K>(p: Params<K>, keys: set<K>, home: nat)
    requires |keys| > FULL_DISTANCE && forall k | k in keys :: Home(p, k) == home
    ensures Crowded(p, keys)
  {
    assert HomesIn(p, keys, home, home) == keys;
    assert CrowdedAt(p, keys, home, home);
  }

  // ---------------------------------------------------------------- crowding as distance from home

  /** An info byte in closed form. */
  lemma {:induction false} InfoAtIs<K>(p: Params<K>, k: K, i: nat)
    requires Home(p, k) <= i
    ensures InfoAt(p, k, i) == Times(1 + i - Home(p, k), p.inc) + HashBits(p, k)
    decreases i
  {
    if i > Home(p, k) { InfoAtIs(p, k, i - 1); }
  }

  function Times(n: nat, inc: nat): nat {
    if n == 0 then 0 else Times(n - 1, inc) + inc
  }

  lemma {:induction false} TimesGrows(n: nat, m: nat, inc: nat)
    requires n <= m
    ensures Times(n, inc) + (m - n) * 2 <= Times(m, inc) || inc < 2
    ensures n < m ==> Times(n, inc) + inc <= Times(m, inc)
    decreases m
  {
    if n < m { TimesGrows(n, m - 1, inc); }
  }

  /** Neighbouring nodes lie in the order of their homes. */
  lemma HomesAreOrdered<K, V>(p: Params<K>, info: seq<nat>, kv: seq<Node<K, V>>, j: nat)
    requires WellFormed(p, info, kv) && j + 1 < |kv| && info[j] != 0 && info[j + 1] != 0
    ensures Home(p, kv[j].key) <= Home(p, kv[j + 1].key)
  {
    var k, l := kv[j].key, kv[j + 1].key;
    assert SlotOk(p, info, kv, j) && SlotOk(p, info, kv, j + 1) && StepOk(info, p.inc, j + 1);
    if Home(p, l) < Home(p, k) { BytesShowHomes(p, k, l, j); }
  }

  lemma BytesShowHomes<K>(p: Params<K>, k: K, l: K, j: nat)
    requires IncOk(p.inc, p.shift) && Home(p, l) < Home(p, k) <= j
    ensures InfoAt(p, l, j + 1) >= 2 * p.inc && InfoAt(p, l, j + 1) > InfoAt(p, k, j) + p.inc
  {
    InfoAtBounds(p, l, j + 1);
    InfoAtIs(p, k, j);
    InfoAtIs(p, l, j + 1);
    HashBitsFit(p, k);
    TimesGrows(2 + j - Home(p, k), 2 + j - Home(p, l), p.inc);
  }

  /** Walking back from a node over used slots leads to a node at home. */
  lemma {:induction false} ClusterStart<K, V>(p: Params<K>, info: seq<nat>, kv: seq<Node<K, V>>, i: nat)
    returns (a: nat)
    requires WellFormed(p, info, kv) && i < |kv| && info[i] != 0
    ensures a <= i && Home(p, kv[a].key) == a && forall j | a <= j <= i :: info[j] != 0
    decreases i
  {
    assert SlotOk(p, info, kv, i);
    if Home(p, kv[i].key) == i {
      a := i;
    } else {
      PathToNode(p, info, kv, i, i - 1);
      a := ClusterStart(p, info, kv, i - 1);
    }
  }

  lemma {:induction false} HomesBetween<K, V>(p: Params<K>, info: seq<nat>, kv: seq<Node<K, V>>, a: nat, b: nat, j: nat)
    requires WellFormed(p, info, kv) && a <= j <= b < |kv| && forall i | a <= i <= b :: info[i] != 0
    ensures Home(p, kv[a].key) <= Home(p, kv[j].key) <= Home(p, kv[b].key)
    decreases b - a
  {
    if a < j {
      HomesBetween(p, info, kv, a, b - 1, if j < b then j else j - 1);
      HomesAreOrdered(p, info, kv, b - 1);
    } else if j < b {
      HomesBetween(p, info, kv, a, b - 1, j);
      HomesAreOrdered(p, info, kv, b - 1);
    }
  }

  /** A node far from its home has all the nodes that pushed it there before it. */
  lemma FarNodeIsCrowded<K, V>(p: Params<K>, info: seq<nat>, kv: seq<Node<K, V>>, m: map<K, V>, i: nat)
    requires WellFormed(p, info, kv) && Stores(info, kv, m) && i < |kv| && info[i] != 0
    requires i >= Home(p, kv[i].key) + FULL_DISTANCE
    ensures Crowded(p, m.Keys)
  {
    var a := ClusterStart(p, info, kv, i);
    ClusterIsCrowded(p, info, kv, m, a, i);
  }

  lemma ClusterIsCrowded<K, V>(p: Params<K>, info: seq<nat>, kv: seq<Node<K, V>>, m: map<K, V>, a: nat, i: nat)
    requires WellFormed(p, info, kv) && Stores(info, kv, m) && a <= i < |kv| && forall j | a <= j <= i :: info[j] != 0
    requires Home(p, kv[a].key) == a && i >= Home(p, kv[i].key) + FULL_DISTANCE
    ensures Crowded(p, m.Keys)
  {
    var b := Home(p, kv[i].key);
    FullStretch(info, kv, m, a, i + 1);
    HomesBetween(p, info, kv, a, i, i);
    ClusterHomes(p, info, kv, m, a, i);
    SubsetSize(KeysIn(kv, a, i + 1), HomesIn(p, m.Keys, a, b));
    assert CrowdedAt(p, m.Keys, a, b);
  }

  lemma ClusterHomes<K, V>(p: Params<K>, info: seq<nat>, kv: seq<Node<K, V>>, m: map<K, V>, a: nat, i: nat)
    requires WellFormed(p, info, kv) && a <= i < |kv| && forall j | a <= j <= i :: info[j] != 0
    requires Home(p, kv[a].key) == a && KeysIn(kv, a, i + 1) <= m.Keys
    ensures KeysIn(kv, a, i + 1) <= HomesIn(p, m.Keys, a, Home(p, kv[i].key))
  {
    var b := Home(p, kv[i].key);
    forall k | k in KeysIn(kv, a, i + 1) ensures a <= Home(p, k) <= b {
      var j := KeysInWitness(kv, a, i + 1, k);
      HomesBetween(p, info, kv, a, i, j);
    }
  }

  lemma {:induction false} KeysInSize<K, V>(kv: seq<Node<K, V>>, a: nat, b: nat)
    requires a <= b <= |kv|
    ensures |KeysIn(kv, a, b)| <= b - a
    decreases b - a
  {
    if a < b { KeysInSize(kv, a, b - 1); }
  }

  lemma {:induction false} KeysInHas<K, V>(kv: seq<Node<K, V>>, a: nat, b: nat, j: nat)
    requires a <= j < b <= |kv|
    ensures kv[j].key in KeysIn(kv, a, b)
    decreases b - a
  {
    if j < b - 1 { KeysInHas(kv, a, b - 1, j); }
  }

  /** No node of the table is as far as that from its home. */
  ghost predicate AllNear<K, V>(p: Params<K>, info: seq<nat>, kv: seq<Node<K, V>>) {
    forall i | 0 <= i < |kv| && i < |info| && info[i] != 0 :: i < Home(p, kv[i].key) + FULL_DISTANCE
  }

  /** Conversely, keys that are crowded cannot all lie near their homes: there are not enough slots. */
  lemma CrowdedIsFar<K, V>(p: Params<K>, info: seq<nat>, kv: seq<Node<K, V>>, m: map<K, V>)
    requires WellFormed(p, info, kv) && Stores(info, kv, m) && Crowded(p, m.Keys)
    ensures !AllNear(p, info, kv)
  {
    var a: nat, b: nat :| CrowdedAt(p, m.Keys, a, b);
    if AllNear(p, info, kv) {
      var keys := HomesIn(p, m.Keys, a, b);
      var e := if b + FULL_DISTANCE <= |kv| then b + FULL_DISTANCE else |kv|;
      var s := if a <= e then a else e;
      forall k | k in keys ensures k in KeysIn(kv, s, e) {
        var i :| 0 <= i < |kv| && info[i] != 0 && kv[i].key == k;
        assert SlotOk(p, info, kv, i);
        KeysInHas(kv, s, e, i);
      }
      KeysInSize(kv, s, e);
      SubsetSize(keys, KeysIn(kv, s, e));
    }
  }

  // ---------------------------------------------------------------- crowding as full info bytes

  lemma RoomMeansNear<K, V>(p: Params<K>, info: seq<nat>, kv: seq<Node<K, V>>)
    requires WellFormed(p, info, kv) && (p.inc > 2 || CanGrow(info, p.inc, |kv|))
    ensures AllNear(p, info, kv)
  {
    forall i | 0 <= i < |kv| && info[i] != 0 ensures i < Home(p, kv[i].key) + FULL_DISTANCE {
      assert SlotOk(p, info, kv, i);
      InfoAtIs(p, kv[i].key, i);
      TimesIs(1 + i - Home(p, kv[i].key), p.inc, p.shift);
    }
  }

  lemma {:induction false} TimesIs(n: nat, inc: nat, shift: nat)
    requires IncOk(inc, shift)
    ensures Times(n, inc) >= 2 * n
    ensures inc == 2 ==> Times(n, inc) == 2 * n
    ensures inc > 2 ==> Times(n, inc) >= 4 * n
    decreases n
  {
    if n > 0 { TimesIs(n - 1, inc, shift); }
  }

  /** A table with room in its info bytes, or with a hash bit left to give up, is not crowded. */
  lemma RoomMeansNotCrowded<K, V>(p: Params<K>, info: seq<nat>, kv: seq<Node<K, V>>, m: map<K, V>)
    requires WellFormed(p, info, kv) && Stores(info, kv, m) && (p.inc > 2 || CanGrow(info, p.inc, |kv|))
    ensures !Crowded(p, m.Keys)
  {
    RoomMeansNear(p, info, kv);
    if Crowded(p, m.Keys) { CrowdedIsFar(p, info, kv, m); }
  }

  /** Without either, it is. */
  lemma FullMeansCrowded<K, V>(p: Params<K>, info: seq<nat>, kv: seq<Node<K, V>>, m: map<K, V>)
    requires WellFormed(p, info, kv) && Stores(info, kv, m) && p.inc <= 2 && !CanGrow(info, p.inc, |kv|)
    ensures Crowded(p, m.Keys)
  {
    var i :| 0 <= i < |kv| && info[i] + p.inc > 0xFF;
    assert SlotOk(p, info, kv, i);
    InfoAtIs(p, kv[i].key, i);
    TimesIs(1 + i - Home(p, kv[i].key), p.inc, p.shift);
    HashBitsFit(p, kv[i].key);
    FarNodeIsCrowded(p, info, kv, m, i);
  }

  /** The mark of a full table is set only where a byte cannot grow; erasing can leave it set without one. */
  predicate Tight(maxAllowed: nat, info: seq<nat>, inc: nat, n: nat)
    requires n <= |info|
  {
    maxAllowed == 0 ==> !CanGrow(info, inc, n)
  }

  /** A node can be placed without a rehash exactly when the table is not crowded. */
  lemma PlaceableWhenUncrowded<K, V>(p: Params<K>, num: nat, maxAllowed: nat, info: seq<nat>, kv: seq<Node<K, V>>,
                                     m: map<K, V>)
    requires TableOk(p, num, maxAllowed, info, kv, m)
    ensures maxAllowed != 0 || p.inc > 2 ==> !Crowded(p, m.Keys)
    ensures Tight(maxAllowed, info, p.inc, |kv|) && !Crowded(p, m.Keys) ==> maxAllowed != 0 || p.inc > 2
  {
    if maxAllowed != 0 || p.inc > 2 {
      RoomMeansNotCrowded(p, info, kv, m);
    } else if !CanGrow(info, p.inc, |kv|) {
      FullMeansCrowded(p, info, kv, m);
    }
  }

  // ---------------------------------------------------------------- what a rehash can place

  /** The last node that a rehash moves: the one in the last used slot. */
  predicate IsLastUsed(info: seq<nat>, n: nat, i: nat) {
    n <= |info| && i < n && info[i] != 0 && forall j | i < j < n :: info[j] == 0
  }

  lemma {:induction false} LastUsed(info: seq<nat>, n: nat, i: nat) returns (last: nat)
    requires i < n <= |info| && info[i] != 0
    ensures i <= last && IsLastUsed(info, n, last)
    decreases n
  {
    if info[n - 1] != 0 {
      last := n - 1;
    } else {
      last := LastUsed(info, n - 1, i);
    }
  }

  /** A rehash to the layout q succeeds: all keys but the one moved last leave room for one more. */
  ghost predicate Fits<K, V>(q: Params<K>, info: seq<nat>, kv: seq<Node<K, V>>, keys: set<K>) {
    FitsUpTo(q, info, kv, keys, |kv|)
  }

  ghost predicate FitsUpTo<K, V>(q: Params<K>, info: seq<nat>, kv: seq<Node<K, V>>, keys: set<K>, n: nat) {
    forall i | 0 <= i < n && i < |kv| && IsLastUsed(info, |kv|, i) :: !Crowded(q, keys - {kv[i].key})
  }

  /** A table of at most 127 keys can always be rehashed. */
  lemma FewFit<K, V>(q: Params<K>, info: seq<nat>, kv: seq<Node<K, V>>, m: map<K, V>)
    requires |kv| <= |info| && Stores(info, kv, m) && |m| <= FULL_DISTANCE + 1
    ensures Fits(q, info, kv, m.Keys)
  {
    forall i | 0 <= i < |kv| && IsLastUsed(info, |kv|, i) ensures !Crowded(q, m.Keys - {kv[i].key}) {
      assert kv[i].key in m;
      if Crowded(q, m.Keys - {kv[i].key}) { CrowdedAreMany(q, m.Keys - {kv[i].key}); }
    }
  }

  /** Keys that are not crowded in the new layout can be rehashed to it. */
  lemma UncrowdedFit<K, V>(q: Params<K>, info: seq<nat>, kv: seq<Node<K, V>>, keys: set<K>)
    requires !Crowded(q, keys)
    ensures Fits(q, info, kv, keys)
  {
    forall i | 0 <= i < |kv| && IsLastUsed(info, |kv|, i) ensures !Crowded(q, keys - {kv[i].key}) {
      if Crowded(q, keys - {kv[i].key}) { MoreAreMoreCrowded(q, keys - {kv[i].key}, keys); }
    }
  }

  /** 128 keys that share a home in the new layout, but for the one moved last, never can. */
  lemma OthersShareAHome<K, V>(q: Params<K>, info: seq<nat>, kv: seq<Node<K, V>>, keys: set<K>, last: nat, home: nat)
    requires IsLastUsed(info, |kv|, last) && kv[last].key in keys && |keys| > FULL_DISTANCE + 1
    requires forall k | k in keys && k != kv[last].key :: Home(q, k) == home
    ensures !Fits(q, info, kv, keys)
  {
    SharedHomeCrowds(q, keys - {kv[last].key}, home);
  }

  lemma SharedHomeDoesNotFit<K, V>(q: Params<K>, info: seq<nat>, kv: seq<Node<K, V>>, m: map<K, V>, home: nat)
    requires |kv| <= |info| && Stores(info, kv, m) && |m| > FULL_DISTANCE + 1
    requires forall k | k in m :: Home(q, k) == home
    ensures !Fits(q, info, kv, m.Keys)
  {
    var k :| k in m.Keys;
    var i :| 0 <= i < |kv| && info[i] != 0 && kv[i].key == k;
    var last := LastUsed(info, |kv|, i);
    OthersShareAHome(q, info, kv, m.Keys, last, home);
  }

  /** One more node cannot be placed: so the keys do not fit. */
  lemma StuckMeansUnfit<K, V>(q: Params<K>, info: seq<nat>, kv: seq<Node<K, V>>, m: map<K, V>, i: nat,
                                    done: map<K, V>)
    requires i < |kv| <= |info| && Stores(info, kv, m) && UniqueKeys(info, kv) && CarriedOver(info, kv, m, i, done)
    requires info[i] != 0 && Crowded(q, done.Keys)
    ensures !Fits(q, info, kv, m.Keys)
  {
    var last := LastUsed(info, |kv|, i);
    assert done.Keys <= m.Keys - {kv[last].key};
    MoreAreMoreCrowded(q, done.Keys, m.Keys - {kv[last].key});
  }

  /** After slot i has been carried over, only the last used slot matters. */
  lemma CarriedFits<K, V>(q: Params<K>, info: seq<nat>, kv: seq<Node<K, V>>, m: map<K, V>, i: nat,
                                done: map<K, V>)
    requires i < |kv| <= |info| && Stores(info, kv, m) && CarriedOver(info, kv, m, i, done) && UniqueKeys(info, kv)
    requires FitsUpTo(q, info, kv, m.Keys, i) && (info[i] != 0 ==> !Crowded(q, done.Keys))
    ensures FitsUpTo(q, info, kv, m.Keys, i + 1)
  {
    if IsLastUsed(info, |kv|, i) { AllButTheLast(info, kv, m, i, done); }
  }

  lemma AllButTheLast<K, V>(info: seq<nat>, kv: seq<Node<K, V>>, m: map<K, V>, i: nat, done: map<K, V>)
    requires |kv| <= |info| && IsLastUsed(info, |kv|, i)
    requires Stores(info, kv, m) && CarriedOver(info, kv, m, i, done) && UniqueKeys(info, kv)
    ensures done.Keys == m.Keys - {kv[i].key}
  {
    forall k | k in m.Keys - {kv[i].key} ensures k in done {
      var j :| 0 <= j < |kv| && info[j] != 0 && kv[j].key == k;
    }
    forall k | k in done ensures k in m.Keys - {kv[i].key} {
      var j :| 0 <= j < i && info[j] != 0 && kv[j].key == k;
    }
  }

  /** What one attempt to carry over a used slot says about the whole rehash. */
  lemma CarriedOrStuck<K, V>(p: Params<K>, q: Params<K>, info: seq<nat>, kv: seq<Node<K, V>>, m: map<K, V>, i: nat,
                             done: map<K, V>, ok: bool)
    requires i < |kv| <= |info| && Stores(info, kv, m) && CarriedOver(info, kv, m, i, done) && UniqueKeys(info, kv)
    requires info[i] != 0 && SameHomes(p, q) && FitsUpTo(q, info, kv, m.Keys, i)
    requires ok <==> !Crowded(p, done.Keys)
    ensures ok ==> FitsUpTo(q, info, kv, m.Keys, i + 1)
    ensures !ok ==> !Fits(q, info, kv, m.Keys) && Leaves(m, done, false)
  {
    if ok {
      if Crowded(q, done.Keys) { SameHomesCrowdAlike(q, p, done.Keys); }
      CarriedFits(q, info, kv, m, i, done);
    } else {
      CrowdedAreMany(p, done.Keys);
      SameHomesCrowdAlike(p, q, done.Keys);
      StuckMeansUnfit(q, info, kv, m, i, done);
      NextIsNew(info, kv, m, i, done);
    }
  }

  // ---------------------------------------------------------------- what making room does

  /** What a rehash leaves of the bindings m: all of them exactly if it succeeds, else at least 127. */
  ghost predicate Leaves<K, V>(m: map<K, V>, left: map<K, V>, ok: bool) {
    && (ok <==> left == m)
    && left.Keys <= m.Keys && (forall k | k in left :: left[k] == m[k])
    && (!ok ==> FULL_DISTANCE < |left| < |m|)
  }

  function NextMultiplier(mult: nat): nat {
    (mult + 0xc4ceb9fe1a85ec54) % 0x1_0000_0000_0000_0000
  }

  /** The parameters of a fresh table of another size. */
  function Layout<K>(p: Params<K>, mask: nat): Params<K> {
    Params(p.hash, p.mult, INITIAL_INFO_INC, 0, mask)
  }

  /** The parameters that the next rehash of a table with num nodes uses. */
  function NextLayout<K>(p: Params<K>, num: nat): Params<K> {
    if num * 2 < CalcMaxNumElementsAllowed(p.mask + 1) then Layout(p.(mult := NextMultiplier(p.mult)), p.mask)
    else Layout(p, (p.mask + 1) * 2 - 1)
  }

  /** Room can be made without moving any node. */
  predicate GrowsInPlace<K>(p: Params<K>, num: nat) {
    p.mask == 0 || (num < CalcMaxNumElementsAllowed(p.mask + 1) && p.inc > 2)
  }

  // ---------------------------------------------------------------- what an insertion does

  datatype InsertionState = OverflowError | KeyFound | NewNode | OverwriteNode | Thrown {
    predicate Succeeded() {
      KeyFound? || NewNode? || OverwriteNode?
    }
  }

  /** A whole table at one moment. */
  datatype Snapshot<!K, V> = Snapshot(p: Params<K>, num: nat, maxAllowed: nat, info: seq<nat>, kv: seq<Node<K, V>>) {
    predicate IsFull() {
      num >= maxAllowed
    }

    ghost predicate Holds(m: map<K, V>) {
      TableOk(p, num, maxAllowed, info, kv, m)
    }
  }

  /** Making room succeeds exactly when no node has to move, or when the keys fit the next layout. */
  ghost predicate CanIncrease<K, V>(s: Snapshot<K, V>, keys: set<K>) {
    GrowsInPlace(s.p, s.num) || Fits(NextLayout(s.p, s.num), s.info, s.kv, keys)
  }

  /** A table just rehashed to the layout q has slots to spare, and is marked full only if a byte is. */
  ghost predicate RehashedTo<K, V>(q: Params<K>, s: Snapshot<K, V>) {
    && s.p.mask != 0 && SameHomes(s.p, q) && s.num < CalcMaxNumElementsAllowed(s.p.mask + 1)
    && |s.kv| <= |s.info| && Tight(s.maxAllowed, s.info, s.p.inc, |s.kv|)
  }

  ghost predicate RoomMade<K, V>(s: Snapshot<K, V>, s': Snapshot<K, V>) {
    if GrowsInPlace(s.p, s.num) then !s'.IsFull() else RehashedTo(NextLayout(s.p, s.num), s')
  }

  /** The keys leave room for a new one: now, without moving nodes, or after one rehash. */
  ghost predicate Easy<K, V>(i: nat, s: Snapshot<K, V>, keys: set<K>) {
    || !s.IsFull()
    || (i <= 1 && GrowsInPlace(s.p, s.num))
    || (i == 0 && !Crowded(NextLayout(s.p, s.num), keys))
  }

  /** No multiplier and no size spreads the keys. */
  ghost predicate AlwaysCrowded<K>(hash: (nat, K) -> nat, keys: set<K>) {
    forall mult: nat, mask: nat :: Crowded(Params(hash, mult, INITIAL_INFO_INC, 0, mask), keys)
  }

  /** The rehash that a new key needs first cannot place the keys that are there. */
  ghost predicate Doomed<K, V>(s: Snapshot<K, V>, m: map<K, V>, key: K) {
    key !in m && s.IsFull() && !CanIncrease(s, m.Keys)
  }

  /** What the table before an insertion says about its outcome. */
  ghost predicate Foretold<K, V>(s: Snapshot<K, V>, m: map<K, V>, key: K, state: InsertionState) {
    && (state.KeyFound? <==> key in m)
    && (Easy(0, s, m.Keys) ==> state.Succeeded())
    && (key !in m && AlwaysCrowded(s.p.hash, m.Keys) ==> !state.Succeeded())
    && (Doomed(s, m, key) ==> state.Thrown?)
  }

  lemma FewAreEasy<K, V>(s: Snapshot<K, V>, keys: set<K>)
    ensures |keys| <= FULL_DISTANCE ==> Easy(0, s, keys)
  {
    if Crowded(NextLayout(s.p, s.num), keys) { CrowdedAreMany(NextLayout(s.p, s.num), keys); }
  }

  /** One attempt: the key is found, a full table makes room or the error is raised, or a slot is opened. */
  ghost predicate Attempted<K, V>(s: Snapshot<K, V>, m: map<K, V>, key: K, state: InsertionState, again: bool) {
    && (again <==> key !in m && s.IsFull() && CanIncrease(s, m.Keys))
    && (!again ==> !state.OverflowError? && (state.KeyFound? <==> key in m) && (state.Thrown? <==> Doomed(s, m, key)))
  }

  /** How far an insertion has come after i attempts; first is the table before it. */
  ghost predicate Course<K, V>(first: Snapshot<K, V>, i: nat, s: Snapshot<K, V>, m: map<K, V>, key: K) {
    && s.p.hash == first.p.hash
    && (i == 0 ==> s == first)
    && (i > 0 ==> key !in m && !Doomed(first, m, key))
    && (Easy(0, first, m.Keys) ==> i <= 2 && Easy(i, s, m.Keys))
  }

  lemma EasyMeansRoom<K, V>(i: nat, s: Snapshot<K, V>, m: map<K, V>)
    requires Easy(i, s, m.Keys)
    ensures !s.IsFull() || CanIncrease(s, m.Keys)
  {
    if !Crowded(NextLayout(s.p, s.num), m.Keys) { UncrowdedFit(NextLayout(s.p, s.num), s.info, s.kv, m.Keys); }
  }

  lemma CrowdedMeansFull<K, V>(s: Snapshot<K, V>, m: map<K, V>)
    requires s.Holds(m) && AlwaysCrowded(s.p.hash, m.Keys)
    ensures s.IsFull()
  {
    var q := Params(s.p.hash, s.p.mult, INITIAL_INFO_INC, 0, s.p.mask);
    assert Crowded(q, m.Keys);
    SameHomesCrowdAlike(q, s.p, m.Keys);
    PlaceableWhenUncrowded(s.p, s.num, s.maxAllowed, s.info, s.kv, m);
  }

  /** If the next attempt is the last one, it ends as foretold; an insertion that runs out of attempts does too. */
  lemma AttemptEnds<K, V>(first: Snapshot<K, V>, i: nat, s: Snapshot<K, V>, m: map<K, V>, key: K)
    requires Course(first, i, s, m, key) && s.Holds(m)
    ensures forall state | Attempted(s, m, key, state, false) ::
      Foretold(first, m, key, state)
  {
    if Easy(0, first, m.Keys) { EasyMeansRoom(i, s, m); }
    if AlwaysCrowded(s.p.hash, m.Keys) { CrowdedMeansFull(s, m); }
  }

  /** After making room once or twice an easy key is placed. */
  lemma CourseStep<K, V>(first: Snapshot<K, V>, i: nat, s: Snapshot<K, V>, s': Snapshot<K, V>, m: map<K, V>, key: K)
    requires Course(first, i, s, m, key) && s'.Holds(m) && s'.p.hash == s.p.hash
    requires key !in m && s.IsFull() && CanIncrease(s, m.Keys) && RoomMade(s, s')
    ensures Course(first, i + 1, s', m, key)
  {
    if !GrowsInPlace(s.p, s.num) && Easy(0, first, m.Keys) {
      var q := NextLayout(s.p, s.num);
      if Crowded(s'.p, m.Keys) { SameHomesCrowdAlike(s'.p, q, m.Keys); }
      PlaceableWhenUncrowded(s'.p, s'.num, s'.maxAllowed, s'.info, s'.kv, m);
    }
  }

  // ---------------------------------------------------------------- a table that loses a binding

  /** 127 keys that share slot 0, and one that belongs to slot 500. */
  function Home0Or500(mult: nat, k: nat): nat {
    if k < 127 then 0 else 16000
  }

  function SharedParams(): Params<nat> {
    Params(Home0Or500, 1, 2, 4, 511)
  }

  function SharedByte(i: nat): nat {
    if i < 127 then 2 * (1 + i) else if i == 500 then 2 else if i == 767 then 1 else 0
  }

  function SharedBytes(): (s: seq<nat>)
    ensures |s| == 775 && forall i | 0 <= i < 775 :: s[i] == SharedByte(i)
  {
    seq<nat>(775, i requires 0 <= i < 775 => SharedByte(i))
  }

  function SharedNodes(): (s: seq<Node<nat, nat>>)
    ensures |s| == 767 && forall i | 0 <= i < 767 :: s[i] == Node(if i < 127 then i else 127, 0)
  {
    seq<Node<nat, nat>>(767, i requires 0 <= i < 767 => Node(if i < 127 then i else 127, 0))
  }

  /** The keys below n, all bound to zero. */
  lemma {:induction false} ZeroMap(n: nat) returns (m: map<nat, nat>)
    ensures |m| == n && (forall k: nat :: k in m <==> k < n) && forall k | k in m :: m[k] == 0
    decreases n
  {
    m := map[];
    if n > 0 {
      m := ZeroMap(n - 1);
      OneMore(m, n - 1, 0);
      m := m[n - 1 := 0];
    }
  }

  lemma SharedHomes(k: nat, i: nat)
    requires k < 128 && i == if k < 127 then k else 500
    ensures Home(SharedParams(), k) == (if k < 127 then 0 else 500)
    ensures InfoAt(SharedParams(), k, i) == SharedByte(i)
  {
    var p := SharedParams();
    assert Home(p, k) == (if k < 127 then 0 else 500);
    InfoAtIs(p, k, i);
    TimesIs(1 + i - Home(p, k), 2, 4);
    assert ShiftRight(0, 4) == ShiftRight(0, 3) == ShiftRight(0, 2) == ShiftRight(0, 1) == ShiftRight(0, 0) == 0;
    assert HashBits(p, k) == 0;
  }

  lemma SharedSlots()
    ensures WellFormed(SharedParams(), SharedBytes(), SharedNodes())
  {
    var p, info, kv := SharedParams(), SharedBytes(), SharedNodes();
    forall i | 0 <= i < |kv| ensures SlotOk(p, info, kv, i) {
      if i < 127 || i == 500 { SharedHomes(kv[i].key, i); }
    }
    forall i | 0 < i < |kv| ensures StepOk(info, p.inc, i) {
      assert info[i] == SharedByte(i) && info[i - 1] == SharedByte(i - 1);
    }
    assert Capacity(p.mask) == |kv|;
  }

  lemma SharedStores(info: seq<nat>, kv: seq<Node<nat, nat>>, m: map<nat, nat>)
    requires |info| == 775 && forall i | 0 <= i < 775 :: info[i] == SharedByte(i)
    requires |kv| == 767 && forall i | 0 <= i < 767 :: kv[i] == Node(if i < 127 then i else 127, 0)
    requires (forall k: nat :: k in m <==> k < 128) && forall k | k in m :: m[k] == 0
    ensures Stores(info, kv, m)
  {
    forall k | k in m ensures exists i :: 0 <= i < |kv| && info[i] != 0 && kv[i].key == k {
      var i := if k < 127 then k else 500;
      assert info[i] == SharedByte(i) && kv[i].key == k;
    }
  }

  lemma FullyMarked<K, V>(p: Params<K>, num: nat, info: seq<nat>, kv: seq<Node<K, V>>, m: map<K, V>)
    requires WellFormed(p, info, kv) && Stores(info, kv, m) && num == |m| <= CalcMaxNumElementsAllowed(p.mask + 1)
    ensures Snapshot(p, num, 0, info, kv).Holds(m)
  {
  }

  lemma DoomedWhen<K, V>(s: Snapshot<K, V>, m: map<K, V>, key: K)
    requires key !in m && s.maxAllowed == 0 && s.p.mask > 0 && s.p.inc <= 2
    requires !Fits(NextLayout(s.p, s.num), s.info, s.kv, m.Keys)
    ensures Doomed(s, m, key)
  {
  }

  lemma SharedDoNotFit(q: Params<nat>, info: seq<nat>, kv: seq<Node<nat, nat>>, m: map<nat, nat>)
    requires |info| == 775 && forall i | 0 <= i < 775 :: info[i] == SharedByte(i)
    requires |kv| == 767 && kv[500].key == 127 && |m| == 128 && 127 in m && forall k | k in m :: k < 128
    requires q.hash == Home0Or500
    ensures !Fits(q, info, kv, m.Keys)
  {
    assert IsLastUsed(info, |kv|, 500);
    assert |m| == |m.Keys|;
    forall k | k in m.Keys && k != 127 ensures Home(q, k) == 0 {
      assert q.hash(q.mult, k) == 0;
    }
    OthersShareAHome(q, info, kv, m.Keys, 500, 0);
  }

  /**
   Inserting another key into this table raises the error, whatever the key: the multiplier of the next
   rehash does not spread the 127 keys either.
   */
  lemma SomeTableIsDoomed(key: nat) returns (s: Snapshot<nat, nat>, m: map<nat, nat>)
    requires key >= 128
    ensures s.p.hash == Home0Or500 && s.Holds(m) && |m| == 128
    ensures Doomed(s, m, key)
  {
    var p, info, kv := SharedParams(), SharedBytes(), SharedNodes();
    m := ZeroMap(128);
    s := Snapshot(p, 128, 0, info, kv);
    SharedSlots();
    SharedStores(info, kv, m);
    FullyMarked(p, 128, info, kv, m);
    SharedDoNotFit(NextLayout(p, 128), info, kv, m);
    DoomedWhen(s, m, key);
  }
}
