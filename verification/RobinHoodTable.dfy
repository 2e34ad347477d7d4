/** The hash table object: arrays of info bytes and nodes, edited in place. */
module RobinHoodTable {
  import opened RobinHood
  import opened RobinHoodCrowding

  /** Eight bytes as they lie in a 64-bit word. */
  function Word(a: bv8, b: bv8, c: bv8, d: bv8, e: bv8, f: bv8, g: bv8, h: bv8): bv64 {
    a as bv64 | (b as bv64 << 8) | (c as bv64 << 16) | (d as bv64 << 24)
    | (e as bv64 << 32) | (f as bv64 << 40) | (g as bv64 << 48) | (h as bv64 << 56)
  }

  /** Shifting the word and clearing the top bit of each byte halves every byte. */
  lemma WordHalvesItsBytes(a: bv8, b: bv8, c: bv8, d: bv8, e: bv8, f: bv8, g: bv8, h: bv8)
    ensures (Word(a, b, c, d, e, f, g, h) >> 1) & 0x7f7f_7f7f_7f7f_7f7f
      == Word(a >> 1, b >> 1, c >> 1, d >> 1, e >> 1, f >> 1, g >> 1, h >> 1)
    ensures (a >> 1) as int == a as int / 2
  {
  }

  class Table<K(==,0), V(0)> {
    const hash: (nat, K) -> nat

    var mult: nat
    var mask: nat
    var num: nat
    var maxAllowed: nat
    var inc: nat
    var shift: nat
    var info: array<nat>
    var kv: array<Node<K, V>>

    /** What the table stands for. */
    ghost var Contents: map<K, V>

    function P(): Params<K>
      reads this
    {
      Params(hash, mult, inc, shift, mask)
    }

    ghost function Now(): Snapshot<K, V>
      reads this, info, kv
    {
      Snapshot(P(), num, maxAllowed, info[..], kv[..])
    }

    ghost predicate Valid()
      reads this, info, kv
    {
      TableOk(P(), num, maxAllowed, info[..], kv[..], Contents)
    }

    predicate Sized()
      reads this
    {
      MaskOk(mask)
    }

    constructor (hash: (nat, K) -> nat)
      ensures Valid() && Sized() && Contents == map[] && this.hash == hash && fresh(info) && fresh(kv)
    {
      this.hash := hash;
      mult, mask, num, maxAllowed, inc, shift := 0xc4ceb9fe1a85ec53, 0, 0, 0, INITIAL_INFO_INC, 0;
      info := new nat[8](_ => 0);
      kv := new Node<K, V>[0];
      Contents := map[];
    }

    method KeyToIdx(key: K) returns (idx: nat, byte: nat)
      requires IncOk(inc, shift)
      ensures idx == Home(P(), key) <= mask && byte == InfoAt(P(), key, idx)
    {
      var h := hash(mult, key);
      byte := inc + ShiftRight(h % 32, shift);
      idx := h / 32 % (mask + 1);
    }

    /** The slot of a key, or the end of the table. */
    method FindIdx(key: K) returns (at: nat)
      requires WellFormed(P(), info[..], kv[..])
      ensures at < kv.Length ==> info[at] != 0 && kv[at].key == key
      ensures at >= kv.Length ==> at == kv.Length && Absent(info[..], kv[..], key)
    {
      ghost var p, bytes, nodes := P(), info[..], kv[..];
      var idx, byte := KeyToIdx(key);
      while true
        invariant 0 <= idx <= kv.Length && 0 <= byte && Probing(p, bytes, nodes, key, idx, byte)
        decreases kv.Length - idx
      {
        ProbeStep(p, bytes, nodes, key, idx, byte);
        if byte == info[idx] && kv[idx].key == key { return idx; }
        idx, byte := idx + 1, byte + inc;
        ProbeStep(p, bytes, nodes, key, idx, byte);
        if byte == info[idx] && kv[idx].key == key { return idx; }
        idx, byte := idx + 1, byte + inc;
        if byte > info[idx] {
          ProbeEnds(p, bytes, nodes, key, idx, byte);
          return kv.Length;
        }
        ProbeStep(p, bytes, nodes, key, idx, byte);
      }
    }

    /** Moves the nodes of [to, from) up one slot; marks the table full when a byte cannot grow again. */
    method ShiftUp(from: nat, to: nat) returns (ghost full: nat)
      requires to < from < kv.Length <= info.Length
      requires forall j | to <= j < from :: info[j] + inc <= 0xFF
      modifies this`maxAllowed, info, kv
      ensures forall j | to < j <= from :: info[j] == old(info[j - 1]) + inc && kv[j] == old(kv[j - 1])
      ensures forall j | 0 <= j < info.Length && !(to < j <= from) :: info[j] == old(info[j])
      ensures forall j | 0 <= j < kv.Length && !(to < j <= from) :: kv[j] == old(kv[j])
      ensures maxAllowed == old(maxAllowed) || maxAllowed == 0
      ensures maxAllowed != 0 ==> forall j | to < j <= from :: info[j] + inc <= 0xFF
      ensures maxAllowed == 0 && old(maxAllowed) != 0 ==> to < full <= from && info[full] + inc > 0xFF
    {
      var idx := from;
      while idx != to
        invariant to <= idx <= from
        invariant forall j | idx < j <= from :: kv[j] == old(kv[j - 1])
        invariant forall j | 0 <= j < kv.Length && !(idx < j <= from) :: kv[j] == old(kv[j])
        invariant info[..] == old(info[..]) && maxAllowed == old(maxAllowed)
      {
        kv[idx] := kv[idx - 1];
        idx := idx - 1;
      }
      idx, full := from, from;
      while idx != to
        invariant to <= idx <= from
        invariant forall j | idx < j <= from :: info[j] == old(info[j - 1]) + inc
        invariant forall j | 0 <= j < info.Length && !(idx < j <= from) :: info[j] == old(info[j])
        invariant forall j | to < j <= from :: kv[j] == old(kv[j - 1])
        invariant forall j | 0 <= j < kv.Length && !(to < j <= from) :: kv[j] == old(kv[j])
        invariant maxAllowed == old(maxAllowed) || maxAllowed == 0
        invariant maxAllowed != 0 ==> forall j | idx < j <= from :: info[j] + inc <= 0xFF
        invariant maxAllowed == 0 && old(maxAllowed) != 0 ==> idx < full <= from && info[full] + inc > 0xFF
      {
        info[idx] := (info[idx - 1] + inc) % 0x100;
        if info[idx] + inc > 0xFF { maxAllowed, full := 0, idx; }
        idx := idx - 1;
      }
    }

    /** Empties a slot and moves the nodes after it down, up to the first that is empty or at home. */
    method ShiftDown(at: nat) returns (ghost last: nat)
      requires at < kv.Length && info.Length == kv.Length + 8 && info[kv.Length] < 2 * inc && inc > 0
      modifies info, kv
      ensures last < kv.Length
      ensures ShiftedDown(old(info[..]), info[..], at, last, inc) && NodesDown(old(kv[..]), kv[..], at, last)
    {
      ghost var bytes, nodes := info[..], kv[..];
      var idx := at;
      while info[idx + 1] >= 2 * inc
        invariant at <= idx < kv.Length
        invariant forall j | at < j <= idx :: bytes[j] >= 2 * inc
        invariant forall j | at <= j < idx :: info[j] == bytes[j + 1] - inc
        invariant forall j | at <= j < idx :: kv[j] == nodes[j + 1]
        invariant forall j | 0 <= j < info.Length && !(at <= j < idx) :: info[j] == bytes[j]
        invariant forall j | 0 <= j < kv.Length && !(at <= j < idx) :: kv[j] == nodes[j]
        decreases kv.Length - idx
      {
        assert info[idx + 1] == bytes[idx + 1] && kv[idx + 1] == nodes[idx + 1];
        info[idx] := info[idx + 1] - inc;
        kv[idx] := kv[idx + 1];
        idx := idx + 1;
      }
      info[idx] := 0;
      last := idx;
    }

    /** Erases the node in a slot. */
    method EraseAt(idx: nat)
      requires Valid() && idx < kv.Length && info[idx] != 0
      modifies this`num, this`Contents, info, kv
      ensures Valid() && old(kv[idx].key) in old(Contents)
      ensures Contents == old(Contents) - {old(kv[idx].key)}
    {
      ghost var p, n, allowed, bytes, nodes, m := P(), num, maxAllowed, info[..], kv[..], Contents;
      UsedMeansNonEmpty(bytes, nodes, m, idx);
      var last := ShiftDown(idx);
      EraseKeepsTable(p, n, allowed, bytes, nodes, m, info[..], kv[..], idx, last);
      Forget(nodes[idx].key);
    }

    /** One node fewer: the count and what the table stands for. */
    method Forget(ghost key: K)
      requires num >= 1 && TableOk(P(), num - 1, maxAllowed, info[..], kv[..], Contents - {key})
      modifies this`num, this`Contents
      ensures Valid() && Contents == old(Contents) - {key}
    {
      num := num - 1;
      Contents := Contents - {key};
    }

    /** The probe of erase, one slot at a time. */
    method FindForErase(key: K) returns (at: nat)
      requires WellFormed(P(), info[..], kv[..])
      ensures at < kv.Length ==> info[at] != 0 && kv[at].key == key
      ensures at >= kv.Length ==> at == kv.Length && Absent(info[..], kv[..], key)
    {
      ghost var p, bytes, nodes := P(), info[..], kv[..];
      var idx, byte := KeyToIdx(key);
      while true
        invariant 0 <= idx <= kv.Length && 0 <= byte && Probing(p, bytes, nodes, key, idx, byte)
        decreases kv.Length - idx
      {
        ProbeStep(p, bytes, nodes, key, idx, byte);
        if byte == info[idx] && kv[idx].key == key { return idx; }
        idx, byte := idx + 1, byte + inc;
        if byte > info[idx] {
          ProbeEnds(p, bytes, nodes, key, idx, byte);
          return kv.Length;
        }
        ProbeStep(p, bytes, nodes, key, idx, byte);
      }
    }

    /** Removes a key; 1 if it was there. */
    method Erase(key: K) returns (erased: nat)
      requires Valid()
      modifies this`num, this`Contents, info, kv
      ensures Valid()
      ensures Contents == old(Contents) - {key}
      ensures erased == if key in old(Contents) then 1 else 0
    {
      var at := FindForErase(key);
      if at == kv.Length {
        AbsentMeansUnbound(info[..], kv[..], Contents, key);
        return 0;
      }
      EraseAt(at);
      return 1;
    }

    /** A fresh, empty table with the given number of addressable slots. */
    method InitData(maxElements: nat)
      requires maxElements >= INITIAL_NUM_ELEMENTS
      modifies this
      ensures Valid() && Contents == map[] && fresh(info) && fresh(kv)
      ensures mask == maxElements - 1 && mult == old(mult)
      ensures num == 0 < maxAllowed == CalcMaxNumElementsAllowed(maxElements)
    {
      num := 0;
      mask := maxElements - 1;
      maxAllowed := CalcMaxNumElementsAllowed(maxElements);
      var withBuffer := CalcNumElementsWithBuffer(maxElements);
      kv := new Node<K, V>[withBuffer];
      info := new nat[withBuffer + 8](_ => 0);
      info[withBuffer] := 1;
      inc, shift := INITIAL_INFO_INC, 0;
      Contents := map[];
      EmptyTableOk(P(), info[..], kv[..]);
    }

    /** Halves the eight info bytes from i on; see WordHalvesItsBytes for the word operation that does it. */
    method HalveEight(i: nat)
      requires i + 8 <= info.Length
      modifies info
      ensures forall j | 0 <= j < info.Length :: info[j] == if i <= j < i + 8 then old(info[j]) / 2 else old(info[j])
    {
      var k := 0;
      while k < 8
        invariant 0 <= k <= 8
        invariant forall j | 0 <= j < info.Length ::
          info[j] == if i <= j < i + k then old(info[j]) / 2 else old(info[j])
      {
        info[i + k] := info[i + k] / 2;
        k := k + 1;
      }
    }

    method HalveAll()
      requires mask != 0 && Frame(mask, info[..], kv.Length)
      modifies info
      ensures AllHalved(old(info[..]), info[..], kv.Length)
    {
      ghost var bytes := info[..];
      var i := 0;
      while i < kv.Length
        invariant 0 <= i < kv.Length + 8
        invariant forall j | 0 <= j < info.Length :: info[j] == if j < i then bytes[j] / 2 else bytes[j]
      {
        HalveEight(i);
        i := i + 8;
      }
      info[kv.Length] := 1;  // the sentinel might have been cleared
    }

    /** Gives up one hash bit per info byte to make room for distances; false if none is left to give. */
    method TryIncreaseInfo() returns (increased: bool)
      requires Valid() && mask != 0
      modifies this`inc, this`shift, this`maxAllowed, info
      ensures Valid() && increased == (old(inc) > 2)
      ensures increased ==> maxAllowed == CalcMaxNumElementsAllowed(mask + 1)
      ensures !increased ==>
        inc == old(inc) && shift == old(shift) && maxAllowed == old(maxAllowed) && info[..] == old(info[..])
    {
      if inc <= 2 { return false; }
      ghost var p, bytes := P(), info[..];
      HalveAll();
      HalvingKeepsTable(p, num, maxAllowed, bytes, kv[..], Contents, info[..]);
      FewerBits();
      return true;
    }

    method FewerBits()
      requires TableOk(Halved(P()), num, CalcMaxNumElementsAllowed(mask + 1), info[..], kv[..], Contents)
      modifies this`inc, this`shift, this`maxAllowed
      ensures Valid() && inc == old(inc) / 2 && maxAllowed == CalcMaxNumElementsAllowed(mask + 1)
    {
      inc, shift := inc / 2, shift + 1;
      maxAllowed := CalcMaxNumElementsAllowed(mask + 1);
    }

    /** The first empty slot at or after a slot. */
    method NextEmpty(at: nat) returns (e: nat)
      requires at < kv.Length <= info.Length && exists j :: at <= j < kv.Length && info[..][j] == 0
      ensures e < kv.Length && FirstEmpty(info[..], at, e)
    {
      ghost var last :| at <= last < kv.Length && info[..][last] == 0;
      e := at;
      while info[e] != 0
        invariant at <= e <= last
        invariant forall j | at <= j < e :: info[j] != 0
        decreases last - e
      {
        e := e + 1;
      }
    }

    /** Moves the nodes between an insertion point and the next empty slot up by one, and writes the new byte. */
    method OpenSlot(at: nat, byte: nat) returns (e: nat)
      requires at < kv.Length <= info.Length && 0 < byte <= 0xFF
      requires exists j :: at <= j < kv.Length && info[..][j] == 0
      requires forall j | 0 <= j < kv.Length :: info[j] + inc <= 0xFF
      modifies this`maxAllowed, info, kv
      ensures e < kv.Length && FirstEmpty(old(info[..]), at, e)
      ensures ShiftedUp(old(info[..]), info[..], at, e, byte, inc)
      ensures NodesOpened(old(kv[..]), kv[..], at, e)
      ensures maxAllowed == old(maxAllowed) || maxAllowed == 0
      ensures maxAllowed != 0 ==> forall j | at <= j <= e :: info[j] + inc <= 0xFF
      ensures old(maxAllowed) != 0 ==> Tight(maxAllowed, info[..], inc, kv.Length)
    {
      ghost var last :| at <= last < kv.Length && info[..][last] == 0;
      if byte + inc > 0xFF { maxAllowed := 0; }
      assert info[..][last] == 0;
      e := NextEmpty(at);
      ghost var full := at;
      if e != at {
        full := ShiftUp(e, at);
        if byte + inc > 0xFF { full := at; }
      }
      info[at] := byte;
      assert maxAllowed == 0 && old(maxAllowed) != 0 ==> info[..][full] + inc > 0xFF;
    }

    /** Counts a node for which a slot has been opened. */
    method CountOne(ghost nodes: seq<Node<K, V>>, ghost m: map<K, V>)
      requires TableOk(P(), num + 1, maxAllowed, info[..], nodes, m)
      modifies this`num
      ensures TableOk(P(), num, maxAllowed, info[..], nodes, m) && kv[..] == old(kv[..])
    {
      num := num + 1;
    }

    /** The table now stands for one binding more. */
    ghost method Remember(key: K, val: V)
      requires TableOk(P(), num, maxAllowed, info[..], kv[..], Contents[key := val])
      modifies this`Contents
      ensures Valid() && Contents == old(Contents)[key := val]
    {
      Contents := Contents[key := val];
    }

    /** The insertion point of a key known to be absent. */
    method SkipForward(key: K) returns (idx: nat, byte: nat)
      requires WellFormed(P(), info[..], kv[..])
      ensures InsertionPoint(P(), info[..], key, idx) && byte == InfoAt(P(), key, idx)
    {
      ghost var p, bytes, nodes := P(), info[..], kv[..];
      idx, byte := KeyToIdx(key);
      while true
        invariant Home(p, key) <= idx <= kv.Length && 0 <= byte && byte == InfoAt(p, key, idx)
        invariant Passed(p, bytes, key, idx)
        decreases kv.Length - idx
      {
        PassStep(p, bytes, nodes, key, idx, byte);
        if byte > info[idx] { break; }
        idx := idx + 1;
        byte := byte + inc;
      }
    }

    /** Inserts a node whose key is not in the table; false when its info bytes cannot make room. */
    method InsertMove(node: Node<K, V>) returns (ok: bool)
      requires Valid() && mask != 0
      requires node.key !in Contents && |Contents| < CalcMaxNumElementsAllowed(mask + 1)
      modifies this`inc, this`shift, this`maxAllowed, this`num, this`Contents, info, kv
      ensures Valid()
      ensures Contents == if ok then old(Contents)[node.key := node.val] else old(Contents)
      ensures ok ==> Tight(maxAllowed, info[..], inc, kv.Length)
      ensures ok ==> !Crowded(old(P()), old(Contents).Keys)
      ensures !ok && old(Tight(maxAllowed, info[..], inc, kv.Length)) ==> Crowded(old(P()), old(Contents).Keys)
    {
      PlaceableWhenUncrowded(P(), num, maxAllowed, info[..], kv[..], Contents);
      if maxAllowed == 0 {
        ok := TryIncreaseInfo();
        if !ok { return; }
      }
      var idx, byte := SkipForward(node.key);
      PlaceAt(idx, byte, node);
      return true;
    }

    /** Opens the slot at an insertion point; the table is in order again once the node is stored there. */
    method OpenSlotFor(idx: nat, byte: nat, ghost node: Node<K, V>) returns (e: nat)
      requires Valid() && num < maxAllowed && Absent(info[..], kv[..], node.key)
      requires InsertionPoint(P(), info[..], node.key, idx) && byte == InfoAt(P(), node.key, idx)
      modifies this`maxAllowed, info, kv
      ensures idx <= e < kv.Length
      ensures TableOk(P(), num + 1, maxAllowed, info[..], kv[..][idx := node], Contents[node.key := node.val])
      ensures Tight(maxAllowed, info[..], inc, kv.Length)
    {
      e := OpenSlotIn(P(), num, Contents, idx, byte, node);
    }

    method OpenSlotIn(ghost p: Params<K>, ghost n: nat, ghost m: map<K, V>, idx: nat, byte: nat, ghost node: Node<K, V>)
      returns (e: nat)
      requires TableOk(p, n, maxAllowed, info[..], kv[..], m) && p.inc == inc && n < maxAllowed
      requires Absent(info[..], kv[..], node.key)
      requires InsertionPoint(p, info[..], node.key, idx) && byte == InfoAt(p, node.key, idx)
      modifies this`maxAllowed, info, kv
      ensures idx <= e < kv.Length
      ensures TableOk(p, n + 1, maxAllowed, info[..], kv[..][idx := node], m[node.key := node.val])
      ensures Tight(maxAllowed, info[..], inc, kv.Length)
    {
      ghost var allowed, bytes, nodes := maxAllowed, info[..], kv[..];
      ReadyToInsert(p, n, allowed, bytes, nodes, m, node.key, idx);
      e := OpenSlot(idx, byte);
      OpenedThenStored(p, n, allowed, bytes, nodes, m, info[..], kv[..], maxAllowed, idx, e, node);
    }

    /** Opens the slot at an insertion point and stores the node there. */
    method PlaceAt(idx: nat, byte: nat, node: Node<K, V>)
      requires Valid() && num < maxAllowed && node.key !in Contents
      requires InsertionPoint(P(), info[..], node.key, idx) && byte == InfoAt(P(), node.key, idx)
      modifies this`maxAllowed, this`num, this`Contents, info, kv
      ensures Valid() && Contents == old(Contents)[node.key := node.val]
      ensures Tight(maxAllowed, info[..], inc, kv.Length)
    {
      UnboundMeansAbsent(info[..], kv[..], Contents, node.key);
      var e := OpenSlotFor(idx, byte, node);
      ghost var nodes := kv[..];
      kv[idx] := node;
      assert kv[..] == nodes[idx := node];
      CountOne(kv[..], Contents[node.key := node.val]);
      Remember(node.key, node.val);
    }

    /** Carries slot i of an old table over, if it is used; q is the layout the table has after the rehash. */
    method CarryOver(byte: nat, node: Node<K, V>, i: nat, ghost bytes: seq<nat>, ghost nodes: seq<Node<K, V>>,
                     ghost m: map<K, V>, ghost q: Params<K>)
      returns (ok: bool)
      requires Valid() && mask != 0 && SameHomes(P(), q) && Tight(maxAllowed, info[..], inc, kv.Length)
      requires |nodes| <= |bytes| && Stores(bytes, nodes, m) && UniqueKeys(bytes, nodes)
      requires i < |nodes| && byte == bytes[i] && node == nodes[i] && CarriedOver(bytes, nodes, m, i, Contents)
      requires |m| <= CalcMaxNumElementsAllowed(mask + 1) && FitsUpTo(q, bytes, nodes, m.Keys, i)
      modifies this`inc, this`shift, this`maxAllowed, this`num, this`Contents, info, kv
      ensures Valid()
      ensures if ok then CarriedOver(bytes, nodes, m, i + 1, Contents) else Contents == old(Contents)
      ensures ok ==> FitsUpTo(q, bytes, nodes, m.Keys, i + 1) && Tight(maxAllowed, info[..], inc, kv.Length)
      ensures !ok ==> !Fits(q, bytes, nodes, m.Keys) && Leaves(m, Contents, false)
    {
      ghost var p, done := P(), Contents;
      if byte == 0 {
        CarryUnused(bytes, nodes, m, i, done);
        CarriedFits(q, bytes, nodes, m, i, done);
        return true;
      }
      NextIsNew(bytes, nodes, m, i, done);
      CarryUsed(bytes, nodes, m, i, done);
      ok := InsertMove(node);
      CarriedOrStuck(p, q, bytes, nodes, m, i, done, ok);
    }

    /**
     Moves every node into a fresh table of the given size. It succeeds exactly when the keys, but for the
     one moved last, are not crowded in the new layout. If not, the error is raised half way: what is left
     is a table in order, with at least 127 of the bindings but not all of them.
     */
    method RehashPowerOfTwo(numBuckets: nat) returns (ok: bool)
      requires Loaded(mask, num, info[..], kv[..], Contents)
      requires numBuckets >= INITIAL_NUM_ELEMENTS && |Contents| <= CalcMaxNumElementsAllowed(numBuckets)
      modifies this
      ensures Valid() && fresh(info) && fresh(kv) && mask == numBuckets - 1 && mult == old(mult)
      ensures ok <==> Fits(Layout(old(P()), numBuckets - 1), old(info[..]), old(kv[..]), old(Contents).Keys)
      ensures Leaves(old(Contents), Contents, ok)
      ensures ok ==> Tight(maxAllowed, info[..], inc, kv.Length)
    {
      var oldKeyVals, oldInfo := kv, info;
      ghost var m, bytes, nodes := Contents, info[..], kv[..];
      ghost var q := Layout(P(), numBuckets - 1);
      assert Stores(bytes, nodes, m) && UniqueKeys(bytes, nodes);
      InitData(numBuckets);
      var i := 0;
      while i < oldKeyVals.Length
        invariant 0 <= i <= oldKeyVals.Length
        invariant Valid() && mask == numBuckets - 1 && mult == old(mult) && fresh(info) && fresh(kv)
        invariant oldInfo[..] == bytes && oldKeyVals[..] == nodes
        invariant CarriedOver(bytes, nodes, m, i, Contents) && FitsUpTo(q, bytes, nodes, m.Keys, i)
        invariant Tight(maxAllowed, info[..], inc, kv.Length)
      {
        ok := CarryOver(oldInfo[i], oldKeyVals[i], i, bytes, nodes, m, q);
        if !ok { return; }
        i := i + 1;
      }
      CarriedAll(bytes, nodes, m, Contents);
      assert Leaves(m, Contents, true);
      ok := true;
    }

    method NextHashMultiplier()
      modifies this`mult
      ensures mult == NextMultiplier(old(mult))
    {
      mult := (mult + 0xc4ceb9fe1a85ec54) % 0x1_0000_0000_0000_0000;
    }

    /** Less than half full, the table keeps its size and takes another hash multiplier; else it doubles. */
    method NextSize() returns (size: nat)
      requires num <= CalcMaxNumElementsAllowed(mask + 1) && Sized() && mask != 0
      modifies this`mult
      ensures size >= INITIAL_NUM_ELEMENTS && MaskOk(size - 1) && num < CalcMaxNumElementsAllowed(size)
      ensures Layout(P(), size - 1) == NextLayout(old(P()), num)
    {
      GrownSize(mask, num);
      size := (mask + 1) * 2;
      if num * 2 < CalcMaxNumElementsAllowed(mask + 1) {
        size := mask + 1;
        NextHashMultiplier();
      }
    }

    /** Rehashes to the next layout. */
    method RehashOrGrow() returns (ok: bool)
      requires Loaded(mask, num, info[..], kv[..], Contents) && Sized() && mask != 0
      modifies this
      ensures Valid() && Sized() && fresh(info) && fresh(kv)
      ensures ok <==> Fits(NextLayout(old(P()), old(num)), old(info[..]), old(kv[..]), old(Contents).Keys)
      ensures Leaves(old(Contents), Contents, ok)
      ensures ok ==> RehashedTo(NextLayout(old(P()), old(num)), Now())
    {
      ghost var p, n, bytes, nodes := P(), num, info[..], kv[..];
      var size := NextSize();
      ghost var top := size - 1;
      ghost var q := Layout(P(), top);
      assert MaskOk(top) && q == NextLayout(p, n) && info[..] == bytes && kv[..] == nodes;
      ok := RehashPowerOfTwo(size);
      assert mask == top && SameHomes(P(), q);
    }

    /** Makes room one way or another; otherwise an error was raised half way through a rehash. */
    method IncreaseSize() returns (ok: bool)
      requires Valid() && Sized()
      modifies this, info
      ensures Valid() && Sized()
      ensures (info == old(info) || fresh(info)) && (kv == old(kv) || fresh(kv))
      ensures ok <==> CanIncrease(old(Now()), old(Contents).Keys)
      ensures Leaves(old(Contents), Contents, ok)
      ensures ok ==> RoomMade(old(Now()), Now())
    {
      if mask == 0 {
        InitData(INITIAL_NUM_ELEMENTS);
        return true;
      }
      if num < CalcMaxNumElementsAllowed(mask + 1) {
        var increased := TryIncreaseInfo();
        if increased { return true; }
      }
      ok := RehashOrGrow();
    }

    /** The probe of an insertion: the slot of the key, or else its insertion point. */
    method FindForInsert(key: K) returns (idx: nat, byte: nat, found: bool)
      requires WellFormed(P(), info[..], kv[..])
      ensures found ==> idx < kv.Length && info[idx] != 0 && kv[idx].key == key
      ensures !found ==> Absent(info[..], kv[..], key)
      ensures !found ==> InsertionPoint(P(), info[..], key, idx) && byte == InfoAt(P(), key, idx)
    {
      ghost var p, bytes, nodes := P(), info[..], kv[..];
      idx, byte := KeyToIdx(key);
      while true
        invariant 0 <= idx <= kv.Length && 0 <= byte && Probing(p, bytes, nodes, key, idx, byte)
        invariant Passed(p, bytes, key, idx)
        decreases kv.Length - idx
      {
        ProbeStep(p, bytes, nodes, key, idx, byte);
        PassStep(p, bytes, nodes, key, idx, byte);
        if byte >= info[idx] { break; }
        idx := idx + 1;
        byte := byte + inc;
      }
      while byte == info[idx]
        invariant 0 <= idx <= kv.Length && 0 <= byte && Probing(p, bytes, nodes, key, idx, byte)
        invariant Passed(p, bytes, key, idx)
        invariant bytes[idx] <= byte
        decreases kv.Length - idx
      {
        ProbeStep(p, bytes, nodes, key, idx, byte);
        PassStep(p, bytes, nodes, key, idx, byte);
        if kv[idx].key == key { return idx, byte, true; }
        idx := idx + 1;
        byte := byte + inc;
      }
      ProbeEnds(p, bytes, nodes, key, idx, byte);
      return idx, byte, false;
    }

    /** An attempt to insert: finds the key, opens a slot for it, or grows the table for another attempt. */
    method Attempt(key: K, ghost val: V) returns (idx: nat, state: InsertionState, again: bool)
      requires Valid() && Sized()
      modifies this, info, kv
      ensures Sized() && (info == old(info) || fresh(info)) && (kv == old(kv) || fresh(kv))
      ensures again ==> Valid() && Contents == old(Contents)
      ensures !again ==> !state.OverflowError? && Prepared(old(Contents), key, val, idx, state)
      ensures Attempted(old(Now()), old(Contents), key, state, again)
      ensures again ==> RoomMade(old(Now()), Now())
    {
      var found, byte;
      idx, byte, found := FindForInsert(key);
      if found { return idx, KeyFound, false; }
      AbsentMeansUnbound(info[..], kv[..], Contents, key);
      if num >= maxAllowed {
        again := IncreaseSize();
        return 0, Thrown, again;
      }
      state := Open(idx, byte, key, val);
      again := false;
    }

    method OpenAndCount(idx: nat, byte: nat, ghost node: Node<K, V>, ghost m: map<K, V>) returns (e: nat)
      requires Valid() && num < maxAllowed && Absent(info[..], kv[..], node.key) && m == Contents[node.key := node.val]
      requires InsertionPoint(P(), info[..], node.key, idx) && byte == InfoAt(P(), node.key, idx)
      modifies this`maxAllowed, this`num, info, kv
      ensures idx <= e < kv.Length && TableOk(P(), num, maxAllowed, info[..], kv[..][idx := node], m)
    {
      e := OpenSlotFor(idx, byte, node);
      CountOne(kv[..][idx := node], m);
    }

    method Open(idx: nat, byte: nat, key: K, ghost val: V) returns (state: InsertionState)
      requires Valid() && num < maxAllowed && Absent(info[..], kv[..], key)
      requires InsertionPoint(P(), info[..], key, idx) && byte == InfoAt(P(), key, idx)
      modifies this`maxAllowed, this`num, info, kv
      ensures (state.NewNode? || state.OverwriteNode?) && idx < kv.Length && key !in Contents
      ensures TableOk(P(), num, maxAllowed, info[..], kv[..][idx := Node(key, val)], Contents[key := val])
    {
      AbsentMeansUnbound(info[..], kv[..], Contents, key);
      ghost var node, m := Node(key, val), Contents[key := val];
      assert Absent(info[..], kv[..], node.key);
      var e := OpenAndCount(idx, byte, node, m);
      state := if e == idx then NewNode else OverwriteNode;
    }

    /** What each outcome of preparing an insertion leaves: m is what the table stood for before. */
    ghost predicate Prepared(m: map<K, V>, key: K, val: V, idx: nat, state: InsertionState)
      reads this, info, kv
    {
      match state
      case KeyFound =>
        Valid() && Contents == m && idx < kv.Length && idx < info.Length && info[idx] != 0 && kv[idx].key == key
      case OverflowError => Valid() && Contents == m
      case Thrown => Valid() && Leaves(m, Contents, false)
      case _ =>  // in order, with the new binding, as soon as the caller stores the node
        && idx < kv.Length && Contents == m && key !in m
        && TableOk(P(), num, maxAllowed, info[..], kv[..][idx := Node(key, val)], m[key := val])
    }

    /**
     Finds the key, or opens a slot for it; growing may take several attempts. What happens to a key that is
     not in the table depends on whether the keys in it are crowded in the next layout.
     */
    method InsertKeyPrepareEmptySpot(key: K, ghost val: V) returns (idx: nat, state: InsertionState)
      requires Valid() && Sized()
      modifies this, info, kv
      ensures Sized() && (info == old(info) || fresh(info)) && (kv == old(kv) || fresh(kv))
      ensures Prepared(old(Contents), key, val, idx, state)
      ensures Foretold(old(Now()), old(Contents), key, state)
    {
      ghost var m, first := Contents, Now();
      var i := 0;
      while i < 256
        invariant Valid() && Sized() && Contents == m
        invariant (info == old(info) || fresh(info)) && (kv == old(kv) || fresh(kv))
        invariant Course(first, i, Now(), m, key)
      {
        ghost var now := Now();
        AttemptEnds(first, i, now, m, key);
        var again;
        idx, state, again := Attempt(key, val);
        if !again { return; }
        CourseStep(first, i, now, Now(), m, key);
        i := i + 1;
      }
      return 0, OverflowError;
    }

    method Contains(key: K) returns (found: bool)
      requires Valid()
      ensures found <==> key in Contents
    {
      var at := FindIdx(key);
      found := at < kv.Length;
      if !found { AbsentMeansUnbound(info[..], kv[..], Contents, key); }
    }

    /** The value bound to a key; absent keys give the default. */
    method Find(key: K, default: V) returns (val: V)
      requires Valid()
      ensures val == if key in Contents then Contents[key] else default
    {
      var at := FindIdx(key);
      if at == kv.Length {
        AbsentMeansUnbound(info[..], kv[..], Contents, key);
        return default;
      }
      return kv[at].val;
    }

    /**
     Binds a key to a value, whether or not it was bound before. A table of at most 126 keys always takes
     one more; when the error is raised in a rehash, bindings are lost.
     */
    method InsertOrAssign(key: K, val: V) returns (state: InsertionState)
      requires Valid() && Sized()
      modifies this, info, kv
      ensures Valid() && Sized()
      ensures (info == old(info) || fresh(info)) && (kv == old(kv) || fresh(kv))
      ensures state.Succeeded() ==> Contents == old(Contents)[key := val]
      ensures state.OverflowError? ==> Contents == old(Contents)
      ensures state.Thrown? ==> Leaves(old(Contents), Contents, false)
      ensures Foretold(old(Now()), old(Contents), key, state)
      ensures |old(Contents)| <= FULL_DISTANCE ==> state.Succeeded()
    {
      FewAreEasy(Now(), Contents.Keys);
      var idx;
      idx, state := InsertKeyPrepareEmptySpot(key, val);
      if state.Succeeded() { Assign(idx, state, key, val, Contents); }
    }

    /** Stores the value in the slot that an insertion has found or opened. */
    method Assign(idx: nat, state: InsertionState, key: K, val: V, ghost m: map<K, V>)
      requires Prepared(m, key, val, idx, state) && state.Succeeded()
      modifies this`Contents, kv
      ensures Valid() && Contents == m[key := val]
    {
      if state.KeyFound? { OverwriteAt(idx, val); } else { StoreAt(idx, Node(key, val)); }
    }

    method OverwriteAt(idx: nat, val: V)
      requires Valid() && idx < kv.Length && info[idx] != 0
      modifies this`Contents, kv
      ensures Valid() && Contents == old(Contents)[old(kv[idx].key) := val]
    {
      var node := Node(kv[idx].key, val);
      OverwriteKeepsTable(P(), num, maxAllowed, info[..], kv[..], Contents, idx, val);
      StoreAt(idx, node);
    }

    method StoreAt(idx: nat, node: Node<K, V>)
      requires idx < kv.Length
      requires TableOk(P(), num, maxAllowed, info[..], kv[..][idx := node], Contents[node.key := node.val])
      modifies this`Contents, kv
      ensures Valid() && Contents == old(Contents)[node.key := node.val]
    {
      AssignSlot(P(), idx, node, Contents[node.key := node.val]);
      Remember(node.key, node.val);
    }

    method AssignSlot(ghost p: Params<K>, idx: nat, node: Node<K, V>, ghost m: map<K, V>)
      requires idx < kv.Length && TableOk(p, num, maxAllowed, info[..], kv[..][idx := node], m)
      modifies kv
      ensures TableOk(p, num, maxAllowed, info[..], kv[..], m)
    {
      ghost var nodes := kv[..];
      kv[idx] := node;
      assert kv[..] == nodes[idx := node];
    }
  }
}
