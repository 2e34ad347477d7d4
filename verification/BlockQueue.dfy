/**
 How the elements of an implicit producer travel through blocks. The producer claims entries of the block
 index in order, overwriting the oldest once its block is gone, and moves to a ring twice as large when
 the oldest block is still there. Consumers look their entries up, take elements and release blocks,
 with the rings of earlier sizes still used by those who loaded them before the growth.
 Every load, store and fetch_add on shared data is one step; the steps of all threads interleave freely.
 */
module BlockQueue {
  import opened Sums
  import opened Types
  import Tickets
  import opened BlockIndex

  type Tid = nat

  // ---------------------------------------------------------------- the machine

  /**
   One ring: index leads to entries and never changes, tail moves. History: next counts the blocks up to
   the tail, the place of block c is Position(c, off, capacity), and limit counts the blocks that had an
   entry when the ring was replaced by a larger one.
   */
  datatype Header = Header(index: seq<nat>, tail: nat, next: nat, off: int, limit: nat)

  /** The next operation of the producer, with the element it is enqueuing. */
  datatype Producer<T> =
    | Outside
    | Insert(x: T)
    | Grown(x: T)
    | Keyed(x: T, e: nat, place: nat)
    | Reserved(x: T, e: nat)
    | HasBlock(x: T, e: nat, block: nat)
    | Write(x: T)
    | Publish(x: T)

  /** The next operation of a consumer; i is the index it has claimed. */
  datatype Consumer =
    | Idle
    | LoadIndex(i: nat)
    | LoadTail(i: nat, k: nat)
    | LoadBase(i: nat, k: nat, tail: nat, next: nat)
    | Find(i: nat, k: nat, tail: nat, next: nat, base: nat)
    | LoadBlock(i: nat, e: nat)
    | Take(i: nat, e: nat, block: nat)
    | Count(i: nat, e: nat, block: nat)
    | Release(e: nat, block: nat, b: nat)
    | GiveBack(block: nat)
    | Fault

  /** History: who is responsible for a block that is not on the free list. */
  datatype Owner = Ring(b: nat) | Holder(t: Tid) | Filling

  /**
   Entries have a key and a value, the block; headers are the rings, the last one current. History: every
   element enqueued (the tail is its length), the entry and the block of each block number, the first
   block number whose entry is intact, who claimed which index, and what was taken out.
   */
  datatype State<T> = State(keys: seq<nat>, vals: seq<Option<nat>>, headers: seq<Header>,
                            mem: map<(nat, nat), T>, counts: map<nat, nat>, free: set<nat>, tailBlock: nat,
                            producer: Producer<T>, pcs: map<Tid, Consumer>, head: nat,
                            items: seq<T>, slots: seq<nat>, blocks: seq<nat>, lo: nat,
                            owner: map<nat, Owner>, claims: map<nat, Tid>, done: set<nat>, out: map<nat, T>)
  {
    function Tail(): nat { |items| }
  }

  /** Every ring is non-empty and leads to entries. */
  ghost predicate Shape<T>(s: State<T>) {
    && s.headers != [] && |s.keys| == |s.vals|
    && var h := s.headers[|s.headers| - 1];
       |h.index| > 1 && forall p | 0 <= p < |h.index| :: h.index[p] < |s.keys|
  }

  function Last(headers: seq<Header>): Header
    requires headers != []
  {
    headers[|headers| - 1]
  }

  function SetLast(headers: seq<Header>, h: Header): (r: seq<Header>)
    requires headers != []
    ensures |r| == |headers|
  {
    headers[|headers| - 1 := h]
  }

  function Back(n: nat): seq<Option<nat>> {
    seq(n, _ => None)
  }

  function Unused(n: nat): seq<nat> {
    seq(n, _ => INVALID)
  }

  /** The larger ring: the old entries from the oldest to the newest, then as many new ones. */
  function GrownRing(h: Header, entries: nat): (g: Header)
    requires |h.index| > 0
    ensures |g.index| == 2 * |h.index|
  {
    var n := |h.index|;
    Header(seq(n, i requires 0 <= i < n => h.index[(h.tail + 1 + i) % n])
           + seq(n, i requires 0 <= i < n => entries + i),
           n - 1, h.next, n - h.next, 0)
  }

  function NextPlace(h: Header): (p: nat)
    requires |h.index| > 0
    ensures p < |h.index|
  {
    (h.tail + 1) % |h.index|
  }

  /** Storing the key of a new block at the place after the tail. */
  function StoreKey<T>(s: State<T>, x: T): State<T>
    requires Shape(s)
  {
    var h := Last(s.headers);
    var e := h.index[NextPlace(h)];
    var isNew := |s.slots| == |s.blocks|;
    s.(keys := s.keys[e := Tickets.Wrap(s.Tail())],
       producer := Keyed(x, e, NextPlace(h)),
       slots := if isNew then s.slots + [e] else s.slots,
       lo := if isNew && |s.blocks| == s.lo + |h.index| then s.lo + 1 else s.lo)
  }

  function Grow<T>(s: State<T>, x: T): State<T>
    requires Shape(s)
  {
    var h := Last(s.headers);
    s.(headers := SetLast(s.headers, h.(limit := |s.slots|)) + [GrownRing(h, |s.keys|)],
       keys := s.keys + Unused(|h.index|), vals := s.vals + Back(|h.index|), producer := Grown(x))
  }

  /**
   The next operation of the producer. Outside, it starts to enqueue x; ok says whether an allocation
   succeeds, and block is what the free list hands out.
   */
  function Produce<T>(s: State<T>, x: T, ok: bool, block: nat): State<T>
    requires Shape(s)
  {
    var h := Last(s.headers);
    match s.producer
    case Outside => s.(producer := if s.Tail() % BLOCK_SIZE == 0 then Insert(x) else Write(x))
    case Insert(y) =>
      var e := h.index[NextPlace(h)];
      if s.keys[e] == INVALID || s.vals[e].None? then StoreKey(s, y)
      else if !ok then s.(producer := Outside)
      else Grow(s, y)
    case Grown(y) => StoreKey(s, y)
    case Keyed(y, e, place) =>
      s.(headers := SetLast(s.headers, h.(tail := place, next := h.next + 1)), producer := Reserved(y, e))
    case Reserved(y, e) =>
      if ok then
        s.(free := s.free - {block}, counts := s.counts[block := 0], owner := s.owner[block := Filling],
           producer := HasBlock(y, e, block))
      else
        s.(headers := SetLast(s.headers, h.(tail := (h.tail - 1) % |h.index|,
                                            next := if h.next > 0 then h.next - 1 else 0)),
           vals := if e < |s.vals| then s.vals[e := None] else s.vals, producer := Outside)
    case HasBlock(y, e, b) =>
      s.(vals := if e < |s.vals| then s.vals[e := Some(b)] else s.vals, tailBlock := b, blocks := s.blocks + [b],
         owner := s.owner[b := Ring(|s.blocks|)], producer := Write(y))
    case Write(y) =>
      s.(mem := s.mem[(s.tailBlock, s.Tail() % BLOCK_SIZE) := y], producer := Publish(y))
    case Publish(y) => s.(items := s.items + [y], producer := Outside)
  }

  function Move<T>(s: State<T>, t: Tid, pc: Consumer): State<T> {
    s.(pcs := s.pcs[t := pc])
  }

  /** set_empty: the consumer that counts the last element of a block goes on to release it. */
  function CountDown<T>(s: State<T>, t: Tid, i: nat, e: nat, block: nat): State<T> {
    var before := if block in s.counts then s.counts[block] else 0;
    var last := before == BLOCK_SIZE - 1;
    s.(counts := s.counts[block := before + 1], done := s.done + {i},
       owner := if last then s.owner[block := Holder(t)] else s.owner,
       pcs := s.pcs[t := if last then Release(e, block, i / BLOCK_SIZE) else Idle])
  }

  /** The next operation of a consumer. Claims hand out the indices below the tail in order. */
  function Consume<T>(s: State<T>, t: Tid): State<T>
    requires t in s.pcs && Shape(s)
  {
    match s.pcs[t]
    case Idle =>
      if s.head < s.Tail()
      then Move(s, t, LoadIndex(s.head)).(head := s.head + 1, claims := s.claims[s.head := t])
      else s
    case LoadIndex(i) => Move(s, t, LoadTail(i, |s.headers| - 1))
    case LoadTail(i, k) =>
      if k < |s.headers| then Move(s, t, LoadBase(i, k, s.headers[k].tail, s.headers[k].next)) else Move(s, t, Fault)
    case LoadBase(i, k, tail, next) =>
      if k < |s.headers| && tail < |s.headers[k].index| && s.headers[k].index[tail] < |s.keys|
      then Move(s, t, Find(i, k, tail, next, s.keys[s.headers[k].index[tail]]))
      else Move(s, t, Fault)
    case Find(i, k, tail, next, base) =>
      if k < |s.headers| && s.headers[k].index != []
      then Move(s, t, LoadBlock(i, s.headers[k].index[Lookup(Tickets.Wrap(i), tail, base, |s.headers[k].index|)]))
      else Move(s, t, Fault)
    case LoadBlock(i, e) =>
      if e < |s.vals| && s.vals[e].Some? then Move(s, t, Take(i, e, s.vals[e].value)) else Move(s, t, Fault)
    case Take(i, e, block) =>
      if (block, i % BLOCK_SIZE) in s.mem
      then Move(s, t, Count(i, e, block)).(out := s.out[i := s.mem[(block, i % BLOCK_SIZE)]])
      else Move(s, t, Fault)
    case Count(i, e, block) => CountDown(s, t, i, e, block)
    case Release(e, block, b) =>
      Move(s, t, GiveBack(block)).(vals := if e < |s.vals| then s.vals[e := None] else s.vals)
    case GiveBack(block) => Move(s, t, Idle).(free := s.free + {block}, owner := s.owner - {block})
    case Fault => s
  }

  /** The new_block_index call that doubles the ring has to fit its pointers into memory. */
  predicate Allocatable(capacity: nat) {
    32 * capacity < Tickets.RANGE / 2
  }

  ghost predicate ProducerStep<T>(s: State<T>, x: T, ok: bool, block: nat, s': State<T>) {
    && Shape(s) && s' == Produce(s, x, ok, block)
    && (s.producer.Insert? && ok ==> Allocatable(|Last(s.headers).index|))
    && (s.producer.Reserved? && ok ==> block in s.free)
  }

  ghost predicate ConsumerStep<T>(s: State<T>, t: Tid, s': State<T>) {
    t in s.pcs && Shape(s) && s' == Consume(s, t)
  }

  ghost predicate Next<T(!new)>(s: State<T>, s': State<T>) {
    || (exists x, ok, block :: ProducerStep(s, x, ok, block, s'))
    || (exists t :: ConsumerStep(s, t, s'))
  }

  ghost predicate Init<T>(s: State<T>) {
    && s.keys == Unused(BLOCK_SIZE) && s.vals == Back(BLOCK_SIZE)
    && s.headers == [Header(seq(BLOCK_SIZE, i => i), BLOCK_SIZE - 1, 0, 0, 0)]
    && s.producer.Outside? && (forall t | t in s.pcs :: s.pcs[t].Idle?)
    && s.head == 0 && s.items == [] && s.slots == [] && s.blocks == [] && s.lo == 0
    && s.owner == map[] && s.claims == map[] && s.done == {} && s.out == map[]
  }

  ghost predicate Follows<T(!new)>(run: seq<State<T>>, i: nat)
    requires i + 1 < |run|
  {
    Next(run[i], run[i + 1])
  }

  ghost predicate Run<T(!new)>(run: seq<State<T>>) {
    run != [] && Init(run[0]) && forall i | 0 <= i < |run| - 1 :: Follows(run, i)
  }

  // ---------------------------------------------------------------- the invariant

  /** The entry of block c carries its first index. */
  predicate SlotOk(keys: seq<nat>, slots: seq<nat>, c: nat) {
    c < |slots| && slots[c] < |keys| && keys[slots[c]] == Base(c)
  }

  /** From lo on, entries are intact and no two blocks share one; n blocks have been installed. */
  ghost predicate EntriesOk(keys: seq<nat>, vals: seq<Option<nat>>, slots: seq<nat>, lo: nat, n: nat) {
    && |keys| == |vals| && lo <= n <= |slots| <= n + 1
    && (forall c | lo <= c < |slots| :: SlotOk(keys, slots, c))
    && (forall c, d | lo <= c < d < |slots| :: slots[c] != slots[d])
    && (forall e | 0 <= e < |keys| && keys[e] == INVALID :: vals[e] == None)
    && (|slots| == n + 1 ==> slots[n] < |vals| && vals[slots[n]] == None)
  }

  predicate Placed(h: Header, slots: seq<nat>, c: nat) {
    c < |slots| && h.index != [] && h.index[Position(c, h.off, |h.index|)] == slots[c]
  }

  /** A ring finds the intact entries of the blocks below lim. */
  ghost predicate HeaderOk(h: Header, k: nat, lim: nat, slots: seq<nat>, lo: nat) {
    && 5 + k <= 58 && |h.index| == Pow2(5 + k)
    && h.next <= lim <= |slots| && lim <= lo + |h.index|
    && h.tail == Position(h.next - 1, h.off, |h.index|)
    && forall c | lo <= c < lim :: Placed(h, slots, c)
  }

  function Limit(headers: seq<Header>, k: nat, m: nat): nat
    requires k < |headers|
  {
    if k == |headers| - 1 then m else headers[k].limit
  }

  ghost predicate HeadersOk(headers: seq<Header>, slots: seq<nat>, lo: nat) {
    && headers != []
    && forall k | 0 <= k < |headers| :: HeaderOk(headers[k], k, Limit(headers, k, |slots|), slots, lo)
  }

  /** The current ring leads to a different entry from each place. */
  ghost predicate CurrentOk(h: Header, entries: nat) {
    && (forall p | 0 <= p < |h.index| :: h.index[p] < entries)
    && (forall p, q | 0 <= p < q < |h.index| :: h.index[p] != h.index[q])
  }

  ghost predicate RingOk<T>(s: State<T>) {
    && EntriesOk(s.keys, s.vals, s.slots, s.lo, |s.blocks|)
    && HeadersOk(s.headers, s.slots, s.lo) && CurrentOk(Last(s.headers), |s.keys|)
  }

  predicate AllDone(done: set<nat>, b: nat) {
    forall i | BLOCK_SIZE * b <= i < BLOCK_SIZE * (b + 1) :: i in done
  }

  function DoneIn(done: set<nat>, b: nat): set<nat> {
    set i | i in done && i / BLOCK_SIZE == b
  }

  /** A block with an element still to be taken is where its entry says, and counts what was taken. */
  ghost predicate LiveOk(vals: seq<Option<nat>>, slots: seq<nat>, lo: nat, block: nat, b: nat,
                         owner: map<nat, Owner>, counts: map<nat, nat>, done: set<nat>)
  {
    && lo <= b < |slots| && slots[b] < |vals| && vals[slots[b]] == Some(block)
    && block in owner && owner[block] == Ring(b)
    && block in counts && counts[block] == |DoneIn(done, b)|
  }

  ghost predicate BlocksOk<T>(s: State<T>) {
    && (forall b | 0 <= b < |s.blocks| && !AllDone(s.done, b) ::
          LiveOk(s.vals, s.slots, s.lo, s.blocks[b], b, s.owner, s.counts, s.done))
    && (forall x | x in s.free :: x !in s.owner)
  }

  ghost predicate ElementAt<T>(mem: map<(nat, nat), T>, blocks: seq<nat>, i: nat, x: T) {
    && i / BLOCK_SIZE < |blocks|
    && (blocks[i / BLOCK_SIZE], i % BLOCK_SIZE) in mem
    && mem[(blocks[i / BLOCK_SIZE], i % BLOCK_SIZE)] == x
  }

  ghost predicate MemOk<T>(s: State<T>) {
    && (forall i | 0 <= i < |s.items| && i !in s.done :: ElementAt(s.mem, s.blocks, i, s.items[i]))
    && (s.producer.Publish? ==> ElementAt(s.mem, s.blocks, |s.items|, s.producer.x))
  }

  /** What the producer relies on between its operations. */
  ghost predicate ProducerOk<T>(s: State<T>)
    requires Shape(s)
  {
    var n, m, h := |s.blocks|, |s.slots|, Last(s.headers);
    && (|s.items| < BLOCK_SIZE * n ==> s.tailBlock == s.blocks[n - 1])
    && (s.producer.Reserved? || s.producer.HasBlock? ==> h.next == n + 1)
    && (!s.producer.Reserved? && !s.producer.HasBlock? ==> h.next == n)
    && match s.producer
       case Outside => |s.items| <= BLOCK_SIZE * n < |s.items| + BLOCK_SIZE
       case Insert(_) => |s.items| == BLOCK_SIZE * n
       case Grown(_) => |s.items| == BLOCK_SIZE * n && m == n && s.keys[h.index[NextPlace(h)]] == INVALID
       case Keyed(_, e, place) => |s.items| == BLOCK_SIZE * n && m == n + 1 && e == s.slots[n] && place == NextPlace(h)
       case Reserved(_, e) => |s.items| == BLOCK_SIZE * n && m == n + 1 && e == s.slots[n]
       case HasBlock(_, e, x) =>
         && |s.items| == BLOCK_SIZE * n && m == n + 1 && e == s.slots[n]
         && x in s.owner && s.owner[x] == Filling && x in s.counts && s.counts[x] == 0
       case Write(_) => |s.items| < BLOCK_SIZE * n <= |s.items| + BLOCK_SIZE
       case Publish(_) => |s.items| < BLOCK_SIZE * n <= |s.items| + BLOCK_SIZE
  }

  predicate IsPending(pc: Consumer, i: nat) {
    (pc.LoadIndex? || pc.LoadTail? || pc.LoadBase? || pc.Find? || pc.LoadBlock? || pc.Take?) && pc.i == i
  }

  /** An index that was claimed and not taken out is being worked on. */
  predicate IsOpen(claims: map<nat, Tid>, pcs: map<Tid, Consumer>, i: nat) {
    i in claims && claims[i] in pcs && IsPending(pcs[claims[i]], i)
  }

  predicate HasIndex(pc: Consumer) {
    pc.LoadIndex? || pc.LoadTail? || pc.LoadBase? || pc.Find? || pc.LoadBlock? || pc.Take? || pc.Count?
  }

  /** The index a consumer works on is its own, and has not been taken by anyone. */
  ghost predicate ClaimPc<T>(pc: Consumer, t: Tid, head: nat, claims: map<nat, Tid>, done: set<nat>, out: map<nat, T>) {
    && (HasIndex(pc) ==> pc.i < head && pc.i !in done && pc.i in claims && claims[pc.i] == t)
    && (HasIndex(pc) ==> (pc.i in out <==> pc.Count?))
    && !pc.Fault?
  }

  /** What a consumer has read so far leads to the entry of its block. */
  ghost predicate PathPc(pc: Consumer, headers: seq<Header>, slots: seq<nat>, blocks: seq<nat>) {
    match pc
    case LoadTail(i, k) => k < |headers| && i / BLOCK_SIZE < headers[k].next
    case LoadBase(i, k, tail, next) => Loaded(i, k, tail, next, headers, slots)
    case Find(i, k, tail, next, base) => Loaded(i, k, tail, next, headers, slots) && base == Base(next - 1)
    case LoadBlock(i, e) => i / BLOCK_SIZE < |slots| && e == slots[i / BLOCK_SIZE]
    case Take(i, e, block) =>
      i / BLOCK_SIZE < |blocks| <= |slots| && e == slots[i / BLOCK_SIZE] && block == blocks[i / BLOCK_SIZE]
    case Count(i, e, block) =>
      i / BLOCK_SIZE < |blocks| <= |slots| && e == slots[i / BLOCK_SIZE] && block == blocks[i / BLOCK_SIZE]
    case _ => true
  }

  ghost predicate Loaded(i: nat, k: nat, tail: nat, next: nat, headers: seq<Header>, slots: seq<nat>) {
    && k < |headers| && headers[k].index != []
    && i / BLOCK_SIZE < next <= Limit(headers, k, |slots|)
    && tail == Position(next - 1, headers[k].off, |headers[k].index|)
  }

  /** A consumer that emptied a block is the only one to clear its entry and give the block back. */
  ghost predicate ReleasePc(pc: Consumer, t: Tid, owner: map<nat, Owner>, vals: seq<Option<nat>>, slots: seq<nat>,
                            n: nat, lo: nat, done: set<nat>)
  {
    && (pc.Release? ==>
          && lo <= pc.b < n <= |slots| && pc.e == slots[pc.b] && AllDone(done, pc.b)
          && pc.e < |vals| && vals[pc.e] == Some(pc.block))
    && (pc.Release? || pc.GiveBack? ==> pc.block in owner && owner[pc.block] == Holder(t))
  }

  ghost predicate ClaimsOk<T>(s: State<T>) {
    && s.head <= |s.items|
    && (forall i | i in s.done :: i in s.out)
    && (forall i | i in s.out :: i < s.head && s.out[i] == s.items[i])
    && (forall i | 0 <= i < s.head && i !in s.out :: IsOpen(s.claims, s.pcs, i))
    && (forall t | t in s.pcs :: ClaimPc(s.pcs[t], t, s.head, s.claims, s.done, s.out))
  }

  ghost predicate PathsOk<T>(s: State<T>) {
    forall t | t in s.pcs :: PathPc(s.pcs[t], s.headers, s.slots, s.blocks)
  }

  ghost predicate ReleasesOk<T>(s: State<T>) {
    forall t | t in s.pcs :: ReleasePc(s.pcs[t], t, s.owner, s.vals, s.slots, |s.blocks|, s.lo, s.done)
  }

  ghost predicate Inv<T>(s: State<T>) {
    Shape(s) && RingOk(s) && BlocksOk(s) && MemOk(s) && ProducerOk(s) && ClaimsOk(s) && PathsOk(s) && ReleasesOk(s)
  }

  lemma ShapeHolds<T>(s: State<T>)
    requires RingOk(s)
    ensures Shape(s)
  {
    var k := |s.headers| - 1;
    assert HeaderOk(s.headers[k], k, Limit(s.headers, k, |s.slots|), s.slots, s.lo);
    assert Pow2(5 + k) == 2 * Pow2(4 + k);
  }

  lemma InitIsInv<T>(s: State<T>)
    requires Init(s)
    ensures Inv(s)
  {
    assert Pow2(5) == BLOCK_SIZE;
    assert HeaderOk(s.headers[0], 0, 0, [], 0);
  }

  // ---------------------------------------------------------------- the ring

  lemma BaseIsValid(c: nat)
    ensures Base(c) != INVALID
  {
    StartOfBlock(BLOCK_SIZE * c);
  }

  lemma CurrentHeader(headers: seq<Header>, slots: seq<nat>, lo: nat)
    requires HeadersOk(headers, slots, lo)
    ensures HeaderOk(Last(headers), |headers| - 1, |slots|, slots, lo) && |Last(headers).index| > 1
    ensures NextPlace(Last(headers)) == Position(Last(headers).next, Last(headers).off, |Last(headers).index|)
  {
    var k := |headers| - 1;
    assert HeaderOk(headers[k], k, Limit(headers, k, |slots|), slots, lo);
    assert Pow2(5 + k) == 2 * Pow2(4 + k);
    NextPosition(headers[k].next - 1, headers[k].off, |headers[k].index|);
  }

  /** The place after the tail belongs to none of the blocks that keep their entries. */
  lemma NextPlaceIsApart(h: Header, slots: seq<nat>, c: nat, entries: nat)
    requires CurrentOk(h, entries) && |h.index| > 1 && Placed(h, slots, c)
    requires c < h.next < c + |h.index| && NextPlace(h) == Position(h.next, h.off, |h.index|)
    ensures slots[c] != h.index[NextPlace(h)]
  {
    PositionsDiffer(c, h.next, h.off, |h.index|);
    var p, q := Position(c, h.off, |h.index|), NextPlace(h);
    assert p < q || q < p;
  }

  /** An old ring is not affected by a new block, nor by losing the oldest one. */
  lemma HeaderKeeps(h: Header, k: nat, lim: nat, slots: seq<nat>, lo: nat, e: nat, lo': nat)
    requires HeaderOk(h, k, lim, slots, lo) && lo <= lo'
    ensures HeaderOk(h, k, lim, slots + [e], lo') && HeaderOk(h, k, lim, slots, lo')
  {
    forall c | lo' <= c < lim ensures Placed(h, slots + [e], c) && Placed(h, slots, c) {
      assert Placed(h, slots, c);
    }
  }

  lemma HeadersTakeSlot(headers: seq<Header>, slots: seq<nat>, lo: nat, e: nat, lo': nat)
    requires HeadersOk(headers, slots, lo) && lo <= lo'
    requires var h := Last(headers);
      && h.next == |slots| && h.index != [] && e == h.index[Position(h.next, h.off, |h.index|)]
      && |slots| + 1 <= lo' + |h.index|
    ensures HeadersOk(headers, slots + [e], lo')
  {
    forall k | 0 <= k < |headers|
      ensures HeaderOk(headers[k], k, Limit(headers, k, |slots| + 1), slots + [e], lo')
    {
      assert HeaderOk(headers[k], k, Limit(headers, k, |slots|), slots, lo);
      HeaderKeeps(headers[k], k, Limit(headers, k, |slots|), slots, lo, e, lo');
      assert k == |headers| - 1 ==> Placed(headers[k], slots + [e], |slots|);
    }
  }

  lemma EntriesTakeSlot(keys: seq<nat>, vals: seq<Option<nat>>, slots: seq<nat>, lo: nat, n: nat, e: nat, lo': nat)
    requires EntriesOk(keys, vals, slots, lo, n) && |slots| == n && lo <= lo' <= n
    requires e < |keys| && vals[e] == None && forall c | lo' <= c < n :: slots[c] != e
    ensures EntriesOk(keys[e := Base(n)], vals, slots + [e], lo', n)
  {
    BaseIsValid(n);
    var keys', slots' := keys[e := Base(n)], slots + [e];
    forall c | lo' <= c < n + 1 ensures SlotOk(keys', slots', c) {
      assert c < n ==> SlotOk(keys, slots, c);
    }
  }

  /** A free entry after the tail becomes the entry of the next block. */
  lemma StoreNewKey<T>(s: State<T>, y: T)
    requires Shape(s) && RingOk(s) && |s.slots| == |s.blocks| && Last(s.headers).next == |s.blocks|
    requires |s.items| == BLOCK_SIZE * |s.blocks|
    requires s.vals[Last(s.headers).index[NextPlace(Last(s.headers))]] == None
    ensures RingOk(StoreKey(s, y))
    ensures var h := Last(s.headers);
      && StoreKey(s, y).slots == s.slots + [h.index[NextPlace(h)]]
      && (StoreKey(s, y).lo == s.lo
          || (StoreKey(s, y).lo == s.lo + 1 && s.lo < |s.slots| && s.slots[s.lo] == h.index[NextPlace(h)]))
  {
    var h, n := Last(s.headers), |s.blocks|;
    var e := h.index[NextPlace(h)];
    var lo' := StoreKey(s, y).lo;
    CurrentHeader(s.headers, s.slots, s.lo);
    forall c | lo' <= c < n ensures s.slots[c] != e {
      assert Placed(h, s.slots, c);
      NextPlaceIsApart(h, s.slots, c, |s.keys|);
    }
    if lo' == s.lo + 1 {
      assert Placed(h, s.slots, s.lo);
      ModShift(s.lo + h.off, |h.index|, 1);
    }
    EntriesTakeSlot(s.keys, s.vals, s.slots, s.lo, n, e, lo');
    HeadersTakeSlot(s.headers, s.slots, s.lo, e, lo');
  }

  /** After a failed attempt the entry is still reserved, and storing its key changes nothing. */
  lemma StoreKeyAgain<T>(s: State<T>, y: T)
    requires Shape(s) && RingOk(s) && |s.slots| == |s.blocks| + 1 && Last(s.headers).next == |s.blocks|
    requires |s.items| == BLOCK_SIZE * |s.blocks|
    ensures var h := Last(s.headers); h.index[NextPlace(h)] == s.slots[|s.blocks|]
    ensures s.vals[s.slots[|s.blocks|]] == None
    ensures StoreKey(s, y) == s.(producer := Keyed(y, s.slots[|s.blocks|], NextPlace(Last(s.headers))))
  {
    var h, n := Last(s.headers), |s.blocks|;
    CurrentHeader(s.headers, s.slots, s.lo);
    assert Placed(h, s.slots, n);
    assert SlotOk(s.keys, s.slots, n);
    assert s.keys[s.slots[n] := Base(n)] == s.keys;
  }

  // ---------------------------------------------------------------- growth

  lemma OldPlace(c: nat, off: int, next: nat, cap: nat)
    requires cap > 0
    ensures (Position(next - 1, off, cap) + 1 + (c + cap - next)) % cap == Position(c, off, cap)
  {
    var x := next - 1 + off;
    var q := x / cap;
    DivMod(x, cap);
    assert Position(next - 1, off, cap) + 1 + (c + cap - next) == (c + off) + cap - q * cap;
    Distribute(1, q, cap);
    ModShift(c + off, cap, 1 - q);
  }

  lemma GrownPlaces(h: Header, entries: nat, c: nat, slots: seq<nat>)
    requires |h.index| > 0 && Placed(h, slots, c) && c < h.next <= c + |h.index|
    requires h.tail == Position(h.next - 1, h.off, |h.index|)
    ensures Placed(GrownRing(h, entries), slots, c)
  {
    var cap, g := |h.index|, GrownRing(h, entries);
    var p := c + cap - h.next;
    OldPlace(c, h.off, h.next, cap);
    assert g.index[p] == h.index[(h.tail + 1 + p) % cap];
    NewPlace(c, cap, h.next);
  }

  lemma NewPlace(c: nat, cap: nat, next: nat)
    requires c < next <= c + cap
    ensures Position(c, cap - next, 2 * cap) == c + cap - next
  {
  }

  lemma GrownIsInjective(h: Header, entries: nat)
    requires CurrentOk(h, entries) && |h.index| > 0
    ensures CurrentOk(GrownRing(h, entries), entries + |h.index|)
  {
    var cap, g := |h.index|, GrownRing(h, entries);
    forall p, q | 0 <= p < q < |g.index| ensures g.index[p] != g.index[q] {
      if q < cap {
        PositionsDiffer(p, q, h.tail + 1, cap);
        var a, b := (h.tail + 1 + p) % cap, (h.tail + 1 + q) % cap;
        assert a < b || b < a;
      }
    }
  }

  lemma GrownTail(h: Header, entries: nat)
    requires |h.index| > 0
    ensures var g := GrownRing(h, entries); g.tail == Position(g.next - 1, g.off, |g.index|)
  {
  }

  lemma GrowKeepsHeaders(headers: seq<Header>, slots: seq<nat>, lo: nat, entries: nat)
    requires HeadersOk(headers, slots, lo) && Last(headers).next == |slots| && |headers| + 5 <= 58
    ensures HeadersOk(SetLast(headers, Last(headers).(limit := |slots|)) + [GrownRing(Last(headers), entries)],
                      slots, lo)
  {
    var h := Last(headers);
    CurrentHeader(headers, slots, lo);
    var g := GrownRing(h, entries);
    var headers' := SetLast(headers, h.(limit := |slots|)) + [g];
    forall k | 0 <= k < |headers'|
      ensures HeaderOk(headers'[k], k, Limit(headers', k, |slots|), slots, lo)
    {
      if k < |headers| {
        assert HeaderOk(headers[k], k, Limit(headers, k, |slots|), slots, lo);
        HeaderIgnoresLimit(headers[k], k, Limit(headers, k, |slots|), slots, lo, headers'[k].limit);
      } else {
        forall c | lo <= c < |slots| ensures Placed(g, slots, c) {
          assert Placed(h, slots, c);
          GrownPlaces(h, entries, c, slots);
        }
        GrownTail(h, entries);
      }
    }
  }

  lemma HeaderIgnoresLimit(h: Header, k: nat, lim: nat, slots: seq<nat>, lo: nat, limit: nat)
    requires HeaderOk(h, k, lim, slots, lo)
    ensures HeaderOk(h.(limit := limit), k, lim, slots, lo)
  {
    forall c | lo <= c < lim ensures Placed(h.(limit := limit), slots, c) {
      assert Placed(h, slots, c);
    }
  }

  lemma TopLevel()
    ensures !Allocatable(Pow2(58))
  {
    PowSplit(58, 5);
    assert Pow2(5) == 32;
    CapacityDividesRange(63);
    assert Pow2(1) == 2;
  }

  lemma GrowKeepsEntries(keys: seq<nat>, vals: seq<Option<nat>>, slots: seq<nat>, lo: nat, n: nat, cap: nat)
    requires EntriesOk(keys, vals, slots, lo, n)
    ensures EntriesOk(keys + Unused(cap), vals + Back(cap), slots, lo, n)
  {
    forall c | lo <= c < |slots| ensures SlotOk(keys + Unused(cap), slots, c) {
      assert SlotOk(keys, slots, c);
    }
  }

  /** Growth leaves an unused entry after the tail. */
  lemma GrownHasRoom(h: Header, keys: seq<nat>)
    requires |h.index| > 0
    ensures var g := GrownRing(h, |keys|);
      && NextPlace(g) == |h.index| && g.index[|h.index|] == |keys|
      && (keys + Unused(|h.index|))[|keys|] == INVALID
  {
  }

  /** Growth keeps every ring. */
  lemma GrowKeepsRing<T>(s: State<T>, y: T)
    requires Shape(s) && RingOk(s) && Last(s.headers).next == |s.slots| && Allocatable(|Last(s.headers).index|)
    ensures RingOk(Grow(s, y))
  {
    var h := Last(s.headers);
    CurrentHeader(s.headers, s.slots, s.lo);
    TopLevel();
    GrowKeepsEntries(s.keys, s.vals, s.slots, s.lo, |s.blocks|, |h.index|);
    GrowKeepsHeaders(s.headers, s.slots, s.lo, |s.keys|);
    GrownIsInjective(h, |s.keys|);
    assert Last(Grow(s, y).headers) == GrownRing(h, |s.keys|);
  }

  // ---------------------------------------------------------------- moving the tail

  lemma MoveTailKeepsHeaders(headers: seq<Header>, slots: seq<nat>, lo: nat, tail: nat, next: nat)
    requires HeadersOk(headers, slots, lo) && next <= |slots|
    requires tail == Position(next - 1, Last(headers).off, |Last(headers).index|)
    ensures HeadersOk(SetLast(headers, Last(headers).(tail := tail, next := next)), slots, lo)
  {
    var h := Last(headers);
    var headers' := SetLast(headers, h.(tail := tail, next := next));
    forall k | 0 <= k < |headers'|
      ensures HeaderOk(headers'[k], k, Limit(headers', k, |slots|), slots, lo)
    {
      assert HeaderOk(headers[k], k, Limit(headers, k, |slots|), slots, lo);
      if k == |headers| - 1 {
        forall c | lo <= c < |slots| ensures Placed(headers'[k], slots, c) {
          assert Placed(h, slots, c);
        }
      }
    }
  }

  lemma ClearValueKeepsEntries(keys: seq<nat>, vals: seq<Option<nat>>, slots: seq<nat>, lo: nat, n: nat, e: nat)
    requires EntriesOk(keys, vals, slots, lo, n) && e < |vals|
    ensures EntriesOk(keys, vals[e := None], slots, lo, n)
  {
  }

  lemma InstallKeepsEntries(keys: seq<nat>, vals: seq<Option<nat>>, slots: seq<nat>, lo: nat, n: nat, block: nat)
    requires EntriesOk(keys, vals, slots, lo, n) && |slots| == n + 1
    ensures EntriesOk(keys, vals[slots[n] := Some(block)], slots, lo, n + 1)
  {
    assert SlotOk(keys, slots, n);
    BaseIsValid(n);
  }

  // ---------------------------------------------------------------- steps of the producer

  /** A free entry is free whether it was never used or has lost its block. */
  lemma FreeEntry<T>(s: State<T>)
    requires Shape(s) && RingOk(s)
    ensures var e := Last(s.headers).index[NextPlace(Last(s.headers))];
      s.keys[e] == INVALID ==> s.vals[e] == None
  {
  }

  lemma PathTakesSlot(pc: Consumer, headers: seq<Header>, slots: seq<nat>, blocks: seq<nat>, e: nat)
    requires PathPc(pc, headers, slots, blocks)
    ensures PathPc(pc, headers, slots + [e], blocks)
  {
  }

  lemma BlocksTakeSlot<T>(s: State<T>, slots: seq<nat>, lo: nat)
    requires BlocksOk(s) && s.slots <= slots
    requires lo == s.lo || (lo == s.lo + 1 && s.lo < |s.slots|
                            && s.slots[s.lo] < |s.vals| && s.vals[s.slots[s.lo]] == None)
    ensures forall b | 0 <= b < |s.blocks| && !AllDone(s.done, b) ::
      LiveOk(s.vals, slots, lo, s.blocks[b], b, s.owner, s.counts, s.done)
  {
    forall b | 0 <= b < |s.blocks| && !AllDone(s.done, b)
      ensures LiveOk(s.vals, slots, lo, s.blocks[b], b, s.owner, s.counts, s.done)
    {
      assert LiveOk(s.vals, s.slots, s.lo, s.blocks[b], b, s.owner, s.counts, s.done);
    }
  }

  lemma ReleaseTakesSlot(pc: Consumer, t: Tid, owner: map<nat, Owner>, vals: seq<Option<nat>>, slots: seq<nat>,
                         n: nat, lo: nat, done: set<nat>, slots': seq<nat>, lo': nat)
    requires ReleasePc(pc, t, owner, vals, slots, n, lo, done) && slots <= slots'
    requires lo' == lo || (lo' == lo + 1 && lo < |slots| && slots[lo] < |vals| && vals[slots[lo]] == None)
    ensures ReleasePc(pc, t, owner, vals, slots', n, lo', done)
  {
  }

  lemma StoreKeyKeepsInv<T>(s: State<T>, y: T)
    requires Inv(s) && |s.items| == BLOCK_SIZE * |s.blocks| && Last(s.headers).next == |s.blocks|
    requires s.producer.Insert? || s.producer.Grown?
    requires s.vals[Last(s.headers).index[NextPlace(Last(s.headers))]] == None
    ensures Inv(StoreKey(s, y))
  {
    var s', h := StoreKey(s, y), Last(s.headers);
    if |s.slots| == |s.blocks| {
      StoreNewKey(s, y);
      ShapeHolds(s');
      BlocksTakeSlot(s, s'.slots, s'.lo);
      forall t | t in s.pcs ensures PathPc(s.pcs[t], s.headers, s'.slots, s.blocks) {
        PathTakesSlot(s.pcs[t], s.headers, s.slots, s.blocks, h.index[NextPlace(h)]);
      }
      forall t | t in s.pcs
        ensures ReleasePc(s.pcs[t], t, s.owner, s.vals, s'.slots, |s.blocks|, s'.lo, s.done)
      {
        ReleaseTakesSlot(s.pcs[t], t, s.owner, s.vals, s.slots, |s.blocks|, s.lo, s.done, s'.slots, s'.lo);
      }
    } else {
      StoreKeyAgain(s, y);
    }
  }

  lemma PathGrows(pc: Consumer, headers: seq<Header>, slots: seq<nat>, blocks: seq<nat>, g: Header)
    requires headers != [] && PathPc(pc, headers, slots, blocks)
    ensures PathPc(pc, SetLast(headers, Last(headers).(limit := |slots|)) + [g], slots, blocks)
  {
  }

  lemma BlocksGrow<T>(s: State<T>, more: seq<Option<nat>>)
    requires BlocksOk(s)
    ensures forall b | 0 <= b < |s.blocks| && !AllDone(s.done, b) ::
      LiveOk(s.vals + more, s.slots, s.lo, s.blocks[b], b, s.owner, s.counts, s.done)
  {
    forall b | 0 <= b < |s.blocks| && !AllDone(s.done, b)
      ensures LiveOk(s.vals + more, s.slots, s.lo, s.blocks[b], b, s.owner, s.counts, s.done)
    {
      assert LiveOk(s.vals, s.slots, s.lo, s.blocks[b], b, s.owner, s.counts, s.done);
    }
  }

  lemma GrowKeepsInv<T>(s: State<T>, y: T)
    requires Inv(s) && s.producer.Insert? && |s.slots| == |s.blocks| && Allocatable(|Last(s.headers).index|)
    ensures Inv(Grow(s, y))
  {
    var s', h := Grow(s, y), Last(s.headers);
    GrowKeepsRing(s, y);
    ShapeHolds(s');
    GrownHasRoom(h, s.keys);
    BlocksGrow(s, Back(|h.index|));
    forall t | t in s.pcs ensures PathPc(s.pcs[t], s'.headers, s.slots, s.blocks) {
      PathGrows(s.pcs[t], s.headers, s.slots, s.blocks, GrownRing(h, |s.keys|));
    }
    forall t | t in s.pcs
      ensures ReleasePc(s.pcs[t], t, s.owner, s'.vals, s.slots, |s.blocks|, s.lo, s.done)
    {
      assert ReleasePc(s.pcs[t], t, s.owner, s.vals, s.slots, |s.blocks|, s.lo, s.done);
    }
  }

  /** The entry has no room only when it is the oldest one, and in use. */
  lemma FullMeansNoneReserved<T>(s: State<T>)
    requires Inv(s) && s.producer.Insert?
    requires s.vals[Last(s.headers).index[NextPlace(Last(s.headers))]] != None
    ensures |s.slots| == |s.blocks|
  {
    if |s.slots| == |s.blocks| + 1 {
      StoreKeyAgain(s, s.producer.x);
    }
  }

  lemma PathMovesTail(pc: Consumer, headers: seq<Header>, slots: seq<nat>, blocks: seq<nat>, tail: nat, next: nat)
    requires headers != [] && PathPc(pc, headers, slots, blocks)
    requires pc.LoadTail? ==> pc.i / BLOCK_SIZE < next
    ensures PathPc(pc, SetLast(headers, Last(headers).(tail := tail, next := next)), slots, blocks)
  {
  }

  lemma KeyedKeepsInv<T>(s: State<T>, x: T, ok: bool, block: nat)
    requires Inv(s) && s.producer.Keyed?
    ensures Inv(Produce(s, x, ok, block))
  {
    var h, n := Last(s.headers), |s.blocks|;
    var s' := Produce(s, x, ok, block);
    CurrentHeader(s.headers, s.slots, s.lo);
    MoveTailKeepsHeaders(s.headers, s.slots, s.lo, s.producer.place, n + 1);
    ShapeHolds(s');
    forall t | t in s.pcs ensures PathPc(s.pcs[t], s'.headers, s.slots, s.blocks) {
      assert ClaimPc(s.pcs[t], t, s.head, s.claims, s.done, s.out);
      PathMovesTail(s.pcs[t], s.headers, s.slots, s.blocks, s.producer.place, n + 1);
    }
  }

  lemma RequisitionKeepsInv<T>(s: State<T>, x: T, block: nat)
    requires Inv(s) && s.producer.Reserved? && block in s.free
    ensures Inv(Produce(s, x, true, block))
  {
    var s' := Produce(s, x, true, block);
    forall b | 0 <= b < |s.blocks| && !AllDone(s.done, b)
      ensures LiveOk(s.vals, s.slots, s.lo, s.blocks[b], b, s'.owner, s'.counts, s.done)
    {
      assert LiveOk(s.vals, s.slots, s.lo, s.blocks[b], b, s.owner, s.counts, s.done);
    }
    forall t | t in s.pcs
      ensures ReleasePc(s.pcs[t], t, s'.owner, s.vals, s.slots, |s.blocks|, s.lo, s.done)
    {
      assert ReleasePc(s.pcs[t], t, s.owner, s.vals, s.slots, |s.blocks|, s.lo, s.done);
    }
  }

  lemma ReleaseKeepsOther(pc: Consumer, t: Tid, owner: map<nat, Owner>, vals: seq<Option<nat>>, slots: seq<nat>,
                          n: nat, lo: nat, done: set<nat>, e: nat, v: Option<nat>)
    requires ReleasePc(pc, t, owner, vals, slots, n, lo, done) && e < |vals|
    requires pc.Release? ==> pc.e != e
    ensures ReleasePc(pc, t, owner, vals[e := v], slots, n, lo, done)
  {
  }

  /** No block could be had: the tail goes back, the entry stays reserved. */
  lemma RewindKeepsInv<T>(s: State<T>, x: T, block: nat)
    requires Inv(s) && s.producer.Reserved?
    ensures Inv(Produce(s, x, false, block))
  {
    var h, n, e := Last(s.headers), |s.blocks|, s.producer.e;
    var s' := Produce(s, x, false, block);
    CurrentHeader(s.headers, s.slots, s.lo);
    NextPosition(n, h.off, |h.index|);
    MoveTailKeepsHeaders(s.headers, s.slots, s.lo, (h.tail - 1) % |h.index|, n);
    ClearValueKeepsEntries(s.keys, s.vals, s.slots, s.lo, n, e);
    ShapeHolds(s');
    forall b | 0 <= b < n && !AllDone(s.done, b)
      ensures LiveOk(s'.vals, s.slots, s.lo, s.blocks[b], b, s.owner, s.counts, s.done)
    {
      assert LiveOk(s.vals, s.slots, s.lo, s.blocks[b], b, s.owner, s.counts, s.done);
    }
    forall t | t in s.pcs
      ensures PathPc(s.pcs[t], s'.headers, s.slots, s.blocks)
      ensures ReleasePc(s.pcs[t], t, s.owner, s'.vals, s.slots, n, s.lo, s.done)
    {
      assert ClaimPc(s.pcs[t], t, s.head, s.claims, s.done, s.out);
      assert ReleasePc(s.pcs[t], t, s.owner, s.vals, s.slots, n, s.lo, s.done);
      PathMovesTail(s.pcs[t], s.headers, s.slots, s.blocks, (h.tail - 1) % |h.index|, n);
      ReleaseKeepsOther(s.pcs[t], t, s.owner, s.vals, s.slots, n, s.lo, s.done, e, None);
    }
  }

  lemma NothingDoneYet(done: set<nat>, b: nat)
    requires forall i | i in done :: i < BLOCK_SIZE * b
    ensures !AllDone(done, b) && DoneIn(done, b) == {}
  {
    assert BLOCK_SIZE * b !in done;
  }

  lemma InstallKeepsInv<T>(s: State<T>, x: T, ok: bool, block: nat)
    requires Inv(s) && s.producer.HasBlock?
    ensures Inv(Produce(s, x, ok, block))
  {
    var n, e, b' := |s.blocks|, s.producer.e, s.producer.block;
    var s' := Produce(s, x, ok, block);
    InstallKeepsEntries(s.keys, s.vals, s.slots, s.lo, n, b');
    ShapeHolds(s');
    NothingDoneYet(s.done, n);
    InstallKeepsLive(s, x, ok, block);
    forall i | 0 <= i < |s.items| && i !in s.done ensures ElementAt(s.mem, s'.blocks, i, s.items[i]) {
      assert ElementAt(s.mem, s.blocks, i, s.items[i]);
    }
    InstallKeepsPcs(s, x, ok, block);
  }

  lemma InstallKeepsLive<T>(s: State<T>, x: T, ok: bool, block: nat)
    requires Inv(s) && s.producer.HasBlock?
    ensures var s' := Produce(s, x, ok, block);
      forall b | 0 <= b < |s'.blocks| && !AllDone(s.done, b) ::
        LiveOk(s'.vals, s.slots, s.lo, s'.blocks[b], b, s'.owner, s.counts, s.done)
  {
    var n, s' := |s.blocks|, Produce(s, x, ok, block);
    NothingDoneYet(s.done, n);
    forall b | 0 <= b < n + 1 && !AllDone(s.done, b)
      ensures LiveOk(s'.vals, s.slots, s.lo, s'.blocks[b], b, s'.owner, s.counts, s.done)
    {
      assert b < n ==> LiveOk(s.vals, s.slots, s.lo, s.blocks[b], b, s.owner, s.counts, s.done);
    }
  }

  lemma InstallKeepsPcs<T>(s: State<T>, x: T, ok: bool, block: nat)
    requires Inv(s) && s.producer.HasBlock?
    ensures var s', n := Produce(s, x, ok, block), |s.blocks|;
      forall t | t in s.pcs ::
        ReleasePc(s.pcs[t], t, s'.owner, s'.vals, s.slots, n + 1, s.lo, s.done)
        && PathPc(s.pcs[t], s.headers, s.slots, s'.blocks)
  {
    var n, e, b' := |s.blocks|, s.producer.e, s.producer.block;
    var s' := Produce(s, x, ok, block);
    forall t | t in s.pcs
      ensures ReleasePc(s.pcs[t], t, s'.owner, s'.vals, s.slots, n + 1, s.lo, s.done)
      ensures PathPc(s.pcs[t], s.headers, s.slots, s'.blocks)
    {
      assert ReleasePc(s.pcs[t], t, s.owner, s.vals, s.slots, n, s.lo, s.done);
      ReleaseKeepsOther(s.pcs[t], t, s.owner, s.vals, s.slots, n, s.lo, s.done, e, Some(b'));
      assert PathPc(s.pcs[t], s.headers, s.slots, s.blocks);
    }
  }

  /** The block being filled still has an element to be taken, so no other block has its memory. */
  lemma TailBlockIsLive<T>(s: State<T>, b: nat)
    requires BlocksOk(s) && |s.items| < BLOCK_SIZE * |s.blocks| <= |s.items| + BLOCK_SIZE
    requires (forall i | i in s.done :: i < |s.items|) && b < |s.blocks| && !AllDone(s.done, b)
    requires s.blocks[b] == s.blocks[|s.blocks| - 1]
    ensures b == |s.blocks| - 1
  {
    assert |s.items| !in s.done;
    assert !AllDone(s.done, |s.blocks| - 1);
    assert LiveOk(s.vals, s.slots, s.lo, s.blocks[b], b, s.owner, s.counts, s.done);
    assert LiveOk(s.vals, s.slots, s.lo, s.blocks[|s.blocks| - 1], |s.blocks| - 1, s.owner, s.counts, s.done);
  }

  lemma WriteKeepsInv<T>(s: State<T>, x: T, ok: bool, block: nat)
    requires Inv(s) && s.producer.Write?
    ensures Inv(Produce(s, x, ok, block))
  {
    var s', n := Produce(s, x, ok, block), |s.blocks|;
    assert |s.items| / BLOCK_SIZE == n - 1;
    forall i | 0 <= i < |s.items| && i !in s.done ensures ElementAt(s'.mem, s.blocks, i, s.items[i]) {
      assert ElementAt(s.mem, s.blocks, i, s.items[i]);
      if s.blocks[i / BLOCK_SIZE] == s.tailBlock {
        assert !AllDone(s.done, i / BLOCK_SIZE);
        TailBlockIsLive(s, i / BLOCK_SIZE);
      }
    }
  }

  lemma PublishKeepsInv<T>(s: State<T>, x: T, ok: bool, block: nat)
    requires Inv(s) && s.producer.Publish?
    ensures Inv(Produce(s, x, ok, block))
  {
    var s' := Produce(s, x, ok, block);
    forall i | 0 <= i < |s'.items| && i !in s.done ensures ElementAt(s.mem, s.blocks, i, s'.items[i]) {
      assert i < |s.items| ==> ElementAt(s.mem, s.blocks, i, s.items[i]);
    }
  }

  lemma TailInBlock(tail: nat, n: nat)
    requires tail <= BLOCK_SIZE * n < tail + BLOCK_SIZE
    ensures tail % BLOCK_SIZE == 0 <==> tail == BLOCK_SIZE * n
  {
  }

  lemma StartKeepsInv<T>(s: State<T>, x: T, ok: bool, block: nat)
    requires Inv(s) && s.producer.Outside?
    ensures Inv(Produce(s, x, ok, block))
  {
    TailInBlock(|s.items|, |s.blocks|);
    var s' := s.(producer := Produce(s, x, ok, block).producer);
    assert ProducerOk(s');
  }

  lemma GiveUpKeepsInv<T>(s: State<T>)
    requires Inv(s) && s.producer.Insert?
    ensures Inv(s.(producer := Outside))
  {
  }

  lemma InsertKeepsInv<T>(s: State<T>, x: T, ok: bool, block: nat)
    requires Inv(s) && s.producer.Insert? && (ok ==> Allocatable(|Last(s.headers).index|))
    ensures Inv(Produce(s, x, ok, block))
  {
    var e := Last(s.headers).index[NextPlace(Last(s.headers))];
    FreeEntry(s);
    if s.vals[e] == None {
      StoreKeyKeepsInv(s, s.producer.x);
    } else if ok {
      FullMeansNoneReserved(s);
      GrowKeepsInv(s, s.producer.x);
    } else {
      GiveUpKeepsInv(s);
    }
  }

  lemma GrownKeepsInv<T>(s: State<T>, x: T, ok: bool, block: nat)
    requires Inv(s) && s.producer.Grown?
    ensures Inv(Produce(s, x, ok, block))
  {
    FreeEntry(s);
    StoreKeyKeepsInv(s, s.producer.x);
  }

  lemma InsertingKeepsInv<T>(s: State<T>, x: T, ok: bool, block: nat)
    requires Inv(s) && (s.producer.Insert? && ok ==> Allocatable(|Last(s.headers).index|))
    requires s.producer.Outside? || s.producer.Insert? || s.producer.Grown? || s.producer.Keyed?
    ensures Inv(Produce(s, x, ok, block))
  {
    if s.producer.Outside? { StartKeepsInv(s, x, ok, block); }
    if s.producer.Insert? { InsertKeepsInv(s, x, ok, block); }
    if s.producer.Grown? { GrownKeepsInv(s, x, ok, block); }
    if s.producer.Keyed? { KeyedKeepsInv(s, x, ok, block); }
  }

  lemma FillingKeepsInv<T>(s: State<T>, x: T, ok: bool, block: nat)
    requires Inv(s) && (s.producer.Reserved? && ok ==> block in s.free)
    requires s.producer.Reserved? || s.producer.HasBlock? || s.producer.Write? || s.producer.Publish?
    ensures Inv(Produce(s, x, ok, block))
  {
    if s.producer.Reserved? && ok { RequisitionKeepsInv(s, x, block); }
    if s.producer.Reserved? && !ok { RewindKeepsInv(s, x, block); }
    if s.producer.HasBlock? { InstallKeepsInv(s, x, ok, block); }
    if s.producer.Write? { WriteKeepsInv(s, x, ok, block); }
    if s.producer.Publish? { PublishKeepsInv(s, x, ok, block); }
  }

  lemma ProduceKeepsInv<T>(s: State<T>, x: T, ok: bool, block: nat, s': State<T>)
    requires Inv(s) && ProducerStep(s, x, ok, block, s')
    ensures Inv(s')
  {
    if s.producer.Outside? || s.producer.Insert? || s.producer.Grown? || s.producer.Keyed? {
      InsertingKeepsInv(s, x, ok, block);
    } else {
      FillingKeepsInv(s, x, ok, block);
    }
  }

  // ---------------------------------------------------------------- steps of a consumer

  /** The block of a claimed index that has not been taken is installed and alive. */
  lemma ClaimedBlockIsLive<T>(s: State<T>, t: Tid)
    requires Inv(s) && t in s.pcs && HasIndex(s.pcs[t])
    ensures var b := s.pcs[t].i / BLOCK_SIZE;
      && b < |s.blocks| && !AllDone(s.done, b) && b < Last(s.headers).next
      && LiveOk(s.vals, s.slots, s.lo, s.blocks[b], b, s.owner, s.counts, s.done)
      && ElementAt(s.mem, s.blocks, s.pcs[t].i, s.items[s.pcs[t].i])
  {
    assert ClaimPc(s.pcs[t], t, s.head, s.claims, s.done, s.out);
    var i := s.pcs[t].i;
    InstalledUpTo(i, |s.items|, |s.blocks|);
    assert i !in s.done;
    assert !AllDone(s.done, i / BLOCK_SIZE);
  }

  lemma InstalledUpTo(i: nat, tail: nat, n: nat)
    requires i < tail <= BLOCK_SIZE * n
    ensures i / BLOCK_SIZE < n
  {
  }

  lemma PathsMove<T>(s: State<T>, t: Tid, pc: Consumer)
    requires PathsOk(s) && PathPc(pc, s.headers, s.slots, s.blocks)
    ensures PathsOk(Move(s, t, pc))
  {
  }

  lemma ReleasesMove<T>(s: State<T>, t: Tid, pc: Consumer)
    requires ReleasesOk(s) && !pc.Release? && !pc.GiveBack?
    ensures ReleasesOk(Move(s, t, pc))
  {
  }

  lemma ClaimsMove<T>(s: State<T>, t: Tid, pc: Consumer)
    requires ClaimsOk(s) && t in s.pcs && HasIndex(s.pcs[t]) && !s.pcs[t].Count? && IsPending(pc, s.pcs[t].i)
    ensures ClaimsOk(Move(s, t, pc))
  {
    assert ClaimPc(s.pcs[t], t, s.head, s.claims, s.done, s.out);
    var pcs' := s.pcs[t := pc];
    forall i | 0 <= i < s.head && i !in s.out ensures IsOpen(s.claims, pcs', i) {
      assert IsOpen(s.claims, s.pcs, i);
    }
    forall u | u in pcs' ensures ClaimPc(pcs'[u], u, s.head, s.claims, s.done, s.out) {
      assert u != t ==> ClaimPc(s.pcs[u], u, s.head, s.claims, s.done, s.out);
    }
  }

  /** What a consumer's operation leaves alone. */
  lemma ProducerUntouched<T>(s: State<T>, s': State<T>)
    requires Shape(s) && RingOk(s) && MemOk(s) && ProducerOk(s)
    requires s'.keys == s.keys && s'.vals == s.vals && s'.headers == s.headers && s'.mem == s.mem
    requires s'.tailBlock == s.tailBlock && s'.producer == s.producer && s'.items == s.items && s'.slots == s.slots
    requires s'.blocks == s.blocks && s'.lo == s.lo && s.done <= s'.done
    requires s.producer.HasBlock? ==>
      var x := s.producer.block;
      x in s'.owner && s'.owner[x] == Filling && x in s'.counts && s'.counts[x] == 0
    ensures Shape(s') && RingOk(s') && MemOk(s') && ProducerOk(s')
  {
  }

  /** A consumer goes on with its index, having read one more value. */
  lemma MoveKeepsInv<T>(s: State<T>, t: Tid, pc: Consumer)
    requires Inv(s) && t in s.pcs && HasIndex(s.pcs[t]) && !s.pcs[t].Count? && IsPending(pc, s.pcs[t].i)
    requires PathPc(pc, s.headers, s.slots, s.blocks)
    ensures Inv(Move(s, t, pc))
  {
    ProducerUntouched(s, Move(s, t, pc));
    PathsMove(s, t, pc);
    ReleasesMove(s, t, pc);
    ClaimsMove(s, t, pc);
  }

  lemma ClaimsTake<T>(s: State<T>, t: Tid)
    requires Shape(s) && ClaimsOk(s) && t in s.pcs && s.pcs[t].Idle? && s.head < s.Tail()
    ensures ClaimsOk(Consume(s, t))
  {
    var s' := Consume(s, t);
    forall i | 0 <= i < s'.head && i !in s.out ensures IsOpen(s'.claims, s'.pcs, i) {
      assert i < s.head ==> IsOpen(s.claims, s.pcs, i);
    }
    forall u | u in s'.pcs ensures ClaimPc(s'.pcs[u], u, s'.head, s'.claims, s.done, s.out) {
      assert ClaimPc(s.pcs[u], u, s.head, s.claims, s.done, s.out);
    }
  }

  lemma ClaimKeepsInv<T>(s: State<T>, t: Tid)
    requires Inv(s) && t in s.pcs && s.pcs[t].Idle?
    ensures Inv(Consume(s, t))
  {
    if s.head < s.Tail() {
      ProducerUntouched(s, Consume(s, t));
      PathsMove(s, t, LoadIndex(s.head));
      ReleasesMove(s, t, LoadIndex(s.head));
      ClaimsTake(s, t);
    }
  }

  /** The ring a consumer works with still leads to the intact entries of the blocks it may look for. */
  lemma HeaderInUse<T>(s: State<T>, k: nat)
    requires Inv(s) && k < |s.headers|
    ensures HeaderOk(s.headers[k], k, Limit(s.headers, k, |s.slots|), s.slots, s.lo) && s.headers[k].index != []
  {
    assert HeaderOk(s.headers[k], k, Limit(s.headers, k, |s.slots|), s.slots, s.lo);
  }

  lemma LoadIndexKeepsInv<T>(s: State<T>, t: Tid)
    requires Inv(s) && t in s.pcs && s.pcs[t].LoadIndex?
    ensures Inv(Consume(s, t))
  {
    ClaimedBlockIsLive(s, t);
    MoveKeepsInv(s, t, LoadTail(s.pcs[t].i, |s.headers| - 1));
  }

  lemma LoadTailKeepsInv<T>(s: State<T>, t: Tid)
    requires Inv(s) && t in s.pcs && s.pcs[t].LoadTail?
    ensures Inv(Consume(s, t))
  {
    var i, k := s.pcs[t].i, s.pcs[t].k;
    assert PathPc(s.pcs[t], s.headers, s.slots, s.blocks);
    HeaderInUse(s, k);
    MoveKeepsInv(s, t, LoadBase(i, k, s.headers[k].tail, s.headers[k].next));
  }

  /** The tail that was loaded leads to an intact entry, even if the producer has moved on. */
  lemma TailBaseIsIntact<T>(s: State<T>, t: Tid)
    requires Inv(s) && t in s.pcs && s.pcs[t].LoadBase?
    ensures var pc := s.pcs[t];
      && pc.k < |s.headers| && pc.tail < |s.headers[pc.k].index| && s.headers[pc.k].index[pc.tail] < |s.keys|
      && pc.next > 0 && s.keys[s.headers[pc.k].index[pc.tail]] == Base(pc.next - 1)
  {
    var pc := s.pcs[t];
    assert PathPc(pc, s.headers, s.slots, s.blocks);
    HeaderInUse(s, pc.k);
    ClaimedBlockIsLive(s, t);
    assert Placed(s.headers[pc.k], s.slots, pc.next - 1);
    assert SlotOk(s.keys, s.slots, pc.next - 1);
  }

  lemma BaseLoaded<T>(s: State<T>, t: Tid)
    requires PathsOk(s) && Shape(s) && t in s.pcs && s.pcs[t].LoadBase?
    requires var pc := s.pcs[t];
      && pc.k < |s.headers| && pc.tail < |s.headers[pc.k].index| && s.headers[pc.k].index[pc.tail] < |s.keys|
      && pc.next > 0 && s.keys[s.headers[pc.k].index[pc.tail]] == Base(pc.next - 1)
    ensures PathPc(Consume(s, t).pcs[t], s.headers, s.slots, s.blocks)
    ensures Consume(s, t) == Move(s, t, Consume(s, t).pcs[t]) && IsPending(Consume(s, t).pcs[t], s.pcs[t].i)
  {
    assert PathPc(s.pcs[t], s.headers, s.slots, s.blocks);
  }

  lemma LoadBaseKeepsInv<T>(s: State<T>, t: Tid)
    requires Inv(s) && t in s.pcs && s.pcs[t].LoadBase?
    ensures Inv(Consume(s, t))
  {
    TailBaseIsIntact(s, t);
    BaseLoaded(s, t);
    MoveKeepsInv(s, t, Consume(s, t).pcs[t]);
  }

  lemma RingLeadsToSlot(h: Header, k: nat, lim: nat, slots: seq<nat>, lo: nat, i: nat, tail: nat, next: nat)
    requires HeaderOk(h, k, lim, slots, lo) && lo <= i / BLOCK_SIZE < next <= lim
    requires h.index != [] && tail == Position(next - 1, h.off, |h.index|)
    ensures h.index[Lookup(Tickets.Wrap(i), tail, Base(next - 1), |h.index|)] == slots[i / BLOCK_SIZE]
  {
    LookupHits(i, next - 1, h.off, tail, |h.index|, 5 + k);
    assert Placed(h, slots, i / BLOCK_SIZE);
  }

  ghost predicate EntryFound<T>(s: State<T>, pc: Consumer)
    requires pc.Find?
  {
    && pc.k < |s.headers| && s.headers[pc.k].index != []
    && var e := s.headers[pc.k].index[Lookup(Tickets.Wrap(pc.i), pc.tail, pc.base, |s.headers[pc.k].index|)];
       && e < |s.keys| == |s.vals| && pc.i / BLOCK_SIZE < |s.blocks| <= |s.slots| && e == s.slots[pc.i / BLOCK_SIZE]
       && s.keys[e] == Tickets.Wrap(pc.i) - Tickets.Wrap(pc.i) % BLOCK_SIZE
       && s.vals[e] == Some(s.blocks[pc.i / BLOCK_SIZE])
  }

  lemma LiveEntryIsFound<T>(s: State<T>, pc: Consumer, b: nat)
    requires RingOk(s) && pc.Find? && PathPc(pc, s.headers, s.slots, s.blocks)
    requires b == pc.i / BLOCK_SIZE < |s.blocks|
    requires LiveOk(s.vals, s.slots, s.lo, s.blocks[b], b, s.owner, s.counts, s.done)
    ensures EntryFound(s, pc)
  {
    assert HeaderOk(s.headers[pc.k], pc.k, Limit(s.headers, pc.k, |s.slots|), s.slots, s.lo);
    RingLeadsToSlot(s.headers[pc.k], pc.k, Limit(s.headers, pc.k, |s.slots|), s.slots, s.lo, pc.i, pc.tail, pc.next);
    assert SlotOk(s.keys, s.slots, b);
    StartOfBlock(pc.i);
  }

  /** The assertion inside the lookup: the entry found has the key of the block, and its value is not null. */
  lemma LookupFindsTheBlock<T>(s: State<T>, t: Tid)
    requires Inv(s) && t in s.pcs && s.pcs[t].Find?
    ensures EntryFound(s, s.pcs[t])
  {
    assert PathPc(s.pcs[t], s.headers, s.slots, s.blocks);
    ClaimedBlockIsLive(s, t);
    LiveEntryIsFound(s, s.pcs[t], s.pcs[t].i / BLOCK_SIZE);
  }

  lemma FindKeepsInv<T>(s: State<T>, t: Tid)
    requires Inv(s) && t in s.pcs && s.pcs[t].Find?
    ensures Inv(Consume(s, t))
  {
    LookupFindsTheBlock(s, t);
    ClaimedBlockIsLive(s, t);
    MoveKeepsInv(s, t, LoadBlock(s.pcs[t].i, s.slots[s.pcs[t].i / BLOCK_SIZE]));
  }

  lemma LoadBlockKeepsInv<T>(s: State<T>, t: Tid)
    requires Inv(s) && t in s.pcs && s.pcs[t].LoadBlock?
    ensures Inv(Consume(s, t))
  {
    var pc := s.pcs[t];
    assert PathPc(pc, s.headers, s.slots, s.blocks);
    ClaimedBlockIsLive(s, t);
    MoveKeepsInv(s, t, Take(pc.i, pc.e, s.blocks[pc.i / BLOCK_SIZE]));
  }

  /** The element that is read is the one enqueued at the claimed index. */
  lemma TakeReadsTheElement<T>(s: State<T>, t: Tid)
    requires Inv(s) && t in s.pcs && s.pcs[t].Take?
    ensures var pc := s.pcs[t];
      && pc.i < |s.items| && pc.i !in s.out
      && (pc.block, pc.i % BLOCK_SIZE) in s.mem && s.mem[(pc.block, pc.i % BLOCK_SIZE)] == s.items[pc.i]
  {
    assert PathPc(s.pcs[t], s.headers, s.slots, s.blocks);
    assert ClaimPc(s.pcs[t], t, s.head, s.claims, s.done, s.out);
    ClaimedBlockIsLive(s, t);
  }

  lemma ClaimsTaken<T>(s: State<T>, t: Tid)
    requires Shape(s) && ClaimsOk(s) && t in s.pcs && s.pcs[t].Take?
    requires var pc := s.pcs[t];
      && pc.i < |s.items|
      && (pc.block, pc.i % BLOCK_SIZE) in s.mem && s.mem[(pc.block, pc.i % BLOCK_SIZE)] == s.items[pc.i]
    ensures ClaimsOk(Consume(s, t))
  {
    var s' := Consume(s, t);
    assert ClaimPc(s.pcs[t], t, s.head, s.claims, s.done, s.out);
    forall i | 0 <= i < s.head && i !in s'.out ensures IsOpen(s.claims, s'.pcs, i) {
      assert IsOpen(s.claims, s.pcs, i);
    }
    forall u | u in s'.pcs ensures ClaimPc(s'.pcs[u], u, s.head, s.claims, s.done, s'.out) {
      assert ClaimPc(s.pcs[u], u, s.head, s.claims, s.done, s.out);
    }
  }

  lemma TakeKeepsInv<T>(s: State<T>, t: Tid)
    requires Inv(s) && t in s.pcs && s.pcs[t].Take?
    ensures Inv(Consume(s, t))
  {
    var pc := s.pcs[t];
    TakeReadsTheElement(s, t);
    ClaimsTaken(s, t);
    ProducerUntouched(s, Consume(s, t));
    assert PathPc(pc, s.headers, s.slots, s.blocks);
    PathsMove(s, t, Count(pc.i, pc.e, pc.block));
    ReleasesMove(s, t, Count(pc.i, pc.e, pc.block));
  }

  lemma OneMoreDone(done: set<nat>, i: nat, b: nat)
    requires i !in done
    ensures |DoneIn(done + {i}, b)| == |DoneIn(done, b)| + if i / BLOCK_SIZE == b then 1 else 0
  {
    if i / BLOCK_SIZE == b {
      assert DoneIn(done + {i}, b) == DoneIn(done, b) + {i};
    } else {
      assert DoneIn(done + {i}, b) == DoneIn(done, b);
    }
  }

  predicate InRange(i: nat, from: nat, n: nat) {
    from <= i < from + n
  }

  function Span(from: nat, n: nat): set<nat> {
    set i | from <= i < from + n && InRange(i, from, n)
  }

  lemma {:induction false} SpanSize(from: nat, n: nat)
    ensures |Span(from, n)| == n
  {
    if n > 0 {
      SpanSize(from, n - 1);
      assert Span(from, n) == Span(from, n - 1) + {from + (n - 1)};
    }
  }

  /** Thirty-two elements counted are all the elements of the block. */
  lemma FullCount(done: set<nat>, b: nat)
    requires |DoneIn(done, b)| == BLOCK_SIZE
    ensures AllDone(done, b)
  {
    var all := Span(BLOCK_SIZE * b, BLOCK_SIZE);
    SpanSize(BLOCK_SIZE * b, BLOCK_SIZE);
    forall i | BLOCK_SIZE * b <= i < BLOCK_SIZE * (b + 1) ensures i in done {
      assert DoneIn(done, b) <= all;
      if i !in done {
        SubsetSize(DoneIn(done, b), all - {i});
      }
    }
  }

  /** What the consumer that counts down knows about its block. */
  ghost predicate Counting<T>(s: State<T>, t: Tid, i: nat, e: nat, block: nat) {
    var b := i / BLOCK_SIZE;
    && t in s.pcs && s.pcs[t] == Count(i, e, block) && i !in s.done
    && b < |s.blocks| <= |s.slots| && block == s.blocks[b] && e == s.slots[b] && !AllDone(s.done, b)
    && LiveOk(s.vals, s.slots, s.lo, block, b, s.owner, s.counts, s.done)
  }

  lemma CountsOwnBlock<T>(s: State<T>, t: Tid)
    requires Inv(s) && t in s.pcs && s.pcs[t].Count?
    ensures Counting(s, t, s.pcs[t].i, s.pcs[t].e, s.pcs[t].block)
  {
    assert PathPc(s.pcs[t], s.headers, s.slots, s.blocks);
    assert ClaimPc(s.pcs[t], t, s.head, s.claims, s.done, s.out);
    ClaimedBlockIsLive(s, t);
  }

  lemma CountKeepsBlocks<T>(s: State<T>, t: Tid, i: nat, e: nat, block: nat)
    requires BlocksOk(s) && Counting(s, t, i, e, block)
    ensures BlocksOk(CountDown(s, t, i, e, block))
    ensures CountDown(s, t, i, e, block).pcs[t].Release? ==> AllDone(s.done + {i}, i / BLOCK_SIZE)
  {
    var s' := CountDown(s, t, i, e, block);
    OneMoreDone(s.done, i, i / BLOCK_SIZE);
    if s'.pcs[t].Release? {
      FullCount(s'.done, i / BLOCK_SIZE);
    }
    forall c | 0 <= c < |s.blocks| && !AllDone(s'.done, c)
      ensures LiveOk(s.vals, s.slots, s.lo, s.blocks[c], c, s'.owner, s'.counts, s'.done)
    {
      assert !AllDone(s.done, c);
      assert LiveOk(s.vals, s.slots, s.lo, s.blocks[c], c, s.owner, s.counts, s.done);
      OneMoreDone(s.done, i, c);
    }
  }

  lemma CountKeepsReleases<T>(s: State<T>, t: Tid, i: nat, e: nat, block: nat)
    requires ReleasesOk(s) && Counting(s, t, i, e, block)
    requires CountDown(s, t, i, e, block).pcs[t].Release? ==> AllDone(s.done + {i}, i / BLOCK_SIZE)
    ensures ReleasesOk(CountDown(s, t, i, e, block))
  {
    var s' := CountDown(s, t, i, e, block);
    forall u | u in s'.pcs
      ensures ReleasePc(s'.pcs[u], u, s'.owner, s.vals, s.slots, |s.blocks|, s.lo, s'.done)
    {
      assert u != t ==> ReleasePc(s.pcs[u], u, s.owner, s.vals, s.slots, |s.blocks|, s.lo, s.done);
    }
  }

  lemma CountKeepsClaims<T>(s: State<T>, t: Tid, i: nat, e: nat, block: nat)
    requires ClaimsOk(s) && Counting(s, t, i, e, block)
    ensures ClaimsOk(CountDown(s, t, i, e, block))
  {
    var s' := CountDown(s, t, i, e, block);
    assert ClaimPc(s.pcs[t], t, s.head, s.claims, s.done, s.out);
    forall j | 0 <= j < s.head && j !in s.out ensures IsOpen(s.claims, s'.pcs, j) {
      assert IsOpen(s.claims, s.pcs, j);
    }
    forall u | u in s'.pcs ensures ClaimPc(s'.pcs[u], u, s.head, s.claims, s'.done, s.out) {
      assert ClaimPc(s.pcs[u], u, s.head, s.claims, s.done, s.out);
    }
  }

  /** The block that was counted down is not one the producer is about to install. */
  lemma CountKeepsProducer<T>(s: State<T>, t: Tid, i: nat, e: nat, block: nat)
    requires Shape(s) && RingOk(s) && MemOk(s) && ProducerOk(s)
    requires block in s.owner && s.owner[block].Ring?
    ensures var s' := CountDown(s, t, i, e, block); Shape(s') && RingOk(s') && MemOk(s') && ProducerOk(s')
  {
    ProducerUntouched(s, CountDown(s, t, i, e, block));
  }

  lemma CountKeepsPaths<T>(s: State<T>, t: Tid, i: nat, e: nat, block: nat)
    requires PathsOk(s) && t in s.pcs
    ensures PathsOk(CountDown(s, t, i, e, block))
  {
  }

  lemma CountKeepsInv<T>(s: State<T>, t: Tid)
    requires Inv(s) && t in s.pcs && s.pcs[t].Count?
    ensures Inv(Consume(s, t))
  {
    var i, e, block := s.pcs[t].i, s.pcs[t].e, s.pcs[t].block;
    CountsOwnBlock(s, t);
    CountKeepsBlocks(s, t, i, e, block);
    CountKeepsReleases(s, t, i, e, block);
    CountKeepsClaims(s, t, i, e, block);
    CountKeepsProducer(s, t, i, e, block);
    CountKeepsPaths(s, t, i, e, block);
  }

  /** Two consumers never release the same entry. */
  lemma ReleasesAreApart<T>(s: State<T>, t: Tid, u: Tid)
    requires Inv(s) && t in s.pcs && u in s.pcs && t != u && s.pcs[t].Release? && s.pcs[u].Release?
    ensures s.pcs[t].e != s.pcs[u].e
  {
    assert ReleasePc(s.pcs[t], t, s.owner, s.vals, s.slots, |s.blocks|, s.lo, s.done);
    assert ReleasePc(s.pcs[u], u, s.owner, s.vals, s.slots, |s.blocks|, s.lo, s.done);
  }

  /** A consumer that has no index may go on to another place without one. */
  lemma ClaimsIgnore<T>(s: State<T>, t: Tid, pc: Consumer)
    requires ClaimsOk(s) && t in s.pcs && !HasIndex(s.pcs[t]) && !HasIndex(pc) && !pc.Fault?
    ensures ClaimsOk(Move(s, t, pc))
  {
    var pcs' := s.pcs[t := pc];
    forall i | 0 <= i < s.head && i !in s.out ensures IsOpen(s.claims, pcs', i) {
      assert IsOpen(s.claims, s.pcs, i);
    }
    forall u | u in pcs' ensures ClaimPc(pcs'[u], u, s.head, s.claims, s.done, s.out) {
      assert u != t ==> ClaimPc(s.pcs[u], u, s.head, s.claims, s.done, s.out);
    }
  }

  lemma ReleaseKeepsBlocks<T>(s: State<T>, t: Tid)
    requires Inv(s) && t in s.pcs && s.pcs[t].Release?
    ensures BlocksOk(Consume(s, t)) && RingOk(Consume(s, t))
  {
    var pc, s' := s.pcs[t], Consume(s, t);
    assert ReleasePc(pc, t, s.owner, s.vals, s.slots, |s.blocks|, s.lo, s.done);
    ClearValueKeepsEntries(s.keys, s.vals, s.slots, s.lo, |s.blocks|, pc.e);
    forall c | 0 <= c < |s.blocks| && !AllDone(s.done, c)
      ensures LiveOk(s'.vals, s.slots, s.lo, s.blocks[c], c, s.owner, s.counts, s.done)
    {
      assert LiveOk(s.vals, s.slots, s.lo, s.blocks[c], c, s.owner, s.counts, s.done);
      assert c < pc.b || pc.b < c;
    }
  }

  lemma ReleaseKeepsReleases<T>(s: State<T>, t: Tid)
    requires Inv(s) && t in s.pcs && s.pcs[t].Release?
    ensures ReleasesOk(Consume(s, t))
  {
    var pc, s' := s.pcs[t], Consume(s, t);
    assert ReleasePc(pc, t, s.owner, s.vals, s.slots, |s.blocks|, s.lo, s.done);
    forall u | u in s'.pcs
      ensures ReleasePc(s'.pcs[u], u, s.owner, s'.vals, s.slots, |s.blocks|, s.lo, s.done)
    {
      assert ReleasePc(s.pcs[u], u, s.owner, s.vals, s.slots, |s.blocks|, s.lo, s.done);
      if u != t {
        if s.pcs[u].Release? { ReleasesAreApart(s, t, u); }
        ReleaseKeepsOther(s.pcs[u], u, s.owner, s.vals, s.slots, |s.blocks|, s.lo, s.done, pc.e, None);
      }
    }
  }

  lemma ReleaseKeepsProducer<T>(s: State<T>, t: Tid)
    requires Shape(s) && MemOk(s) && ProducerOk(s) && t in s.pcs && s.pcs[t].Release?
    ensures var s' := Consume(s, t); Shape(s') && MemOk(s') && ProducerOk(s')
  {
  }

  lemma ReleaseKeepsInv<T>(s: State<T>, t: Tid)
    requires Inv(s) && t in s.pcs && s.pcs[t].Release?
    ensures Inv(Consume(s, t))
  {
    ReleaseKeepsBlocks(s, t);
    ReleaseKeepsReleases(s, t);
    ReleaseKeepsProducer(s, t);
    ClaimsIgnore(s, t, GiveBack(s.pcs[t].block));
    PathsMove(s, t, GiveBack(s.pcs[t].block));
  }

  lemma GiveBackKeepsBlocks<T>(s: State<T>, t: Tid)
    requires BlocksOk(s) && ReleasesOk(s) && Shape(s) && t in s.pcs && s.pcs[t].GiveBack?
    ensures BlocksOk(Consume(s, t)) && ReleasesOk(Consume(s, t))
  {
    var pc, s' := s.pcs[t], Consume(s, t);
    assert ReleasePc(pc, t, s.owner, s.vals, s.slots, |s.blocks|, s.lo, s.done);
    forall c | 0 <= c < |s.blocks| && !AllDone(s.done, c)
      ensures LiveOk(s.vals, s.slots, s.lo, s.blocks[c], c, s'.owner, s.counts, s.done)
    {
      assert LiveOk(s.vals, s.slots, s.lo, s.blocks[c], c, s.owner, s.counts, s.done);
    }
    forall u | u in s'.pcs
      ensures ReleasePc(s'.pcs[u], u, s'.owner, s.vals, s.slots, |s.blocks|, s.lo, s.done)
    {
      assert ReleasePc(s.pcs[u], u, s.owner, s.vals, s.slots, |s.blocks|, s.lo, s.done);
    }
  }

  lemma GiveBackKeepsProducer<T>(s: State<T>, t: Tid)
    requires Shape(s) && RingOk(s) && MemOk(s) && ProducerOk(s) && t in s.pcs && s.pcs[t].GiveBack?
    requires s.pcs[t].block in s.owner && s.owner[s.pcs[t].block] == Holder(t)
    ensures var s' := Consume(s, t); Shape(s') && RingOk(s') && MemOk(s') && ProducerOk(s')
  {
    ProducerUntouched(s, Consume(s, t));
  }

  lemma GiveBackKeepsInv<T>(s: State<T>, t: Tid)
    requires Inv(s) && t in s.pcs && s.pcs[t].GiveBack?
    ensures Inv(Consume(s, t))
  {
    assert ReleasePc(s.pcs[t], t, s.owner, s.vals, s.slots, |s.blocks|, s.lo, s.done);
    GiveBackKeepsBlocks(s, t);
    GiveBackKeepsProducer(s, t);
    ClaimsIgnore(s, t, Idle);
    PathsMove(s, t, Idle);
  }

  lemma LookupKeepsInv<T>(s: State<T>, t: Tid)
    requires Inv(s) && t in s.pcs
    requires s.pcs[t].LoadIndex? || s.pcs[t].LoadTail? || s.pcs[t].LoadBase? || s.pcs[t].Find? || s.pcs[t].LoadBlock?
    ensures Inv(Consume(s, t))
  {
    if s.pcs[t].LoadIndex? { LoadIndexKeepsInv(s, t); }
    if s.pcs[t].LoadTail? { LoadTailKeepsInv(s, t); }
    if s.pcs[t].LoadBase? { LoadBaseKeepsInv(s, t); }
    if s.pcs[t].Find? { FindKeepsInv(s, t); }
    if s.pcs[t].LoadBlock? { LoadBlockKeepsInv(s, t); }
  }

  lemma NoFault<T>(s: State<T>, t: Tid)
    requires Inv(s) && t in s.pcs
    ensures !s.pcs[t].Fault?
  {
    assert ClaimPc(s.pcs[t], t, s.head, s.claims, s.done, s.out);
  }

  lemma ConsumeKeepsInv<T>(s: State<T>, t: Tid)
    requires Inv(s) && t in s.pcs
    ensures Inv(Consume(s, t))
  {
    NoFault(s, t);
    if s.pcs[t].Idle? { ClaimKeepsInv(s, t); }
    else if s.pcs[t].Take? { TakeKeepsInv(s, t); }
    else if s.pcs[t].Count? { CountKeepsInv(s, t); }
    else if s.pcs[t].Release? { ReleaseKeepsInv(s, t); }
    else if s.pcs[t].GiveBack? { GiveBackKeepsInv(s, t); }
    else { LookupKeepsInv(s, t); }
  }

  // ---------------------------------------------------------------- whole runs

  lemma NextKeepsInv<T(!new)>(s: State<T>, s': State<T>)
    requires Inv(s) && Next(s, s')
    ensures Inv(s')
  {
    if x, ok, block :| ProducerStep(s, x, ok, block, s') {
      ProduceKeepsInv(s, x, ok, block, s');
    } else {
      var t :| ConsumerStep(s, t, s');
      ConsumeKeepsInv(s, t);
    }
  }

  lemma {:induction false} RunKeepsInv<T(!new)>(run: seq<State<T>>, k: nat)
    requires Run(run) && k < |run|
    ensures Inv(run[k])
    decreases k
  {
    if k == 0 {
      InitIsInv(run[0]);
    } else {
      RunKeepsInv(run, k - 1);
      assert Follows(run, k - 1);
      NextKeepsInv(run[k - 1], run[k]);
    }
  }

  /** In every reachable state, what was taken out at an index is what was enqueued there, and no lookup has failed. */
  lemma TakenIsEnqueued<T(!new)>(run: seq<State<T>>, k: nat, i: nat)
    requires Run(run) && k < |run|
    ensures i in run[k].out ==> i < run[k].head <= run[k].Tail() && run[k].out[i] == run[k].items[i]
    ensures forall t | t in run[k].pcs :: !run[k].pcs[t].Fault?
  {
    RunKeepsInv(run, k);
    forall t | t in run[k].pcs ensures !run[k].pcs[t].Fault? {
      NoFault(run[k], t);
    }
  }

  /** An element is taken at most once: an index that is about to be read has not been read before. */
  lemma NothingIsTakenTwice<T(!new)>(run: seq<State<T>>, k: nat, t: Tid, u: Tid)
    requires Run(run) && k < |run| && t in run[k].pcs && u in run[k].pcs
    requires HasIndex(run[k].pcs[t]) && HasIndex(run[k].pcs[u])
    ensures run[k].pcs[t].i == run[k].pcs[u].i ==> t == u
    ensures run[k].pcs[t].Take? ==> run[k].pcs[t].i !in run[k].out
  {
    RunKeepsInv(run, k);
    var s := run[k];
    assert ClaimPc(s.pcs[t], t, s.head, s.claims, s.done, s.out);
    assert ClaimPc(s.pcs[u], u, s.head, s.claims, s.done, s.out);
  }

  /** When no consumer is at work, the queue is a FIFO: exactly the first head elements have come out. */
  lemma QuietQueueIsFifo<T(!new)>(run: seq<State<T>>, k: nat)
    requires Run(run) && k < |run| && forall t | t in run[k].pcs :: run[k].pcs[t].Idle?
    ensures var s := run[k];
      && s.head <= s.Tail()
      && (forall i: nat :: i in s.out <==> i < s.head)
      && (forall i | i in s.out :: s.out[i] == s.items[i])
  {
    RunKeepsInv(run, k);
  }

  /** A block is handed out for new elements only after every element it held has been taken. */
  lemma FreeBlocksAreEmpty<T(!new)>(run: seq<State<T>>, k: nat, i: nat)
    requires Run(run) && k < |run| && i < run[k].Tail() && i !in run[k].out
    ensures i / BLOCK_SIZE < |run[k].blocks| && run[k].blocks[i / BLOCK_SIZE] !in run[k].free
  {
    RunKeepsInv(run, k);
    var s := run[k];
    InstalledUpTo(i, |s.items|, |s.blocks|);
    assert i !in s.done;
    assert !AllDone(s.done, i / BLOCK_SIZE);
    assert LiveOk(s.vals, s.slots, s.lo, s.blocks[i / BLOCK_SIZE], i / BLOCK_SIZE, s.owner, s.counts, s.done);
  }
}
