/**
 The lock-free free list: a stack of nodes whose head is swung by compare-and-swap, where each node
 carries a reference count and a should-be-on-list bit in one 32-bit word. Each atomic operation of
 add and try_get is one step; the steps of any number of threads interleave freely.
 */
module FreeList {

  type Node = nat
  type Tid = nat
  datatype Ptr = Null | To(node: Node)

  /** The should-be-on-list bit; the bits below it count references. */
  const FLAG: nat := 0x8000_0000

  /** Where add_knowing_refcount_is_zero returns to: the caller of add, or the loop of try_get. */
  datatype Back = ToCaller | ToLoop(head: Ptr)

  /** The next atomic operation of a thread, with the locals it needs. */
  datatype Pc =
    | Outside
    | AddFlag(node: Node)                              // add: fetch_add(FLAG)
    | LinkLoadHead(node: Node, back: Back)             // add_knowing_refcount_is_zero
    | LinkStoreNext(node: Node, seen: Ptr, back: Back)
    | LinkStoreRefs(node: Node, seen: Ptr, back: Back)
    | LinkCas(node: Node, seen: Ptr, back: Back)
    | LinkUndo(node: Node, seen: Ptr, back: Back)      // the CAS failed: fetch_add(FLAG - 1)
    | GetLoadHead                                      // try_get
    | GetLoadRefs(node: Node)
    | GetAddRef(node: Node, refs: nat)
    | GetLoadNext(node: Node)
    | GetCas(node: Node, next: Ptr)
    | GetTake(node: Node)                              // the CAS succeeded: fetch_sub(2)
    | GetDropRef(node: Node, seen: Ptr)                // the CAS failed: fetch_sub(1)

  /** History: the part a node plays at the moment. */
  datatype Role =
    | Owned(owner: Tid)      // out of the list, in the hands of a client
    | Flagged                // to be put on the list by whoever drops the last reference
    | Linking(via: Tid)      // being prepared by a thread, with no references left
    | Offered(via: Tid)      // prepared; the list's own reference is already counted
    | Listed
    | Taken(via: Tid)        // swung off the list, the list's reference still counted

  datatype Cell = Cell(refs: nat, next: Ptr, role: Role, holders: set<Tid>)
  datatype State = State(head: Ptr, cells: imap<Node, Cell>, pcs: map<Tid, Pc>, list: seq<Node>)

  ghost predicate Total(s: State) {
    forall n: Node :: n in s.cells
  }

  ghost function At(s: State, t: Tid, pc: Pc): State {
    s.(pcs := s.pcs[t := pc])
  }

  ghost function Put(s: State, n: Node, c: Cell): State {
    s.(cells := s.cells[n := c])
  }

  function LoopOn(head: Ptr): Pc {
    if head.Null? then Outside else GetLoadRefs(head.node)
  }

  function Return(back: Back): Pc {
    match back
    case ToCaller => Outside
    case ToLoop(head) => LoopOn(head)
  }

  /** The effect of the next atomic operation of a thread that is inside add or try_get. */
  ghost function Advance(s: State, t: Tid): State
    requires Total(s) && t in s.pcs && !s.pcs[t].Outside?
  {
    match s.pcs[t]
    case AddFlag(n) =>
      var c := s.cells[n];
      if c.refs == 0 then At(Put(s, n, c.(refs := c.refs + FLAG, role := Linking(t))), t, LinkLoadHead(n, ToCaller))
      else At(Put(s, n, c.(refs := c.refs + FLAG, role := Flagged)), t, Outside)
    case LinkLoadHead(n, back) => At(s, t, LinkStoreNext(n, s.head, back))
    case LinkStoreNext(n, seen, back) => At(Put(s, n, s.cells[n].(next := seen)), t, LinkStoreRefs(n, seen, back))
    case LinkStoreRefs(n, seen, back) =>
      At(Put(s, n, s.cells[n].(refs := 1, role := Offered(t))), t, LinkCas(n, seen, back))
    case LinkCas(n, seen, back) =>
      if s.head == seen then
        At(Put(s, n, s.cells[n].(role := Listed)), t, Return(back)).(head := To(n), list := [n] + s.list)
      else At(s, t, LinkUndo(n, s.head, back))
    case LinkUndo(n, seen, back) =>
      var c := s.cells[n];
      if c.refs == 1 then At(Put(s, n, c.(refs := c.refs + FLAG - 1, role := Linking(t))), t,
                             LinkStoreNext(n, seen, back))
      else At(Put(s, n, c.(refs := c.refs + FLAG - 1, role := Flagged)), t, Return(back))
    case GetLoadHead => At(s, t, LoopOn(s.head))
    case GetLoadRefs(n) => At(s, t, GetAddRef(n, s.cells[n].refs))
    case GetAddRef(n, refs) =>
      var c := s.cells[n];
      if refs % FLAG == 0 || c.refs != refs then At(s, t, GetLoadHead)
      else At(Put(s, n, c.(refs := c.refs + 1, holders := c.holders + {t})), t, GetLoadNext(n))
    case GetLoadNext(n) => At(s, t, GetCas(n, s.cells[n].next))
    case GetCas(n, next) =>
      if s.head == To(n) then
        At(Put(s, n, s.cells[n].(role := Taken(t))), t, GetTake(n))
        .(head := next, list := if s.list == [] then [] else s.list[1..])
      else At(s, t, GetDropRef(n, s.head))
    case GetTake(n) =>
      var c := s.cells[n];
      At(Put(s, n, c.(refs := if c.refs >= 2 then c.refs - 2 else 0, role := Owned(t), holders := c.holders - {t})), t,
         Outside)
    case GetDropRef(n, seen) =>
      var c := s.cells[n];
      if c.refs == FLAG + 1 then
        At(Put(s, n, c.(refs := FLAG, role := Linking(t), holders := c.holders - {t})), t,
           LinkLoadHead(n, ToLoop(seen)))
      else
        At(Put(s, n, c.(refs := if c.refs >= 1 then c.refs - 1 else 0, holders := c.holders - {t})), t, LoopOn(seen))
  }

  datatype Event = Internal | AddCalled(node: Node) | Got(node: Node)

  /** A client calls add on a node it owns, calls try_get, or passes a node it owns to another client. */
  ghost predicate ClientStep(s: State, t: Tid, s': State, e: Event) {
    && t in s.pcs && s.pcs[t].Outside? && Total(s)
    && match e
       case AddCalled(n) => s.cells[n].role == Owned(t) && s' == At(s, t, AddFlag(n))
       case Internal =>
         || s' == At(s, t, GetLoadHead)
         || exists n: Node, t': Tid :: s.cells[n].role == Owned(t) && s' == Put(s, n, s.cells[n].(role := Owned(t')))
       case Got(n) => false
  }

  ghost predicate ThreadStep(s: State, t: Tid, s': State, e: Event) {
    && t in s.pcs && !s.pcs[t].Outside? && Total(s)
    && s' == Advance(s, t)
    && e == if s.pcs[t].GetTake? then Got(s.pcs[t].node) else Internal
  }

  ghost predicate Next(s: State, s': State, e: Event) {
    exists t: Tid :: ClientStep(s, t, s', e) || ThreadStep(s, t, s', e)
  }

  /** All nodes are with clients, no thread is inside an operation, and the counts fit their 31 bits. */
  ghost predicate Init(s: State) {
    && Total(s) && s.head == Null && s.list == [] && |s.pcs| + 1 < FLAG
    && (forall t | t in s.pcs :: s.pcs[t] == Outside)
    && (forall n: Node :: s.cells[n].refs == 0 && s.cells[n].role.Owned? && s.cells[n].holders == {})
  }

  // ---------------------------------------------------------------- invariant

  /** The thread has counted itself among the node's references. */
  predicate Holds(pc: Pc, n: Node) {
    match pc
    case GetLoadNext(m) => m == n
    case GetCas(m, _) => m == n
    case GetTake(m) => m == n
    case GetDropRef(m, _) => m == n
    case _ => false
  }

  predicate IsLinking(pc: Pc, n: Node) {
    match pc
    case LinkLoadHead(m, _) => m == n
    case LinkStoreNext(m, _, _) => m == n
    case LinkStoreRefs(m, _, _) => m == n
    case _ => false
  }

  predicate IsOffering(pc: Pc, n: Node) {
    match pc
    case LinkCas(m, _, _) => m == n
    case LinkUndo(m, _, _) => m == n
    case _ => false
  }

  /** The word of a node: one per holder, one for the list while it claims the node, and the bit while it is wanted. */
  function Word(c: Cell): nat {
    |c.holders|
    + (if c.role.Offered? || c.role.Listed? || c.role.Taken? then 1 else 0)
    + (if c.role.Flagged? || c.role.Linking? then FLAG else 0)
  }

  ghost predicate CellOk(c: Cell, n: Node, pcs: map<Tid, Pc>, list: seq<Node>) {
    && c.refs == Word(c)
    && (forall t | t in c.holders :: t in pcs && Holds(pcs[t], n))
    && (c.role.Listed? <==> n in list)
    && match c.role
       case Owned(_) => true
       case Flagged => c.holders != {}
       case Linking(t) => t in pcs && IsLinking(pcs[t], n) && c.holders == {}
       case Offered(t) => t in pcs && IsOffering(pcs[t], n)
       case Listed => true
       case Taken(t) => t in pcs && pcs[t] == GetTake(n)
  }

  ghost predicate PcOk(pc: Pc, t: Tid, cells: imap<Node, Cell>)
    requires forall n: Node :: n in cells
  {
    && (forall n | Holds(pc, n) :: t in cells[n].holders)
    && (forall n | IsLinking(pc, n) :: cells[n].role == Linking(t))
    && (forall n | IsOffering(pc, n) :: cells[n].role == Offered(t))
    && match pc
       case AddFlag(n) => cells[n].role == Owned(t)
       case LinkStoreRefs(n, seen, _) => cells[n].next == seen
       case LinkCas(n, seen, _) => cells[n].next == seen
       case GetCas(n, next) => cells[n].next == next
       case GetTake(n) => cells[n].role == Taken(t)
       case _ => true
  }

  function LinkAt(list: seq<Node>, i: nat): Ptr {
    if i < |list| then To(list[i]) else Null
  }

  /** Following the links from the head visits the listed nodes once each, in order, and ends. */
  ghost predicate ListOk(head: Ptr, cells: imap<Node, Cell>, list: seq<Node>)
    requires forall n: Node :: n in cells
  {
    && head == LinkAt(list, 0)
    && (forall i, j | 0 <= i < j < |list| :: list[i] != list[j])
    && (forall i {:trigger cells[list[i]]} | 0 <= i < |list| :: cells[list[i]].next == LinkAt(list, i + 1))
  }

  ghost predicate NodesOk(cells: imap<Node, Cell>, pcs: map<Tid, Pc>, list: seq<Node>) {
    forall n: Node :: n in cells && CellOk(cells[n], n, pcs, list)
  }

  ghost predicate ThreadsOk(cells: imap<Node, Cell>, pcs: map<Tid, Pc>)
    requires forall n: Node :: n in cells
  {
    forall t | t in pcs :: PcOk(pcs[t], t, cells)
  }

  ghost predicate Inv(s: State) {
    && Total(s) && |s.pcs| + 1 < FLAG
    && NodesOk(s.cells, s.pcs, s.list)
    && ThreadsOk(s.cells, s.pcs)
    && ListOk(s.head, s.cells, s.list)
  }

  // ---------------------------------------------------------------- each step keeps it

  /** A step of t that only concerns node n leaves every other node and every other thread in order. */
  predicate Concerns(pc: Pc, n: Node) {
    match pc
    case Outside => true
    case AddFlag(m) => m == n
    case LinkLoadHead(m, _) => m == n
    case LinkStoreNext(m, _, _) => m == n
    case LinkStoreRefs(m, _, _) => m == n
    case LinkCas(m, _, _) => m == n
    case LinkUndo(m, _, _) => m == n
    case GetLoadHead => true
    case GetLoadRefs(_) => true
    case GetAddRef(_, _) => true
    case GetLoadNext(m) => m == n
    case GetCas(m, _) => m == n
    case GetTake(m) => m == n
    case GetDropRef(m, _) => m == n
  }

  predicate RoleBelongsTo(r: Role, t: Tid) {
    match r
    case Owned(u) => u == t
    case Linking(u) => u == t
    case Offered(u) => u == t
    case Taken(u) => u == t
    case _ => true
  }

  lemma OtherThreadsKeep(cells: imap<Node, Cell>, t: Tid, n: Node, c': Cell, u: Tid, pc: Pc)
    requires (forall m: Node :: m in cells) && PcOk(pc, u, cells) && u != t
    requires forall v | v != t :: v in cells[n].holders <==> v in c'.holders
    requires c'.role == cells[n].role || RoleBelongsTo(cells[n].role, t)
    requires c'.next == cells[n].next || (cells[n].role == Linking(t) && cells[n].holders == {})
    ensures PcOk(pc, u, cells[n := c'])
  {
  }

  lemma OtherNodesKeep(c: Cell, m: Node, pcs: map<Tid, Pc>, list: seq<Node>, t: Tid, pc': Pc, n: Node, list': seq<Node>)
    requires CellOk(c, m, pcs, list) && t in pcs && m != n
    requires Concerns(pcs[t], n) && Concerns(pc', n)
    requires m in list' <==> m in list
    ensures CellOk(c, m, pcs[t := pc'], list')
  {
    assert !Holds(pcs[t], m) && !IsLinking(pcs[t], m) && !IsOffering(pcs[t], m) && pcs[t] != GetTake(m);
  }

  lemma NodesKeep(cells: imap<Node, Cell>, pcs: map<Tid, Pc>, list: seq<Node>,
                  t: Tid, pc': Pc, n: Node, c': Cell, list': seq<Node>)
    requires NodesOk(cells, pcs, list)
    requires t in pcs && Concerns(pcs[t], n) && Concerns(pc', n)
    requires forall m | m != n :: m in list' <==> m in list
    requires CellOk(c', n, pcs[t := pc'], list')
    ensures NodesOk(cells[n := c'], pcs[t := pc'], list')
  {
    var cells' := cells[n := c'];
    forall m: Node ensures m in cells' && CellOk(cells'[m], m, pcs[t := pc'], list') {
      if m != n {
        assert CellOk(cells[m], m, pcs, list);
        OtherNodesKeep(cells[m], m, pcs, list, t, pc', n, list');
      }
    }
  }

  lemma ThreadsKeep(cells: imap<Node, Cell>, pcs: map<Tid, Pc>, t: Tid, pc': Pc, n: Node, c': Cell)
    requires (forall m: Node :: m in cells) && ThreadsOk(cells, pcs) && t in pcs
    requires forall v | v != t :: v in cells[n].holders <==> v in c'.holders
    requires c'.role == cells[n].role || RoleBelongsTo(cells[n].role, t)
    requires c'.next == cells[n].next || (cells[n].role == Linking(t) && cells[n].holders == {})
    requires PcOk(pc', t, cells[n := c'])
    ensures ThreadsOk(cells[n := c'], pcs[t := pc'])
  {
    forall u | u in pcs ensures PcOk(pcs[t := pc'][u], u, cells[n := c']) {
      if u != t { OtherThreadsKeep(cells, t, n, c', u, pcs[u]); }
    }
  }

  lemma SameThreads(pcs: map<Tid, Pc>, t: Tid, pc': Pc)
    requires t in pcs
    ensures |pcs[t := pc']| == |pcs|
  {
    assert pcs[t := pc'].Keys == pcs.Keys;
  }

  /** What remains to be shown of a step: that its own thread and its own node are in order, and the list. */
  lemma StepKeepsInv(s: State, t: Tid, pc': Pc, n: Node, c': Cell, head': Ptr, list': seq<Node>)
    requires Inv(s) && t in s.pcs && Concerns(s.pcs[t], n) && Concerns(pc', n)
    requires forall v | v != t :: v in s.cells[n].holders <==> v in c'.holders
    requires c'.role == s.cells[n].role || RoleBelongsTo(s.cells[n].role, t)
    requires c'.next == s.cells[n].next || (s.cells[n].role == Linking(t) && s.cells[n].holders == {})
    requires forall m | m != n :: m in list' <==> m in s.list
    requires CellOk(c', n, s.pcs[t := pc'], list')
    requires PcOk(pc', t, s.cells[n := c'])
    requires ListOk(head', s.cells[n := c'], list')
    ensures Inv(State(head', s.cells[n := c'], s.pcs[t := pc'], list'))
  {
    NodesKeep(s.cells, s.pcs, s.list, t, pc', n, c', list');
    ThreadsKeep(s.cells, s.pcs, t, pc', n, c');
    SameThreads(s.pcs, t, pc');
  }

  /** The list stays well formed while no listed node changes its link. */
  lemma ListUnchanged(head: Ptr, cells: imap<Node, Cell>, list: seq<Node>, n: Node, c': Cell)
    requires (forall m: Node :: m in cells) && ListOk(head, cells, list)
    requires n in list ==> c'.next == cells[n].next
    ensures ListOk(head, cells[n := c'], list)
  {
    forall i | 0 <= i < |list| ensures cells[n := c'][list[i]].next == LinkAt(list, i + 1) {
      assert cells[list[i]].next == LinkAt(list, i + 1);
      assert list[i] in list;
    }
  }

  /** The common case of a step: head and list stay as they are. */
  lemma QuietStepKeepsInv(s: State, t: Tid, pc': Pc, n: Node, c': Cell)
    requires Inv(s) && t in s.pcs && Concerns(s.pcs[t], n) && Concerns(pc', n)
    requires forall v | v != t :: v in s.cells[n].holders <==> v in c'.holders
    requires c'.role == s.cells[n].role || RoleBelongsTo(s.cells[n].role, t)
    requires c'.next == s.cells[n].next || (s.cells[n].role == Linking(t) && s.cells[n].holders == {})
    requires CellOk(c', n, s.pcs[t := pc'], s.list)
    requires PcOk(pc', t, s.cells[n := c'])
    ensures Inv(At(Put(s, n, c'), t, pc'))
  {
    assert CellOk(s.cells[n], n, s.pcs, s.list);
    ListUnchanged(s.head, s.cells, s.list, n, c');
    StepKeepsInv(s, t, pc', n, c', s.head, s.list);
  }

  lemma AtHand(s: State, t: Tid, n: Node)
    requires Inv(s) && t in s.pcs
    ensures CellOk(s.cells[n], n, s.pcs, s.list) && PcOk(s.pcs[t], t, s.cells)
    ensures |s.cells[n].holders| < FLAG - 1
  {
    assert CellOk(s.cells[n], n, s.pcs, s.list);
    HoldersFit(s.cells[n].holders, s.pcs.Keys);
  }

  lemma HoldersFit(a: set<Tid>, b: set<Tid>)
    requires a <= b
    ensures |a| <= |b|
  {
    if a != {} {
      var x :| x in a;
      HoldersFit(a - {x}, b - {x});
    }
  }

  /** One thread, the node it concerns, and both in order. */
  ghost predicate Local(pc: Pc, t: Tid, c: Cell, n: Node, cells: imap<Node, Cell>, pcs: map<Tid, Pc>, list: seq<Node>) {
    && (forall m: Node :: m in cells) && cells[n] == c && t in pcs && pcs[t] == pc
    && CellOk(c, n, pcs, list) && PcOk(pc, t, cells)
    && |c.holders| < FLAG - 1
  }

  lemma LocalLoad(pc: Pc, t: Tid, c: Cell, n: Node, cells: imap<Node, Cell>, pcs: map<Tid, Pc>, list: seq<Node>,
                  pc': Pc)
    requires Local(pc, t, c, n, cells, pcs, list)
    requires
      || (pc.LinkLoadHead? && pc.node == n && exists seen :: pc' == LinkStoreNext(n, seen, pc.back))
      || (pc.GetLoadHead? && (pc' == Outside || pc'.GetLoadRefs?))
      || (pc.GetLoadRefs? && pc'.GetAddRef?)
      || (pc.GetAddRef? && pc' == GetLoadHead)
      || (pc.GetLoadNext? && pc.node == n && pc' == GetCas(n, c.next))
      || (pc.GetCas? && pc.node == n && pc'.GetDropRef? && pc'.node == n)
      || (pc.LinkCas? && pc.node == n && pc'.LinkUndo? && pc'.node == n)
    ensures CellOk(c, n, pcs[t := pc'], list) && PcOk(pc', t, cells)
  {
  }

  lemma LocalAddFlag(pc: Pc, t: Tid, c: Cell, n: Node, cells: imap<Node, Cell>, pcs: map<Tid, Pc>, list: seq<Node>,
                     c': Cell, pc': Pc)
    requires Local(pc, t, c, n, cells, pcs, list) && pc == AddFlag(n)
    requires c' == c.(refs := c.refs + FLAG, role := if c.refs == 0 then Linking(t) else Flagged)
    requires pc' == if c.refs == 0 then LinkLoadHead(n, ToCaller) else Outside
    ensures CellOk(c', n, pcs[t := pc'], list) && PcOk(pc', t, cells[n := c'])
  {
  }

  lemma LocalLink(pc: Pc, t: Tid, c: Cell, n: Node, cells: imap<Node, Cell>, pcs: map<Tid, Pc>, list: seq<Node>,
                  c': Cell, pc': Pc)
    requires Local(pc, t, c, n, cells, pcs, list)
    requires
      || (pc.LinkStoreNext? && pc.node == n && c' == c.(next := pc.seen) && pc' == LinkStoreRefs(n, pc.seen, pc.back))
      || (pc.LinkStoreRefs? && pc.node == n && c' == c.(refs := 1, role := Offered(t))
          && pc' == LinkCas(n, pc.seen, pc.back))
    ensures CellOk(c', n, pcs[t := pc'], list) && PcOk(pc', t, cells[n := c'])
    ensures c.role == Linking(t) && c.holders == {}
  {
    assert IsLinking(pc, n);
  }

  lemma LocalUndo(pc: Pc, t: Tid, c: Cell, n: Node, cells: imap<Node, Cell>, pcs: map<Tid, Pc>, list: seq<Node>,
                  c': Cell, pc': Pc)
    requires Local(pc, t, c, n, cells, pcs, list) && pc.LinkUndo? && pc.node == n
    requires c' == c.(refs := c.refs + FLAG - 1, role := if c.refs == 1 then Linking(t) else Flagged)
    requires if c.refs == 1 then pc' == LinkStoreNext(n, pc.seen, pc.back) else pc' == Outside || pc'.GetLoadRefs?
    ensures CellOk(c', n, pcs[t := pc'], list) && PcOk(pc', t, cells[n := c'])
    ensures c.role == Offered(t)
  {
    assert IsOffering(pc, n);
    if c.refs != 1 {
      assert |c.holders| > 0;
    }
  }

  lemma LocalAddRef(pc: Pc, t: Tid, c: Cell, n: Node, cells: imap<Node, Cell>, pcs: map<Tid, Pc>, list: seq<Node>,
                    c': Cell, pc': Pc)
    requires Local(pc, t, c, n, cells, pcs, list) && pc == GetAddRef(n, c.refs) && c.refs % FLAG != 0
    requires c' == c.(refs := c.refs + 1, holders := c.holders + {t}) && pc' == GetLoadNext(n)
    ensures CellOk(c', n, pcs[t := pc'], list) && PcOk(pc', t, cells[n := c'])
  {
    assert t !in c.holders;
    assert !c.role.Linking?;
  }

  lemma LocalDropRef(pc: Pc, t: Tid, c: Cell, n: Node, cells: imap<Node, Cell>, pcs: map<Tid, Pc>, list: seq<Node>,
                     c': Cell, pc': Pc)
    requires Local(pc, t, c, n, cells, pcs, list) && pc.GetDropRef? && pc.node == n
    requires c.refs >= 1 ==> c' == c.(refs := c.refs - 1, holders := c.holders - {t},
                                      role := if c.refs == FLAG + 1 then Linking(t) else c.role)
    requires if c.refs == FLAG + 1 then pc' == LinkLoadHead(n, ToLoop(pc.seen)) else pc' == Outside || pc'.GetLoadRefs?
    ensures c.refs >= 1 && CellOk(c', n, pcs[t := pc'], list) && PcOk(pc', t, cells[n := c'])
    ensures c'.role == c.role || c.role == Flagged
  {
    assert Holds(pc, n) && t in c.holders;
    assert |c.holders - {t}| == |c.holders| - 1;
    if c.refs == FLAG + 1 {
      assert c.role == Flagged;
    }
    if c'.role.Flagged? { assert |c'.holders| > 0; }
  }

  lemma LocalTake(pc: Pc, t: Tid, c: Cell, n: Node, cells: imap<Node, Cell>, pcs: map<Tid, Pc>, list: seq<Node>,
                  c': Cell)
    requires Local(pc, t, c, n, cells, pcs, list) && pc == GetTake(n)
    requires c.refs >= 2 ==> c' == c.(refs := c.refs - 2, role := Owned(t), holders := c.holders - {t})
    ensures 2 <= c.refs < FLAG && c.role == Taken(t)
    ensures CellOk(c', n, pcs[t := Outside], list) && PcOk(Outside, t, cells[n := c'])
  {
    assert Holds(pc, n) && t in c.holders;
    assert |c.holders - {t}| == |c.holders| - 1;
  }

  lemma LocalPush(pc: Pc, t: Tid, c: Cell, n: Node, cells: imap<Node, Cell>, pcs: map<Tid, Pc>, list: seq<Node>,
                  c': Cell, pc': Pc)
    requires Local(pc, t, c, n, cells, pcs, list) && pc.LinkCas? && pc.node == n
    requires c' == c.(role := Listed) && (pc' == Outside || pc'.GetLoadRefs?)
    ensures n !in list && c.role == Offered(t)
    ensures CellOk(c', n, pcs[t := pc'], [n] + list) && PcOk(pc', t, cells[n := c'])
  {
    assert IsOffering(pc, n);
  }

  lemma PushKeepsList(head: Ptr, cells: imap<Node, Cell>, list: seq<Node>, n: Node, c': Cell)
    requires (forall m: Node :: m in cells) && ListOk(head, cells, list) && n !in list
    requires c'.next == head
    ensures ListOk(To(n), cells[n := c'], [n] + list)
  {
    var list' := [n] + list;
    forall i | 0 <= i < |list'| ensures cells[n := c'][list'[i]].next == LinkAt(list', i + 1) {
      if i > 0 {
        assert list'[i] == list[i - 1] && list[i - 1] in list;
        assert cells[list[i - 1]].next == LinkAt(list, i);
      }
    }
  }

  lemma LocalPop(pc: Pc, t: Tid, c: Cell, n: Node, cells: imap<Node, Cell>, pcs: map<Tid, Pc>, list: seq<Node>,
                 c': Cell)
    requires Local(pc, t, c, n, cells, pcs, list) && pc.GetCas? && pc.node == n && n in list
    requires forall i, j | 0 <= i < j < |list| :: list[i] != list[j]
    requires list[0] == n && c' == c.(role := Taken(t))
    ensures c.role == Listed && c.next == pc.next
    ensures CellOk(c', n, pcs[t := GetTake(n)], list[1..]) && PcOk(GetTake(n), t, cells[n := c'])
  {
    assert n !in list[1..];
    assert Holds(pc, n);
  }

  lemma PopKeepsList(head: Ptr, cells: imap<Node, Cell>, list: seq<Node>, n: Node, c': Cell)
    requires (forall m: Node :: m in cells) && ListOk(head, cells, list) && list != [] && list[0] == n
    ensures ListOk(cells[n].next, cells[n := c'], list[1..])
  {
    var list' := list[1..];
    assert LinkAt(list', 0) == LinkAt(list, 1);
    forall i | 0 <= i < |list'| ensures cells[n := c'][list'[i]].next == LinkAt(list', i + 1) {
      assert list'[i] == list[i + 1] && list[0] != list[i + 1];
      assert cells[list[i + 1]].next == LinkAt(list, i + 2);
    }
  }

  // ---------------------------------------------------------------- the steps of a run

  lemma LoadKeepsInv(s: State, t: Tid, n: Node, pc': Pc)
    requires Inv(s) && t in s.pcs && Concerns(s.pcs[t], n) && Concerns(pc', n)
    requires
      || (s.pcs[t].LinkLoadHead? && exists seen :: pc' == LinkStoreNext(n, seen, s.pcs[t].back))
      || (s.pcs[t].GetLoadHead? && (pc' == Outside || pc'.GetLoadRefs?))
      || (s.pcs[t].GetLoadRefs? && pc'.GetAddRef?)
      || (s.pcs[t].GetAddRef? && pc' == GetLoadHead)
      || (s.pcs[t].GetLoadNext? && pc' == GetCas(n, s.cells[n].next))
      || (s.pcs[t].GetCas? && pc'.GetDropRef?)
      || (s.pcs[t].LinkCas? && pc'.LinkUndo?)
    ensures Inv(At(s, t, pc'))
  {
    AtHand(s, t, n);
    LocalLoad(s.pcs[t], t, s.cells[n], n, s.cells, s.pcs, s.list, pc');
    assert s.cells[n := s.cells[n]] == s.cells;
    assert At(Put(s, n, s.cells[n]), t, pc') == At(s, t, pc');
    QuietStepKeepsInv(s, t, pc', n, s.cells[n]);
  }

  lemma AddFlagKeepsInv(s: State, t: Tid, n: Node)
    requires Inv(s) && t in s.pcs && s.pcs[t] == AddFlag(n)
    ensures Inv(Advance(s, t))
  {
    var s' := Advance(s, t);
    AtHand(s, t, n);
    LocalAddFlag(s.pcs[t], t, s.cells[n], n, s.cells, s.pcs, s.list, s'.cells[n], s'.pcs[t]);
    QuietStepKeepsInv(s, t, s'.pcs[t], n, s'.cells[n]);
  }

  lemma LinkKeepsInv(s: State, t: Tid, n: Node)
    requires Inv(s) && t in s.pcs && (s.pcs[t].LinkStoreNext? || s.pcs[t].LinkStoreRefs?) && s.pcs[t].node == n
    ensures Inv(Advance(s, t))
  {
    var s' := Advance(s, t);
    AtHand(s, t, n);
    LocalLink(s.pcs[t], t, s.cells[n], n, s.cells, s.pcs, s.list, s'.cells[n], s'.pcs[t]);
    QuietStepKeepsInv(s, t, s'.pcs[t], n, s'.cells[n]);
  }

  lemma UndoKeepsInv(s: State, t: Tid, n: Node)
    requires Inv(s) && t in s.pcs && s.pcs[t].LinkUndo? && s.pcs[t].node == n
    ensures Inv(Advance(s, t))
  {
    var s' := Advance(s, t);
    AtHand(s, t, n);
    LocalUndo(s.pcs[t], t, s.cells[n], n, s.cells, s.pcs, s.list, s'.cells[n], s'.pcs[t]);
    QuietStepKeepsInv(s, t, s'.pcs[t], n, s'.cells[n]);
  }

  lemma AddRefKeepsInv(s: State, t: Tid, n: Node)
    requires Inv(s) && t in s.pcs && s.pcs[t].GetAddRef? && s.pcs[t].node == n
    ensures Inv(Advance(s, t))
  {
    var s' := Advance(s, t);
    if s'.pcs[t].GetLoadHead? {
      LoadKeepsInv(s, t, n, GetLoadHead);
    } else {
      AtHand(s, t, n);
      LocalAddRef(s.pcs[t], t, s.cells[n], n, s.cells, s.pcs, s.list, s'.cells[n], s'.pcs[t]);
      QuietStepKeepsInv(s, t, s'.pcs[t], n, s'.cells[n]);
    }
  }

  lemma DropRefKeepsInv(s: State, t: Tid, n: Node)
    requires Inv(s) && t in s.pcs && s.pcs[t].GetDropRef? && s.pcs[t].node == n
    ensures Inv(Advance(s, t))
  {
    var s' := Advance(s, t);
    AtHand(s, t, n);
    LocalDropRef(s.pcs[t], t, s.cells[n], n, s.cells, s.pcs, s.list, s'.cells[n], s'.pcs[t]);
    QuietStepKeepsInv(s, t, s'.pcs[t], n, s'.cells[n]);
  }

  lemma CellTakenKeepsInv(s: State, t: Tid, n: Node, c': Cell)
    requires Inv(s) && t in s.pcs && s.pcs[t] == GetTake(n)
    requires s.cells[n].refs >= 2 ==>
               c' == s.cells[n].(refs := s.cells[n].refs - 2, role := Owned(t), holders := s.cells[n].holders - {t})
    ensures s.cells[n].refs >= 2 && Inv(At(Put(s, n, c'), t, Outside))
  {
    AtHand(s, t, n);
    LocalTake(s.pcs[t], t, s.cells[n], n, s.cells, s.pcs, s.list, c');
    QuietStepKeepsInv(s, t, Outside, n, c');
  }

  lemma TakeKeepsInv(s: State, t: Tid, n: Node)
    requires Inv(s) && t in s.pcs && s.pcs[t] == GetTake(n)
    ensures Inv(Advance(s, t))
  {
    CellTakenKeepsInv(s, t, n, Advance(s, t).cells[n]);
  }

  lemma PushKeepsInv(s: State, t: Tid, n: Node)
    requires Inv(s) && t in s.pcs && s.pcs[t].LinkCas? && s.pcs[t].node == n && s.head == s.pcs[t].seen
    ensures Inv(Advance(s, t))
  {
    var s' := Advance(s, t);
    AtHand(s, t, n);
    LocalPush(s.pcs[t], t, s.cells[n], n, s.cells, s.pcs, s.list, s'.cells[n], s'.pcs[t]);
    PushKeepsList(s.head, s.cells, s.list, n, s'.cells[n]);
    StepKeepsInv(s, t, s'.pcs[t], n, s'.cells[n], To(n), [n] + s.list);
  }

  lemma PopKeepsInv(s: State, t: Tid, n: Node)
    requires Inv(s) && t in s.pcs && s.pcs[t].GetCas? && s.pcs[t].node == n && s.head == To(n)
    ensures Inv(Advance(s, t))
  {
    var s' := Advance(s, t);
    AtHand(s, t, n);
    LocalPop(s.pcs[t], t, s.cells[n], n, s.cells, s.pcs, s.list, s'.cells[n]);
    PopKeepsList(s.head, s.cells, s.list, n, s'.cells[n]);
    StepKeepsInv(s, t, GetTake(n), n, s'.cells[n], s.cells[n].next, s.list[1..]);
  }

  lemma AdvanceKeepsInv(s: State, t: Tid)
    requires Inv(s) && t in s.pcs && !s.pcs[t].Outside?
    ensures Inv(Advance(s, t))
  {
    match s.pcs[t]
    case AddFlag(n) => AddFlagKeepsInv(s, t, n);
    case LinkLoadHead(n, back) => LoadKeepsInv(s, t, n, LinkStoreNext(n, s.head, back));
    case LinkStoreNext(n, _, _) => LinkKeepsInv(s, t, n);
    case LinkStoreRefs(n, _, _) => LinkKeepsInv(s, t, n);
    case LinkCas(n, seen, back) =>
      if s.head == seen { PushKeepsInv(s, t, n); } else { LoadKeepsInv(s, t, n, LinkUndo(n, s.head, back)); }
    case LinkUndo(n, _, _) => UndoKeepsInv(s, t, n);
    case GetLoadHead => LoadKeepsInv(s, t, 0, LoopOn(s.head));
    case GetLoadRefs(n) => LoadKeepsInv(s, t, n, GetAddRef(n, s.cells[n].refs));
    case GetAddRef(n, _) => AddRefKeepsInv(s, t, n);
    case GetLoadNext(n) => LoadKeepsInv(s, t, n, GetCas(n, s.cells[n].next));
    case GetCas(n, _) =>
      if s.head == To(n) { PopKeepsInv(s, t, n); } else { LoadKeepsInv(s, t, n, GetDropRef(n, s.head)); }
    case GetTake(n) => TakeKeepsInv(s, t, n);
    case GetDropRef(n, _) => DropRefKeepsInv(s, t, n);
  }

  lemma LocalStart(t: Tid, c: Cell, n: Node, cells: imap<Node, Cell>, pcs: map<Tid, Pc>, list: seq<Node>, c': Cell,
                   pc': Pc)
    requires Local(Outside, t, c, n, cells, pcs, list)
    requires
      || (pc' == GetLoadHead && c' == c)
      || (pc' == AddFlag(n) && c' == c && c.role == Owned(t))
      || (pc' == Outside && c.role == Owned(t) && exists t': Tid :: c' == c.(role := Owned(t')))
    ensures CellOk(c', n, pcs[t := pc'], list) && PcOk(pc', t, cells[n := c'])
  {
  }

  lemma StartKeepsInv(s: State, t: Tid, n: Node, pc': Pc)
    requires Inv(s) && t in s.pcs && s.pcs[t].Outside?
    requires pc' == GetLoadHead || (pc' == AddFlag(n) && s.cells[n].role == Owned(t))
    ensures Inv(At(s, t, pc'))
  {
    AtHand(s, t, n);
    LocalStart(t, s.cells[n], n, s.cells, s.pcs, s.list, s.cells[n], pc');
    assert s.cells[n := s.cells[n]] == s.cells;
    assert At(Put(s, n, s.cells[n]), t, pc') == At(s, t, pc');
    QuietStepKeepsInv(s, t, pc', n, s.cells[n]);
  }

  lemma HandOverKeepsInv(s: State, t: Tid, n: Node, t': Tid)
    requires Inv(s) && t in s.pcs && s.pcs[t].Outside? && s.cells[n].role == Owned(t)
    ensures Inv(Put(s, n, s.cells[n].(role := Owned(t'))))
  {
    var c' := s.cells[n].(role := Owned(t'));
    AtHand(s, t, n);
    LocalStart(t, s.cells[n], n, s.cells, s.pcs, s.list, c', Outside);
    assert s.pcs[t := Outside] == s.pcs;
    assert At(Put(s, n, c'), t, Outside) == Put(s, n, c');
    QuietStepKeepsInv(s, t, Outside, n, c');
  }

  lemma NextKeepsInv(s: State, s': State, e: Event)
    requires Inv(s) && Next(s, s', e)
    ensures Inv(s')
  {
    var t: Tid :| ClientStep(s, t, s', e) || ThreadStep(s, t, s', e);
    if ThreadStep(s, t, s', e) {
      AdvanceKeepsInv(s, t);
    } else if e.AddCalled? {
      StartKeepsInv(s, t, e.node, AddFlag(e.node));
    } else if s' == At(s, t, GetLoadHead) {
      StartKeepsInv(s, t, 0, GetLoadHead);
    } else {
      var n: Node, t': Tid :| s.cells[n].role == Owned(t) && s' == Put(s, n, s.cells[n].(role := Owned(t')));
      HandOverKeepsInv(s, t, n, t');
    }
  }

  /** A run: the states it passes through and the event of each step. */
  ghost predicate Run(states: seq<State>, events: seq<Event>) {
    && |states| == |events| + 1 && Init(states[0])
    && forall i | 0 <= i < |events| :: Follows(states, events, i)
  }

  ghost predicate Follows(states: seq<State>, events: seq<Event>, i: nat)
    requires i < |events| && i + 1 < |states|
  {
    Next(states[i], states[i + 1], events[i])
  }

  lemma InitIsInv(s: State)
    requires Init(s)
    ensures Inv(s)
  {
  }

  lemma {:induction false} RunKeepsInv(states: seq<State>, events: seq<Event>, k: nat)
    requires Run(states, events) && k < |states|
    ensures Inv(states[k])
    decreases k
  {
    if k == 0 {
      InitIsInv(states[0]);
    } else {
      RunKeepsInv(states, events, k - 1);
      assert Follows(states, events, k - 1);
      NextKeepsInv(states[k - 1], states[k], events[k - 1]);
    }
  }

  // ---------------------------------------------------------------- what the clients see

  /**
   At every moment the links from the head spell out a list without repetition, every node's word is
   its holders plus the list's claim, and a thread that has just swung a node off the list finds the
   should-be-on-list bit clear.
   */
  lemma ListIsAcyclicAndCounted(states: seq<State>, events: seq<Event>, k: nat)
    requires Run(states, events) && k < |states|
    ensures var s := states[k];
            && Total(s) && ListOk(s.head, s.cells, s.list)
            && (forall n: Node, t | t in s.pcs && Holds(s.pcs[t], n) :: t in s.cells[n].holders)
            && (forall n: Node, t | t in s.cells[n].holders :: t in s.pcs && Holds(s.pcs[t], n))
            && (forall n: Node :: s.cells[n].refs == Word(s.cells[n]))
            && (forall n: Node :: s.cells[n].role.Listed? <==> n in s.list)
            && (forall t | t in s.pcs && s.pcs[t].GetTake? :: s.cells[s.pcs[t].node].refs < FLAG)
  {
    RunKeepsInv(states, events, k);
    var s := states[k];
    forall n: Node, t | t in s.cells[n].holders ensures t in s.pcs && Holds(s.pcs[t], n) {
      assert CellOk(s.cells[n], n, s.pcs, s.list);
    }
    forall n: Node, t | t in s.pcs && Holds(s.pcs[t], n) ensures t in s.cells[n].holders {
      assert PcOk(s.pcs[t], t, s.cells);
    }
    forall n: Node ensures s.cells[n].refs == Word(s.cells[n]) && (s.cells[n].role.Listed? <==> n in s.list) {
      assert CellOk(s.cells[n], n, s.pcs, s.list);
    }
    forall t | t in s.pcs && s.pcs[t].GetTake? ensures s.cells[s.pcs[t].node].refs < FLAG {
      AtHand(s, t, s.pcs[t].node);
    }
  }

  /** A node that a client owns stays with the clients until one of them calls add on it. */
  ghost predicate WithClients(s: State, n: Node) {
    Total(s) && s.cells[n].role.Owned? && forall t | t in s.pcs :: s.pcs[t] != AddFlag(n)
  }

  lemma OwnedIsUntouched(s: State, t: Tid, n: Node)
    requires Total(s) && t in s.pcs && !s.pcs[t].Outside?
    requires Local(s.pcs[t], t, s.cells[n], n, s.cells, s.pcs, s.list)
    requires s.head == To(n) ==> n in s.list
    requires s.cells[n].role.Owned? && s.pcs[t] != AddFlag(n)
    ensures s.pcs[t] != GetTake(n)
    ensures Advance(s, t).cells[n].role.Owned?
    ensures !Advance(s, t).pcs[t].AddFlag?
  {
    var pc := s.pcs[t];
    assert !IsLinking(pc, n) && !IsOffering(pc, n) && pc != GetTake(n);
  }

  lemma ThreadStepStaysWithClients(s: State, t: Tid, n: Node)
    requires Inv(s) && t in s.pcs && !s.pcs[t].Outside? && WithClients(s, n)
    ensures WithClients(Advance(s, t), n) && s.pcs[t] != GetTake(n)
  {
    AtHand(s, t, n);
    assert s.head == To(n) ==> n in s.list;
    OwnedIsUntouched(s, t, n);
    OnlyOnePcMoves(s, t);
  }

  lemma OnlyOnePcMoves(s: State, t: Tid)
    requires Total(s) && t in s.pcs && !s.pcs[t].Outside?
    ensures Total(Advance(s, t)) && Advance(s, t).pcs == s.pcs[t := Advance(s, t).pcs[t]]
  {
  }

  lemma ClientStepStaysWithClients(s: State, t: Tid, s': State, e: Event, n: Node)
    requires ClientStep(s, t, s', e) && WithClients(s, n) && e != AddCalled(n)
    ensures WithClients(s', n) && e != Got(n)
  {
  }

  lemma StaysWithClients(s: State, s': State, e: Event, n: Node)
    requires Inv(s) && Next(s, s', e) && WithClients(s, n) && e != AddCalled(n)
    ensures WithClients(s', n) && e != Got(n)
  {
    var t: Tid :| ClientStep(s, t, s', e) || ThreadStep(s, t, s', e);
    if ThreadStep(s, t, s', e) {
      ThreadStepStaysWithClients(s, t, n);
    } else {
      ClientStepStaysWithClients(s, t, s', e, n);
    }
  }

  lemma GotIsWithClients(s: State, s': State, n: Node)
    requires Inv(s) && Next(s, s', Got(n))
    ensures WithClients(s', n)
  {
    var t: Tid :| ClientStep(s, t, s', Got(n)) || ThreadStep(s, t, s', Got(n));
    assert s' == Advance(s, t) && s.pcs[t] == GetTake(n);
    assert PcOk(s.pcs[t], t, s.cells);
    forall u | u in s'.pcs ensures s'.pcs[u] != AddFlag(n) {
      if u != t { assert PcOk(s.pcs[u], u, s.cells); }
    }
  }

  lemma StepOfRun(states: seq<State>, events: seq<Event>, i: nat)
    requires Run(states, events) && i < |events|
    ensures Inv(states[i]) && Next(states[i], states[i + 1], events[i])
  {
    RunKeepsInv(states, events, i);
    assert Follows(states, events, i);
  }

  lemma {:induction false} FromClientsToAdd(states: seq<State>, events: seq<Event>, i: nat, j: nat, n: Node)
    requires Run(states, events) && i <= j < |events|
    requires WithClients(states[i], n) && events[j] == Got(n)
    ensures exists k | i <= k < j :: events[k] == AddCalled(n)
    decreases j - i
  {
    if events[i] != AddCalled(n) {
      StepOfRun(states, events, i);
      StaysWithClients(states[i], states[i + 1], events[i], n);
      if i < j { FromClientsToAdd(states, events, i + 1, j, n); }
    }
  }

  /** Between two successful pops of a node, in any interleaving, some client has called add on it. */
  lemma NoDoubleHandOut(states: seq<State>, events: seq<Event>, i: nat, j: nat, n: Node)
    requires Run(states, events) && i < j < |events|
    requires events[i] == Got(n) && events[j] == Got(n)
    ensures exists k | i < k < j :: events[k] == AddCalled(n)
  {
    StepOfRun(states, events, i);
    GotIsWithClients(states[i], states[i + 1], n);
    FromClientsToAdd(states, events, i + 1, j, n);
  }

  /** Nothing is lost: when no thread is inside an operation, every node is with a client or on the list. */
  lemma QuietListIsComplete(states: seq<State>, events: seq<Event>, k: nat, n: Node)
    requires Run(states, events) && k < |states|
    requires forall t | t in states[k].pcs :: states[k].pcs[t].Outside?
    ensures n in states[k].cells
    ensures n in states[k].list <==> !states[k].cells[n].role.Owned?
    ensures states[k].cells[n].refs == if n in states[k].list then 1 else 0
  {
    RunKeepsInv(states, events, k);
    var s := states[k];
    assert CellOk(s.cells[n], n, s.pcs, s.list);
    assert s.cells[n].holders == {};
  }
}
