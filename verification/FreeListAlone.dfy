/**
 What add and try_get achieve when nobody interferes: a pop takes the first node off the list, and finds
 nothing only on an empty list; an add puts its node in front.
 */
module FreeListAlone {
  import opened FreeList

  /** The state after n operations of one thread, each of them inside add or try_get, with nobody else moving. */
  ghost function Alone(s: State, t: Tid, n: nat): State
    requires Total(s) && t in s.pcs
    ensures Total(Alone(s, t, n)) && t in Alone(s, t, n).pcs
  {
    if n == 0 then s
    else
      var before := Alone(s, t, n - 1);
      if before.pcs[t].Outside? then before
      else
        OnlyOnePcMoves(before, t);
        Advance(before, t)
  }

  ghost predicate Quiet(s: State) {
    Inv(s) && forall u | u in s.pcs :: s.pcs[u].Outside?
  }

  /** In a quiet state a listed node has one reference, the list's, and a node of a client has none. */
  lemma QuietCell(s: State, n: Node)
    requires Quiet(s)
    ensures s.cells[n].holders == {}
    ensures n in s.list ==> s.cells[n].refs == 1 && s.cells[n].role == Listed
    ensures s.cells[n].role.Owned? ==> s.cells[n].refs == 0
  {
    assert CellOk(s.cells[n], n, s.pcs, s.list);
  }

  lemma QuietHead(s: State)
    requires Quiet(s) && s.list != []
    ensures s.head == To(s.list[0]) && s.cells[s.list[0]].next == LinkAt(s.list, 1)
  {
    assert s.cells[s.list[0]].next == LinkAt(s.list, 0 + 1);
  }

  /** What t finds in front of the list, step by step. */
  lemma LonePop(s: State, t: Tid, n: Node)
    requires Quiet(s) && t in s.pcs && s.list != [] && n == s.list[0]
    ensures var s0, next := At(s, t, GetLoadHead), LinkAt(s.list, 1);
      && Alone(s0, t, 5)
         == Swung(s, t, n, next)
      && Alone(s0, t, 6) == Put(s, n, Cell(0, next, Owned(t), {})).(head := next, list := s.list[1..])
  {
    var s0, next := At(s, t, GetLoadHead), LinkAt(s.list, 1);
    QuietCell(s, n);
    QuietHead(s);
    LoadsHead(s0, t, n);
    Counts(s, s0, t, n);
    Swings(s, s0, t, n, next);
  }

  lemma LoadsHead(s0: State, t: Tid, n: Node)
    requires Total(s0) && t in s0.pcs && s0.pcs[t] == GetLoadHead && s0.head == To(n)
    ensures Alone(s0, t, 2) == At(s0, t, GetAddRef(n, s0.cells[n].refs))
  {
    assert Alone(s0, t, 0) == s0;
    assert Alone(s0, t, 1) == At(s0, t, GetLoadRefs(n));
    var pc := GetAddRef(n, s0.cells[n].refs);
    assert s0.pcs[t := GetLoadRefs(n)][t := pc] == s0.pcs[t := pc];
  }

  lemma Counts(s: State, s0: State, t: Tid, n: Node)
    requires Total(s) && t in s.pcs && s0 == At(s, t, GetLoadHead)
    requires s.cells[n].refs == 1 && s.cells[n].holders == {}
    requires Alone(s0, t, 2) == At(s0, t, GetAddRef(n, 1))
    ensures Alone(s0, t, 4)
      == At(Put(s, n, s.cells[n].(refs := 2, holders := {t})), t, GetCas(n, s.cells[n].next))
  {
    AddsRef(s, t, n);
    assert s0.pcs[t := GetAddRef(n, 1)] == s.pcs[t := GetAddRef(n, 1)];
    assert Alone(s0, t, 3) == Advance(Alone(s0, t, 2), t);
    LoadsNext(s, t, n);
    assert Alone(s0, t, 4) == Advance(Alone(s0, t, 3), t);
  }

  lemma AddsRef(s: State, t: Tid, n: Node)
    requires Total(s) && t in s.pcs && s.cells[n].refs == 1 && s.cells[n].holders == {}
    ensures Advance(At(s, t, GetAddRef(n, 1)), t)
      == At(Put(s, n, s.cells[n].(refs := 2, holders := {t})), t, GetLoadNext(n))
  {
    assert {} + {t} == {t};
    assert s.pcs[t := GetAddRef(n, 1)][t := GetLoadNext(n)] == s.pcs[t := GetLoadNext(n)];
  }

  lemma LoadsNext(s: State, t: Tid, n: Node)
    requires Total(s) && t in s.pcs
    ensures var x := Put(s, n, s.cells[n].(refs := 2, holders := {t}));
      Total(x) && Advance(At(x, t, GetLoadNext(n)), t) == At(x, t, GetCas(n, s.cells[n].next))
  {
    assert s.pcs[t := GetLoadNext(n)][t := GetCas(n, s.cells[n].next)] == s.pcs[t := GetCas(n, s.cells[n].next)];
  }

  lemma Swings(s: State, s0: State, t: Tid, n: Node, next: Ptr)
    requires Total(s) && t in s.pcs && s.pcs[t].Outside? && s0 == At(s, t, GetLoadHead) && s.list != []
    requires s.head == To(n) && next == s.cells[n].next
    requires Alone(s0, t, 4) == At(Put(s, n, s.cells[n].(refs := 2, holders := {t})), t, GetCas(n, next))
    ensures Alone(s0, t, 5) == Swung(s, t, n, next)
    ensures Alone(s0, t, 6) == Put(s, n, Cell(0, next, Owned(t), {})).(head := next, list := s.list[1..])
  {
    SwingsHead(s, Alone(s0, t, 4), t, n, next);
    assert Alone(s0, t, 5) == Advance(Alone(s0, t, 4), t);
    TakesNode(s, t, n, next);
    assert Alone(s0, t, 6) == Advance(Alone(s0, t, 5), t);
  }

  ghost function Swung(s: State, t: Tid, n: Node, next: Ptr): State
    requires s.list != []
  {
    At(Put(s, n, Cell(2, next, Taken(t), {t})), t, GetTake(n)).(head := next, list := s.list[1..])
  }

  lemma SwingsHead(s: State, x: State, t: Tid, n: Node, next: Ptr)
    requires Total(s) && t in s.pcs && s.list != [] && s.head == To(n) && next == s.cells[n].next
    requires x == At(Put(s, n, s.cells[n].(refs := 2, holders := {t})), t, GetCas(n, next))
    ensures Total(x) && Advance(x, t) == Swung(s, t, n, next)
  {
    var c, d := s.cells[n].(refs := 2, holders := {t}), Cell(2, next, Taken(t), {t});
    assert s.cells[n := c][n := d] == s.cells[n := d];
    assert s.pcs[t := GetCas(n, next)][t := GetTake(n)] == s.pcs[t := GetTake(n)];
  }

  lemma TakesNode(s: State, t: Tid, n: Node, next: Ptr)
    requires Total(s) && t in s.pcs && s.pcs[t].Outside? && s.list != []
    ensures var x := Swung(s, t, n, next);
      Total(x) && Advance(x, t) == Put(s, n, Cell(0, next, Owned(t), {})).(head := next, list := s.list[1..])
  {
    var c, d := Cell(2, next, Taken(t), {t}), Cell(0, next, Owned(t), {});
    assert {t} - {t} == {};
    assert s.pcs[t := GetTake(n)][t := Outside] == s.pcs;
    assert s.cells[n := c][n := d] == s.cells[n := d];
  }

  /** What a lone try_get does: s' is the state after it, and before the state in front of its last operation. */
  ghost predicate Popped(s: State, t: Tid, before: State, s': State) {
    && s.list != [] && Total(s) && Total(s') && ThreadStep(before, t, s', Got(s.list[0]))
    && s'.list == s.list[1..] && s'.cells[s.list[0]].role == Owned(t) && s'.pcs == s.pcs
    && forall m: Node | m != s.list[0] :: s'.cells[m] == s.cells[m]
  }

  lemma LonePops(s: State, t: Tid)
    requires Quiet(s) && t in s.pcs && s.list != []
    ensures var s0 := At(s, t, GetLoadHead); Popped(s, t, Alone(s0, t, 5), Alone(s0, t, 6))
  {
    LonePop(s, t, s.list[0]);
    PopIsPopped(s, t, At(s, t, GetLoadHead), s.list[0], LinkAt(s.list, 1));
  }

  lemma PopIsPopped(s: State, t: Tid, s0: State, n: Node, next: Ptr)
    requires Total(s) && t in s.pcs && Total(s0) && t in s0.pcs && s.list != [] && n == s.list[0]
    requires Alone(s0, t, 5) == Swung(s, t, n, next)
    requires Alone(s0, t, 6) == Put(s, n, Cell(0, next, Owned(t), {})).(head := next, list := s.list[1..])
    ensures Popped(s, t, Alone(s0, t, 5), Alone(s0, t, 6))
  {
    assert Alone(s0, t, 6) == Advance(Alone(s0, t, 5), t);
  }

  lemma LoneMiss(s: State, t: Tid)
    requires Total(s) && t in s.pcs && s.pcs[t].Outside? && s.head == Null
    ensures Alone(At(s, t, GetLoadHead), t, 1) == s
  {
    assert s.pcs[t := GetLoadHead][t := Outside] == s.pcs;
    assert Alone(At(s, t, GetLoadHead), t, 0) == At(s, t, GetLoadHead);
  }

  /**
   From every reachable state in which nobody is inside an operation, a try_get that runs alone takes the
   first node off the list and hands it to its caller, or, if the list is empty, leaves everything as it was.
   */
  lemma LoneTryGet(states: seq<State>, events: seq<Event>, k: nat, t: Tid)
    requires Run(states, events) && k < |states| && t in states[k].pcs
    requires forall u | u in states[k].pcs :: states[k].pcs[u].Outside?
    ensures var s := states[k];
      var s0 := At(s, t, GetLoadHead);
      && Total(s) && ClientStep(s, t, s0, Internal)
      && (s.list == [] ==> Alone(s0, t, 1) == s)
      && (s.list != [] ==> Popped(s, t, Alone(s0, t, 5), Alone(s0, t, 6)))
  {
    RunKeepsInv(states, events, k);
    var s := states[k];
    assert Quiet(s);
    if s.list == [] {
      LoneMiss(s, t);
    } else {
      LonePops(s, t);
    }
  }

  /** From such a state, an add that runs alone puts a node of its caller in front of the list. */
  lemma LoneAdd(states: seq<State>, events: seq<Event>, k: nat, t: Tid, n: Node)
    requires Run(states, events) && k < |states| && t in states[k].pcs
    requires forall u | u in states[k].pcs :: states[k].pcs[u].Outside?
    requires n in states[k].cells && states[k].cells[n].role == Owned(t)
    ensures var s := states[k];
      var s0 := At(s, t, AddFlag(n));
      && Total(s) && ClientStep(s, t, s0, AddCalled(n))
      && Alone(s0, t, 5) == Put(s, n, Cell(1, s.head, Listed, {})).(head := To(n), list := [n] + s.list)
  {
    RunKeepsInv(states, events, k);
    QuietCell(states[k], n);
    LonePush(states[k], t, n);
  }

  /** The state of an add in which only the node and the place of its caller differ from s. */
  ghost function Adding(s: State, t: Tid, n: Node, c: Cell, pc: Pc): State {
    At(Put(s, n, c), t, pc)
  }

  lemma AddingAgain(s: State, t: Tid, n: Node, c: Cell, pc: Pc, c': Cell, pc': Pc)
    ensures At(Put(Adding(s, t, n, c, pc), n, c'), t, pc') == Adding(s, t, n, c', pc')
    ensures At(Adding(s, t, n, c, pc), t, pc') == Adding(s, t, n, c, pc')
  {
    assert s.cells[n := c][n := c'] == s.cells[n := c'];
    assert s.pcs[t := pc][t := pc'] == s.pcs[t := pc'];
  }

  lemma LinksNode(s: State, t: Tid, n: Node, c: Cell)
    requires Total(s) && t in s.pcs
    ensures var x := Adding(s, t, n, c, LinkLoadHead(n, ToCaller));
      Total(x) && Advance(x, t) == Adding(s, t, n, c, LinkStoreNext(n, s.head, ToCaller))
  {
    AddingAgain(s, t, n, c, LinkLoadHead(n, ToCaller), c, LinkStoreNext(n, s.head, ToCaller));
  }

  lemma StoresNext(s: State, t: Tid, n: Node, c: Cell)
    requires Total(s) && t in s.pcs
    ensures var x := Adding(s, t, n, c, LinkStoreNext(n, s.head, ToCaller));
      Total(x) && Advance(x, t) == Adding(s, t, n, c.(next := s.head), LinkStoreRefs(n, s.head, ToCaller))
  {
    AddingAgain(s, t, n, c, LinkStoreNext(n, s.head, ToCaller), c.(next := s.head), LinkStoreRefs(n, s.head, ToCaller));
  }

  lemma StoresRefs(s: State, t: Tid, n: Node, c: Cell)
    requires Total(s) && t in s.pcs
    ensures var x := Adding(s, t, n, c, LinkStoreRefs(n, s.head, ToCaller));
      Total(x) && Advance(x, t) == Adding(s, t, n, c.(refs := 1, role := Offered(t)), LinkCas(n, s.head, ToCaller))
  {
    AddingAgain(s, t, n, c, LinkStoreRefs(n, s.head, ToCaller), c.(refs := 1, role := Offered(t)),
                LinkCas(n, s.head, ToCaller));
  }

  lemma SwingsTo(s: State, t: Tid, n: Node, c: Cell)
    requires Total(s) && t in s.pcs && s.pcs[t].Outside?
    ensures var x := Adding(s, t, n, c, LinkCas(n, s.head, ToCaller));
      Total(x) && Advance(x, t) == Put(s, n, c.(role := Listed)).(head := To(n), list := [n] + s.list)
  {
    AddingAgain(s, t, n, c, LinkCas(n, s.head, ToCaller), c.(role := Listed), Outside);
    assert s.pcs[t := Outside] == s.pcs;
  }

  lemma LonePush(s: State, t: Tid, n: Node)
    requires Total(s) && t in s.pcs && s.pcs[t].Outside? && s.cells[n] == Cell(0, s.cells[n].next, Owned(t), {})
    ensures var s0 := At(s, t, AddFlag(n));
      Alone(s0, t, 5) == Put(s, n, Cell(1, s.head, Listed, {})).(head := To(n), list := [n] + s.list)
  {
    var s0, c := At(s, t, AddFlag(n)), s.cells[n].(refs := FLAG, role := Linking(t));
    assert Alone(s0, t, 0) == s0;
    assert s.pcs[t := AddFlag(n)][t := LinkLoadHead(n, ToCaller)] == s.pcs[t := LinkLoadHead(n, ToCaller)];
    assert Alone(s0, t, 1) == Adding(s, t, n, c, LinkLoadHead(n, ToCaller));
    LinksNode(s, t, n, c);
    assert Alone(s0, t, 2) == Advance(Alone(s0, t, 1), t);
    StoresNext(s, t, n, c);
    assert Alone(s0, t, 3) == Advance(Alone(s0, t, 2), t);
    LinkedIsFirst(s, s0, t, n, c.(next := s.head));
  }

  lemma LinkedIsFirst(s: State, s0: State, t: Tid, n: Node, c: Cell)
    requires Total(s) && t in s.pcs && s.pcs[t].Outside? && Total(s0) && t in s0.pcs
    requires c.holders == {} && c.next == s.head
    requires Alone(s0, t, 3) == Adding(s, t, n, c, LinkStoreRefs(n, s.head, ToCaller))
    ensures Alone(s0, t, 5) == Put(s, n, Cell(1, s.head, Listed, {})).(head := To(n), list := [n] + s.list)
  {
    StoresRefs(s, t, n, c);
    assert Alone(s0, t, 4) == Advance(Alone(s0, t, 3), t);
    SwingsTo(s, t, n, c.(refs := 1, role := Offered(t)));
    assert Alone(s0, t, 5) == Advance(Alone(s0, t, 4), t);
  }
}
