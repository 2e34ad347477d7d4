/**
 What a whole dequeue achieves: every operation of its thread brings it nearer to its end, whatever the others
 do in between, and one that runs alone takes the front element or finds the queue empty.
 */
module LoneQueue {
  import Tickets
  import BlockQueue
  import QueueProgress
  import opened WholeQueue

  // ---------------------------------------------------------------- any interleaving

  /** The operations a thread still has before it, at most, until its dequeue has ended. */
  function DequeueLeft(tp: Tickets.Pc, bp: BlockQueue.Consumer): nat {
    match tp
    case Outside => QueueProgress.ConsumerLeft(bp)
    case LoadOvercommit(_) => 15
    case LoadCount(_, _) => 14
    case TakeTicket(_) => 13
    case ReloadTail(_, _) => 12
    case ClaimIndex(_) => 11
    case GiveBack(_) => 1
    case Read(_, _) => QueueProgress.ConsumerLeft(bp)
  }

  function LeftOf<T>(s: State<T>, t: Tid): nat
    requires t in s.tickets.pcs && t in s.blocks.pcs
  {
    DequeueLeft(s.tickets.pcs[t], s.blocks.pcs[t])
  }

  /** Thread t is not inside a dequeue. */
  predicate IsAway<T>(s: State<T>, t: Tid) {
    t in s.tickets.pcs && t in s.blocks.pcs && s.tickets.pcs[t].Outside? && s.blocks.pcs[t].Idle?
  }

  /** One operation of a thread leaves every other thread where it is. */
  ghost predicate OthersStay<T>(s: State<T>, t: Tid, s': State<T>) {
    && s'.tickets.pcs.Keys == s.tickets.pcs.Keys && s'.blocks.pcs.Keys == s.blocks.pcs.Keys
    && t in s.tickets.pcs && t in s.blocks.pcs
    && forall u | u in s.tickets.pcs && u in s.blocks.pcs && u != t ::
         s'.tickets.pcs[u] == s.tickets.pcs[u] && s'.blocks.pcs[u] == s.blocks.pcs[u]
  }

  lemma TicketMoves<T>(tk: Tickets.State<T>, t: Tid)
    requires t in tk.pcs
    ensures var tk' := Tickets.Advance(tk, t);
      && tk'.pcs.Keys == tk.pcs.Keys && tk'.elements == tk.elements
      && (forall u | u in tk.pcs && u != t :: tk'.pcs[u] == tk.pcs[u])
      && tk'.head == tk.head + (if tk.pcs[t].ClaimIndex? then 1 else 0)
  {
  }

  /** Where an operation on the ticket leads. */
  predicate LeadsTo(pc: Tickets.Pc, head: nat, pc': Tickets.Pc) {
    match pc
    case Outside => pc'.LoadOvercommit?
    case LoadOvercommit(_) => pc'.LoadCount?
    case LoadCount(_, _) => pc'.TakeTicket? || pc'.Outside?
    case TakeTicket(_) => pc'.ReloadTail?
    case ReloadTail(_, _) => pc'.ClaimIndex? || pc'.GiveBack?
    case ClaimIndex(c) => pc' == Tickets.Read(c, head)
    case GiveBack(_) => pc'.Outside?
    case Read(_, _) => pc'.Outside?
  }

  lemma TicketAdvances<T>(tk: Tickets.State<T>, t: Tid)
    requires t in tk.pcs
    ensures LeadsTo(tk.pcs[t], tk.head, Tickets.Advance(tk, t).pcs[t])
  {
  }

  /** An operation of the ticket view alone. */
  lemma TicketOnly<T>(s: State<T>, t: Tid, s': State<T>)
    requires t in s.tickets.pcs && t in s.blocks.pcs && s.blocks.pcs[t].Idle? && !s.tickets.pcs[t].Read?
    requires s'.tickets == Tickets.Advance(s.tickets, t)
    requires !s.tickets.pcs[t].ClaimIndex? ==> s'.blocks == s.blocks
    requires s.tickets.pcs[t].ClaimIndex? ==> s'.blocks.pcs == s.blocks.pcs[t := BlockQueue.LoadIndex(s.tickets.head)]
    ensures OthersStay(s, t, s')
    ensures if IsAway(s, t) then LeftOf(s', t) == 15 else LeftOf(s', t) < LeftOf(s, t)
  {
    TicketMoves(s.tickets, t);
    TicketAdvances(s.tickets, t);
  }

  /** An operation on the block, with the delivery in the ticket view if it is the read. */
  lemma BlockMoves<T>(s: State<T>, t: Tid, s': State<T>)
    requires t in s.tickets.pcs && t in s.blocks.pcs && t in s'.blocks.pcs && !s.blocks.pcs[t].Idle?
    requires QueueProgress.Drawn(s.blocks, t, s'.blocks) && QueueProgress.OnlyMine(s.blocks, t, s'.blocks)
    requires s.tickets.pcs[t].Read? || s.tickets.pcs[t].Outside?
    requires s'.tickets == s.tickets || (s.tickets.pcs[t].Read? && s'.tickets == Tickets.Advance(s.tickets, t))
    ensures OthersStay(s, t, s') && LeftOf(s', t) < LeftOf(s, t)
  {
    TicketMoves(s.tickets, t);
    TicketAdvances(s.tickets, t);
  }

  /**
   A dequeue is wait-free: an operation of its own thread lowers what is left of it, and an operation of anyone
   else leaves it where it is. So it ends after at most sixteen operations of its thread.
   */
  lemma DequeueIsWaitFree<T(!new)>(s: State<T>, t: Tid, s': State<T>)
    requires Inv(s) && ConsumerStep(s, t, s')
    ensures OthersStay(s, t, s')
    ensures if IsAway(s, t) then LeftOf(s', t) == 15 else LeftOf(s', t) < LeftOf(s, t)
  {
    assert PcsAgree(s.tickets.pcs[t], s.blocks.pcs[t]);
    QueueProgress.ConsumerAdvances(s.blocks, t);
    if s.tickets.pcs[t].ClaimIndex? {
      Tickets.ClaimKeepsInv(s.tickets, t);
      TicketOnly(s, t, s');
    } else if s.blocks.pcs[t].Idle? {
      TicketOnly(s, t, s');
    } else {
      BlockMoves(s, t, s');
    }
  }

  /** The producer leaves every dequeue where it is. */
  lemma ProducerDelaysNobody<T(!new)>(s: State<T>, x: T, ok: bool, block: nat, s': State<T>)
    requires ProducerStep(s, x, ok, block, s')
    ensures s'.tickets.pcs == s.tickets.pcs && s'.blocks.pcs == s.blocks.pcs
  {
    ProducerLeavesConsumers(s.blocks, x, ok, block, s'.blocks);
  }

  // ---------------------------------------------------------------- one thread alone

  /** A sequence of operations of thread t with nobody else moving. */
  ghost predicate Own<T(!new)>(own: seq<State<T>>, t: Tid) {
    own != [] && forall i | 0 <= i < |own| - 1 :: OwnStep(own, i, t)
  }

  ghost predicate OwnStep<T(!new)>(own: seq<State<T>>, i: nat, t: Tid)
    requires i + 1 < |own|
  {
    ConsumerStep(own[i], t, own[i + 1])
  }

  function End<T>(own: seq<State<T>>): State<T>
    requires own != []
  {
    own[|own| - 1]
  }

  lemma OwnFrom<T(!new)>(s: State<T>, rest: seq<State<T>>, t: Tid)
    requires Own(rest, t) && ConsumerStep(s, t, rest[0])
    ensures Own([s] + rest, t) && End([s] + rest) == End(rest) && |[s] + rest| == |rest| + 1
  {
    var own := [s] + rest;
    forall i | 0 <= i < |own| - 1 ensures OwnStep(own, i, t) {
      if i > 0 {
        assert OwnStep(rest, i - 1, t);
      }
    }
  }

  lemma OwnJoined<T(!new)>(front: seq<State<T>>, rest: seq<State<T>>, t: Tid)
    requires Own(front, t) && Own(rest, t) && End(front) == rest[0]
    ensures Own(front + rest[1..], t) && End(front + rest[1..]) == End(rest)
  {
    var own := front + rest[1..];
    forall i | 0 <= i < |own| - 1 ensures OwnStep(own, i, t) {
      if i < |front| - 1 {
        assert OwnStep(front, i, t);
      } else {
        assert OwnStep(rest, i + 1 - |front|, t);
        assert own[i] == rest[i + 1 - |front|] && own[i + 1] == rest[i + 2 - |front|];
      }
    }
  }

  /** The elements that the last operations of a dequeue deliver: that of its index, if it has yet to be read. */
  function Delivering<T>(s: State<T>, t: Tid): map<nat, T>
    requires t in s.tickets.pcs
  {
    var pc := s.tickets.pcs[t];
    if pc.Read? && pc.index < |s.blocks.items| then s.blocks.out[pc.index := s.blocks.items[pc.index]] else s.blocks.out
  }

  /** One operation on the block of a dequeue that has its index. */
  lemma GoesOn<T(!new)>(s: State<T>, t: Tid) returns (s': State<T>)
    requires Inv(s) && t in s.tickets.pcs && (s.tickets.pcs[t].Read? || s.tickets.pcs[t].Outside?) && !IsAway(s, t)
    ensures ConsumerStep(s, t, s') && Inv(s')
    ensures t in s'.tickets.pcs && (s'.tickets.pcs[t].Read? || s'.tickets.pcs[t].Outside?)
    ensures Delivering(s', t) == Delivering(s, t)
    ensures s'.blocks.items == s.blocks.items && s'.blocks.head == s.blocks.head
  {
    assert PcsAgree(s.tickets.pcs[t], s.blocks.pcs[t]);
    if s.blocks.pcs[t].Take? {
      s' := State(Tickets.Advance(s.tickets, t), BlockQueue.Consume(s.blocks, t));
      TakeKeepsInv(s, t, s');
      QueueProgress.TakeDelivers(s.blocks, t);
      Delivers(s, t, s');
    } else {
      s' := s.(blocks := BlockQueue.Consume(s.blocks, t));
      LookupKeepsInv(s, t, s');
      QueueProgress.TakeDelivers(s.blocks, t);
      BlockQueue.NoFault(s.blocks, t);
      LooksOn(s, t, s');
    }
  }

  lemma LooksOn<T(!new)>(s: State<T>, t: Tid, s': State<T>)
    requires BlockQueue.Shape(s.blocks) && t in s.tickets.pcs && t in s.blocks.pcs
    requires (s.tickets.pcs[t].Read? || s.tickets.pcs[t].Outside?)
    requires IsLooking(s.blocks.pcs[t]) || IsReleasing(s.blocks.pcs[t])
    requires s' == s.(blocks := BlockQueue.Consume(s.blocks, t))
    ensures ConsumerStep(s, t, s') && Delivering(s', t) == Delivering(s, t)
    ensures s'.blocks.items == s.blocks.items && s'.blocks.head == s.blocks.head
  {
    HeadStays(s.blocks, t);
  }

  lemma HeadStays<T>(b: BlockQueue.State<T>, t: Tid)
    requires BlockQueue.Shape(b) && t in b.pcs && (IsLooking(b.pcs[t]) || IsReleasing(b.pcs[t]))
    ensures SameElements(b, BlockQueue.Consume(b, t))
  {
    var pc := OnlyPlaceMoves(b, t);
  }

  /** The read takes the element out that was still to be delivered. */
  lemma Delivers<T(!new)>(s: State<T>, t: Tid, s': State<T>)
    requires BlockQueue.Shape(s.blocks) && t in s.tickets.pcs && t in s.blocks.pcs && s.blocks.pcs[t].Take?
    requires s.tickets.pcs[t].Read? && s.tickets.pcs[t].index == s.blocks.pcs[t].i < |s.blocks.items|
    requires s' == State(Tickets.Advance(s.tickets, t), BlockQueue.Consume(s.blocks, t))
    requires var i := s.blocks.pcs[t].i; s'.blocks.out == s.blocks.out[i := s.blocks.items[i]]
    ensures ConsumerStep(s, t, s') && t in s'.tickets.pcs && s'.tickets.pcs[t].Outside?
    ensures Delivering(s', t) == Delivering(s, t)
    ensures s'.blocks.items == s.blocks.items && s'.blocks.head == s.blocks.head
  {
    TicketAdvances(s.tickets, t);
    TakeMoves(s.blocks, t);
  }

  /** From the claim to the end. */
  lemma Finishes<T(!new)>(s: State<T>, t: Tid) returns (own: seq<State<T>>)
    requires Inv(s) && t in s.tickets.pcs && (s.tickets.pcs[t].Read? || s.tickets.pcs[t].Outside?)
    ensures Own(own, t) && own[0] == s && |own| <= LeftOf(s, t) + 1
    ensures Inv(End(own)) && IsAway(End(own), t) && OthersStay(s, t, End(own))
    ensures End(own).blocks.out == Delivering(s, t)
    ensures End(own).blocks.items == s.blocks.items && End(own).blocks.head == s.blocks.head
    decreases LeftOf(s, t)
  {
    if IsAway(s, t) {
      own := [s];
    } else {
      var s' := GoesOn(s, t);
      DequeueIsWaitFree(s, t, s');
      var rest := Finishes(s', t);
      OwnFrom(s, rest, t);
      own := [s] + rest;
    }
  }

  /** One operation on the ticket, before the index is claimed. */
  lemma TicketGoesOn<T(!new)>(s: State<T>, t: Tid, k: nat, s': State<T>)
    requires Inv(s) && Small(s, k) && k + 1 < Tickets.RANGE / 2 && t in s.tickets.pcs && s.blocks.pcs[t].Idle?
    requires !s.tickets.pcs[t].ClaimIndex? && !s.tickets.pcs[t].Read?
    requires s' == s.(tickets := Tickets.Advance(s.tickets, t))
    ensures ConsumerStep(s, t, s') && Inv(s') && Small(s', k + 1) && OthersStay(s, t, s')
  {
    Tickets.SmallCountersCompareNear(s.tickets);
    TicketKeepsInv(s, t, s');
    OneTicketMoves(s.tickets, t);
    TicketStep(s, t, s');
    TicketMoves(s.tickets, t);
  }

  lemma TicketStep<T(!new)>(s: State<T>, t: Tid, s': State<T>)
    requires t in s.tickets.pcs && t in s.blocks.pcs && BlockQueue.Shape(s.blocks) && s.blocks.pcs[t].Idle?
    requires !s.tickets.pcs[t].ClaimIndex? && !s.tickets.pcs[t].Read?
    requires s' == s.(tickets := Tickets.Advance(s.tickets, t))
    ensures ConsumerStep(s, t, s')
  {
  }

  lemma OwnOne<T(!new)>(front: seq<State<T>>, s': State<T>, t: Tid)
    requires Own(front, t) && ConsumerStep(End(front), t, s')
    ensures Own(front + [s'], t) && End(front + [s']) == s'
  {
    var own := front + [s'];
    forall i | 0 <= i < |own| - 1 ensures OwnStep(own, i, t) {
      if i < |front| - 1 {
        assert OwnStep(front, i, t);
      }
    }
  }

  lemma Stays<T(!new)>(own: seq<State<T>>, t: Tid)
    requires |own| == 1
    ensures Own(own, t) && End(own) == own[0]
  {
  }

  lemma MoveTwice<T>(tk: Tickets.State<T>, t: Tid, pc: Tickets.Pc, pc': Tickets.Pc)
    ensures Tickets.Move(Tickets.Move(tk, t, pc), t, pc') == Tickets.Move(tk, t, pc')
  {
    assert tk.pcs[t := pc][t := pc'] == tk.pcs[t := pc'];
  }

  /** The loads and the check of a lone dequeue in the ticket view, given what it has loaded. */
  lemma LoadsTail<T>(tk: Tickets.State<T>, t: Tid)
    requires t in tk.pcs && tk.pcs[t].Outside?
    ensures Tickets.Advance(tk, t) == Tickets.Move(tk, t, Tickets.LoadOvercommit(tk.Tail()))
  {
  }

  lemma LoadsOvercommit<T>(tk: Tickets.State<T>, t: Tid, tail: nat)
    requires t in tk.pcs
    ensures Tickets.Advance(Tickets.Move(tk, t, Tickets.LoadOvercommit(tail)), t)
         == Tickets.Move(tk, t, Tickets.LoadCount(tail, tk.over))
  {
    MoveTwice(tk, t, Tickets.LoadOvercommit(tail), Tickets.LoadCount(tail, tk.over));
  }

  lemma Checks<T>(tk: Tickets.State<T>, t: Tid)
    requires t in tk.pcs && tk.count == tk.head + tk.over && Tickets.Near(tk.head, tk.Tail())
    ensures Tickets.Advance(Tickets.Move(tk, t, Tickets.LoadCount(tk.Tail(), tk.over)), t)
         == Tickets.Move(tk, t, if tk.head < tk.Tail() then Tickets.TakeTicket(tk.over) else Tickets.Outside)
  {
    var pc := if tk.head < tk.Tail() then Tickets.TakeTicket(tk.over) else Tickets.Outside;
    Tickets.CheckResult(Tickets.Move(tk, t, Tickets.LoadCount(tk.Tail(), tk.over)), t);
    MoveTwice(tk, t, Tickets.LoadCount(tk.Tail(), tk.over), pc);
  }

  /** A state that differs from s only in where t is with its ticket. */
  function MovedTo<T>(s: State<T>, t: Tid, pc: Tickets.Pc): State<T> {
    s.(tickets := Tickets.Move(s.tickets, t, pc))
  }

  ghost predicate IsReady<T>(s: State<T>, t: Tid, k: nat) {
    && Inv(s) && Small(s, k) && k + 5 < Tickets.RANGE / 2 && IsAway(s, t)
    && s.tickets.count == s.tickets.head + s.tickets.over
  }

  /** Three operations: the two loads and the check. */
  lemma LooksForOne<T(!new)>(s: State<T>, t: Tid, k: nat) returns (own: seq<State<T>>)
    requires IsReady(s, t, k)
    ensures Own(own, t) && own[0] == s && |own| == 4 && Inv(End(own)) && Small(End(own), k + 3)
    ensures End(own) == MovedTo(s, t, if s.tickets.head < s.tickets.Tail() then Tickets.TakeTicket(s.tickets.over)
                                      else Tickets.Outside)
  {
    var one := MovedTo(s, t, Tickets.LoadOvercommit(s.tickets.Tail()));
    var two := MovedTo(s, t, Tickets.LoadCount(s.tickets.Tail(), s.tickets.over));
    var three := MovedTo(s, t, if s.tickets.head < s.tickets.Tail() then Tickets.TakeTicket(s.tickets.over)
                               else Tickets.Outside);
    LoadsTail(s.tickets, t);
    TicketGoesOn(s, t, k, one);
    LoadsOvercommit(s.tickets, t, s.tickets.Tail());
    TicketGoesOn(one, t, k + 1, two);
    Checks(s.tickets, t);
    TicketGoesOn(two, t, k + 2, three);
    own := FourStates(s, one, two, three, t);
  }

  lemma FourStates<T(!new)>(s: State<T>, one: State<T>, two: State<T>, three: State<T>, t: Tid)
    returns (own: seq<State<T>>)
    requires ConsumerStep(s, t, one) && ConsumerStep(one, t, two) && ConsumerStep(two, t, three)
    ensures own == [s, one, two, three] && Own(own, t)
  {
    Stays([s], t);
    OwnOne([s], one, t);
    OwnOne([s, one], two, t);
    OwnOne([s, one, two], three, t);
    own := [s, one, two, three];
    assert own == [s] + [one] + [two] + [three];
  }

  /** Thread t is about to claim an index, and that is the one at the head. */
  predicate Claiming<T>(tk: Tickets.State<T>, t: Tid, head: nat) {
    t in tk.pcs && tk.pcs[t].ClaimIndex? && tk.head == head
  }

  lemma TicketTaken<T>(tk: Tickets.State<T>, t: Tid)
    requires t in tk.pcs && tk.pcs[t].TakeTicket?
    ensures Tickets.Advance(tk, t).pcs[t] == Tickets.ReloadTail(tk.pcs[t].over, tk.count)
    ensures Tickets.Advance(tk, t).Tail() == tk.Tail() && Tickets.Advance(tk, t).head == tk.head
  {
  }

  lemma TicketPasses<T>(tk: Tickets.State<T>, t: Tid)
    requires t in tk.pcs && tk.pcs[t].ReloadTail? && tk.pcs[t].ticket - tk.pcs[t].over == tk.head < tk.Tail()
    requires Tickets.Near(tk.head, tk.Tail())
    ensures Claiming(Tickets.Advance(tk, t), t, tk.head)
  {
    Tickets.IndexLessIsLess(tk.head, tk.Tail());
  }

  /** Two more operations: the ticket, and the second look at the tail. */
  lemma GetsTicket<T(!new)>(s: State<T>, t: Tid, k: nat) returns (drawn: State<T>, passed: State<T>)
    requires Inv(s) && Small(s, k) && k + 2 < Tickets.RANGE / 2 && t in s.tickets.pcs && s.blocks.pcs[t].Idle?
    requires s.tickets.pcs[t].TakeTicket?
    requires s.tickets.count - s.tickets.pcs[t].over == s.tickets.head < s.tickets.Tail()
    ensures ConsumerStep(s, t, drawn) && ConsumerStep(drawn, t, passed) && Inv(passed)
    ensures OthersStay(s, t, drawn) && OthersStay(drawn, t, passed)
    ensures passed.blocks == s.blocks && Claiming(passed.tickets, t, s.tickets.head)
  {
    drawn := s.(tickets := Tickets.Advance(s.tickets, t));
    TicketTaken(s.tickets, t);
    TicketGoesOn(s, t, k, drawn);
    passed := s.(tickets := Tickets.Advance(drawn.tickets, t));
    TicketPasses(drawn.tickets, t);
    TicketGoesOn(drawn, t, k + 1, passed);
  }

  /** The claim takes the index at the head. */
  lemma Claims<T(!new)>(s: State<T>, t: Tid) returns (s': State<T>)
    requires Inv(s) && t in s.tickets.pcs && s.tickets.pcs[t].ClaimIndex?
    ensures ConsumerStep(s, t, s') && Inv(s') && s'.tickets == Tickets.Advance(s.tickets, t)
    ensures t in s'.tickets.pcs && s'.tickets.pcs[t].Read?
    ensures s'.tickets.pcs[t].index == s.tickets.head < s.tickets.Tail()
    ensures s'.blocks.items == s.blocks.items && s'.blocks.out == s.blocks.out && s'.blocks.head == s.blocks.head + 1
    ensures OthersStay(s, t, s') && LeftOf(s', t) <= 10
  {
    assert PcsAgree(s.tickets.pcs[t], s.blocks.pcs[t]);
    s' := State(Tickets.Advance(s.tickets, t), BlockQueue.Consume(s.blocks, t));
    Tickets.ClaimKeepsInv(s.tickets, t);
    ClaimKeepsInv(s, t, s');
    TicketAdvances(s.tickets, t);
    ClaimMoves(s.blocks, t);
    DequeueIsWaitFree(s, t, s');
  }

  lemma ClaimMoves<T>(b: BlockQueue.State<T>, t: Tid)
    requires BlockQueue.Shape(b) && t in b.pcs && b.pcs[t].Idle? && b.head < b.Tail()
    ensures var b' := BlockQueue.Consume(b, t); b'.items == b.items && b'.out == b.out && b'.head == b.head + 1
  {
  }

  /** Nobody is inside a dequeue. */
  ghost predicate IsQuiet<T>(s: State<T>) {
    forall t | t in s.tickets.pcs :: IsAway(s, t)
  }

  lemma StayTwice<T>(s: State<T>, t: Tid, s1: State<T>, s2: State<T>)
    requires OthersStay(s, t, s1) && OthersStay(s1, t, s2)
    ensures OthersStay(s, t, s2)
  {
  }

  lemma QuietAgain<T>(s: State<T>, t: Tid, s': State<T>)
    requires IsQuiet(s) && OthersStay(s, t, s') && IsAway(s', t)
    ensures IsQuiet(s')
  {
    forall u | u in s'.tickets.pcs ensures IsAway(s', u) {
      assert IsAway(s, u);
    }
  }

  /** The front element of s, and nothing else, has come out in s'. */
  ghost predicate TookFront<T>(s: State<T>, s': State<T>) {
    var b, b' := s.blocks, s'.blocks;
    && b.head < |b.items| && b'.items == b.items && b'.head == b.head + 1
    && b'.out == b.out[b.head := b.items[b.head]]
  }

  /** The claim and the work on the block, one after the other. */
  lemma Takes<T(!new)>(s: State<T>, t: Tid) returns (claimed: State<T>, rest: seq<State<T>>)
    requires Inv(s) && Claiming(s.tickets, t, s.tickets.head)
    ensures ConsumerStep(s, t, claimed) && Own(rest, t) && rest[0] == claimed && |rest| <= 11
    ensures OthersStay(s, t, claimed) && OthersStay(claimed, t, End(rest)) && IsAway(End(rest), t)
    ensures TookFront(s, End(rest))
  {
    claimed := Claims(s, t);
    rest := Finishes(claimed, t);
  }

  /** From the check to the end. */
  lemma DrawsAndTakes<T(!new)>(s: State<T>, t: Tid, k: nat) returns (own: seq<State<T>>)
    requires Inv(s) && Small(s, k) && k + 2 < Tickets.RANGE / 2 && t in s.tickets.pcs && s.blocks.pcs[t].Idle?
    requires s.tickets.pcs[t].TakeTicket?
    requires s.tickets.count - s.tickets.pcs[t].over == s.tickets.head < s.tickets.Tail()
    ensures Own(own, t) && own[0] == s && |own| <= 14 && OthersStay(s, t, End(own)) && IsAway(End(own), t)
    ensures TookFront(s, End(own))
  {
    var drawn, passed := GetsTicket(s, t, k);
    var claimed, rest := Takes(passed, t);
    StayTwice(s, t, drawn, passed);
    StayTwice(s, t, passed, claimed);
    StayTwice(s, t, claimed, End(rest));
    OwnFrom(passed, rest, t);
    OwnFrom(drawn, [passed] + rest, t);
    OwnFrom(s, [drawn] + ([passed] + rest), t);
    own := [s] + ([drawn] + ([passed] + rest));
  }

  lemma MovedHome<T>(s: State<T>, t: Tid)
    requires IsAway(s, t)
    ensures MovedTo(s, t, Tickets.Outside) == s
  {
    assert s.tickets.pcs[t := Tickets.Outside] == s.tickets.pcs;
  }

  /** Moving t in the ticket view leaves the others alone. */
  lemma MovedStays<T>(s: State<T>, t: Tid, pc: Tickets.Pc)
    requires IsAway(s, t)
    ensures OthersStay(s, t, MovedTo(s, t, pc))
  {
  }

  lemma DequeuesAlone<T(!new)>(s: State<T>, t: Tid, k: nat) returns (own: seq<State<T>>)
    requires IsReady(s, t, k)
    ensures Own(own, t) && own[0] == s && |own| <= 17
    ensures if s.tickets.head < s.tickets.Tail()
            then OthersStay(s, t, End(own)) && IsAway(End(own), t) && TookFront(s, End(own)) else End(own) == s
  {
    own := LooksForOne(s, t, k);
    if s.tickets.head < s.tickets.Tail() {
      var checked := End(own);
      var rest := DrawsAndTakes(checked, t, k + 3);
      MovedStays(s, t, Tickets.TakeTicket(s.tickets.over));
      StayTwice(s, t, checked, End(rest));
      OwnJoined(own, rest, t);
      own := own + rest[1..];
    } else {
      MovedHome(s, t);
    }
  }

  /**
   A whole dequeue that runs alone in a quiet reachable state ends within sixteen operations. If there is an
   element it takes the front one, and that is all that has happened to the contents; else nothing has changed.
   */
  lemma LoneDequeueTakesTheFront<T(!new)>(run: seq<State<T>>, k: nat, t: Tid) returns (own: seq<State<T>>)
    requires Run(run) && k < |run| && |run| + 16 < Tickets.RANGE / 2 && IsQuiet(run[k]) && t in run[k].tickets.pcs
    ensures Own(own, t) && own[0] == run[k] && |own| <= 17
    ensures if run[k].blocks.head < |run[k].blocks.items| then
              IsQuiet(End(own)) && TookFront(run[k], End(own)) && run[k].blocks.head !in run[k].blocks.out
            else End(own) == run[k]
  {
    QuietQueueIsFifo(run, k);
    RunKeepsInv(run, k);
    assert IsAway(run[k], t);
    own := DequeuesAlone(run[k], t, k);
    if run[k].blocks.head < |run[k].blocks.items| {
      QuietAgain(run[k], t, End(own));
    }
  }
}
