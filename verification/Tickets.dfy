/**
 How any number of consumers share one producer's queue without locks. A consumer takes a ticket from
 the optimistic counter and compares it, less the overcommit it saw before, with the tail; it then
 either claims the next index at the head or adds to the overcommit. Every load and every fetch_add
 is one step, and the steps of all threads interleave freely.
 */
module Tickets {

  type Tid = nat

  /** Number of values of the 64-bit index type. */
  const RANGE: nat := 0x1_0000_0000_0000_0000

  function Wrap(i: int): nat {
    i % RANGE
  }

  /** The comparison the code uses on wrapped indices. */
  predicate CircularLess(a: nat, b: nat)
    requires a < RANGE && b < RANGE
  {
    Wrap(a - b) > RANGE / 2
  }

  /** It is the plain order exactly while the indices are less than half the range apart. */
  lemma CircularLessIsLess(a: int, b: int)
    requires -(RANGE / 2) <= a - b <= RANGE / 2
    ensures CircularLess(Wrap(a), Wrap(b)) <==> a < b && b - a < RANGE / 2
  {
    WrapDifference(a, b);
  }

  lemma WrapDifference(a: int, b: int)
    ensures Wrap(Wrap(a) - Wrap(b)) == Wrap(a - b)
  {
    var i, j := a / RANGE, b / RANGE;
    assert a == i * RANGE + Wrap(a) && b == j * RANGE + Wrap(b);
    assert a - b == (i - j) * RANGE + (Wrap(a) - Wrap(b));
    WrapShift(Wrap(a) - Wrap(b), i - j);
  }

  lemma {:induction false} WrapShift(x: int, k: int)
    ensures Wrap(k * RANGE + x) == Wrap(x)
    decreases if k < 0 then -k else k
  {
    if k > 0 {
      WrapShift(x, k - 1);
      assert k * RANGE + x == ((k - 1) * RANGE + x) + RANGE;
    } else if k < 0 {
      WrapShift(x, k + 1);
      assert k * RANGE + x == ((k + 1) * RANGE + x) - RANGE;
    }
  }

  // ---------------------------------------------------------------- the machine

  /** The next atomic operation of a consumer, with the values it has read so far. */
  datatype Pc =
    | Outside
    | LoadOvercommit(tail: nat)
    | LoadCount(tail: nat, over: nat)
    | TakeTicket(over: nat)
    | ReloadTail(over: nat, ticket: nat)
    | ClaimIndex(ticket: nat)
    | GiveBack(ticket: nat)
    | Read(ticket: nat, index: nat)

  /** History: what became of each ticket, and the overcommit its holder had seen. */
  datatype Ticket =
    | Waiting(holder: Tid, over: nat)
    | Passing(holder: Tid, over: nat)
    | Failing(holder: Tid)
    | Claimed(holder: Tid, over: nat, index: nat)
    | Delivered(over: nat, index: nat)
    | Failed
  {
    predicate IsFailed() { Failed? }
    predicate IsClaimed() { Claimed? || Delivered? }
    predicate IsPassed() { Passing? || Claimed? || Delivered? }
    predicate IsInFlight() { Waiting? || Passing? || Failing? }
  }

  /**
   The counters count everything that ever happened; the machine compares them wrapped. The history
   holds every element enqueued (the tail is its length), the tickets in the order taken (the
   optimistic count is its length), and which ticket claimed each index.
   */
  datatype State<T> = State(elements: seq<T>, head: nat, count: nat, over: nat, pcs: map<Tid, Pc>,
                            tickets: seq<Ticket>, claims: seq<nat>, delivered: map<nat, T>)
  {
    function Tail(): nat { |elements| }
  }

  predicate IndexLess(a: int, b: int) {
    CircularLess(Wrap(a), Wrap(b))
  }

  function Move<T>(s: State<T>, t: Tid, pc: Pc): State<T> {
    s.(pcs := s.pcs[t := pc])
  }

  function Mark<T>(s: State<T>, c: nat, k: Ticket): State<T> {
    s.(tickets := if c < |s.tickets| then s.tickets[c := k] else s.tickets)
  }

  /** The effect of the next atomic operation of a consumer inside dequeue. */
  function Advance<T>(s: State<T>, t: Tid): State<T>
    requires t in s.pcs
  {
    match s.pcs[t]
    case Outside => Move(s, t, LoadOvercommit(s.Tail()))
    case LoadOvercommit(tail) => Move(s, t, LoadCount(tail, s.over))
    case LoadCount(tail, over) => Move(s, t, if IndexLess(s.count - over, tail) then TakeTicket(over) else Outside)
    case TakeTicket(over) =>
      Move(s, t, ReloadTail(over, s.count)).(count := s.count + 1, tickets := s.tickets + [Waiting(t, over)])
    case ReloadTail(over, c) =>
      if IndexLess(c - over, s.Tail()) then Mark(Move(s, t, ClaimIndex(c)), c, Passing(t, over))
      else Mark(Move(s, t, GiveBack(c)), c, Failing(t))
    case ClaimIndex(c) =>
      var over := if c < |s.tickets| && s.tickets[c].Passing? then s.tickets[c].over else 0;
      Mark(Move(s, t, Read(c, s.head)), c, Claimed(t, over, s.head)).(head := s.head + 1, claims := s.claims + [c])
    case GiveBack(c) => Mark(Move(s, t, Outside), c, Failed).(over := s.over + 1)
    case Read(c, i) =>
      var over := if c < |s.tickets| && s.tickets[c].Claimed? then s.tickets[c].over else 0;
      Mark(Move(s, t, Outside), c, Delivered(over, i))
      .(delivered := if i < |s.elements| then s.delivered[i := s.elements[i]] else s.delivered)
  }

  /** The two values that a comparison is about to compare are less than half the range apart. */
  predicate Near(a: int, b: int) {
    -(RANGE / 2) < a - b < RANGE / 2
  }

  ghost predicate ComparesNear<T>(s: State<T>) {
    && (forall t | t in s.pcs && s.pcs[t].LoadCount? :: Near(s.count - s.pcs[t].over, s.pcs[t].tail))
    && (forall t | t in s.pcs && s.pcs[t].ReloadTail? :: Near(s.pcs[t].ticket - s.pcs[t].over, s.Tail()))
  }

  ghost predicate Init<T>(s: State<T>) {
    && s.elements == [] && s.head == s.count == s.over == 0 && s.tickets == [] && s.claims == [] && s.delivered == map[]
    && forall t | t in s.pcs :: s.pcs[t] == Outside
  }

  ghost predicate Enqueue<T(!new)>(s: State<T>, s': State<T>) {
    exists x: T :: s' == s.(elements := s.elements + [x])
  }

  ghost predicate Next<T(!new)>(s: State<T>, s': State<T>) {
    Enqueue(s, s') || exists t | t in s.pcs :: s' == Advance(s, t)
  }

  ghost predicate Follows<T(!new)>(run: seq<State<T>>, i: nat)
    requires i + 1 < |run|
  {
    ComparesNear(run[i]) && Next(run[i], run[i + 1])
  }

  ghost predicate Run<T(!new)>(run: seq<State<T>>) {
    run != [] && Init(run[0]) && forall i | 0 <= i < |run| - 1 :: Follows(run, i)
  }

  // ---------------------------------------------------------------- counting tickets

  ghost function Count(ts: seq<Ticket>, p: Ticket -> bool): nat {
    if ts == [] then 0
    else Count(ts[..|ts| - 1], p) + if p(ts[|ts| - 1]) then 1 else 0
  }

  const FAILED := (k: Ticket) => k.IsFailed()
  const CLAIMED := (k: Ticket) => k.IsClaimed()
  const PASSED := (k: Ticket) => k.IsPassed()

  lemma CountSnoc(ts: seq<Ticket>, k: Ticket, p: Ticket -> bool)
    ensures Count(ts + [k], p) == Count(ts, p) + if p(k) then 1 else 0
  {
    assert (ts + [k])[..|ts|] == ts;
  }

  lemma {:induction false} CountUpdate(ts: seq<Ticket>, c: nat, k: Ticket, p: Ticket -> bool)
    requires c < |ts|
    ensures Count(ts[c := k], p) + (if p(ts[c]) then 1 else 0) == Count(ts, p) + if p(k) then 1 else 0
    decreases |ts|
  {
    var n := |ts| - 1;
    if c == n {
      assert ts[c := k][..n] == ts[..n];
    } else {
      assert ts[c := k][..n] == ts[..n][c := k];
      CountUpdate(ts[..n], c, k, p);
    }
  }

  /** A ticket that turns from another state to Failed never lowers the failures before any other ticket. */
  lemma FailuresOnlyGrow(ts: seq<Ticket>, c: nat, k: Ticket, d: nat)
    requires c < |ts| && d <= |ts| && !ts[c].IsFailed()
    ensures Count(ts[..d], FAILED) <= Count(ts[c := k][..d], FAILED)
  {
    if c < d {
      assert ts[c := k][..d] == ts[..d][c := k];
      CountUpdate(ts[..d], c, k, FAILED);
    } else {
      assert ts[c := k][..d] == ts[..d];
    }
  }

  lemma {:induction false} PassedAndFailedAreDisjoint(ts: seq<Ticket>)
    ensures Count(ts, PASSED) + Count(ts, FAILED) <= |ts|
    decreases |ts|
  {
    if ts != [] { PassedAndFailedAreDisjoint(ts[..|ts| - 1]); }
  }

  lemma {:induction false} ClaimedIsPassed(ts: seq<Ticket>)
    ensures Count(ts, CLAIMED) <= Count(ts, PASSED)
    decreases |ts|
  {
    if ts != [] { ClaimedIsPassed(ts[..|ts| - 1]); }
  }

  lemma {:induction false} PassingIsNotYetClaimed(ts: seq<Ticket>, c: nat)
    requires c < |ts| && ts[c].Passing?
    ensures Count(ts, CLAIMED) < Count(ts, PASSED)
    decreases |ts|
  {
    var n := |ts| - 1;
    if c == n { ClaimedIsPassed(ts[..n]); } else { PassingIsNotYetClaimed(ts[..n], c); }
  }

  predicate HasOver(k: Ticket) {
    k.Waiting? || k.Passing? || k.Claimed? || k.Delivered?
  }

  /** The overcommit a holder saw counts only failures of tickets taken before its own. */
  ghost predicate OversAreOld(ts: seq<Ticket>) {
    forall c | 0 <= c < |ts| && HasOver(ts[c]) :: ts[c].over <= Count(ts[..c], FAILED)
  }

  ghost predicate PassedBelow(ts: seq<Ticket>, tail: nat) {
    forall c | 0 <= c < |ts| && ts[c].IsPassed() :: c - ts[c].over < tail
  }

  /** The heart of the protocol: no more tickets pass than elements have been enqueued. */
  lemma {:induction false} PassedFit(ts: seq<Ticket>, tail: nat)
    requires OversAreOld(ts) && PassedBelow(ts, tail)
    ensures Count(ts, PASSED) <= tail
    decreases |ts|
  {
    if ts != [] {
      var c := |ts| - 1;
      if ts[c].IsPassed() {
        PassedAndFailedAreDisjoint(ts[..c]);
        assert ts[c].over <= Count(ts[..c], FAILED);
      } else {
        forall d | 0 <= d < c && HasOver(ts[..c][d]) ensures ts[..c][d].over <= Count(ts[..c][..d], FAILED) {
          assert ts[..c][..d] == ts[..d] && ts[..c][d] == ts[d];
        }
        PassedFit(ts[..c], tail);
      }
    }
  }

  // ---------------------------------------------------------------- invariant

  /** A ticket that is still open is in the hands of the thread that holds it. */
  predicate TicketLink(k: Ticket, c: nat, pcs: map<Tid, Pc>) {
    match k
    case Waiting(t, over) => t in pcs && pcs[t] == ReloadTail(over, c)
    case Passing(t, _) => t in pcs && pcs[t] == ClaimIndex(c)
    case Failing(t) => t in pcs && pcs[t] == GiveBack(c)
    case Claimed(t, _, i) => t in pcs && pcs[t] == Read(c, i)
    case _ => true
  }

  predicate PcLink(pc: Pc, t: Tid, ts: seq<Ticket>) {
    match pc
    case ReloadTail(over, c) => c < |ts| && ts[c] == Waiting(t, over)
    case ClaimIndex(c) => c < |ts| && ts[c].Passing? && ts[c].holder == t
    case GiveBack(c) => c < |ts| && ts[c] == Failing(t)
    case Read(c, i) => c < |ts| && ts[c].Claimed? && ts[c].holder == t && ts[c].index == i
    case _ => true
  }

  ghost predicate Links(pcs: map<Tid, Pc>, ts: seq<Ticket>) {
    && (forall c | 0 <= c < |ts| :: TicketLink(ts[c], c, pcs))
    && (forall t | t in pcs :: PcLink(pcs[t], t, ts))
  }

  /** What a consumer has read is never ahead of the shared counters. */
  predicate SeenOk(pc: Pc, over: nat) {
    match pc
    case LoadCount(_, o) => o <= over
    case TakeTicket(o) => o <= over
    case _ => true
  }

  /** Each claimed index has one ticket, each claimed ticket one index, and delivery hands out what was enqueued. */
  ghost predicate ClaimsOk<T>(ts: seq<Ticket>, claims: seq<nat>, delivered: map<nat, T>, elements: seq<T>) {
    && (forall i | 0 <= i < |claims| :: claims[i] < |ts| && ts[claims[i]].IsClaimed() && ts[claims[i]].index == i)
    && (forall c | 0 <= c < |ts| && ts[c].IsClaimed() :: ts[c].index < |claims| && claims[ts[c].index] == c)
    && (forall i | 0 <= i < |claims| :: i in delivered <==> ts[claims[i]].Delivered?)
    && (forall i | i in delivered :: i < |claims| && i < |elements| && delivered[i] == elements[i])
  }

  predicate IsInFlight(pc: Pc) {
    pc.ReloadTail? || pc.ClaimIndex? || pc.GiveBack?
  }

  function InFlight(pcs: map<Tid, Pc>): set<Tid> {
    set t | t in pcs && IsInFlight(pcs[t])
  }

  ghost predicate CountersOk<T>(s: State<T>) {
    && s.count == |s.tickets|
    && s.over == Count(s.tickets, FAILED)
    && s.head == |s.claims| == Count(s.tickets, CLAIMED)
    && s.count == s.head + s.over + |InFlight(s.pcs)|
  }

  ghost predicate Inv<T>(s: State<T>) {
    && CountersOk(s)
    && OversAreOld(s.tickets) && PassedBelow(s.tickets, s.Tail())
    && Links(s.pcs, s.tickets)
    && (forall t | t in s.pcs :: SeenOk(s.pcs[t], s.over))
    && ClaimsOk(s.tickets, s.claims, s.delivered, s.elements)
  }

  // ---------------------------------------------------------------- each step keeps it

  lemma InFlightMove(pcs: map<Tid, Pc>, t: Tid, pc: Pc)
    requires t in pcs
    ensures |InFlight(pcs[t := pc])| + (if IsInFlight(pcs[t]) then 1 else 0)
         == |InFlight(pcs)| + if IsInFlight(pc) then 1 else 0
  {
    var a, b := InFlight(pcs), InFlight(pcs[t := pc]);
    assert b == if IsInFlight(pc) then a + {t} else a - {t};
  }

  lemma LinksMark(pcs: map<Tid, Pc>, ts: seq<Ticket>, t: Tid, pc: Pc, c: nat, k: Ticket)
    requires Links(pcs, ts) && t in pcs && c < |ts|
    requires TicketLink(ts[c], c, pcs) ==> IsInFlight(pcs[t]) || pcs[t].Read?
    requires !ts[c].Delivered? && !ts[c].Failed? && ts[c].holder == t
    requires TicketLink(k, c, pcs[t := pc]) && PcLink(pc, t, ts[c := k])
    ensures Links(pcs[t := pc], ts[c := k])
  {
    var pcs', ts' := pcs[t := pc], ts[c := k];
    forall d | 0 <= d < |ts'| ensures TicketLink(ts'[d], d, pcs') {
      assert TicketLink(ts[d], d, pcs) && TicketLink(ts[c], c, pcs);
    }
    forall u | u in pcs' ensures PcLink(pcs'[u], u, ts') {
      assert PcLink(pcs[u], u, ts);
    }
  }

  lemma LinksMove(pcs: map<Tid, Pc>, ts: seq<Ticket>, t: Tid, pc: Pc)
    requires Links(pcs, ts) && t in pcs
    requires !IsInFlight(pcs[t]) && !pcs[t].Read? && !IsInFlight(pc) && !pc.Read?
    ensures Links(pcs[t := pc], ts)
  {
    var pcs' := pcs[t := pc];
    forall d | 0 <= d < |ts| ensures TicketLink(ts[d], d, pcs') {
      assert TicketLink(ts[d], d, pcs);
    }
    forall u | u in pcs' ensures PcLink(pcs'[u], u, ts) {
      assert PcLink(pcs[u], u, ts);
    }
  }

  lemma LinksTake(pcs: map<Tid, Pc>, ts: seq<Ticket>, t: Tid, over: nat)
    requires Links(pcs, ts) && t in pcs && pcs[t].TakeTicket?
    ensures Links(pcs[t := ReloadTail(over, |ts|)], ts + [Waiting(t, over)])
  {
    var pcs', ts' := pcs[t := ReloadTail(over, |ts|)], ts + [Waiting(t, over)];
    forall d | 0 <= d < |ts'| ensures TicketLink(ts'[d], d, pcs') {
      if d < |ts| { assert TicketLink(ts[d], d, pcs); }
    }
    forall u | u in pcs' ensures PcLink(pcs'[u], u, ts') {
      assert PcLink(pcs[u], u, ts);
    }
  }

  lemma OversMark(ts: seq<Ticket>, c: nat, k: Ticket)
    requires OversAreOld(ts) && c < |ts| && !ts[c].IsFailed()
    requires HasOver(k) ==> HasOver(ts[c]) && k.over == ts[c].over
    ensures OversAreOld(ts[c := k])
  {
    var ts' := ts[c := k];
    forall d | 0 <= d < |ts'| && HasOver(ts'[d]) ensures ts'[d].over <= Count(ts'[..d], FAILED) {
      FailuresOnlyGrow(ts, c, k, d);
    }
  }

  lemma OversTake(ts: seq<Ticket>, k: Ticket)
    requires OversAreOld(ts) && (HasOver(k) ==> k.over <= Count(ts, FAILED))
    ensures OversAreOld(ts + [k])
  {
    var ts' := ts + [k];
    forall d | 0 <= d < |ts'| && HasOver(ts'[d]) ensures ts'[d].over <= Count(ts'[..d], FAILED) {
      if d < |ts| { assert ts'[..d] == ts[..d] && ts'[d] == ts[d]; } else { assert ts'[..d] == ts; }
    }
  }

  lemma ClaimsMark<T>(ts: seq<Ticket>, claims: seq<nat>, delivered: map<nat, T>, elements: seq<T>, c: nat, k: Ticket)
    requires ClaimsOk(ts, claims, delivered, elements) && c < |ts| && !ts[c].IsClaimed() && !k.IsClaimed()
    ensures ClaimsOk(ts[c := k], claims, delivered, elements)
  {
  }

  lemma ClaimsClaim<T>(ts: seq<Ticket>, claims: seq<nat>, delivered: map<nat, T>, elements: seq<T>, c: nat, k: Ticket)
    requires ClaimsOk(ts, claims, delivered, elements) && c < |ts| && !ts[c].IsClaimed()
    requires k.Claimed? && k.index == |claims|
    ensures ClaimsOk(ts[c := k], claims + [c], delivered, elements)
  {
  }

  lemma ClaimsDeliver<T>(ts: seq<Ticket>, claims: seq<nat>, delivered: map<nat, T>, elements: seq<T>, c: nat, k: Ticket)
    requires ClaimsOk(ts, claims, delivered, elements) && c < |ts| && ts[c].Claimed?
    requires k.Delivered? && k.index == ts[c].index < |elements|
    ensures k.index !in delivered
    ensures ClaimsOk(ts[c := k], claims, delivered[k.index := elements[k.index]], elements)
  {
    assert claims[ts[c].index] == c;
  }

  lemma PassedMark(ts: seq<Ticket>, tail: nat, c: nat, k: Ticket)
    requires PassedBelow(ts, tail) && c < |ts| && (k.IsPassed() ==> c - k.over < tail)
    ensures PassedBelow(ts[c := k], tail)
  {
  }

  lemma EnqueueKeepsInv<T(!new)>(s: State<T>, s': State<T>)
    requires Inv(s) && Enqueue(s, s')
    ensures Inv(s')
  {
    assert s.elements <= s'.elements;
  }

  /** The steps that only read. */
  lemma MoveKeepsInv<T>(s: State<T>, t: Tid, pc: Pc)
    requires Inv(s) && t in s.pcs
    requires !IsInFlight(s.pcs[t]) && !s.pcs[t].Read? && !IsInFlight(pc) && !pc.Read? && SeenOk(pc, s.over)
    ensures Inv(Move(s, t, pc))
  {
    InFlightMove(s.pcs, t, pc);
    LinksMove(s.pcs, s.tickets, t, pc);
  }

  lemma TakeKeepsInv<T>(s: State<T>, t: Tid)
    requires Inv(s) && t in s.pcs && s.pcs[t].TakeTicket?
    ensures Inv(Advance(s, t))
  {
    var over := s.pcs[t].over;
    var k := Waiting(t, over);
    InFlightMove(s.pcs, t, ReloadTail(over, s.count));
    LinksTake(s.pcs, s.tickets, t, over);
    CountSnoc(s.tickets, k, FAILED);
    CountSnoc(s.tickets, k, CLAIMED);
    assert SeenOk(s.pcs[t], s.over);
    OversTake(s.tickets, k);
  }

  /** What any change of the holder's own ticket needs; the claims are dealt with apart. */
  lemma MarkKeeps<T>(s: State<T>, t: Tid, pc: Pc, c: nat, k: Ticket)
    requires Inv(s) && t in s.pcs && c < |s.tickets|
    requires !s.tickets[c].Delivered? && !s.tickets[c].Failed? && s.tickets[c].holder == t
    requires IsInFlight(s.pcs[t]) || s.pcs[t].Read?
    requires TicketLink(k, c, s.pcs[t := pc]) && PcLink(pc, t, s.tickets[c := k])
    requires HasOver(k) ==> HasOver(s.tickets[c]) && k.over == s.tickets[c].over
    requires k.IsPassed() ==> c - k.over < s.Tail()
    ensures Links(s.pcs[t := pc], s.tickets[c := k])
    ensures OversAreOld(s.tickets[c := k]) && PassedBelow(s.tickets[c := k], s.Tail())
    ensures Count(s.tickets[c := k], FAILED) == s.over + if k.Failed? then 1 else 0
    ensures Count(s.tickets[c := k], CLAIMED) + (if s.tickets[c].IsClaimed() then 1 else 0)
         == s.head + if k.IsClaimed() then 1 else 0
    ensures |InFlight(s.pcs[t := pc])| + (if IsInFlight(s.pcs[t]) then 1 else 0)
         == |InFlight(s.pcs)| + if IsInFlight(pc) then 1 else 0
  {
    InFlightMove(s.pcs, t, pc);
    LinksMark(s.pcs, s.tickets, t, pc, c, k);
    CountUpdate(s.tickets, c, k, FAILED);
    CountUpdate(s.tickets, c, k, CLAIMED);
    OversMark(s.tickets, c, k);
    PassedMark(s.tickets, s.Tail(), c, k);
  }

  lemma IndexLessIsLess(a: int, b: int)
    requires Near(a, b)
    ensures IndexLess(a, b) <==> a < b
  {
    CircularLessIsLess(a, b);
  }

  lemma CheckResult<T>(s: State<T>, t: Tid)
    requires t in s.pcs && s.pcs[t].LoadCount? && Near(s.count - s.pcs[t].over, s.pcs[t].tail)
    ensures Advance(s, t)
      == Move(s, t, if s.count - s.pcs[t].over < s.pcs[t].tail then TakeTicket(s.pcs[t].over) else Outside)
  {
    IndexLessIsLess(s.count - s.pcs[t].over, s.pcs[t].tail);
  }

  lemma DecidedMarks<T>(s: State<T>, t: Tid, over: nat, c: nat, pc: Pc, k: Ticket)
    requires Inv(s) && t in s.pcs && s.pcs[t] == ReloadTail(over, c) && PcLink(s.pcs[t], t, s.tickets)
    requires (pc == ClaimIndex(c) && k == Passing(t, over) && c - over < s.Tail())
      || (pc == GiveBack(c) && k == Failing(t))
    ensures c < |s.tickets| && !s.tickets[c].IsClaimed() && !k.IsClaimed()
    ensures Links(s.pcs[t := pc], s.tickets[c := k])
    ensures OversAreOld(s.tickets[c := k]) && PassedBelow(s.tickets[c := k], s.Tail())
    ensures Count(s.tickets[c := k], FAILED) == s.over && Count(s.tickets[c := k], CLAIMED) == s.head
    ensures |InFlight(s.pcs[t := pc])| == |InFlight(s.pcs)|
  {
    MarkKeeps(s, t, pc, c, k);
  }

  lemma DecidedKeepsInv<T>(s: State<T>, t: Tid, over: nat, c: nat, pc: Pc, k: Ticket)
    requires Inv(s) && t in s.pcs && s.pcs[t] == ReloadTail(over, c) && PcLink(s.pcs[t], t, s.tickets)
    requires (pc == ClaimIndex(c) && k == Passing(t, over) && c - over < s.Tail())
      || (pc == GiveBack(c) && k == Failing(t))
    ensures Inv(Mark(Move(s, t, pc), c, k))
  {
    DecidedMarks(s, t, over, c, pc, k);
    ClaimsMark(s.tickets, s.claims, s.delivered, s.elements, c, k);
    var s' := Mark(Move(s, t, pc), c, k);
    assert s'.tickets == s.tickets[c := k] && s'.pcs == s.pcs[t := pc];
    assert CountersOk(s');
  }

  lemma DecideResult<T>(s: State<T>, t: Tid, over: nat, c: nat)
    requires t in s.pcs && s.pcs[t] == ReloadTail(over, c) && Near(c - over, s.Tail())
    ensures Advance(s, t) == if c - over < s.Tail() then Mark(Move(s, t, ClaimIndex(c)), c, Passing(t, over))
                             else Mark(Move(s, t, GiveBack(c)), c, Failing(t))
  {
    IndexLessIsLess(c - over, s.Tail());
  }

  lemma DecideKeepsInv<T>(s: State<T>, t: Tid, s': State<T>)
    requires Inv(s) && t in s.pcs && s.pcs[t].ReloadTail? && s' == Advance(s, t)
    requires Near(s.pcs[t].ticket - s.pcs[t].over, s.Tail())
    ensures Inv(s')
  {
    var over, c := s.pcs[t].over, s.pcs[t].ticket;
    DecideResult(s, t, over, c);
    assert PcLink(s.pcs[t], t, s.tickets);
    if c - over < s.Tail() {
      DecidedKeepsInv(s, t, over, c, ClaimIndex(c), Passing(t, over));
      assert s' == Mark(Move(s, t, ClaimIndex(c)), c, Passing(t, over));
    } else {
      DecidedKeepsInv(s, t, over, c, GiveBack(c), Failing(t));
      assert s' == Mark(Move(s, t, GiveBack(c)), c, Failing(t));
    }
  }

  /** A consumer that claims an index claims one that has been enqueued. */
  lemma ClaimKeepsInv<T>(s: State<T>, t: Tid)
    requires Inv(s) && t in s.pcs && s.pcs[t].ClaimIndex?
    ensures Inv(Advance(s, t))
    ensures s.head < s.Tail()
  {
    var c := s.pcs[t].ticket;
    assert PcLink(s.pcs[t], t, s.tickets);
    PassingIsNotYetClaimed(s.tickets, c);
    PassedFit(s.tickets, s.Tail());
    var k := Claimed(t, s.tickets[c].over, s.head);
    MarkKeeps(s, t, Read(c, s.head), c, k);
    ClaimsClaim(s.tickets, s.claims, s.delivered, s.elements, c, k);
  }

  lemma GiveBackKeepsInv<T>(s: State<T>, t: Tid)
    requires Inv(s) && t in s.pcs && s.pcs[t].GiveBack?
    ensures Inv(Advance(s, t))
  {
    var c := s.pcs[t].ticket;
    assert PcLink(s.pcs[t], t, s.tickets);
    MarkKeeps(s, t, Outside, c, Failed);
    ClaimsMark(s.tickets, s.claims, s.delivered, s.elements, c, Failed);
    SeenStaysOk(s.pcs, s.over, t);
  }

  lemma SeenStaysOk(pcs: map<Tid, Pc>, over: nat, t: Tid)
    requires t in pcs && forall u | u in pcs :: SeenOk(pcs[u], over)
    ensures forall u | u in pcs :: SeenOk(pcs[t := Outside][u], over + 1)
  {
    forall u | u in pcs ensures SeenOk(pcs[t := Outside][u], over + 1) {
      assert SeenOk(pcs[u], over);
    }
  }

  /** What a consumer reads was enqueued, and nobody has read it before. */
  lemma ReadKeepsInv<T>(s: State<T>, t: Tid)
    requires Inv(s) && t in s.pcs && s.pcs[t].Read?
    ensures Inv(Advance(s, t))
    ensures s.pcs[t].index < s.Tail() && s.pcs[t].index !in s.delivered
  {
    var c, i := s.pcs[t].ticket, s.pcs[t].index;
    assert PcLink(s.pcs[t], t, s.tickets);
    ClaimedIsPassed(s.tickets);
    PassedFit(s.tickets, s.Tail());
    var k := Delivered(s.tickets[c].over, i);
    MarkKeeps(s, t, Outside, c, k);
    ClaimsDeliver(s.tickets, s.claims, s.delivered, s.elements, c, k);
  }

  lemma AdvanceKeepsInv<T(!new)>(s: State<T>, t: Tid)
    requires Inv(s) && ComparesNear(s) && t in s.pcs
    ensures Inv(Advance(s, t))
  {
    assert SeenOk(s.pcs[t], s.over);
    match s.pcs[t]
    case Outside => MoveKeepsInv(s, t, LoadOvercommit(s.Tail()));
    case LoadOvercommit(tail) => MoveKeepsInv(s, t, LoadCount(tail, s.over));
    case LoadCount(_, _) => CheckResult(s, t); MoveKeepsInv(s, t, Advance(s, t).pcs[t]);
    case TakeTicket(_) => TakeKeepsInv(s, t);
    case ReloadTail(_, _) => DecideKeepsInv(s, t, Advance(s, t));
    case ClaimIndex(_) => ClaimKeepsInv(s, t);
    case GiveBack(_) => GiveBackKeepsInv(s, t);
    case Read(_, _) => ReadKeepsInv(s, t);
  }

  lemma NextKeepsInv<T(!new)>(s: State<T>, s': State<T>)
    requires Inv(s) && ComparesNear(s) && Next(s, s')
    ensures Inv(s')
  {
    if Enqueue(s, s') {
      EnqueueKeepsInv(s, s');
    } else {
      var t :| t in s.pcs && s' == Advance(s, t);
      AdvanceKeepsInv(s, t);
    }
  }

  lemma InitIsInv<T>(s: State<T>)
    requires Init(s)
    ensures Inv(s)
  {
    assert InFlight(s.pcs) == {};
  }

  lemma {:induction false} RunKeepsInv<T(!new)>(run: seq<State<T>>, k: nat)
    requires Run(run) && k < |run|
    ensures Inv(run[k])
    decreases k
  {
    if k == 0 {
      InitIsInv(run[0]);
    } else {
      RunKeepsInv(run, k - 1);
      assert Follows(run, k - 1);
      NextKeepsInv(run[k - 1], run[k]);
    }
  }

  // ---------------------------------------------------------------- runs that are short enough

  predicate TailIsOld(pc: Pc, tail: nat) {
    pc.LoadOvercommit? || pc.LoadCount? ==> pc.tail <= tail
  }

  /** A tail that a consumer has loaded is not ahead of the tail. */
  ghost predicate TailsAreOld<T>(s: State<T>) {
    forall t | t in s.pcs :: TailIsOld(s.pcs[t], s.Tail())
  }

  /** While fewer than half the range of tickets and elements exist, every comparison is between near values. */
  lemma SmallCountersCompareNear<T>(s: State<T>)
    requires Inv(s) && TailsAreOld(s) && s.count < RANGE / 2 && s.Tail() < RANGE / 2
    ensures ComparesNear(s)
  {
    forall t | t in s.pcs && s.pcs[t].LoadCount? ensures Near(s.count - s.pcs[t].over, s.pcs[t].tail) {
      assert SeenOk(s.pcs[t], s.over) && TailIsOld(s.pcs[t], s.Tail());
    }
    forall t | t in s.pcs && s.pcs[t].ReloadTail? ensures Near(s.pcs[t].ticket - s.pcs[t].over, s.Tail()) {
      var c := s.pcs[t].ticket;
      assert PcLink(s.pcs[t], t, s.tickets);
      CountAtMost(s.tickets[..c], FAILED);
    }
  }

  lemma {:induction false} CountAtMost(ts: seq<Ticket>, p: Ticket -> bool)
    ensures Count(ts, p) <= |ts|
  {
    if ts != [] {
      CountAtMost(ts[..|ts| - 1], p);
    }
  }

  /** A run with no hypothesis on the comparisons. */
  ghost predicate FreeRun<T(!new)>(run: seq<State<T>>) {
    run != [] && Init(run[0]) && forall i | 0 <= i < |run| - 1 :: Steps(run, i)
  }

  ghost predicate Steps<T(!new)>(run: seq<State<T>>, i: nat)
    requires i + 1 < |run|
  {
    Next(run[i], run[i + 1])
  }

  lemma StepsAreSmall<T(!new)>(s: State<T>, s': State<T>)
    requires Next(s, s') && TailsAreOld(s)
    ensures TailsAreOld(s') && s'.count <= s.count + 1 && s'.Tail() <= s.Tail() + 1
  {
    if !Enqueue(s, s') {
      var t :| t in s.pcs && s' == Advance(s, t);
      assert TailIsOld(s.pcs[t], s.Tail());
      AdvanceIsSmall(s, t);
    }
    forall u | u in s'.pcs ensures TailIsOld(s'.pcs[u], s'.Tail()) {
      if u in s.pcs {
        assert TailIsOld(s.pcs[u], s.Tail());
      }
    }
  }

  /** An operation of one consumer leaves the places of the others, the elements, and nearly the count. */
  lemma AdvanceIsSmall<T(!new)>(s: State<T>, t: Tid)
    requires t in s.pcs && TailIsOld(s.pcs[t], s.Tail())
    ensures var s' := Advance(s, t);
      && s'.count <= s.count + 1 && s'.elements == s.elements
      && s'.pcs.Keys == s.pcs.Keys && TailIsOld(s'.pcs[t], s'.Tail())
      && forall u | u in s.pcs && u != t :: s'.pcs[u] == s.pcs[u]
  {
  }

  lemma {:induction false} FreeRunKeepsInv<T(!new)>(run: seq<State<T>>, k: nat)
    requires FreeRun(run) && k < |run| < RANGE / 2
    ensures Inv(run[k]) && TailsAreOld(run[k]) && run[k].count <= k && run[k].Tail() <= k
    decreases k
  {
    if k == 0 {
      InitIsInv(run[0]);
    } else {
      FreeRunKeepsInv(run, k - 1);
      assert Steps(run, k - 1);
      SmallCountersCompareNear(run[k - 1]);
      NextKeepsInv(run[k - 1], run[k]);
      StepsAreSmall(run[k - 1], run[k]);
    }
  }

  /** Every run of fewer than 2^63 operations compares near values only, so all that follows holds of it. */
  lemma ShortRunsAreRuns<T(!new)>(run: seq<State<T>>)
    requires FreeRun(run) && |run| < RANGE / 2
    ensures Run(run)
  {
    forall i | 0 <= i < |run| - 1 ensures Follows(run, i) {
      FreeRunKeepsInv(run, i);
      SmallCountersCompareNear(run[i]);
      assert Steps(run, i);
    }
  }

  // ---------------------------------------------------------------- what the consumers see

  /**
   In every reachable state the head has not passed the tail, the optimistic count is the head plus the
   overcommit plus the consumers in flight, and the indices below the head are claimed once each.
   */
  lemma HeadNeverPassesTail<T(!new)>(run: seq<State<T>>, k: nat)
    requires Run(run) && k < |run|
    ensures var s := run[k];
            && s.head <= s.Tail()
            && s.count == s.head + s.over + |InFlight(s.pcs)|
            && |s.claims| == s.head
            && (forall i, j | 0 <= i < j < |s.claims| :: s.claims[i] != s.claims[j])
  {
    RunKeepsInv(run, k);
    var s := run[k];
    ClaimedIsPassed(s.tickets);
    PassedFit(s.tickets, s.Tail());
  }

  /** A consumer about to claim finds an element at the head, and one about to read finds its own, unread. */
  lemma ClaimsAreEnqueued<T(!new)>(run: seq<State<T>>, k: nat, t: Tid)
    requires Run(run) && k < |run| && t in run[k].pcs
    ensures run[k].pcs[t].ClaimIndex? ==> run[k].head < run[k].Tail()
    ensures run[k].pcs[t].Read? ==> run[k].pcs[t].index < run[k].head <= run[k].Tail()
    ensures run[k].pcs[t].Read? ==> run[k].pcs[t].index !in run[k].delivered
  {
    RunKeepsInv(run, k);
    HeadNeverPassesTail(run, k);
    var s := run[k];
    assert PcLink(s.pcs[t], t, s.tickets);
    if s.pcs[t].ClaimIndex? { ClaimKeepsInv(s, t); }
    if s.pcs[t].Read? { ReadKeepsInv(s, t); }
  }

  /** When no consumer is inside dequeue, exactly the elements below the head have been handed out. */
  lemma QuietStateHandedOutThePrefix<T(!new)>(run: seq<State<T>>, k: nat)
    requires Run(run) && k < |run| && forall t | t in run[k].pcs :: run[k].pcs[t] == Outside
    ensures var s := run[k];
            && s.head <= s.Tail() && s.count == s.head + s.over
            && (forall i: nat :: i in s.delivered <==> i < s.head)
            && (forall i | i in s.delivered :: s.delivered[i] == s.elements[i])
  {
    RunKeepsInv(run, k);
    HeadNeverPassesTail(run, k);
    var s := run[k];
    assert InFlight(s.pcs) == {};
    forall i: nat ensures i in s.delivered <==> i < s.head {
      if i < s.head { assert TicketLink(s.tickets[s.claims[i]], s.claims[i], s.pcs); }
    }
  }

  /** The state after n operations of one consumer with nobody else moving. */
  function Alone<T>(s: State<T>, t: Tid, n: nat): (s': State<T>)
    requires t in s.pcs
    ensures s'.pcs.Keys == s.pcs.Keys
  {
    if n == 0 then s else Advance(Alone(s, t, n - 1), t)
  }

  lemma LoneLoads<T>(s: State<T>, t: Tid)
    requires t in s.pcs && s.pcs[t].Outside?
    ensures Alone(s, t, 2) == Move(s, t, LoadCount(s.Tail(), s.over))
  {
    assert Alone(s, t, 0) == s;
    assert Alone(s, t, 1) == Move(s, t, LoadOvercommit(s.Tail()));
    assert s.pcs[t := LoadOvercommit(s.Tail())][t := LoadCount(s.Tail(), s.over)]
        == s.pcs[t := LoadCount(s.Tail(), s.over)];
  }

  lemma LoneCheck<T>(s: State<T>, t: Tid)
    requires t in s.pcs && s.pcs[t].Outside? && s.count == s.head + s.over && Near(s.head, s.Tail())
    ensures Alone(s, t, 3) == Move(s, t, if s.head < s.Tail() then TakeTicket(s.over) else Outside)
  {
    LoneLoads(s, t);
    CheckResult(Move(s, t, LoadCount(s.Tail(), s.over)), t);
    var pc := if s.head < s.Tail() then TakeTicket(s.over) else Outside;
    assert s.pcs[t := LoadCount(s.Tail(), s.over)][t := pc] == s.pcs[t := pc];
  }

  lemma LoneClaim<T>(s: State<T>, s3: State<T>, t: Tid)
    requires t in s.pcs && s3 == Move(s, t, TakeTicket(s.over))
    requires s.count == |s.tickets| == s.head + s.over && Near(s.head, s.Tail()) && s.head < s.Tail()
    ensures Advance(Advance(Advance(s3, t), t), t).pcs[t] == Read(s.count, s.head)
  {
    var s4 := Advance(s3, t);
    assert s4.pcs[t] == ReloadTail(s.over, s.count) && s4.Tail() == s.Tail() && s4.head == s.head;
    IndexLessIsLess(s.count - s.over, s4.Tail());
    var s5 := Advance(s4, t);
    assert s5.pcs[t] == ClaimIndex(s.count) && s5.head == s.head;
  }

  /** From a quiet state a lone dequeue claims the element at the head exactly when there is one. */
  lemma LoneDequeue<T(!new)>(run: seq<State<T>>, k: nat, t: Tid)
    requires Run(run) && k < |run| && t in run[k].pcs
    requires forall u | u in run[k].pcs :: run[k].pcs[u] == Outside
    requires Near(run[k].head, run[k].Tail())
    ensures var s := run[k];
            if s.head < s.Tail() then Alone(s, t, 6).pcs[t] == Read(s.count, s.head)
            else Alone(s, t, 3) == s
  {
    QuietStateHandedOutThePrefix(run, k);
    RunKeepsInv(run, k);
    LoneOutcome(run[k], t);
  }

  lemma LoneOutcome<T>(s: State<T>, t: Tid)
    requires t in s.pcs && s.pcs[t].Outside?
    requires s.count == |s.tickets| == s.head + s.over && Near(s.head, s.Tail())
    ensures if s.head < s.Tail() then Alone(s, t, 6).pcs[t] == Read(s.count, s.head)
            else Alone(s, t, 3) == s
  {
    LoneCheck(s, t);
    if s.head < s.Tail() {
      LoneClaim(s, Alone(s, t, 3), t);
      assert Alone(s, t, 4) == Advance(Alone(s, t, 3), t);
      assert Alone(s, t, 5) == Advance(Alone(s, t, 4), t);
    } else {
      assert s.pcs[t := Outside] == s.pcs;
    }
  }
}
