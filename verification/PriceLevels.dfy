/**
 The orders of a price level as the book keeps them, in a hive. Each place in the hive has a cell number of
 its own for as long as an order rests there; seen through these numbers, the operations on the hive are the
 ones that the book model makes on the orders of a level, and the front of a level is one of its orders.
 */
module PriceLevels {
  import opened Types
  import opened BookModel
  import opened HiveGroup
  import HiveBlock
  import Hive
  import Progress

  type Place = (Group<Order>, nat)

  // ---------------------------------------------------------------- numbering the places

  /** The number of each place in use, and back. */
  datatype Numbers<P> = Numbers(cells: map<P, nat>, places: map<nat, P>)

  /** Every place that holds something has a number of its own, and the level holds the same under that number. */
  ghost predicate Stands<P, T>(m: map<P, T>, ns: Numbers<P>, resting: map<nat, T>) {
    && ns.cells.Keys == m.Keys && ns.places.Keys == resting.Keys
    && (forall p | p in m :: ns.cells[p] in resting && ns.places[ns.cells[p]] == p && resting[ns.cells[p]] == m[p])
    && (forall c | c in resting :: ns.places[c] in m && ns.cells[ns.places[c]] == c)
  }

  lemma StandsEmpty<P, T>(m: map<P, T>, ns: Numbers<P>, resting: map<nat, T>)
    requires Stands(m, ns, resting)
    ensures resting == map[] <==> m == map[]
  {
    if m != map[] {
      var p :| p in m;
      assert ns.cells[p] in resting;
    }
    if resting != map[] {
      var c :| c in resting;
      assert ns.places[c] in m;
    }
  }

  /** No place has another number than before. */
  ghost predicate Keeps<P>(ns: Numbers<P>, ns': Numbers<P>) {
    forall p | p in ns.cells && p in ns'.cells :: ns'.cells[p] == ns.cells[p]
  }

  lemma StandsAfterInsert<P, T>(m: map<P, T>, ns: Numbers<P>, resting: map<nat, T>, p: P, x: T, c: nat)
    returns (ns': Numbers<P>, resting': map<nat, T>)
    requires Stands(m, ns, resting) && p !in m && c !in resting
    ensures resting' == resting[c := x] && Stands(m[p := x], ns', resting') && Keeps(ns, ns')
  {
    ns', resting' := Numbers(ns.cells[p := c], ns.places[c := p]), resting[c := x];
  }

  lemma StandsAfterErase<P, T>(m: map<P, T>, ns: Numbers<P>, resting: map<nat, T>, p: P)
    returns (ns': Numbers<P>, resting': map<nat, T>)
    requires Stands(m, ns, resting) && p in m
    ensures resting' == resting - {ns.cells[p]} && Stands(m - {p}, ns', resting') && Keeps(ns, ns')
  {
    ns', resting' := Numbers(ns.cells - {p}, ns.places - {ns.cells[p]}), resting - {ns.cells[p]};
  }

  lemma StandsAfterAssign<P, T>(m: map<P, T>, ns: Numbers<P>, resting: map<nat, T>, p: P, x: T)
    returns (resting': map<nat, T>)
    requires Stands(m, ns, resting) && p in m
    ensures resting' == resting[ns.cells[p] := x] && Stands(m[p := x], ns, resting')
  {
    resting' := resting[ns.cells[p] := x];
    assert m[p := x].Keys == m.Keys && resting'.Keys == resting.Keys;
  }

  /** An order that is used up is taken out after it has been reduced. */
  lemma FilledInTwoSteps(resting: map<nat, Order>, c: nat, m: nat)
    requires c in resting && m <= resting[c].qty
    ensures var left := Reduced(resting[c], m);
      Filled(resting, c, m) == if left.qty == 0 then resting[c := left] - {c} else resting[c := left]
  {
    var left := Reduced(resting[c], m);
    assert resting[c := left] - {c} == resting - {c};
  }

  // ---------------------------------------------------------------- the level

  class PriceLevel {
    const orders: Hive.Hive<Order>

    /** The cell numbers of the places in use, and the orders by cell number, as the book model has them. */
    ghost var numbers: Numbers<Place>
    ghost var resting: map<nat, Order>

    ghost predicate Valid()
      reads this, orders, orders.repr
    {
      this !in orders.repr && orders.Valid() && Stands(orders.Elements(), numbers, resting)
    }

    /** The iterator (k, i) points to the order in a cell. */
    ghost predicate Points(k: nat, i: nat, cell: nat)
      reads this, orders
    {
      && Hive.LivesAt(orders.groups, orders.views, k, i)
      && (orders.groups[k], i) in numbers.cells && numbers.cells[(orders.groups[k], i)] == cell && cell in resting
    }

    constructor (minBlock: nat, maxBlock: nat)
      requires 1 <= minBlock <= maxBlock <= HiveBlock.NPOS
      ensures Valid() && resting == map[] && fresh(orders) && fresh(orders.repr)
    {
      orders := new Hive.Hive<Order>(minBlock, maxBlock);
      numbers, resting := Numbers(map[], map[]), map[];
    }

    /** The numbers after an operation on the hive. */
    ghost method Settle(ns: Numbers<Place>, rs: map<nat, Order>)
      requires this !in orders.repr && orders.Valid() && Stands(orders.Elements(), ns, rs)
      modifies this
      ensures Valid() && numbers == ns && resting == rs && unchanged(orders)
    {
      numbers, resting := ns, rs;
    }

    /** The order goes to a free cell, and every other order stays where it was. */
    method Insert(o: Order) returns (ghost cell: nat)
      requires Valid()
      modifies this, orders, orders.repr
      ensures Valid() && fresh(orders.repr - old(orders.repr))
      ensures cell !in old(resting) && resting == old(resting)[cell := o]
      ensures Keeps(old(numbers), numbers)
    {
      ghost var m, ns, rs := orders.Elements(), numbers, resting;
      cell := Progress.SomeCellIsFree(rs.Keys);
      var g, i := orders.Insert(o);
      ghost var ns', rs' := StandsAfterInsert(m, ns, rs, (g, i), o, cell);
      Settle(ns', rs');
    }

    /** The order at an iterator goes, and every other order stays where it was. */
    method Erase(k: nat, i: nat, ghost cell: nat)
      requires Valid() && Points(k, i, cell)
      modifies this, orders, orders.repr
      ensures Valid() && orders.repr == old(orders.repr)
      ensures resting == old(resting) - {cell}
      ensures Keeps(old(numbers), numbers)
    {
      ghost var m, ns, rs, p := orders.Elements(), numbers, resting, (orders.groups[k], i);
      ghost var ns', rs' := StandsAfterErase(m, ns, rs, p);
      var k', i' := orders.Erase(k, i);
      Settle(ns', rs');
    }

    /** The front of a level that is not empty is one of its orders. */
    method Front() returns (k: nat, i: nat, ghost cell: nat)
      requires Valid() && resting != map[]
      ensures Points(k, i, cell)
    {
      StandsEmpty(orders.Elements(), numbers, resting);
      i := orders.Begin();
      k := 0;
      Hive.InContents(orders.groups, orders.views, orders.groups[k], i);
      cell := numbers.cells[(orders.groups[k], i)];
    }

    /** Takes m out of the order at an iterator, in place. */
    method Reduce(k: nat, i: nat, m: nat, ghost cell: nat) returns (left: Order)
      requires Valid() && Points(k, i, cell) && m <= resting[cell].qty
      modifies this, orders, orders.repr
      ensures Valid() && orders.repr == old(orders.repr) && Points(k, i, cell) && numbers == old(numbers)
      ensures left == Reduced(old(resting)[cell], m) && resting == old(resting)[cell := left]
    {
      ghost var elements, ns, rs, p := orders.Elements(), numbers, resting, (orders.groups[k], i);
      var o := orders.At(k, i);
      assert rs[cell] == o;
      left := Reduced(o, m);
      ghost var rs' := StandsAfterAssign(elements, ns, rs, p, left);
      orders.Assign(k, i, left);
      Settle(ns, rs');
    }

    /** An order of which nothing is left goes. */
    method DropUsedUp(k: nat, i: nat, left: Order, ghost cell: nat)
      requires Valid() && Points(k, i, cell)
      modifies this, orders, orders.repr
      ensures Valid() && orders.repr == old(orders.repr)
      ensures resting == if left.qty == 0 then old(resting) - {cell} else old(resting)
      ensures Keeps(old(numbers), numbers)
    {
      if left.qty == 0 { Erase(k, i, cell); }
    }

    /** What the matching loop does to a front order: m less in place, and out of the level when nothing is left. */
    method Fill(k: nat, i: nat, m: nat, ghost cell: nat)
      requires Valid() && Points(k, i, cell) && m <= resting[cell].qty
      modifies this, orders, orders.repr
      ensures Valid() && orders.repr == old(orders.repr)
      ensures resting == Filled(old(resting), cell, m)
      ensures Keeps(old(numbers), numbers)
    {
      ghost var rs := resting;
      var left := Reduce(k, i, m, cell);
      DropUsedUp(k, i, left, cell);
      FilledInTwoSteps(rs, cell, m);
    }

    /** A level without orders is dropped from the book. */
    method IsEmpty() returns (empty: bool)
      requires Valid()
      ensures empty <==> resting == map[]
    {
      StandsEmpty(orders.Elements(), numbers, resting);
      empty := orders.IsEmpty();
    }
  }
}
