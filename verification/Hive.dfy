/** A hive: a chain of blocks, the blocks that have erased cells, and the blocks kept for later. */
module Hive {
  import opened Sums
  import opened HiveBlock
  import opened HiveGroup

  // ---------------------------------------------------------------- the chain as values

  /** What matters about a block to the rest of the hive. */
  datatype View<T> = View(capacity: nat, used: nat, listed: bool, contents: map<nat, T>)

  /** No two blocks share memory. */
  ghost predicate Apart<T>(gs: seq<Group<T>>) {
    forall i, j | 0 <= i < j < |gs| ::
      gs[i] != gs[j] && gs[i].skipfield != gs[j].skipfield && gs[i].elements != gs[j].elements
  }

  /** Cells are used from the first on, and a block whose cells are not all live is in the list of erasures. */
  ghost predicate Plausible<T>(v: View<T>) {
    && v.used <= v.capacity && v.capacity >= 1
    && (forall i | i in v.contents :: i < v.used)
    && (v.listed || forall i | 0 <= i < v.used :: i in v.contents)
    && (v.contents == map[] ==> v.used == 0 && !v.listed)
  }

  /** Every block but the last has been filled once, and only a lone block may hold nothing. */
  ghost predicate Filled<T>(gs: seq<Group<T>>, vs: map<Group<T>, View<T>>) {
    && (forall g | g in gs :: g in vs && Plausible(vs[g]))
    && (forall k | 0 <= k < |gs| - 1 :: vs[gs[k]].used == vs[gs[k]].capacity)
    && (|gs| > 1 ==> forall g | g in gs :: vs[g].contents != map[])
  }

  ghost predicate NoRepeats<T>(gs: seq<Group<T>>) {
    forall i, j | 0 <= i < j < |gs| :: gs[i] != gs[j]
  }

  /** The list of blocks with erased cells holds each of them once, and no other. */
  ghost predicate Listed<T>(gs: seq<Group<T>>, vs: map<Group<T>, View<T>>, erasures: seq<Group<T>>) {
    && NoRepeats(erasures) && (forall g | g in erasures :: g in gs)
    && (forall g | g in gs :: g in vs && (g in erasures <==> vs[g].listed))
  }

  ghost predicate IsFirst<T>(v: View<T>, c: nat) {
    if v.contents == map[] then c == 0
    else c in v.contents && forall d | d in v.contents :: c <= d
  }

  /** begin is the first element, end is where the next element goes. */
  ghost predicate Bounded<T>(gs: seq<Group<T>>, vs: map<Group<T>, View<T>>, beginCell: nat, endCell: nat) {
    gs != [] ==>
      && gs[0] in vs && gs[|gs| - 1] in vs
      && endCell == vs[gs[|gs| - 1]].used && IsFirst(vs[gs[0]], beginCell)
  }

  /** The elements, by block and cell: the place of an element never changes. */
  ghost function Contents<T>(gs: seq<Group<T>>, vs: map<Group<T>, View<T>>): map<(Group<T>, nat), T>
    requires forall g | g in gs :: g in vs
  {
    map g: Group<T>, i: nat | g in gs && i in vs[g].contents :: (g, i) := vs[g].contents[i]
  }

  lemma InContents<T>(gs: seq<Group<T>>, vs: map<Group<T>, View<T>>, g: Group<T>, i: nat)
    requires forall g | g in gs :: g in vs
    ensures (g, i) in Contents(gs, vs) <==> g in gs && i in vs[g].contents
    ensures g in gs && i in vs[g].contents ==> Contents(gs, vs)[(g, i)] == vs[g].contents[i]
  {
  }

  /** Two chains hold the same elements, but for one that came or went. */
  lemma ContentsAt<T>(gs: seq<Group<T>>, vs: map<Group<T>, View<T>>, p: (Group<T>, nat))
    requires forall g | g in gs :: g in vs
    ensures p in Contents(gs, vs) <==> p.0 in gs && p.1 in vs[p.0].contents
    ensures p in Contents(gs, vs) ==> Contents(gs, vs)[p] == vs[p.0].contents[p.1]
  {
    InContents(gs, vs, p.0, p.1);
    assert p == (p.0, p.1);
  }

  lemma Grown<K, V>(a: map<K, V>, b: map<K, V>, p: K, x: V)
    requires p !in a && p in b && b[p] == x
    requires forall q | q != p :: q in a <==> q in b
    requires forall q | q in a :: q in b && a[q] == b[q]
    ensures b == a[p := x] && |b| == |a| + 1
  {
    assert b.Keys == a.Keys + {p};
  }

  lemma Shrunk<K, V>(a: map<K, V>, b: map<K, V>, p: K)
    requires p in a && p !in b
    requires forall q | q != p :: q in a <==> q in b
    requires forall q | q in b :: q in a && a[q] == b[q]
    ensures b == a - {p} && |b| == |a| - 1
  {
    assert b.Keys == a.Keys - {p};
  }

  lemma ContentsInsert<T>(gs: seq<Group<T>>, vs: map<Group<T>, View<T>>, g: Group<T>, v: View<T>, i: nat, x: T)
    requires (forall h | h in gs :: h in vs) && g in gs && v.contents == vs[g].contents[i := x] && i !in vs[g].contents
    ensures (g, i) !in Contents(gs, vs) && Contents(gs, vs[g := v]) == Contents(gs, vs)[(g, i) := x]
    ensures |Contents(gs, vs[g := v])| == |Contents(gs, vs)| + 1
  {
    var vs' := vs[g := v];
    forall p: (Group<T>, nat)
      ensures p in Contents(gs, vs') <==> p in Contents(gs, vs) || p == (g, i)
      ensures p in Contents(gs, vs) ==> p in Contents(gs, vs') && Contents(gs, vs)[p] == Contents(gs, vs')[p]
    {
      ContentsAt(gs, vs, p);
      ContentsAt(gs, vs', p);
    }
    InContents(gs, vs, g, i);
    InContents(gs, vs', g, i);
    Grown(Contents(gs, vs), Contents(gs, vs'), (g, i), x);
  }

  lemma ContentsErase<T>(gs: seq<Group<T>>, vs: map<Group<T>, View<T>>, g: Group<T>, v: View<T>, i: nat)
    requires (forall h | h in gs :: h in vs) && g in gs && v.contents == vs[g].contents - {i} && i in vs[g].contents
    ensures Contents(gs, vs[g := v]) == Contents(gs, vs) - {(g, i)}
    ensures |Contents(gs, vs[g := v])| == |Contents(gs, vs)| - 1
  {
    var c, c' := Contents(gs, vs), Contents(gs, vs[g := v]);
    forall p: (Group<T>, nat)
      ensures p in c' <==> p in c && p != (g, i)
      ensures p in c' ==> c[p] == c'[p]
    {
      ContentsEraseAt(gs, vs, g, v, i, p);
    }
    InContents(gs, vs, g, i);
    Shrunk(c, c', (g, i));
  }

  lemma ContentsEraseAt<T>(gs: seq<Group<T>>, vs: map<Group<T>, View<T>>, g: Group<T>, v: View<T>, i: nat,
                           p: (Group<T>, nat))
    requires (forall h | h in gs :: h in vs) && g in gs && v.contents == vs[g].contents - {i} && i in vs[g].contents
    ensures p in Contents(gs, vs[g := v]) <==> p in Contents(gs, vs) && p != (g, i)
    ensures p in Contents(gs, vs[g := v]) ==> Contents(gs, vs)[p] == Contents(gs, vs[g := v])[p]
  {
    ContentsAt(gs, vs, p);
    ContentsAt(gs, vs[g := v], p);
  }

  lemma ContentsNewBlock<T>(gs: seq<Group<T>>, vs: map<Group<T>, View<T>>, g: Group<T>, v: View<T>, x: T)
    requires (forall h | h in gs :: h in vs) && g !in gs && v.contents == map[0 := x]
    ensures (g, 0) !in Contents(gs, vs) && Contents(gs + [g], vs[g := v]) == Contents(gs, vs)[(g, 0) := x]
    ensures |Contents(gs + [g], vs[g := v])| == |Contents(gs, vs)| + 1
  {
    var gs', vs' := gs + [g], vs[g := v];
    forall p: (Group<T>, nat)
      ensures p in Contents(gs', vs') <==> p in Contents(gs, vs) || p == (g, 0)
      ensures p in Contents(gs, vs) ==> p in Contents(gs', vs') && Contents(gs, vs)[p] == Contents(gs', vs')[p]
    {
      ContentsAt(gs, vs, p);
      ContentsAt(gs', vs', p);
    }
    InContents(gs, vs, g, 0);
    InContents(gs', vs', g, 0);
    Grown(Contents(gs, vs), Contents(gs', vs'), (g, 0), x);
  }

  function Drop<T>(s: seq<T>, k: nat): seq<T>
    requires k < |s|
  {
    s[..k] + s[k + 1..]
  }

  lemma ContentsDropBlock<T>(gs: seq<Group<T>>, vs: map<Group<T>, View<T>>, k: nat, i: nat)
    requires (forall h | h in gs :: h in vs) && k < |gs| && (forall j | 0 <= j < |gs| && j != k :: gs[j] != gs[k])
    requires vs[gs[k]].contents.Keys == {i}
    ensures Contents(Drop(gs, k), vs) == Contents(gs, vs) - {(gs[k], i)}
    ensures |Contents(Drop(gs, k), vs)| == |Contents(gs, vs)| - 1
  {
    var gs' := Drop(gs, k);
    var a, b := Contents(gs, vs), Contents(gs', vs);
    forall h ensures h in gs' <==> h in gs && h != gs[k] {
      DropMembers(gs, k, h);
    }
    forall p: (Group<T>, nat)
      ensures p in b <==> p in a && p != (gs[k], i)
      ensures p in b ==> a[p] == b[p]
    {
      ContentsAt(gs, vs, p);
      ContentsAt(gs', vs, p);
    }
    InContents(gs, vs, gs[k], i);
    Shrunk(a, b, (gs[k], i));
  }

  lemma DropMembers<T>(s: seq<T>, k: nat, x: T)
    requires k < |s| && forall j | 0 <= j < |s| && j != k :: s[j] != s[k]
    ensures x in s[..k] + s[k + 1..] <==> x in s && x != s[k]
  {
    var s' := s[..k] + s[k + 1..];
    if x in s && x != s[k] {
      var j :| 0 <= j < |s| && s[j] == x;
      assert x == s'[if j < k then j else j - 1];
    }
    if x in s' {
      var j :| 0 <= j < |s'| && s'[j] == x;
      assert x == s[if j < k then j else j + 1];
    }
  }

  // ---------------------------------------------------------------- steps on the values

  /** The cell that follows an erased one, or the end of the used cells. */
  ghost predicate Follows<T>(v: View<T>, i: nat, n: nat) {
    && i < n <= v.used && (n < v.used ==> n in v.contents)
    && forall d | d in v.contents :: d <= i || n <= d
  }

  ghost predicate Good<T>(gs: seq<Group<T>>, vs: map<Group<T>, View<T>>, erasures: seq<Group<T>>,
                          beginCell: nat, endCell: nat, totalSize: nat)
  {
    && Filled(gs, vs) && Listed(gs, vs, erasures) && Bounded(gs, vs, beginCell, endCell)
    && NoRepeats(gs) && totalSize == |Contents(gs, vs)|
  }

  lemma FilledUpdate<T>(gs: seq<Group<T>>, vs: map<Group<T>, View<T>>, g: Group<T>, v: View<T>)
    requires Filled(gs, vs) && g in gs && Plausible(v) && v.contents != map[] && v.capacity == vs[g].capacity
    requires v.used == vs[g].used || (g == gs[|gs| - 1] && forall k | 0 <= k < |gs| - 1 :: gs[k] != g)
    ensures Filled(gs, vs[g := v])
  {
  }

  lemma BoundedUpdate<T>(gs: seq<Group<T>>, vs: map<Group<T>, View<T>>, b: nat, e: nat,
                         g: Group<T>, v: View<T>, b': nat)
    requires Bounded(gs, vs, b, e) && g in gs
    requires if g == gs[0] then IsFirst(v, b') else b' == b
    ensures Bounded(gs, vs[g := v], b', if g == gs[|gs| - 1] then v.used else e)
  {
  }

  /** One block of the chain has changed; it is still not empty. */
  lemma GoodUpdate<T>(gs: seq<Group<T>>, vs: map<Group<T>, View<T>>, er: seq<Group<T>>, b: nat, e: nat, n: nat,
                      g: Group<T>, v: View<T>, er': seq<Group<T>>, b': nat, n': nat)
    requires Good(gs, vs, er, b, e, n) && g in gs && Plausible(v) && v.contents != map[] && v.capacity == vs[g].capacity
    requires v.used == vs[g].used || g == gs[|gs| - 1]
    requires if g == gs[0] then IsFirst(v, b') else b' == b
    requires Listed(gs, vs[g := v], er') && n' == |Contents(gs, vs[g := v])|
    ensures Good(gs, vs[g := v], er', b', if g == gs[|gs| - 1] then v.used else e, n')
  {
    FilledUpdate(gs, vs, g, v);
    BoundedUpdate(gs, vs, b, e, g, v, b');
  }

  lemma PlausibleAppend<T>(v: View<T>, x: T)
    requires Plausible(v) && v.used < v.capacity
    ensures v.used !in v.contents
    ensures var v' := v.(used := v.used + 1, contents := v.contents[v.used := x]);
      Plausible(v') && v'.contents != map[]
  {
    assert v.used in v.contents[v.used := x];
  }

  lemma FirstAfterInsert<T>(v: View<T>, v': View<T>, i: nat, x: T, b: nat)
    requires Plausible(v) && IsFirst(v, b) && (v.contents == map[] ==> i == 0) && v'.contents == v.contents[i := x]
    ensures IsFirst(v', if i < b then i else b)
  {
    assert i in v'.contents;
  }

  lemma ListedKeeps<T>(gs: seq<Group<T>>, vs: map<Group<T>, View<T>>, er: seq<Group<T>>, g: Group<T>, v: View<T>)
    requires Listed(gs, vs, er) && g in gs && v.listed == vs[g].listed
    ensures Listed(gs, vs[g := v], er)
  {
  }

  lemma GoodAppend<T>(gs: seq<Group<T>>, vs: map<Group<T>, View<T>>, er: seq<Group<T>>, b: nat, e: nat, n: nat,
                      g: Group<T>, v: View<T>, x: T, vs': map<Group<T>, View<T>>)
    requires Good(gs, vs, er, b, e, n) && gs != [] && g == gs[|gs| - 1] && g in vs && v == vs[g] && e < v.capacity
    requires vs' == vs[g := v.(used := v.used + 1, contents := v.contents[e := x])]
    ensures v.used == e && (g, e) !in Contents(gs, vs)
    ensures Good(gs, vs', er, b, e + 1, n + 1) && Contents(gs, vs') == Contents(gs, vs)[(g, e) := x]
  {
    var v' := v.(used := v.used + 1, contents := v.contents[e := x]);
    PlausibleAppend(v, x);
    ListedKeeps(gs, vs, er, g, v');
    ContentsInsert(gs, vs, g, v', e, x);
    if g == gs[0] {
      FirstAfterInsert(v, v', e, x, b);
    }
    GoodUpdate(gs, vs, er, b, e, n, g, v', er, b, n + 1);
  }

  lemma LastBlock<T>(gs: seq<Group<T>>, vs: map<Group<T>, View<T>>, er: seq<Group<T>>, b: nat, e: nat, n: nat,
                     g: Group<T>)
    requires Good(gs, vs, er, b, e, n) && gs != [] && g == gs[|gs| - 1]
    ensures g in gs && g in vs && vs[g].used == e <= vs[g].capacity
  {
  }

  lemma ListedHead<T>(gs: seq<Group<T>>, vs: map<Group<T>, View<T>>, er: seq<Group<T>>, b: nat, e: nat, n: nat,
                      g: Group<T>)
    requires Good(gs, vs, er, b, e, n) && er != [] && g == er[0]
    ensures g in gs && gs != [] && g in vs && vs[g].listed
  {
  }

  lemma NoBlockNoList<T>(gs: seq<Group<T>>, vs: map<Group<T>, View<T>>, er: seq<Group<T>>, b: nat, e: nat, n: nat)
    requires Good(gs, vs, er, b, e, n) && gs == []
    ensures er == []
  {
    if er != [] {
      ListedHead(gs, vs, er, b, e, n, er[0]);
    }
  }

  lemma ListedPop<T>(gs: seq<Group<T>>, vs: map<Group<T>, View<T>>, er: seq<Group<T>>, v: View<T>)
    requires Listed(gs, vs, er) && er != [] && !v.listed
    ensures Listed(gs, vs[er[0] := v], er[1..])
  {
    forall g | g in gs ensures g in er[1..] <==> g in er && g != er[0] {
      assert er == [er[0]] + er[1..];
    }
  }

  lemma ListedPush<T>(gs: seq<Group<T>>, vs: map<Group<T>, View<T>>, er: seq<Group<T>>, g: Group<T>, v: View<T>)
    requires Listed(gs, vs, er) && g in gs && !vs[g].listed && v.listed
    ensures Listed(gs, vs[g := v], [g] + er)
  {
  }

  lemma GoodReuse<T>(gs: seq<Group<T>>, vs: map<Group<T>, View<T>>, er: seq<Group<T>>, b: nat, e: nat, n: nat,
                     i: nat, v: View<T>, x: T)
    requires Good(gs, vs, er, b, e, n) && er != [] && i !in vs[er[0]].contents && Plausible(v)
    requires v == vs[er[0]].(listed := v.listed, contents := vs[er[0]].contents[i := x])
    ensures Good(gs, vs[er[0] := v], if v.listed then er else er[1..], if er[0] == gs[0] && i < b then i else b, e,
                 n + 1)
    ensures (er[0], i) !in Contents(gs, vs) && Contents(gs, vs[er[0] := v]) == Contents(gs, vs)[(er[0], i) := x]
  {
    var g := er[0];
    if v.listed { ListedKeeps(gs, vs, er, g, v); } else { ListedPop(gs, vs, er, v); }
    ContentsInsert(gs, vs, g, v, i, x);
    if g == gs[0] {
      FirstAfterInsert(vs[g], v, i, x, b);
    }
    assert i in v.contents;
    GoodUpdate(gs, vs, er, b, e, n, g, v, if v.listed then er else er[1..], if g == gs[0] && i < b then i else b,
               n + 1);
  }

  lemma PlausibleErase<T>(v: View<T>, i: nat, next: nat, b: nat)
    requires Plausible(v) && i in v.contents && v.contents - {i} != map[] && Follows(v, i, next)
    ensures Plausible(v.(listed := true, contents := v.contents - {i}))
    ensures IsFirst(v, b) ==> IsFirst(v.(listed := true, contents := v.contents - {i}), if i == b then next else b)
  {
    var c := v.contents - {i};
    var d :| d in c;
    assert d in v.contents && d != i;
    if IsFirst(v, i) {
      assert next <= d;
    }
  }

  /** An element goes, and its block keeps others. */
  lemma GoodErase<T>(gs: seq<Group<T>>, vs: map<Group<T>, View<T>>, er: seq<Group<T>>, b: nat, e: nat, n: nat,
                     g: Group<T>, i: nat, next: nat, v: View<T>)
    requires Good(gs, vs, er, b, e, n) && n > 0 && g in gs && i in vs[g].contents && v.contents != map[]
    requires Follows(vs[g], i, next) && v == vs[g].(listed := true, contents := vs[g].contents - {i})
    ensures Good(gs, vs[g := v], if vs[g].listed then er else [g] + er, if g == gs[0] && i == b then next else b, e,
                 n - 1)
    ensures Contents(gs, vs[g := v]) == Contents(gs, vs) - {(g, i)}
  {
    PlausibleErase(vs[g], i, next, b);
    if vs[g].listed { ListedKeeps(gs, vs, er, g, v); } else { ListedPush(gs, vs, er, g, v); }
    ContentsErase(gs, vs, g, v, i);
    GoodUpdate(gs, vs, er, b, e, n, g, v, if vs[g].listed then er else [g] + er,
               if g == gs[0] && i == b then next else b, n - 1);
  }

  lemma ContentsAssign<T>(gs: seq<Group<T>>, vs: map<Group<T>, View<T>>, g: Group<T>, v: View<T>, i: nat, x: T)
    requires (forall h | h in gs :: h in vs) && g in gs && i in vs[g].contents && v.contents == vs[g].contents[i := x]
    ensures Contents(gs, vs[g := v]) == Contents(gs, vs)[(g, i) := x]
    ensures |Contents(gs, vs[g := v])| == |Contents(gs, vs)|
  {
    var c, c' := Contents(gs, vs), Contents(gs, vs[g := v]);
    InContents(gs, vs, g, i);
    forall p: (Group<T>, nat)
      ensures p in c' <==> p in c
      ensures p in c' ==> c'[p] == c[(g, i) := x][p]
    {
      ContentsAt(gs, vs, p);
      ContentsAt(gs, vs[g := v], p);
    }
    assert c'.Keys == c.Keys;
  }

  lemma PlausibleAssign<T>(v: View<T>, i: nat, x: T)
    requires Plausible(v) && i in v.contents
    ensures Plausible(v.(contents := v.contents[i := x])) && v.contents[i := x] != map[]
    ensures forall b | IsFirst(v, b) :: IsFirst(v.(contents := v.contents[i := x]), b)
  {
    assert i in v.contents[i := x];
  }

  /** An element is overwritten in place. */
  lemma GoodAssign<T>(gs: seq<Group<T>>, vs: map<Group<T>, View<T>>, er: seq<Group<T>>, b: nat, e: nat, n: nat,
                      g: Group<T>, i: nat, x: T, v: View<T>)
    requires Good(gs, vs, er, b, e, n) && g in gs && i in vs[g].contents
    requires v == vs[g].(contents := vs[g].contents[i := x])
    ensures Good(gs, vs[g := v], er, b, e, n)
    ensures Contents(gs, vs[g := v]) == Contents(gs, vs)[(g, i) := x]
  {
    PlausibleAssign(vs[g], i, x);
    ListedKeeps(gs, vs, er, g, v);
    ContentsAssign(gs, vs, g, v, i, x);
    GoodUpdate(gs, vs, er, b, e, n, g, v, er, b, n);
  }

  lemma GoodNewBlock<T>(gs: seq<Group<T>>, vs: map<Group<T>, View<T>>, er: seq<Group<T>>, b: nat, e: nat, n: nat,
                        g: Group<T>, v: View<T>, x: T)
    requires Good(gs, vs, er, b, e, n) && g !in gs && v == View(v.capacity, 1, false, map[0 := x]) && v.capacity >= 1
    requires gs != [] ==> e == vs[gs[|gs| - 1]].capacity
    ensures Good(gs + [g], vs[g := v], er, if gs == [] then 0 else b, 1, n + 1)
    ensures (g, 0) !in Contents(gs, vs) && Contents(gs + [g], vs[g := v]) == Contents(gs, vs)[(g, 0) := x]
  {
    NewBlockPlausible(v, x);
    ContentsNewBlock(gs, vs, g, v, x);
    FilledNewBlock(gs, vs, g, v);
    ListedNewBlock(gs, vs, er, g, v);
    BoundedNewBlock(gs, vs, b, e, g, v);
    DistinctNewBlock(gs, g);
  }

  lemma NewBlockPlausible<T>(v: View<T>, x: T)
    requires v == View(v.capacity, 1, false, map[0 := x]) && v.capacity >= 1
    ensures Plausible(v) && v.contents != map[] && IsFirst(v, 0)
  {
    assert 0 in v.contents;
  }

  lemma DistinctNewBlock<T>(gs: seq<Group<T>>, g: Group<T>)
    requires NoRepeats(gs) && g !in gs
    ensures NoRepeats(gs + [g])
  {
  }

  lemma BoundedNewBlock<T>(gs: seq<Group<T>>, vs: map<Group<T>, View<T>>, b: nat, e: nat, g: Group<T>, v: View<T>)
    requires Bounded(gs, vs, b, e) && g !in gs && IsFirst(v, 0) && v.used == 1
    ensures Bounded(gs + [g], vs[g := v], if gs == [] then 0 else b, 1)
  {
  }

  lemma FilledNewBlock<T>(gs: seq<Group<T>>, vs: map<Group<T>, View<T>>, g: Group<T>, v: View<T>)
    requires Filled(gs, vs) && g !in gs && Plausible(v) && v.contents != map[]
    requires gs != [] ==> vs[gs[|gs| - 1]].used == vs[gs[|gs| - 1]].capacity
    ensures Filled(gs + [g], vs[g := v])
  {
    forall h | h in gs ensures vs[h].contents != map[] {
      assert |gs| == 1 ==> h == gs[0];
    }
  }

  lemma ListedNewBlock<T>(gs: seq<Group<T>>, vs: map<Group<T>, View<T>>, er: seq<Group<T>>, g: Group<T>, v: View<T>)
    requires Listed(gs, vs, er) && g !in gs && !v.listed
    ensures Listed(gs + [g], vs[g := v], er)
  {
  }

  /** The only block loses its only element, and starts afresh. */
  lemma GoodClear<T>(gs: seq<Group<T>>, vs: map<Group<T>, View<T>>, er: seq<Group<T>>, b: nat, e: nat, n: nat,
                     g: Group<T>, i: nat, v: View<T>)
    requires Good(gs, vs, er, b, e, n) && n > 0 && |gs| == 1 && gs[0] == g && g in vs && vs[g].contents.Keys == {i}
    requires v == View(vs[g].capacity, 0, false, map[])
    ensures Good(gs, vs[g := v], [], 0, 0, n - 1)
    ensures Contents(gs, vs[g := v]) == Contents(gs, vs) - {(g, i)}
  {
    assert g in gs && i in vs[g].contents;
    assert v.contents == vs[g].contents - {i};
    ContentsErase(gs, vs, g, v, i);
    FilledClear(gs, vs, g, v);
  }

  lemma FilledClear<T>(gs: seq<Group<T>>, vs: map<Group<T>, View<T>>, g: Group<T>, v: View<T>)
    requires Filled(gs, vs) && |gs| == 1 && gs[0] == g && v == View(vs[g].capacity, 0, false, map[])
    ensures Filled(gs, vs[g := v]) && Listed(gs, vs[g := v], []) && Bounded(gs, vs[g := v], 0, 0)
  {
  }

  /** A list without one of its members. */
  function Without<T>(s: seq<Group<T>>, g: Group<T>): seq<Group<T>> {
    if s == [] then []
    else if s[0] == g then s[1..]
    else [s[0]] + Without(s[1..], g)
  }

  lemma {:induction false} WithoutMember<T>(s: seq<Group<T>>, g: Group<T>, h: Group<T>)
    requires NoRepeats(s)
    ensures h in Without(s, g) <==> h in s && h != g
  {
    if s != [] {
      assert s == [s[0]] + s[1..];
      if s[0] != g {
        WithoutMember(s[1..], g, h);
      } else if h in s[1..] {
        assert h != s[0];
      }
    }
  }

  lemma {:induction false} WithoutDistinct<T>(s: seq<Group<T>>, g: Group<T>)
    requires NoRepeats(s)
    ensures NoRepeats(Without(s, g))
  {
    if s != [] && s[0] != g {
      WithoutDistinct(s[1..], g);
      var rest := Without(s[1..], g);
      forall j | 0 <= j < |rest| ensures rest[j] != s[0] {
        WithoutMember(s[1..], g, rest[j]);
        assert rest[j] in s[1..];
      }
    }
  }

  lemma DropDistinct<T>(gs: seq<Group<T>>, k: nat)
    requires NoRepeats(gs) && k < |gs|
    ensures NoRepeats(Drop(gs, k))
    ensures forall h :: h in Drop(gs, k) <==> h in gs && h != gs[k]
  {
    forall h ensures h in Drop(gs, k) <==> h in gs && h != gs[k] {
      DropMembers(gs, k, h);
    }
  }

  lemma ListedDrop<T>(gs: seq<Group<T>>, vs: map<Group<T>, View<T>>, er: seq<Group<T>>, k: nat)
    requires Listed(gs, vs, er) && NoRepeats(gs) && k < |gs|
    ensures Listed(Drop(gs, k), vs, Without(er, gs[k]))
  {
    DropDistinct(gs, k);
    WithoutDistinct(er, gs[k]);
    var er' := Without(er, gs[k]);
    forall h | h in er' ensures h in Drop(gs, k) {
      WithoutMember(er, gs[k], h);
    }
    forall h | h in Drop(gs, k) ensures h in er' <==> vs[h].listed {
      WithoutMember(er, gs[k], h);
    }
  }

  lemma FilledDrop<T>(gs: seq<Group<T>>, vs: map<Group<T>, View<T>>, k: nat)
    requires Filled(gs, vs) && NoRepeats(gs) && k < |gs|
    ensures Filled(Drop(gs, k), vs)
  {
    forall h ensures h in Drop(gs, k) <==> h in gs && h != gs[k] {
      DropMembers(gs, k, h);
    }
  }

  /** A block that loses its only element leaves a chain of several blocks. */
  lemma GoodDrop<T>(gs: seq<Group<T>>, vs: map<Group<T>, View<T>>, er: seq<Group<T>>, b: nat, e: nat, n: nat,
                    k: nat, i: nat, b': nat, e': nat)
    requires Good(gs, vs, er, b, e, n) && n > 0 && 1 < |gs| && k < |gs| && vs[gs[k]].contents.Keys == {i}
    requires if k == 0 then IsFirst(vs[gs[1]], b') else b' == b
    requires e' == if k == |gs| - 1 then vs[gs[k - 1]].capacity else e
    ensures Good(Drop(gs, k), vs, Without(er, gs[k]), b', e', n - 1)
    ensures Contents(Drop(gs, k), vs) == Contents(gs, vs) - {(gs[k], i)}
  {
    ListedDrop(gs, vs, er, k);
    FilledDrop(gs, vs, k);
    DropDistinct(gs, k);
    BoundedDrop(gs, vs, b, e, k, b', e');
    ContentsDropBlock(gs, vs, k, i);
  }

  lemma BoundedDrop<T>(gs: seq<Group<T>>, vs: map<Group<T>, View<T>>, b: nat, e: nat, k: nat, b': nat, e': nat)
    requires Filled(gs, vs) && Bounded(gs, vs, b, e) && 1 < |gs| && k < |gs|
    requires if k == 0 then IsFirst(vs[gs[1]], b') else b' == b
    requires e' == if k == |gs| - 1 then vs[gs[k - 1]].capacity else e
    ensures Bounded(Drop(gs, k), vs, b', e')
  {
    assert Drop(gs, k)[0] == if k == 0 then gs[1] else gs[0];
  }

  lemma ApartFrom<T>(gs: seq<Group<T>>, g: Group<T>, h: Group<T>)
    requires Apart(gs) && g in gs && h in gs && g != h
    ensures g.skipfield != h.skipfield && g.elements != h.elements
  {
    var i :| 0 <= i < |gs| && gs[i] == g;
    var j :| 0 <= j < |gs| && gs[j] == h;
    assert i < j || j < i;
  }

  // ---------------------------------------------------------------- blocks behind their views

  ghost predicate Shows<T>(g: Group<T>, v: View<T>)
    reads g, g.skipfield, g.elements
  {
    g.Valid() && v == View(g.capacity, g.used, g.freeListHead != NPOS, g.Contents())
  }

  /** An unused block keeps what it held, but is reset before it is used again. */
  ghost predicate Kept<T>(g: Group<T>)
    reads g, g.skipfield, g.elements
  {
    g.Sound() && g.capacity >= 1
  }

  method AppendTo<T>(g: Group<T>, i: nat, x: T, ghost v: View<T>) returns (ghost v': View<T>)
    requires Shows(g, v) && i == v.used < v.capacity
    modifies g, g.elements
    ensures Shows(g, v') && i !in v.contents && v' == v.(used := v.used + 1, contents := v.contents[i := x])
  {
    g.Append(i, x);
    v' := v.(used := v.used + 1, contents := v.contents[i := x]);
  }

  method ReuseIn<T>(g: Group<T>, x: T, ghost v: View<T>) returns (i: nat, ghost v': View<T>)
    requires Shows(g, v) && v.listed && v.capacity >= 1
    modifies g, g.elements, g.skipfield
    ensures Shows(g, v') && i == old(g.freeListHead) && i !in v.contents && Plausible(v')
    ensures v' == v.(listed := g.freeListHead != NPOS, contents := v.contents[i := x])
  {
    i := g.Reuse(x);
    v' := View(g.capacity, v.used, g.freeListHead != NPOS, v.contents[i := x]);
    assert i in v'.contents;
    ShowsPlausible(g, v');
  }

  method EraseFrom<T>(g: Group<T>, i: nat, ghost v: View<T>) returns (n: nat, ghost v': View<T>)
    requires Shows(g, v) && i in v.contents && g.size > 1
    modifies g, g.elements, g.skipfield
    ensures Shows(g, v') && v' == v.(listed := true, contents := v.contents - {i}) && Follows(v, i, n)
  {
    NextIsNextLive(g.skipfield[..], g.used, i);
    n := g.Erase(i);
    v' := v.(listed := true, contents := v.contents - {i});
  }

  method AssignIn<T>(g: Group<T>, i: nat, x: T, ghost v: View<T>) returns (ghost v': View<T>)
    requires Shows(g, v) && i in v.contents
    modifies g.elements
    ensures Shows(g, v') && v' == v.(contents := v.contents[i := x])
  {
    g.Assign(i, x);
    v' := v.(contents := v.contents[i := x]);
  }

  /** A block whose free list is empty has no erased cell. */
  lemma ShowsPlausible<T>(g: Group<T>, v: View<T>)
    requires Shows(g, v) && v.capacity >= 1 && v.contents != map[]
    ensures Plausible(v)
  {
    var skip := g.skipfield[..];
    forall i | 0 <= i < v.used && i !in v.contents ensures v.listed {
      assert StartOf(skip, i) in g.runs;
      assert LinkOk(g.elements[..], g.runs, |g.runs| - 1);
    }
  }

  /** A kept block is cleared and takes one element. */
  method Restart<T>(g: Group<T>, x: T) returns (ghost v': View<T>)
    requires Kept(g)
    modifies g, g.elements, g.skipfield
    ensures Shows(g, v') && v' == View(g.capacity, 1, false, map[0 := x])
  {
    g.Reset();
    g.Append(0, x);
    v' := View(g.capacity, 1, false, map[0 := x]);
  }

  method Clear<T>(g: Group<T>) returns (ghost v': View<T>)
    requires Kept(g)
    modifies g, g.skipfield
    ensures Shows(g, v') && v' == View(g.capacity, 0, false, map[])
  {
    g.Reset();
    v' := View(g.capacity, 0, false, map[]);
  }

  method FirstOf<T>(g: Group<T>, ghost v: View<T>) returns (i: nat)
    requires Shows(g, v) && v.contents != map[]
    ensures IsFirst(v, i)
  {
    i := g.First();
    ghost var d :| d in v.contents;
    assert g.skipfield[d] == 0;
  }

  method NextCell<T>(g: Group<T>, i: nat, ghost v: View<T>) returns (n: nat)
    requires Shows(g, v) && i in v.contents
    ensures Follows(v, i, n)
  {
    n := g.Next(i);
  }

  method PrevCell<T>(g: Group<T>, p: nat, ghost v: View<T>) returns (q: int)
    requires Shows(g, v) && 0 < p && (p in v.contents || p == v.used)
    ensures Precedes(v, p, q)
  {
    q := g.Prev(p);
  }

  /** The last live cell of a block that has been filled. */
  method LastOf<T>(g: Group<T>, ghost v: View<T>) returns (q: nat)
    requires Shows(g, v) && Plausible(v) && v.used == v.capacity && v.contents != map[]
    ensures Precedes(v, v.used, q)
  {
    var r := PrevCell(g, g.capacity, v);
    ghost var c :| c in v.contents;
    q := r;
  }

  // ---------------------------------------------------------------- the hive

  ghost predicate Owned<T>(g: Group<T>, repr: set<object>) {
    g in repr && g.skipfield in repr && g.elements in repr
  }

  // ---------------------------------------------------------------- the order of iteration

  /** Position (j, d) comes after (k, i): blocks in chain order, cells in order within a block. */
  predicate After(k: nat, i: nat, j: nat, d: nat) {
    k < j || (k == j && i < d)
  }

  ghost predicate LivesAt<T>(gs: seq<Group<T>>, vs: map<Group<T>, View<T>>, k: nat, i: nat) {
    k < |gs| && gs[k] in vs && i in vs[gs[k]].contents
  }

  ghost predicate IsEnd<T>(gs: seq<Group<T>>, vs: map<Group<T>, View<T>>, k: nat, i: nat) {
    k + 1 == |gs| && gs[k] in vs && i == vs[gs[k]].used
  }

  /** The last live cell before p in a block, or -1. */
  ghost predicate Precedes<T>(v: View<T>, p: nat, q: int) {
    -1 <= q < p && (q >= 0 ==> q in v.contents) && forall d | d in v.contents :: d <= q || p <= d
  }

  /** The first element after a position, or the end. */
  ghost predicate IsNext<T>(gs: seq<Group<T>>, vs: map<Group<T>, View<T>>, k: nat, i: nat, k': nat, i': nat) {
    && After(k, i, k', i') && (LivesAt(gs, vs, k', i') || IsEnd(gs, vs, k', i'))
    && forall j: nat, d: nat | LivesAt(gs, vs, j, d) && After(k, i, j, d) :: !After(j, d, k', i')
  }

  /** The last element before a position. */
  ghost predicate IsPrev<T>(gs: seq<Group<T>>, vs: map<Group<T>, View<T>>, k: nat, i: nat, k': nat, i': nat) {
    && After(k', i', k, i) && LivesAt(gs, vs, k', i')
    && forall j: nat, d: nat | LivesAt(gs, vs, j, d) && After(j, d, k, i) :: !After(k', i', j, d)
  }

  /** -- undoes ++, and ++ undoes --. */
  lemma StepsAreInverse<T>(gs: seq<Group<T>>, vs: map<Group<T>, View<T>>, k: nat, i: nat, k': nat, i': nat,
                                 j: nat, d: nat)
    ensures LivesAt(gs, vs, k, i) && IsNext(gs, vs, k, i, k', i') && IsPrev(gs, vs, k', i', j, d) ==> (j, d) == (k, i)
    ensures (LivesAt(gs, vs, k, i) || IsEnd(gs, vs, k, i)) && Filled(gs, vs) && IsPrev(gs, vs, k, i, j, d) ==>
      (IsNext(gs, vs, j, d, k', i') ==> (k', i') == (k, i))
  {
    assert After(k, i, j, d) || After(j, d, k, i) || (j, d) == (k, i);
    assert After(k, i, k', i') || After(k', i', k, i) || (k', i') == (k, i);
  }

  /** From the end of the used cells of a block the iterator goes on to the next block, if there is one. */
  lemma NextAcross<T>(gs: seq<Group<T>>, vs: map<Group<T>, View<T>>, k: nat, i: nat, n: nat, f: nat)
    requires Filled(gs, vs) && k < |gs| && gs[k] in gs && gs[k] in vs && i < vs[gs[k]].used && Follows(vs[gs[k]], i, n)
    requires n == vs[gs[k]].capacity && k + 1 < |gs| ==> gs[k + 1] in vs && IsFirst(vs[gs[k + 1]], f)
    ensures if n == vs[gs[k]].capacity && k + 1 < |gs| then IsNext(gs, vs, k, i, k + 1, f)
            else IsNext(gs, vs, k, i, k, n)
  {
    if k + 1 < |gs| {
      assert gs[k + 1] in gs && vs[gs[k + 1]].contents != map[];
    }
  }

  lemma PrevHere<T>(gs: seq<Group<T>>, vs: map<Group<T>, View<T>>, k: nat, p: nat, q: nat)
    requires k < |gs| && gs[k] in vs && Precedes(vs[gs[k]], p, q)
    ensures IsPrev(gs, vs, k, p, k, q)
  {
  }

  lemma PrevAcross<T>(gs: seq<Group<T>>, vs: map<Group<T>, View<T>>, k: nat, p: nat, q: int, v: View<T>)
    requires 0 < k < |gs| && gs[k] in vs && Precedes(vs[gs[k]], p, -1)
    requires gs[k - 1] in vs && v == vs[gs[k - 1]] && Plausible(v) && v.contents != map[] && Precedes(v, v.used, q)
    ensures q >= 0 && IsPrev(gs, vs, k, p, k - 1, q)
  {
    var c :| c in v.contents;
    forall j: nat, d: nat | LivesAt(gs, vs, j, d) && After(j, d, k, p) ensures !After(k - 1, q, j, d) {
      assert j == k - 1 ==> d in v.contents;
    }
  }

  lemma FollowsErased<T>(v: View<T>, i: nat, n: nat)
    requires Follows(v, i, n)
    ensures Follows(v.(listed := true, contents := v.contents - {i}), i, n) && i < v.used
  {
  }

  /** Strictly ascending, so without repetition. */
  predicate InOrder(s: seq<(nat, nat)>) {
    forall a, b | 0 <= a < b < |s| :: After(s[a].0, s[a].1, s[b].0, s[b].1)
  }

  /** The elements before a position have been visited, in order. */
  ghost predicate Visited<T>(gs: seq<Group<T>>, vs: map<Group<T>, View<T>>, s: seq<(nat, nat)>, k: nat, i: nat) {
    && InOrder(s) && (LivesAt(gs, vs, k, i) || IsEnd(gs, vs, k, i))
    && forall p: (nat, nat) :: p in s <==> LivesAt(gs, vs, p.0, p.1) && After(p.0, p.1, k, i)
  }

  lemma VisitStart<T>(gs: seq<Group<T>>, vs: map<Group<T>, View<T>>, b: nat, e: nat)
    requires gs != [] && Filled(gs, vs) && Bounded(gs, vs, b, e)
    ensures Visited(gs, vs, [], 0, b)
  {
    assert gs[0] in gs;
  }

  lemma VisitStep<T>(gs: seq<Group<T>>, vs: map<Group<T>, View<T>>, s: seq<(nat, nat)>, k: nat, i: nat, k': nat,
                     i': nat)
    requires Visited(gs, vs, s, k, i) && LivesAt(gs, vs, k, i) && IsNext(gs, vs, k, i, k', i')
    ensures Visited(gs, vs, s + [(k, i)], k', i')
  {
    var t := s + [(k, i)];
    forall a, b | 0 <= a < b < |t| ensures After(t[a].0, t[a].1, t[b].0, t[b].1) {
      assert t[a] in s;
    }
    forall p: (nat, nat) ensures p in t <==> LivesAt(gs, vs, p.0, p.1) && After(p.0, p.1, k', i') {
      assert p == (p.0, p.1);
      assert p in t <==> p in s || p == (k, i);
      assert After(p.0, p.1, k, i) || p == (k, i) || After(k, i, p.0, p.1);
    }
  }

  lemma VisitEnd<T>(gs: seq<Group<T>>, vs: map<Group<T>, View<T>>, s: seq<(nat, nat)>, k: nat, i: nat)
    requires Filled(gs, vs) && Visited(gs, vs, s, k, i) && IsEnd(gs, vs, k, i)
    ensures forall p: (nat, nat) :: p in s <==> LivesAt(gs, vs, p.0, p.1)
  {
    forall p: (nat, nat) | LivesAt(gs, vs, p.0, p.1) ensures After(p.0, p.1, k, i) {
      assert gs[p.0] in gs;
    }
  }

  /** Every block has its own memory, all of it in the footprint. */
  ghost predicate LaidOut<T>(gs: seq<Group<T>>, us: seq<Group<T>>, vs: map<Group<T>, View<T>>, repr: set<object>) {
    && Apart(gs + us)
    && (forall g | g in gs :: Owned(g, repr) && g in vs)
    && (forall g | g in us :: Owned(g, repr))
  }

  lemma LaidUpdate<T>(gs: seq<Group<T>>, us: seq<Group<T>>, vs: map<Group<T>, View<T>>, repr: set<object>,
                      g: Group<T>, v: View<T>)
    requires LaidOut(gs, us, vs, repr)
    ensures LaidOut(gs, us, vs[g := v], repr)
  {
  }

  ghost predicate AllShow<T>(gs: seq<Group<T>>, vs: map<Group<T>, View<T>>, repr: set<object>)
    reads repr
  {
    forall g | g in gs :: Owned(g, repr) && g in vs && Shows(g, vs[g])
  }

  ghost predicate AllKept<T>(us: seq<Group<T>>, repr: set<object>)
    reads repr
  {
    forall g | g in us :: Owned(g, repr) && Kept(g)
  }

  ghost predicate HasEarlier<T>(gs: seq<Group<T>>, vs: map<Group<T>, View<T>>, k: nat, p: nat) {
    exists j: nat, d: nat :: LivesAt(gs, vs, j, d) && After(j, d, k, p)
  }

  ghost predicate HasFullBefore<T>(gs: seq<Group<T>>, vs: map<Group<T>, View<T>>, k: nat) {
    && 0 < k <= |gs| && gs[k - 1] in vs && Plausible(vs[gs[k - 1]])
    && vs[gs[k - 1]].contents != map[] && vs[gs[k - 1]].used == vs[gs[k - 1]].capacity
  }

  /** With nothing before it in its block, a position that has a predecessor has a full block before it. */
  lemma EarlierBlock<T>(gs: seq<Group<T>>, vs: map<Group<T>, View<T>>, k: nat, p: nat)
    requires Filled(gs, vs) && k < |gs| && gs[k] in vs && Precedes(vs[gs[k]], p, -1)
    requires HasEarlier(gs, vs, k, p)
    ensures k > 0 && HasFullBefore(gs, vs, k)
  {
    assert k > 0 ==> gs[k - 1] in gs;
  }

  method CellBefore<T>(gs: seq<Group<T>>, k: nat, p: nat, ghost vs: map<Group<T>, View<T>>, ghost repr: set<object>)
    returns (q: int)
    requires AllShow(gs, vs, repr) && (LivesAt(gs, vs, k, p) || IsEnd(gs, vs, k, p))
    ensures Precedes(vs[gs[k]], p, q)
  {
    q := -1;
    if p > 0 {
      assert gs[k] in gs;
      q := PrevCell(gs[k], p, vs[gs[k]]);
    }
  }

  method LastBefore<T>(gs: seq<Group<T>>, k: nat, p: nat, ghost vs: map<Group<T>, View<T>>, ghost repr: set<object>)
    returns (q: nat)
    requires 0 < k < |gs| && gs[k] in vs && Precedes(vs[gs[k]], p, -1)
    requires AllShow(gs, vs, repr) && HasFullBefore(gs, vs, k)
    ensures IsPrev(gs, vs, k, p, k - 1, q)
  {
    assert gs[k - 1] in gs;
    q := LastOf(gs[k - 1], vs[gs[k - 1]]);
    PrevAcross(gs, vs, k, p, q, vs[gs[k - 1]]);
  }

  method StepBack<T>(gs: seq<Group<T>>, k: nat, p: nat, ghost vs: map<Group<T>, View<T>>, ghost repr: set<object>)
    returns (k': nat, q': nat)
    requires AllShow(gs, vs, repr) && Filled(gs, vs) && (LivesAt(gs, vs, k, p) || IsEnd(gs, vs, k, p))
    requires HasEarlier(gs, vs, k, p)
    ensures IsPrev(gs, vs, k, p, k', q')
  {
    var q := CellBefore(gs, k, p, vs, repr);
    if q >= 0 {
      PrevHere(gs, vs, k, p, q);
      k', q' := k, q;
    } else {
      k', q' := StepToPrevious(gs, k, p, vs, repr);
    }
  }

  method StepToPrevious<T>(gs: seq<Group<T>>, k: nat, p: nat, ghost vs: map<Group<T>, View<T>>, ghost repr: set<object>)
    returns (k': nat, q': nat)
    requires AllShow(gs, vs, repr) && Filled(gs, vs) && k < |gs| && gs[k] in vs && Precedes(vs[gs[k]], p, -1)
    requires HasEarlier(gs, vs, k, p)
    ensures IsPrev(gs, vs, k, p, k', q')
  {
    EarlierBlock(gs, vs, k, p);
    k' := k - 1;
    q' := LastBefore(gs, k, p, vs, repr);
  }

  ghost predicate OthersShow<T>(gs: seq<Group<T>>, vs: map<Group<T>, View<T>>, repr: set<object>, g: Group<T>)
    reads repr
  {
    forall h | h in gs && h != g :: Owned(h, repr) && h in vs && Shows(h, vs[h])
  }

  ghost predicate OthersKeep<T>(us: seq<Group<T>>, repr: set<object>, g: Group<T>)
    reads repr
  {
    forall h | h in us && h != g :: Owned(h, repr) && Kept(h)
  }

  lemma NotUnused<T>(gs: seq<Group<T>>, us: seq<Group<T>>, repr: set<object>, g: Group<T>)
    requires Apart(gs + us) && g in gs && OthersKeep(us, repr, g)
    ensures AllKept(us, repr)
  {
    forall h | h in us ensures h != g {
      ApartInTwo(gs, us, g, h);
    }
  }

  lemma AllShowAgain<T>(gs: seq<Group<T>>, vs: map<Group<T>, View<T>>, repr: set<object>, g: Group<T>, v: View<T>)
    requires OthersShow(gs, vs, repr, g) && Owned(g, repr) && Shows(g, v)
    ensures AllShow(gs, vs[g := v], repr)
  {
  }

  lemma ApartInTwo<T>(gs: seq<Group<T>>, us: seq<Group<T>>, g: Group<T>, h: Group<T>)
    requires Apart(gs + us) && g in gs && h in us
    ensures g != h && g.skipfield != h.skipfield && g.elements != h.elements
  {
    var i :| 0 <= i < |gs| && gs[i] == g;
    var j :| 0 <= j < |us| && us[j] == h;
    assert (gs + us)[i] == g && (gs + us)[|gs| + j] == h;
  }

  /** A block with fresh memory joins the chain. */
  lemma LaidNew<T>(gs: seq<Group<T>>, us: seq<Group<T>>, vs: map<Group<T>, View<T>>, repr: set<object>,
                   g: Group<T>, v: View<T>)
    requires LaidOut(gs, us, vs, repr) && g !in repr && g.skipfield !in repr && g.elements !in repr
    ensures g !in gs && LaidOut(gs + [g], us, vs[g := v], repr + {g, g.skipfield, g.elements})
  {
    var all := gs + us;
    forall h | h in all ensures Owned(h, repr) {
    }
    forall i, j | 0 <= i < j < |gs + [g] + us|
      ensures var a, b := (gs + [g] + us)[i], (gs + [g] + us)[j];
        a != b && a.skipfield != b.skipfield && a.elements != b.elements
    {
      var i', j' := if i > |gs| then i - 1 else i, if j > |gs| then j - 1 else j;
      if i != |gs| && j != |gs| {
        assert (gs + [g] + us)[i] == all[i'] && (gs + [g] + us)[j] == all[j'];
      } else if i == |gs| {
        assert (gs + [g] + us)[j] == all[j'] && all[j'] in all;
      } else {
        assert (gs + [g] + us)[i] == all[i'] && all[i'] in all;
      }
    }
  }

  lemma ShowNew<T>(gs: seq<Group<T>>, us: seq<Group<T>>, vs: map<Group<T>, View<T>>, repr: set<object>,
                   g: Group<T>, v: View<T>)
    requires AllShow(gs, vs, repr) && AllKept(us, repr) && g !in gs && Shows(g, v)
    ensures AllShow(gs + [g], vs[g := v], repr + {g, g.skipfield, g.elements})
    ensures AllKept(us, repr + {g, g.skipfield, g.elements})
  {
  }

  method NewBlock<T>(capacity: nat, x: T, ghost repr: set<object>)
    returns (g: Group<T>, ghost v: View<T>, ghost more: set<object>)
    requires 1 <= capacity <= NPOS
    ensures more == {g, g.skipfield, g.elements} && fresh(more) && more !! repr
    ensures Shows(g, v) && v == View(capacity, 1, false, map[0 := x])
  {
    g := new Group<T>(capacity, x);
    v := View(capacity, 1, false, map[0 := x]);
    more := {g, g.skipfield, g.elements};
  }

  /** The first unused block moves to the end of the chain. */
  lemma LaidReused<T>(gs: seq<Group<T>>, us: seq<Group<T>>, vs: map<Group<T>, View<T>>, repr: set<object>, v: View<T>)
    requires LaidOut(gs, us, vs, repr) && us != []
    ensures us[0] !in gs && us[0] !in us[1..] && LaidOut(gs + [us[0]], us[1..], vs[us[0] := v], repr)
  {
    var all, g := gs + us, us[0];
    assert gs + [g] + us[1..] == all && all[|gs|] == g;
    forall h | h in us[1..] ensures h in us && h != g {
      var j :| 0 <= j < |us| - 1 && us[1..][j] == h;
      assert h == us[j + 1] == all[|gs| + (j + 1)];
    }
    forall h | h in gs ensures h != g {
      var j :| 0 <= j < |gs| && gs[j] == h;
      assert h == all[j];
    }
    assert g in us;
  }

  lemma ShowReused<T>(gs: seq<Group<T>>, us: seq<Group<T>>, vs: map<Group<T>, View<T>>, repr: set<object>, v: View<T>)
    requires us != [] && us[0] !in gs && us[0] !in us[1..] && Owned(us[0], repr)
    requires OthersShow(gs, vs, repr, us[0]) && OthersKeep(us, repr, us[0]) && Shows(us[0], v)
    ensures AllShow(gs + [us[0]], vs[us[0] := v], repr) && AllKept(us[1..], repr)
  {
    assert us == [us[0]] + us[1..];
  }

  lemma CapacityOf<T>(gs: seq<Group<T>>, vs: map<Group<T>, View<T>>, repr: set<object>, g: Group<T>)
    requires AllShow(gs, vs, repr) && g in gs
    ensures vs[g].capacity == g.capacity && vs[g].listed == (g.freeListHead != NPOS) && g.size == |vs[g].contents|
  {
  }

  lemma BeginLives<T>(gs: seq<Group<T>>, vs: map<Group<T>, View<T>>, er: seq<Group<T>>, b: nat, e: nat, n: nat)
    requires Good(gs, vs, er, b, e, n) && Contents(gs, vs) != map[]
    ensures gs != [] && LivesAt(gs, vs, 0, b)
    ensures forall j: nat, d: nat | LivesAt(gs, vs, j, d) :: !After(j, d, 0, b)
  {
    var p :| p in Contents(gs, vs);
    ContentsAt(gs, vs, p);
    if |gs| == 1 { assert p.0 == gs[0]; }
    assert vs[gs[0]].contents != map[];
  }

  /** A chain whose end block is full holds something. */
  lemma FullIsNotEmpty<T>(gs: seq<Group<T>>, vs: map<Group<T>, View<T>>, er: seq<Group<T>>, b: nat, e: nat, n: nat)
    requires Good(gs, vs, er, b, e, n) && gs != [] && e == vs[gs[|gs| - 1]].capacity
    ensures n > 0
  {
    var g := gs[|gs| - 1];
    assert g in gs;
    if vs[g].contents != map[] {
      var i :| i in vs[g].contents;
      InContents(gs, vs, g, i);
    }
  }

  lemma SomethingHeld<T>(gs: seq<Group<T>>, vs: map<Group<T>, View<T>>, er: seq<Group<T>>, b: nat, e: nat, n: nat,
                         g: Group<T>, i: nat)
    requires Good(gs, vs, er, b, e, n) && g in gs && i in vs[g].contents
    ensures n > 0 && gs != []
  {
    InContents(gs, vs, g, i);
  }

  lemma CapacityPositive<T>(gs: seq<Group<T>>, vs: map<Group<T>, View<T>>, er: seq<Group<T>>, b: nat, e: nat, n: nat,
                            g: Group<T>)
    requires Good(gs, vs, er, b, e, n) && g in gs
    ensures vs[g].capacity >= 1
  {
  }

  lemma NeighbourHolds<T>(gs: seq<Group<T>>, vs: map<Group<T>, View<T>>, er: seq<Group<T>>, b: nat, e: nat, n: nat,
                          k: nat)
    requires Good(gs, vs, er, b, e, n) && 1 < |gs| && k < |gs|
    ensures gs[k] in gs && gs[k] in vs && vs[gs[k]].contents != map[]
  {
  }

  lemma {:induction false} WithoutAbsent<T>(s: seq<Group<T>>, g: Group<T>)
    requires g !in s
    ensures Without(s, g) == s
  {
    if s != [] {
      WithoutAbsent(s[1..], g);
    }
  }

  lemma NotListed<T>(gs: seq<Group<T>>, vs: map<Group<T>, View<T>>, er: seq<Group<T>>, b: nat, e: nat, n: nat, k: nat)
    requires Good(gs, vs, er, b, e, n) && k < |gs|
    ensures gs[k] in vs && (!vs[gs[k]].listed ==> Without(er, gs[k]) == er)
  {
    assert gs[k] in gs;
    if !vs[gs[k]].listed {
      WithoutAbsent(er, gs[k]);
    }
  }

  /** A selection of blocks, in any order, is apart if no block is taken twice. */
  lemma ApartSelected<T>(all: seq<Group<T>>, some: seq<Group<T>>, from: seq<nat>)
    requires Apart(all) && |from| == |some|
    requires forall i | 0 <= i < |some| :: from[i] < |all| && some[i] == all[from[i]]
    requires forall i, j | 0 <= i < j < |from| :: from[i] != from[j]
    ensures Apart(some)
  {
    forall i, j | 0 <= i < j < |some|
      ensures some[i] != some[j] && some[i].skipfield != some[j].skipfield && some[i].elements != some[j].elements
    {
      assert from[i] < from[j] || from[j] < from[i];
    }
  }

  lemma LaidDrop<T>(gs: seq<Group<T>>, us: seq<Group<T>>, vs: map<Group<T>, View<T>>, repr: set<object>, k: nat)
    requires LaidOut(gs, us, vs, repr) && k < |gs|
    ensures LaidOut(Drop(gs, k), us, vs, repr) && LaidOut(Drop(gs, k), [gs[k]] + us, vs, repr)
  {
    var n := |gs + us|;
    var dropped := seq(n - 1, i requires 0 <= i < n - 1 => if i < k then i else i + 1);
    ApartSelected(gs + us, Drop(gs, k) + us, dropped);
    var moved := seq(n, i requires 0 <= i < n =>
      if i < k then i else if i < |gs| - 1 then i + 1 else if i == |gs| - 1 then k else i);
    ApartSelected(gs + us, Drop(gs, k) + ([gs[k]] + us), moved);
    forall h | h in Drop(gs, k) ensures h in gs {
    }
  }

  lemma ShowDrop<T>(gs: seq<Group<T>>, us: seq<Group<T>>, vs: map<Group<T>, View<T>>, repr: set<object>, k: nat)
    requires AllShow(gs, vs, repr) && AllKept(us, repr) && k < |gs|
    ensures AllShow(Drop(gs, k), vs, repr)
    ensures vs[gs[k]].capacity >= 1 ==> AllKept([gs[k]] + us, repr)
  {
    assert gs[k] in gs;
    forall h | h in Drop(gs, k) ensures h in gs {
    }
  }

  lemma DropShape<T>(gs: seq<Group<T>>, us: seq<Group<T>>, vs: map<Group<T>, View<T>>, repr: set<object>, k: nat,
                     us': seq<Group<T>>)
    requires LaidOut(gs, us, vs, repr) && AllShow(gs, vs, repr) && AllKept(us, repr) && k < |gs| && gs[k] in vs
    requires us' == us || (us' == [gs[k]] + us && vs[gs[k]].capacity >= 1)
    ensures LaidOut(Drop(gs, k), us', vs, repr) && AllShow(Drop(gs, k), vs, repr) && AllKept(us', repr)
  {
    LaidDrop(gs, us, vs, repr, k);
    ShowDrop(gs, us, vs, repr, k);
  }

  lemma DropGood<T>(gs: seq<Group<T>>, vs: map<Group<T>, View<T>>, er: seq<Group<T>>, b: nat, e: nat, n: nat,
                    k: nat, i: nat, er': seq<Group<T>>, b': nat, e': nat)
    requires Good(gs, vs, er, b, e, n) && 1 < |gs| && k < |gs| && gs[k] in vs && vs[gs[k]].contents.Keys == {i}
    requires er' == if vs[gs[k]].listed then Without(er, gs[k]) else er
    requires if k == 0 then gs[1] in vs && IsFirst(vs[gs[1]], b') else b' == b
    requires if k == |gs| - 1 then gs[k - 1] in vs && e' == vs[gs[k - 1]].capacity else e' == e
    ensures n > 0 && Good(Drop(gs, k), vs, er', b', e', n - 1)
    ensures Contents(Drop(gs, k), vs) == Contents(gs, vs) - {(gs[k], i)}
    ensures vs[gs[k]].capacity >= 1
  {
    NotListed(gs, vs, er, b, e, n, k);
    assert gs[k] in gs && i in vs[gs[k]].contents;
    SomethingHeld(gs, vs, er, b, e, n, gs[k], i);
    GoodDrop(gs, vs, er, b, e, n, k, i, b', e');
    CapacityPositive(gs, vs, er, b, e, n, gs[k]);
  }

  lemma InBlock<T>(gs: seq<Group<T>>, vs: map<Group<T>, View<T>>, er: seq<Group<T>>, b: nat, e: nat, n: nat, k: nat,
                   i: nat)
    requires Good(gs, vs, er, b, e, n) && LivesAt(gs, vs, k, i)
    ensures gs[k] in gs && i < vs[gs[k]].used
  {
  }

  lemma EndPosition<T>(gs: seq<Group<T>>, vs: map<Group<T>, View<T>>, er: seq<Group<T>>, b: nat, e: nat, n: nat,
                       k: nat, i: nat)
    requires Good(gs, vs, er, b, e, n) && (LivesAt(gs, vs, k, i) || IsEnd(gs, vs, k, i))
    ensures k < |gs| && gs[k] in vs && i <= vs[gs[k]].used
    ensures k == |gs| - 1 && i == e <==> IsEnd(gs, vs, k, i)
  {
    assert gs[k] in gs;
  }

  lemma AllVisited<T>(gs: seq<Group<T>>, vs: map<Group<T>, View<T>>, er: seq<Group<T>>, b: nat, e: nat, n: nat,
                      s: seq<(nat, nat)>, k: nat, i: nat)
    requires Good(gs, vs, er, b, e, n) && Visited(gs, vs, s, k, i) && k == |gs| - 1 && i == e
    ensures InOrder(s) && forall p: (nat, nat) :: p in s <==> LivesAt(gs, vs, p.0, p.1)
  {
    EndPosition(gs, vs, er, b, e, n, k, i);
    VisitEnd(gs, vs, s, k, i);
  }

  lemma OneElement<T>(m: map<nat, T>, i: nat)
    requires i in m && |m| <= 1
    ensures m.Keys == {i}
  {
    forall j | j in m ensures j == i {
      if j != i {
        SubsetSize({i, j}, m.Keys);
      }
    }
  }

  lemma BlockHolds<T>(gs: seq<Group<T>>, vs: map<Group<T>, View<T>>, er: seq<Group<T>>, b: nat, e: nat, n: nat, k: nat)
    requires Good(gs, vs, er, b, e, n) && k < |gs|
    ensures gs[k] in gs && gs[k] in vs
  {
  }

  class Hive<T> {
    const minBlock: nat
    const maxBlock: nat

    /** The chain of blocks, the list of blocks with erased cells (head first), and the unused blocks. */
    var groups: seq<Group<T>>
    var erasures: seq<Group<T>>
    var unused: seq<Group<T>>

    /** begin is a cell of the first block, end one of the last. */
    var beginCell: nat
    var endCell: nat
    var totalSize: nat

    ghost var views: map<Group<T>, View<T>>
    ghost var repr: set<object>

    ghost predicate Valid()
      reads this, repr
    {
      && 1 <= minBlock <= maxBlock <= NPOS && this !in repr
      && LaidOut(groups, unused, views, repr) && AllShow(groups, views, repr) && AllKept(unused, repr)
      && Good(groups, views, erasures, beginCell, endCell, totalSize)
    }

    ghost function Elements(): map<(Group<T>, nat), T>
      requires Valid()
      reads this, repr
    {
      Contents(groups, views)
    }

    constructor (minBlock: nat, maxBlock: nat)
      requires 1 <= minBlock <= maxBlock <= NPOS
      ensures Valid() && Elements() == map[] && fresh(repr)
      ensures this.minBlock == minBlock && this.maxBlock == maxBlock
    {
      this.minBlock, this.maxBlock := minBlock, maxBlock;
      groups, erasures, unused := [], [], [];
      beginCell, endCell, totalSize := 0, 0, 0;
      views, repr := map[], {};
      new;
      assert Contents(groups, views) == map[];
    }

    twostate lemma StillShown(h: Group<T>)
      requires unchanged(this) && h in views && old(Shows(h, views[h]))
      requires unchanged(h) && unchanged(h.skipfield) && unchanged(h.elements)
      ensures Shows(h, views[h])
    {
    }

    /** Editing one block leaves the others as they were. */
    twostate lemma OthersShown(g: Group<T>)
      requires old(AllShow(groups, views, repr)) && LaidOut(groups, unused, views, repr) && g in groups + unused
      requires unchanged(this)
      requires forall o: object | o in repr && o != g && o != g.skipfield && o != g.elements :: unchanged(o)
      ensures OthersShow(groups, views, repr, g)
    {
      forall h | h in groups && h != g ensures Shows(h, views[h]) {
        ApartFrom(groups + unused, g, h);
        assert Owned(h, repr);
        StillShown(h);
      }
    }

    twostate lemma OthersKept(g: Group<T>)
      requires old(AllKept(unused, repr)) && LaidOut(groups, unused, views, repr) && g in groups + unused
      requires unchanged(this)
      requires forall o: object | o in repr && o != g && o != g.skipfield && o != g.elements :: unchanged(o)
      ensures OthersKeep(unused, repr, g)
    {
      forall h | h in unused && h != g ensures Kept(h) {
        ApartFrom(groups + unused, g, h);
        assert Owned(h, repr) && old(Kept(h));
      }
    }

    method StoreLists(gs: seq<Group<T>>, us: seq<Group<T>>, er: seq<Group<T>>, ghost vs: map<Group<T>, View<T>>,
                      ghost rp: set<object>)
      requires this !in rp && AllShow(gs, vs, rp) && AllKept(us, rp)
      modifies this`groups, this`unused, this`erasures
      ensures groups == gs && unused == us && erasures == er && AllShow(gs, vs, rp) && AllKept(us, rp)
    {
      groups, unused, erasures := gs, us, er;
    }

    method StoreBounds(b: nat, e: nat, n: nat, ghost gs: seq<Group<T>>, ghost us: seq<Group<T>>,
                       ghost vs: map<Group<T>, View<T>>, ghost rp: set<object>)
      requires this !in rp && AllShow(gs, vs, rp) && AllKept(us, rp)
      modifies this`beginCell, this`endCell, this`totalSize, this`views, this`repr
      ensures beginCell == b && endCell == e && totalSize == n && views == vs && repr == rp
      ensures AllShow(gs, vs, rp) && AllKept(us, rp)
    {
      beginCell, endCell, totalSize, views, repr := b, e, n, vs, rp;
    }

    /** A new consistent state of the whole hive. */
    method Commit(gs: seq<Group<T>>, us: seq<Group<T>>, er: seq<Group<T>>, b: nat, e: nat, n: nat,
                  ghost vs: map<Group<T>, View<T>>, ghost rp: set<object>)
      requires 1 <= minBlock <= maxBlock <= NPOS && this !in rp
      requires LaidOut(gs, us, vs, rp) && AllShow(gs, vs, rp) && AllKept(us, rp) && Good(gs, vs, er, b, e, n)
      modifies this
      ensures Valid() && groups == gs && unused == us && erasures == er && beginCell == b && endCell == e
      ensures views == vs && repr == rp
    {
      StoreLists(gs, us, er, vs, rp);
      StoreBounds(b, e, n, gs, us, vs, rp);
      assert Good(groups, views, erasures, beginCell, endCell, totalSize);
    }

    // -------------------------------------------------------------- edits of one block

    method AppendBlock(g: Group<T>, i: nat, x: T, ghost v: View<T>, ghost vs: map<Group<T>, View<T>>)
      requires Valid() && g in groups && v == views[g] && i == v.used < v.capacity
      requires vs == views[g := v.(used := v.used + 1, contents := v.contents[i := x])]
      modifies g, g.elements
      ensures unchanged(this)
      ensures LaidOut(groups, unused, vs, repr) && AllShow(groups, vs, repr) && AllKept(unused, repr)
    {
      ghost var v' := AppendTo(g, i, x, v);
      OthersShown(g);
      OthersKept(g);
      NotUnused(groups, unused, repr, g);
      AllShowAgain(groups, views, repr, g, v');
      LaidUpdate(groups, unused, views, repr, g, v');
    }

    method AppendAndCommit(g: Group<T>, i: nat, x: T, er: seq<Group<T>>, b: nat, e: nat, n: nat,
                           ghost v: View<T>, ghost vs: map<Group<T>, View<T>>)
      requires Valid() && g in groups && v == views[g] && i == v.used < v.capacity
      requires vs == views[g := v.(used := v.used + 1, contents := v.contents[i := x])]
      requires Good(groups, vs, er, b, e, n)
      modifies this, g, g.elements
      ensures Valid() && groups == old(groups) && views == vs && repr == old(repr)
    {
      AppendBlock(g, i, x, v, vs);
      Commit(groups, unused, er, b, e, n, vs, repr);
    }

    method ReuseBlock(g: Group<T>, x: T, ghost v: View<T>) returns (i: nat, ghost v': View<T>)
      requires Valid() && g in groups && v == views[g] && v.listed
      modifies g, g.elements, g.skipfield
      ensures unchanged(this) && i == old(g.freeListHead) && i !in v.contents && Plausible(v')
      ensures v' == v.(listed := g.freeListHead != NPOS, contents := v.contents[i := x])
      ensures OthersShow(groups, views, repr, g) && AllKept(unused, repr) && Shows(g, v')
    {
      i, v' := ReuseIn(g, x, v);
      OthersShown(g);
      OthersKept(g);
      NotUnused(groups, unused, repr, g);
    }

    method RestartBlock(g: Group<T>, x: T) returns (ghost v: View<T>)
      requires Valid() && unused != [] && g == unused[0]
      modifies g, g.elements, g.skipfield
      ensures unchanged(this) && v == View(v.capacity, 1, false, map[0 := x]) && v.capacity >= 1
      ensures OthersShow(groups, views, repr, g) && OthersKeep(unused, repr, g) && Shows(g, v)
    {
      v := Restart(g, x);
      OthersShown(g);
      OthersKept(g);
    }

    method EraseBlock(g: Group<T>, i: nat, ghost v: View<T>) returns (n: nat, ghost v': View<T>)
      requires Valid() && g in groups && v == views[g] && i in v.contents && g.size > 1
      modifies g, g.elements, g.skipfield
      ensures unchanged(this) && v' == v.(listed := true, contents := v.contents - {i}) && Follows(v, i, n)
      ensures OthersShow(groups, views, repr, g) && AllKept(unused, repr) && Shows(g, v')
    {
      n, v' := EraseFrom(g, i, v);
      OthersShown(g);
      OthersKept(g);
      NotUnused(groups, unused, repr, g);
    }

    method ClearBlock(g: Group<T>) returns (ghost v: View<T>)
      requires Valid() && g in groups && g.capacity >= 1
      modifies g, g.skipfield
      ensures unchanged(this) && v == View(g.capacity, 0, false, map[])
      ensures OthersShow(groups, views, repr, g) && AllKept(unused, repr) && Shows(g, v)
    {
      v := Clear(g);
      OthersShown(g);
      OthersKept(g);
      NotUnused(groups, unused, repr, g);
    }

    // -------------------------------------------------------------- writing through an iterator

    method AssignBlock(g: Group<T>, i: nat, x: T, ghost v: View<T>) returns (ghost v': View<T>)
      requires Valid() && g in groups && v == views[g] && i in v.contents
      modifies g, g.elements
      ensures unchanged(this) && v' == v.(contents := v.contents[i := x])
      ensures OthersShow(groups, views, repr, g) && AllKept(unused, repr) && Shows(g, v')
    {
      v' := AssignIn(g, i, x, v);
      OthersShown(g);
      OthersKept(g);
      NotUnused(groups, unused, repr, g);
    }

    /** Overwrites an element in place; nothing else changes, and every iterator stays where it is. */
    method Assign(k: nat, i: nat, x: T)
      requires Valid() && LivesAt(groups, views, k, i)
      modifies this, repr
      ensures Valid() && repr == old(repr) && groups == old(groups) && beginCell == old(beginCell)
      ensures LivesAt(groups, views, k, i)
      ensures Elements() == old(Elements())[(groups[k], i) := x]
    {
      var g := groups[k];
      ghost var v := views[g];
      ghost var v' := AssignBlock(g, i, x, v);
      AssignCommit(g, i, x, v', views[g := v']);
    }

    method AssignCommit(g: Group<T>, i: nat, ghost x: T, ghost v': View<T>, ghost vs: map<Group<T>, View<T>>)
      requires 1 <= minBlock <= maxBlock <= NPOS && this !in repr && LaidOut(groups, unused, views, repr)
      requires Good(groups, views, erasures, beginCell, endCell, totalSize) && g in groups && g in views
      requires i in views[g].contents && v' == views[g].(contents := views[g].contents[i := x]) && vs == views[g := v']
      requires OthersShow(groups, views, repr, g) && AllKept(unused, repr) && Shows(g, v')
      modifies this
      ensures Valid() && repr == old(repr) && groups == old(groups) && views == vs && beginCell == old(beginCell)
      ensures Elements() == old(Contents(groups, views))[(g, i) := x]
    {
      AllShowAgain(groups, views, repr, g, v');
      LaidUpdate(groups, unused, views, repr, g, v');
      GoodAssign(groups, views, erasures, beginCell, endCell, totalSize, g, i, x, v');
      Commit(groups, unused, erasures, beginCell, endCell, totalSize, vs, repr);
    }

    /** The element at a position. */
    method At(k: nat, i: nat) returns (x: T)
      requires Valid() && LivesAt(groups, views, k, i)
      ensures (groups[k], i) in Elements() && x == Elements()[(groups[k], i)]
    {
      InContents(groups, views, groups[k], i);
      assert Shows(groups[k], views[groups[k]]);
      x := groups[k].At(i);
    }

    /** begin is the first element; of an empty hive there is none. */
    method Begin() returns (i: nat)
      requires Valid() && Elements() != map[]
      ensures groups != [] && LivesAt(groups, views, 0, i)
      ensures forall j: nat, d: nat | LivesAt(groups, views, j, d) :: !After(j, d, 0, i)
    {
      BeginLives(groups, views, erasures, beginCell, endCell, totalSize);
      i := beginCell;
    }

    method IsEmpty() returns (empty: bool)
      requires Valid()
      ensures empty <==> Elements() == map[]
    {
      empty := totalSize == 0;
    }

    // -------------------------------------------------------------- inserting

    /** No erased cell and room in the end block: the element goes to its first cell that was never used. */
    method InsertAtEnd(x: T) returns (g: Group<T>, i: nat)
      requires Valid() && groups != [] && groups[|groups| - 1] in views
      requires endCell < views[groups[|groups| - 1]].capacity
      modifies this, repr
      ensures Valid() && repr == old(repr) && g == old(groups[|groups| - 1]) && i == old(endCell)
      ensures (g, i) !in old(Elements()) && Elements() == old(Elements())[(g, i) := x]
    {
      g, i := groups[|groups| - 1], endCell;
      ghost var v := views[g];
      ghost var vs := views[g := v.(used := v.used + 1, contents := v.contents[i := x])];
      LastBlock(groups, views, erasures, beginCell, endCell, totalSize, g);
      InsertInBlock(g, i, x, v, vs);
    }

    method InsertInBlock(g: Group<T>, i: nat, x: T, ghost v: View<T>, ghost vs: map<Group<T>, View<T>>)
      requires Valid() && groups != [] && g == groups[|groups| - 1] && g in views && v == views[g]
      requires i == endCell < v.capacity && vs == views[g := v.(used := v.used + 1, contents := v.contents[i := x])]
      modifies this, g, g.elements
      ensures Valid() && repr == old(repr)
      ensures (g, i) !in old(Elements()) && Elements() == old(Elements())[(g, i) := x]
    {
      GoodAppend(groups, views, erasures, beginCell, endCell, totalSize, g, v, x, vs);
      AppendAndCommit(g, i, x, erasures, beginCell, endCell + 1, totalSize + 1, v, vs);
    }

    /**
     An erased cell is there: the start of the most recent run, in the block at the head of the
     list, is used again.
     */
    method InsertInErased(x: T) returns (g: Group<T>, i: nat)
      requires Valid() && erasures != []
      modifies this, repr
      ensures Valid() && repr == old(repr) && g == old(erasures[0]) && i == old(erasures[0].freeListHead)
      ensures (g, i) !in old(Elements()) && Elements() == old(Elements())[(g, i) := x]
    {
      g := erasures[0];
      ListedHead(groups, views, erasures, beginCell, endCell, totalSize, g);
      i := ReuseCell(g, x, views[g]);
    }

    method ReuseCell(g: Group<T>, x: T, ghost v: View<T>) returns (i: nat)
      requires Valid() && erasures != [] && g == erasures[0] && g in groups && v == views[g] && v.listed
      modifies this, g, g.elements, g.skipfield
      ensures Valid() && repr == old(repr) && i == old(g.freeListHead)
      ensures (g, i) !in old(Elements()) && Elements() == old(Elements())[(g, i) := x]
    {
      ghost var v';
      i, v' := ReuseBlock(g, x, v);
      AllShowAgain(groups, views, repr, g, v');
      LaidUpdate(groups, unused, views, repr, g, v');
      GoodReuse(groups, views, erasures, beginCell, endCell, totalSize, i, v', x);
      Commit(groups, unused, if g.freeListHead != NPOS then erasures else erasures[1..],
             if g == groups[0] && i < beginCell then i else beginCell, endCell, totalSize + 1, views[g := v'], repr);
    }

    /** The end block is full: a new block takes the element. */
    method InsertInNewBlock(x: T, capacity: nat) returns (g: Group<T>, i: nat)
      requires Valid() && 1 <= capacity <= NPOS
      requires groups != [] ==> groups[|groups| - 1] in views && endCell == views[groups[|groups| - 1]].capacity
      modifies this
      ensures Valid() && fresh(repr - old(repr))
      ensures i == 0 && (g, i) !in old(Elements()) && Elements() == old(Elements())[(g, i) := x]
    {
      i := 0;
      var b := if groups == [] then 0 else beginCell;
      ghost var v, more;
      g, v, more := NewBlock(capacity, x, repr + {this});
      assert Valid();
      AddBlock(g, x, v, groups + [g], b, views[g := v], more, repr + more);
    }

    method AddBlock(g: Group<T>, x: T, ghost v: View<T>, gs: seq<Group<T>>, b: nat,
                    ghost vs: map<Group<T>, View<T>>, ghost more: set<object>, ghost rp: set<object>)
      requires Valid() && more == {g, g.skipfield, g.elements} && more !! repr + {this} && rp == repr + more
      requires Shows(g, v) && v == View(v.capacity, 1, false, map[0 := x]) && v.capacity >= 1
      requires groups != [] ==> groups[|groups| - 1] in views && endCell == views[groups[|groups| - 1]].capacity
      requires gs == groups + [g] && b == (if groups == [] then 0 else beginCell) && vs == views[g := v]
      modifies this
      ensures Valid() && repr == rp
      ensures (g, 0) !in old(Elements()) && Elements() == old(Elements())[(g, 0) := x]
    {
      LaidNew(groups, unused, views, repr, g, v);
      ShowNew(groups, unused, views, repr, g, v);
      GoodNewBlock(groups, views, erasures, beginCell, endCell, totalSize, g, v, x);
      Commit(gs, unused, erasures, b, 1, totalSize + 1, vs, rp);
    }

    /** The end block is full: a block kept for later takes the element. */
    method InsertInUnused(x: T) returns (g: Group<T>, i: nat)
      requires Valid() && unused != [] && groups != []
      requires groups[|groups| - 1] in views && endCell == views[groups[|groups| - 1]].capacity
      modifies this, repr
      ensures Valid() && repr == old(repr)
      ensures i == 0 && (g, i) !in old(Elements()) && Elements() == old(Elements())[(g, i) := x]
    {
      g, i := unused[0], 0;
      assert Owned(g, repr);
      ghost var v := RestartBlock(g, x);
      AddUnused(g, x, v, groups + [g], unused[1..], views[g := v]);
    }

    method AddUnused(g: Group<T>, x: T, ghost v: View<T>, gs: seq<Group<T>>, us: seq<Group<T>>,
                     ghost vs: map<Group<T>, View<T>>)
      requires 1 <= minBlock <= maxBlock <= NPOS && this !in repr && LaidOut(groups, unused, views, repr)
      requires Good(groups, views, erasures, beginCell, endCell, totalSize) && groups != []
      requires unused != [] && g == unused[0] && Owned(g, repr)
      requires OthersShow(groups, views, repr, g) && OthersKeep(unused, repr, g) && Shows(g, v)
      requires v == View(v.capacity, 1, false, map[0 := x]) && v.capacity >= 1
      requires groups[|groups| - 1] in views && endCell == views[groups[|groups| - 1]].capacity
      requires gs == groups + [g] && us == unused[1..] && vs == views[g := v]
      modifies this
      ensures Valid() && repr == old(repr)
      ensures (g, 0) !in old(Contents(groups, views)) && Elements() == old(Contents(groups, views))[(g, 0) := x]
    {
      LaidReused(groups, unused, views, repr, v);
      ShowReused(groups, unused, views, repr, v);
      GoodNewBlock(groups, views, erasures, beginCell, endCell, totalSize, g, v, x);
      Commit(gs, us, erasures, beginCell, 1, totalSize + 1, vs, repr);
    }

    /** The end block has a cell that was never used. */
    predicate HasRoom()
      reads this
    {
      groups != [] && endCell < groups[|groups| - 1].capacity
    }

    /**
     insert: the element gets a cell that held none, and no other element moves. An erased cell is used again
     before any other, the start of the latest run in the block at the head of the list; else the next cell of
     the end block is used; and only when that is full the element starts another block.
     */
    method Insert(x: T) returns (g: Group<T>, i: nat)
      requires Valid()
      modifies this, repr
      ensures Valid() && fresh(repr - old(repr))
      ensures (g, i) !in old(Elements()) && Elements() == old(Elements())[(g, i) := x]
      ensures old(erasures != []) ==> g == old(erasures[0]) && i == old(erasures[0].freeListHead)
      ensures old(erasures == [] && HasRoom()) ==> g == old(groups[|groups| - 1]) && i == old(endCell)
      ensures old(erasures == [] && !HasRoom()) ==> i == 0
    {
      if groups == [] {
        NoBlockNoList(groups, views, erasures, beginCell, endCell, totalSize);
        g, i := InsertInNewBlock(x, minBlock);
      } else if erasures == [] {
        g, i := InsertWithoutErased(x);
      } else {
        g, i := InsertInErased(x);
      }
    }

    method InsertWithoutErased(x: T) returns (g: Group<T>, i: nat)
      requires Valid() && groups != [] && erasures == []
      modifies this, repr
      ensures Valid() && fresh(repr - old(repr))
      ensures (g, i) !in old(Elements()) && Elements() == old(Elements())[(g, i) := x]
      ensures if old(HasRoom()) then g == old(groups[|groups| - 1]) && i == old(endCell) else i == 0
    {
      var last := groups[|groups| - 1];
      LastBlock(groups, views, erasures, beginCell, endCell, totalSize, last);
      CapacityOf(groups, views, repr, last);
      if endCell != last.capacity {
        g, i := InsertAtEnd(x);
      } else {
        g, i := InsertInNextBlock(x);
      }
    }

    /** The end block is full: the element starts another one. */
    method InsertInNextBlock(x: T) returns (g: Group<T>, i: nat)
      requires Valid() && groups != []
      requires groups[|groups| - 1] in views && endCell == views[groups[|groups| - 1]].capacity
      modifies this, repr
      ensures Valid() && fresh(repr - old(repr))
      ensures i == 0 && (g, i) !in old(Elements()) && Elements() == old(Elements())[(g, i) := x]
    {
      if unused == [] {
        FullIsNotEmpty(groups, views, erasures, beginCell, endCell, totalSize);
        g, i := InsertInNewBlock(x, if totalSize < maxBlock then totalSize else maxBlock);
      } else {
        g, i := InsertInUnused(x);
      }
    }

    // -------------------------------------------------------------- erasing

    /** The block keeps other elements. */
    method EraseAndKeep(k: nat, i: nat) returns (n: nat)
      requires Valid() && k < |groups| && groups[k] in views && i in views[groups[k]].contents && groups[k].size > 1
      modifies this, repr
      ensures Valid() && repr == old(repr) && groups == old(groups)
      ensures Elements() == old(Elements()) - {(groups[k], i)}
      ensures groups[k] in views && i < views[groups[k]].used && Follows(views[groups[k]], i, n)
    {
      var g := groups[k];
      ghost var v := views[g];
      var listed := g.freeListHead != NPOS;
      CapacityOf(groups, views, repr, g);
      ghost var v';
      n, v' := EraseBlock(g, i, v);
      FollowsErased(v, i, n);
      EraseCommit(g, i, n, listed, v, v', views[g := v']);
    }

    method EraseCommit(g: Group<T>, i: nat, n: nat, listed: bool, ghost v: View<T>, ghost v': View<T>,
                       ghost vs: map<Group<T>, View<T>>)
      requires 1 <= minBlock <= maxBlock <= NPOS && this !in repr && LaidOut(groups, unused, views, repr)
      requires Good(groups, views, erasures, beginCell, endCell, totalSize) && g in groups && g in views
      requires v == views[g]
      requires i in v.contents && listed == v.listed && Follows(v, i, n) && v'.contents != map[]
      requires v' == v.(listed := true, contents := v.contents - {i}) && vs == views[g := v']
      requires OthersShow(groups, views, repr, g) && AllKept(unused, repr) && Shows(g, v')
      modifies this
      ensures Valid() && repr == old(repr) && groups == old(groups) && views == vs
      ensures Elements() == old(Contents(groups, views)) - {(g, i)}
    {
      AllShowAgain(groups, views, repr, g, v');
      LaidUpdate(groups, unused, views, repr, g, v');
      SomethingHeld(groups, views, erasures, beginCell, endCell, totalSize, g, i);
      GoodErase(groups, views, erasures, beginCell, endCell, totalSize, g, i, n, v');
      Commit(groups, unused, if listed then erasures else [g] + erasures,
             if g == groups[0] && i == beginCell then n else beginCell, endCell, totalSize - 1, vs, repr);
    }

    /** The last block left loses its last element: it is cleared and kept, and begin and end meet at its first cell. */
    method EraseOnly(i: nat)
      requires Valid() && |groups| == 1 && groups[0] in views && views[groups[0]].contents.Keys == {i}
      modifies this, repr
      ensures Valid() && repr == old(repr) && groups == old(groups) && erasures == [] && beginCell == endCell == 0
      ensures Elements() == old(Elements()) - {(groups[0], i)}
    {
      var g := groups[0];
      CapacityOf(groups, views, repr, g);
      CapacityPositive(groups, views, erasures, beginCell, endCell, totalSize, g);
      ghost var v := ClearBlock(g);
      ClearCommit(g, i, v, views[g := v]);
    }

    method ClearCommit(g: Group<T>, ghost i: nat, ghost v: View<T>, ghost vs: map<Group<T>, View<T>>)
      requires 1 <= minBlock <= maxBlock <= NPOS && this !in repr && LaidOut(groups, unused, views, repr)
      requires Good(groups, views, erasures, beginCell, endCell, totalSize)
      requires |groups| == 1 && groups[0] == g && g in groups && g in views && views[g].contents.Keys == {i}
      requires v == View(views[g].capacity, 0, false, map[]) && vs == views[g := v]
      requires OthersShow(groups, views, repr, g) && AllKept(unused, repr) && Shows(g, v)
      modifies this
      ensures Valid() && repr == old(repr) && groups == old(groups) && erasures == [] && beginCell == endCell == 0
      ensures Elements() == old(Contents(groups, views)) - {(g, i)}
    {
      AllShowAgain(groups, views, repr, g, v);
      LaidUpdate(groups, unused, views, repr, g, v);
      assert i in views[g].contents;
      SomethingHeld(groups, views, erasures, beginCell, endCell, totalSize, g, i);
      GoodClear(groups, views, erasures, beginCell, endCell, totalSize, g, i, v);
      Commit(groups, unused, [], 0, 0, totalSize - 1, vs, repr);
    }

    /** Another block loses its last element and leaves the chain; near the end of the chain it is kept for later. */
    method EraseWithBlock(k: nat, i: nat)
      requires Valid() && 1 < |groups| && k < |groups| && groups[k] in views && views[groups[k]].contents.Keys == {i}
      modifies this
      ensures Valid() && repr == old(repr) && groups == Drop(old(groups), k) && views == old(views)
      ensures Elements() == old(Elements()) - {(old(groups)[k], i)}
      ensures unused == if k > 0 && k + 2 >= |old(groups)| then [old(groups)[k]] + old(unused) else old(unused)
    {
      var g := groups[k];
      var b, e := beginCell, endCell;
      CapacityOf(groups, views, repr, g);
      if k == 0 {
        NeighbourHolds(groups, views, erasures, beginCell, endCell, totalSize, 1);
        b := FirstOf(groups[1], views[groups[1]]);
      }
      if k == |groups| - 1 {
        NeighbourHolds(groups, views, erasures, beginCell, endCell, totalSize, k - 1);
        CapacityOf(groups, views, repr, groups[k - 1]);
        e := groups[k - 1].capacity;
      }
      var er := if g.freeListHead != NPOS then Without(erasures, g) else erasures;
      DropBlock(k, i, Drop(groups, k), er, b, e, if k > 0 && k + 2 >= |groups| then [g] + unused else unused);
    }

    method DropBlock(k: nat, i: nat, gs: seq<Group<T>>, er: seq<Group<T>>, b: nat, e: nat, us: seq<Group<T>>)
      requires Valid() && 1 < |groups| && k < |groups| && groups[k] in views && views[groups[k]].contents.Keys == {i}
      requires gs == Drop(groups, k) && (us == unused || us == [groups[k]] + unused)
      requires er == if views[groups[k]].listed then Without(erasures, groups[k]) else erasures
      requires if k == 0 then groups[1] in views && IsFirst(views[groups[1]], b) else b == beginCell
      requires if k == |groups| - 1 then groups[k - 1] in views && e == views[groups[k - 1]].capacity else e == endCell
      modifies this
      ensures Valid() && repr == old(repr) && groups == gs && views == old(views) && unused == us
      ensures Elements() == old(Elements()) - {(old(groups)[k], i)}
    {
      DropGood(groups, views, erasures, beginCell, endCell, totalSize, k, i, er, b, e);
      DropShape(groups, unused, views, repr, k, us);
      Commit(gs, us, er, b, e, totalSize - 1, views, repr);
    }

    // -------------------------------------------------------------- iterating

    /** Where an iterator goes that has reached cell n of block k. */
    method Cross(k: nat, i: nat, n: nat) returns (k': nat, n': nat)
      requires Valid() && k < |groups| && groups[k] in views && i < views[groups[k]].used
      requires Follows(views[groups[k]], i, n)
      ensures IsNext(groups, views, k, i, k', n')
    {
      var g := groups[k];
      CapacityOf(groups, views, repr, g);
      k', n' := k, n;
      if n == g.capacity && k + 1 < |groups| {
        NeighbourHolds(groups, views, erasures, beginCell, endCell, totalSize, k + 1);
        k' := k + 1;
        n' := FirstOf(groups[k + 1], views[groups[k + 1]]);
      }
      NextAcross(groups, views, k, i, n, n');
    }

    /** ++ leads to the first element after this one, or to end. */
    method Next(k: nat, i: nat) returns (k': nat, n': nat)
      requires Valid() && LivesAt(groups, views, k, i)
      ensures IsNext(groups, views, k, i, k', n')
    {
      InBlock(groups, views, erasures, beginCell, endCell, totalSize, k, i);
      var n := NextCell(groups[k], i, views[groups[k]]);
      k', n' := Cross(k, i, n);
    }

    /** -- leads to the last element before a position that is not begin. */
    method Prev(k: nat, p: nat) returns (k': nat, q': nat)
      requires Valid() && (LivesAt(groups, views, k, p) || IsEnd(groups, views, k, p))
      requires HasEarlier(groups, views, k, p)
      ensures IsPrev(groups, views, k, p, k', q')
    {
      k', q' := StepBack(groups, k, p, views, repr);
    }

    /** Iterating from begin to end visits every element exactly once, in order. */
    method Visit() returns (s: seq<(nat, nat)>)
      requires Valid()
      ensures InOrder(s) && forall p: (nat, nat) :: p in s <==> LivesAt(groups, views, p.0, p.1)
    {
      s := [];
      if groups == [] {
        return;
      }
      VisitStart(groups, views, beginCell, endCell);
      s := VisitFrom(beginCell);
    }

    /** A visitor that has not reached end takes one step. */
    method VisitOne(k: nat, i: nat, ghost s: seq<(nat, nat)>) returns (k': nat, i': nat)
      requires Valid() && Visited(groups, views, s, k, i) && !(k == |groups| - 1 && i == endCell)
      ensures Visited(groups, views, s + [(k, i)], k', i')
      ensures k <= k' < |groups| && (k == k' ==> 0 <= CellsLeft(k', i') < CellsLeft(k, i))
    {
      EndPosition(groups, views, erasures, beginCell, endCell, totalSize, k, i);
      k', i' := Next(k, i);
      VisitStep(groups, views, s, k, i, k', i');
      EndPosition(groups, views, erasures, beginCell, endCell, totalSize, k', i');
    }

    ghost function CellsLeft(k: nat, i: nat): int
      reads this
    {
      if k < |groups| && groups[k] in views then views[groups[k]].used - i else 0
    }

    method VisitFrom(b: nat) returns (s: seq<(nat, nat)>)
      requires Valid() && groups != [] && Visited(groups, views, [], 0, b)
      ensures InOrder(s) && forall p: (nat, nat) :: p in s <==> LivesAt(groups, views, p.0, p.1)
    {
      var k: nat, i: nat := 0, b;
      s := [];
      while !(k == |groups| - 1 && i == endCell)
        invariant k < |groups| && Visited(groups, views, s, k, i)
        decreases |groups| - k, CellsLeft(k, i)
      {
        var k', i' := VisitOne(k, i, s);
        s := s + [(k, i)];
        k, i := k', i';
      }
      AllVisited(groups, views, erasures, beginCell, endCell, totalSize, s, k, i);
    }

    // -------------------------------------------------------------- erase as a whole

    /** erase: the element goes, no other moves, and the iterator returned leads to the next one. */
    method Erase(k: nat, i: nat) returns (k': nat, n': nat)
      requires Valid() && LivesAt(groups, views, k, i)
      modifies this, repr
      ensures Valid() && repr == old(repr)
      ensures Elements() == old(Elements()) - {(old(groups)[k], i)}
      ensures old(|views[groups[k]].contents|) > 1 ==> groups == old(groups) && IsNext(groups, views, k, i, k', n')
      ensures old(|views[groups[k]].contents|) == 1 && |old(groups)| > 1 ==>
        groups == Drop(old(groups), k)
        && if k < |groups| then k' == k && groups[k] in views && IsFirst(views[groups[k]], n')
           else IsEnd(groups, views, k', n')
      ensures old(|views[groups[k]].contents|) == 1 && |old(groups)| == 1 ==> k' == n' == 0 && Elements() == map[]
    {
      var g := groups[k];
      InBlock(groups, views, erasures, beginCell, endCell, totalSize, k, i);
      CapacityOf(groups, views, repr, g);
      if g.size > 1 {
        k', n' := EraseStep(k, i);
      } else {
        OneElement(views[g].contents, i);
        if |groups| == 1 {
          EraseOnly(i);
          k', n' := 0, 0;
        } else {
          k', n' := EraseBlockStep(k, i);
        }
      }
    }

    method EraseStep(k: nat, i: nat) returns (k': nat, n': nat)
      requires Valid() && LivesAt(groups, views, k, i) && groups[k].size > 1
      modifies this, repr
      ensures Valid() && repr == old(repr) && groups == old(groups)
      ensures Elements() == old(Elements()) - {(groups[k], i)} && IsNext(groups, views, k, i, k', n')
    {
      InBlock(groups, views, erasures, beginCell, endCell, totalSize, k, i);
      var n := EraseAndKeep(k, i);
      k', n' := Cross(k, i, n);
    }

    method EraseBlockStep(k: nat, i: nat) returns (k': nat, n': nat)
      requires Valid() && 1 < |groups| && k < |groups| && groups[k] in views && views[groups[k]].contents.Keys == {i}
      modifies this
      ensures Valid() && repr == old(repr) && groups == Drop(old(groups), k)
      ensures Elements() == old(Elements()) - {(old(groups)[k], i)}
      ensures if k < |groups| then k' == k && groups[k] in views && IsFirst(views[groups[k]], n')
              else IsEnd(groups, views, k', n')
    {
      EraseWithBlock(k, i);
      if k < |groups| {
        BlockHolds(groups, views, erasures, beginCell, endCell, totalSize, k);
        k' := k;
        n' := FirstOf(groups[k], views[groups[k]]);
      } else {
        k', n' := |groups| - 1, endCell;
      }
    }
  }
}
