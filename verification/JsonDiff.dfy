/** diff builds a JSON Patch, and applying that patch to the source gives the target. */
module JsonDiff {
  import opened Sums
  import opened Types
  import opened JsonPointer
  import opened JsonPatch
  import opened JsonEquality

  /** The operations a diff emits, with paths relative to the value being compared. */
  datatype Op =
    | AddAt(path: seq<string>, value: Json)
    | RemoveAt(path: seq<string>)
    | ReplaceAt(path: seq<string>, value: Json)

  function Effect(doc: Json, op: Op): Run {
    match op
    case AddAt(path, v) => Add(doc, path, v)
    case RemoveAt(path) => Remove(doc, path)
    case ReplaceAt(path, v) => Replace(doc, path, v)
  }

  function Effects(doc: Json, ops: seq<Op>): Run
    decreases |ops|
  {
    if ops == [] then Done(doc)
    else match Effect(doc, ops[0])
      case Failed(d, code) => Failed(d, code)
      case Done(d) => Effects(d, ops[1..])
  }

  lemma {:induction false} EffectsAppend(doc: Json, first: seq<Op>, second: seq<Op>)
    ensures Effects(doc, first + second)
      == match Effects(doc, first) case Failed(d, code) => Failed(d, code) case Done(d) => Effects(d, second)
    decreases |first|
  {
    if first == [] {
      assert first + second == second;
    } else {
      assert (first + second)[1..] == first[1..] + second;
      if Effect(doc, first[0]).Done? {
        EffectsAppend(Effect(doc, first[0]).doc, first[1..], second);
      }
    }
  }

  lemma EffectsOne(doc: Json, op: Op)
    ensures Effects(doc, [op]) == Effect(doc, op)
  {
    assert [op][1..] == [];
  }

  // ---------------------------------------------------------------- operations as JSON

  function AddJson(path: string, v: Json): Json {
    Obj(map["op" := Str("add"), "path" := Str(path), "value" := v])
  }

  function RemoveJson(path: string): Json {
    Obj(map["op" := Str("remove"), "path" := Str(path)])
  }

  function ReplaceJson(path: string, v: Json): Json {
    Obj(map["op" := Str("replace"), "path" := Str(path), "value" := v])
  }

  function OpJson(prefix: seq<string>, op: Op): Json {
    match op
    case AddAt(path, v) => AddJson(ToString(prefix + path), v)
    case RemoveAt(path) => RemoveJson(ToString(prefix + path))
    case ReplaceAt(path, v) => ReplaceJson(ToString(prefix + path), v)
  }

  function OpsJson(prefix: seq<string>, ops: seq<Op>): (r: seq<Json>)
    ensures |r| == |ops|
  {
    seq(|ops|, k requires 0 <= k < |ops| => OpJson(prefix, ops[k]))
  }

  lemma OpsJsonAppend(prefix: seq<string>, first: seq<Op>, second: seq<Op>)
    ensures OpsJson(prefix, first + second) == OpsJson(prefix, first) + OpsJson(prefix, second)
  {
  }

  lemma ApplyReadsMembers(doc: Json, m: map<string, Json>, op: string, path: seq<string>)
    requires "op" in m && m["op"] == Str(op) && "path" in m && m["path"] == Str(ToString(path))
    ensures Apply(doc, Obj(m)) == Perform(doc, m, op, path)
  {
    SplitUndoesToString(path);
  }

  lemma NamesDiffer()
    ensures "op" != "path" && "op" != "value" && "path" != "value"
  {
    assert |"op"| == 2 && |"path"| == 4 && |"value"| == 5;
  }

  lemma TwoMembers(p: string, q: string, x: Json, y: Json)
    requires p != q
    ensures var m := map[p := x, q := y]; p in m && m[p] == x && q in m && m[q] == y
  {
  }

  lemma ThreeMembers(p: string, q: string, r: string, x: Json, y: Json, z: Json)
    requires p != q && p != r && q != r
    ensures var m := map[p := x, q := y, r := z]; p in m && m[p] == x && q in m && m[q] == y && r in m && m[r] == z
  {
  }

  /** patch reads back the operation that diff wrote. */
  lemma ApplyReadsOp(doc: Json, op: Op)
    ensures Apply(doc, OpJson([], op)) == Effect(doc, op)
  {
    assert [] + op.path == op.path;
    NamesDiffer();
    var path := Str(ToString(op.path));
    match op
    case AddAt(p, v) =>
      ThreeMembers("op", "path", "value", Str("add"), path, v);
      ApplyReadsMembers(doc, AddJson(path.s, v).members, "add", p);
    case RemoveAt(p) =>
      TwoMembers("op", "path", Str("remove"), path);
      ApplyReadsMembers(doc, RemoveJson(path.s).members, "remove", p);
    case ReplaceAt(p, v) =>
      ThreeMembers("op", "path", "value", Str("replace"), path, v);
      ApplyReadsMembers(doc, ReplaceJson(path.s, v).members, "replace", p);
  }

  lemma OpsJsonTail(prefix: seq<string>, ops: seq<Op>)
    requires ops != []
    ensures OpsJson(prefix, ops)[0] == OpJson(prefix, ops[0])
    ensures OpsJson(prefix, ops)[1..] == OpsJson(prefix, ops[1..])
  {
  }

  /** One step of patch against one step of the script. */
  lemma ApplyAllStep(doc: Json, vals: seq<Json>, ops: seq<Op>)
    requires vals != [] && ops != [] && Apply(doc, vals[0]) == Effect(doc, ops[0])
    requires Effect(doc, ops[0]).Done? ==>
      ApplyAll(Effect(doc, ops[0]).doc, vals[1..]) == Effects(Effect(doc, ops[0]).doc, ops[1..])
    ensures ApplyAll(doc, vals) == Effects(doc, ops)
  {
  }

  lemma {:induction false} ApplyAllReadsOps(doc: Json, ops: seq<Op>)
    ensures ApplyAll(doc, OpsJson([], ops)) == Effects(doc, ops)
    decreases |ops|
  {
    if ops != [] {
      ApplyReadsOp(doc, ops[0]);
      OpsJsonTail([], ops);
      if Effect(doc, ops[0]).Done? {
        ApplyAllReadsOps(Effect(doc, ops[0]).doc, ops[1..]);
      }
      ApplyAllStep(doc, OpsJson([], ops), ops);
    }
  }

  // ---------------------------------------------------------------- operations inside a child

  function Under(token: string, op: Op): Op {
    op.(path := [token] + op.path)
  }

  function AllUnder(token: string, ops: seq<Op>): (r: seq<Op>)
    ensures |r| == |ops|
  {
    seq(|ops|, k requires 0 <= k < |ops| => Under(token, ops[k]))
  }

  lemma OpsJsonUnder(prefix: seq<string>, token: string, ops: seq<Op>)
    ensures OpsJson(prefix, AllUnder(token, ops)) == OpsJson(prefix + [token], ops)
  {
    forall k | 0 <= k < |ops|
      ensures OpJson(prefix, AllUnder(token, ops)[k]) == OpJson(prefix + [token], ops[k])
    {
      assert prefix + ([token] + ops[k].path) == prefix + [token] + ops[k].path;
    }
  }

  /** Adding at the empty path would replace a whole value, but insert when moved below a token. */
  predicate Relative(op: Op) {
    op.AddAt? ==> op.path != []
  }

  /** An operation moved below a token edits that child, and nothing else. */
  lemma EffectUnder(doc: Json, token: string, op: Op)
    requires Relative(op) && Child(doc, token).Ok? && Effect(Child(doc, token).value, op).Done?
    ensures Effect(doc, Under(token, op)) == Done(PutChild(doc, token, Effect(Child(doc, token).value, op).doc))
  {
    var c, p := Child(doc, token).value, op.path;
    var q := [token] + p;
    assert q[1..] == p;
    assert [token][1..] == [];
    assert At(doc, [token]) == Ok(c);
    if p != [] {
      assert Front(q) == [token] + Front(p) && Back(q) == Back(p);
      assert Front(q)[1..] == Front(p);
      assert At(doc, Front(q)) == At(c, Front(p));
    }
  }

  lemma {:induction false} EffectsUnder(doc: Json, token: string, ops: seq<Op>)
    requires (forall op | op in ops :: Relative(op)) && Child(doc, token).Ok?
    requires Effects(Child(doc, token).value, ops).Done?
    ensures Effects(doc, AllUnder(token, ops)) == Done(PutChild(doc, token, Effects(Child(doc, token).value, ops).doc))
    decreases |ops|
  {
    var c := Child(doc, token).value;
    PutChildTwice(doc, token, c, c);
    if ops != [] {
      assert ops[0] in ops;
      EffectUnder(doc, token, ops[0]);
      var c' := Effect(c, ops[0]).doc;
      EffectsUnder(PutChild(doc, token, c'), token, ops[1..]);
      assert AllUnder(token, ops)[1..] == AllUnder(token, ops[1..]);
      PutChildTwice(doc, token, c', Effects(c', ops[1..]).doc);
    }
  }

  // ---------------------------------------------------------------- scripts

  /** Carrying out the operations one after the other turns doc into patched without an exception. */
  ghost predicate Script(doc: Json, ops: seq<Op>, patched: Json) {
    (forall op | op in ops :: Relative(op)) && Effects(doc, ops) == Done(patched)
  }

  lemma ScriptThen(doc: Json, first: seq<Op>, mid: Json, second: seq<Op>, patched: Json)
    requires Script(doc, first, mid) && Script(mid, second, patched)
    ensures Script(doc, first + second, patched)
  {
    EffectsAppend(doc, first, second);
  }

  lemma ScriptOne(doc: Json, op: Op, patched: Json)
    requires Relative(op) && Effect(doc, op) == Done(patched)
    ensures Script(doc, [op], patched)
  {
    EffectsOne(doc, op);
  }

  lemma ScriptUnder(doc: Json, token: string, ops: seq<Op>, patched: Json)
    requires Child(doc, token).Ok? && Script(Child(doc, token).value, ops, patched)
    ensures Script(doc, AllUnder(token, ops), PutChild(doc, token, patched))
  {
    EffectsUnder(doc, token, ops);
    forall op | op in AllUnder(token, ops) ensures Relative(op) {
      var k :| 0 <= k < |ops| && op == Under(token, ops[k]);
    }
  }

  // ---------------------------------------------------------------- arrays

  /** Every array in the value has a length that fits size_t. */
  predicate Sized(j: Json)
    decreases j
  {
    match j
    case Arr(s) => |s| < SIZE_T && forall k | 0 <= k < |s| :: Sized(s[k])
    case Obj(m) => forall k | k in m :: Sized(m[k])
    case _ => true
  }

  lemma IndexToken(s: seq<Json>, i: nat)
    requires i < |s| < SIZE_T
    ensures Child(Arr(s), Decimal(i)) == Ok(s[i])
    ensures forall v :: PutChild(Arr(s), Decimal(i), v) == Arr(s[i := v])
    ensures RemoveChild(Arr(s), Decimal(i)) == Ok(Arr(s[..i] + s[i + 1..]))
  {
    IndexIsItsDecimal(Decimal(i), i);
    DecimalNeedsNoEscape(i);
  }

  lemma AtRoot(doc: Json, token: string)
    ensures Front([token]) == [] && Back([token]) == token && At(doc, []) == Ok(doc)
  {
  }

  /** The first pass has brought the elements before i in line with the target. */
  ghost predicate Aligned(s: seq<Json>, t: seq<Json>, i: nat, ops: seq<Op>, cur: seq<Json>) {
    && i <= |s| == |cur| && i <= |t| && cur[i..] == s[i..]
    && (forall k | 0 <= k < i :: Eq(cur[k], t[k]))
    && (ops == [] ==> forall k | 0 <= k < i :: Eq(s[k], t[k]))
    && Script(Arr(s), ops, Arr(cur))
  }

  lemma AlignNext(s: seq<Json>, t: seq<Json>, i: nat, ops: seq<Op>, cur: seq<Json>, sub: seq<Op>, v: Json)
    requires Aligned(s, t, i, ops, cur) && i < |s| < SIZE_T && i < |t|
    requires Script(s[i], sub, v) && Eq(v, t[i]) && (sub == [] ==> Eq(s[i], t[i]))
    ensures Aligned(s, t, i + 1, ops + AllUnder(Decimal(i), sub), cur[i := v])
  {
    assert cur[i] == cur[i..][0] == s[i];
    IndexToken(cur, i);
    ScriptUnder(Arr(cur), Decimal(i), sub, v);
    ScriptThen(Arr(s), ops, Arr(cur), AllUnder(Decimal(i), sub), Arr(cur[i := v]));
    assert cur[i := v][i + 1..] == cur[i..][1..];
  }

  lemma AlignStart(s: seq<Json>, t: seq<Json>)
    ensures Aligned(s, t, 0, [], s)
  {
  }

  /**
   Removals by index, from the last element down to the first one that has to go. In ascending order the
   later indices would be out of range by the time they are used.
   */
  function Removals(from: nat, to: nat): (r: seq<Op>)
    requires from <= to
    ensures |r| == to - from
  {
    if from == to then [] else [RemoveAt([Decimal(to - 1)])] + Removals(from, to - 1)
  }

  lemma {:induction false} RemovalsTruncate(s: seq<Json>, from: nat)
    requires from <= |s| < SIZE_T
    ensures Script(Arr(s), Removals(from, |s|), Arr(s[..from]))
    decreases |s|
  {
    if from == |s| {
      assert s[..from] == s;
    } else {
      var last := |s| - 1;
      IndexToken(s, last);
      AtRoot(Arr(s), Decimal(last));
      assert s[..last] + s[last + 1..] == s[..last];
      ScriptOne(Arr(s), RemoveAt([Decimal(last)]), Arr(s[..last]));
      RemovalsTruncate(s[..last], from);
      assert s[..last][..from] == s[..from];
      ScriptThen(Arr(s), [RemoveAt([Decimal(last)])], Arr(s[..last]), Removals(from, last), Arr(s[..from]));
    }
  }

  lemma AppendOne(s: seq<Json>, v: Json)
    ensures Script(Arr(s), [AddAt(["-"], v)], Arr(s + [v]))
  {
    AtRoot(Arr(s), "-");
    ScriptOne(Arr(s), AddAt(["-"], v), Arr(s + [v]));
  }

  /** Everything up to i is in place, and there is nothing after it. */
  ghost predicate Extended(s: seq<Json>, t: seq<Json>, i: nat, ops: seq<Op>, cur: seq<Json>) {
    && i == |cur| <= |t|
    && (forall k | 0 <= k < i :: Eq(cur[k], t[k]))
    && (ops == [] ==> i == |s| && forall k | 0 <= k < i :: Eq(s[k], t[k]))
    && Script(Arr(s), ops, Arr(cur))
  }

  lemma TruncateEnds(s: seq<Json>, t: seq<Json>, kept: nat, ops: seq<Op>, cur: seq<Json>, removals: seq<Op>)
    requires Aligned(s, t, kept, ops, cur) && |s| < SIZE_T && removals == Removals(kept, |s|)
    ensures Extended(s, t, kept, ops + removals, cur[..kept])
  {
    RemovalsTruncate(cur, kept);
    ScriptThen(Arr(s), ops, Arr(cur), removals, Arr(cur[..kept]));
  }

  lemma ExtendNext(s: seq<Json>, t: seq<Json>, i: nat, ops: seq<Op>, cur: seq<Json>)
    requires Extended(s, t, i, ops, cur) && i < |t|
    ensures Extended(s, t, i + 1, ops + [AddAt(["-"], t[i])], cur + [t[i]])
  {
    AppendOne(cur, t[i]);
    EqReflexive(t[i]);
    ScriptThen(Arr(s), ops, Arr(cur), [AddAt(["-"], t[i])], Arr(cur + [t[i]]));
  }

  // ---------------------------------------------------------------- objects

  /** Of the source's members, those in todo still have to be compared. */
  ghost predicate Compared(s: map<string, Json>, t: map<string, Json>, todo: set<string>, ops: seq<Op>,
                           cur: map<string, Json>)
  {
    && todo <= s.Keys && todo <= cur.Keys <= s.Keys
    && (forall k | k in todo :: cur[k] == s[k])
    && (forall k | k in cur && k !in todo :: k in t && Eq(cur[k], t[k]))
    && (forall k | k in s && k in t :: k in cur)
    && (ops == [] ==> forall k | k in s && k !in todo :: k in t && Eq(s[k], t[k]))
    && Script(Obj(s), ops, Obj(cur))
  }

  lemma CompareNext(s: map<string, Json>, t: map<string, Json>, todo: set<string>, ops: seq<Op>,
                    cur: map<string, Json>, key: string, sub: seq<Op>, v: Json)
    requires Compared(s, t, todo, ops, cur) && key in todo && key in t
    requires Script(s[key], sub, v) && Eq(v, t[key]) && (sub == [] ==> Eq(s[key], t[key]))
    ensures Compared(s, t, todo - {key}, ops + AllUnder(key, sub), cur[key := v])
  {
    ScriptUnder(Obj(cur), key, sub, v);
    ScriptThen(Obj(s), ops, Obj(cur), AllUnder(key, sub), Obj(cur[key := v]));
  }

  lemma DropNext(s: map<string, Json>, t: map<string, Json>, todo: set<string>, ops: seq<Op>,
                 cur: map<string, Json>, key: string)
    requires Compared(s, t, todo, ops, cur) && key in todo && key !in t
    ensures Compared(s, t, todo - {key}, ops + [RemoveAt([key])], cur - {key})
  {
    AtRoot(Obj(cur), key);
    ScriptOne(Obj(cur), RemoveAt([key]), Obj(cur - {key}));
    ScriptThen(Obj(s), ops, Obj(cur), [RemoveAt([key])], Obj(cur - {key}));
  }

  /** The target's members outside todo are in place. */
  ghost predicate Completed(s: map<string, Json>, t: map<string, Json>, todo: set<string>, ops: seq<Op>,
                            cur: map<string, Json>)
  {
    && todo <= t.Keys && cur.Keys <= t.Keys
    && (forall k | k in cur :: Eq(cur[k], t[k]))
    && (forall k | k in t && k !in todo :: k in cur)
    && (forall k | k in t && k in s :: k in cur)
    && (ops == [] ==> (forall k | k in s :: k in t && Eq(s[k], t[k])) && forall k | k in t && k !in todo :: k in s)
    && Script(Obj(s), ops, Obj(cur))
  }

  lemma FirstPassEnds(s: map<string, Json>, t: map<string, Json>, ops: seq<Op>, cur: map<string, Json>)
    requires Compared(s, t, {}, ops, cur)
    ensures Completed(s, t, t.Keys, ops, cur)
  {
  }

  lemma AddNext(s: map<string, Json>, t: map<string, Json>, todo: set<string>, ops: seq<Op>,
                cur: map<string, Json>, key: string)
    requires Completed(s, t, todo, ops, cur) && key in todo && key !in s
    ensures Completed(s, t, todo - {key}, ops + [AddAt([key], t[key])], cur[key := t[key]])
  {
    EqReflexive(t[key]);
    AtRoot(Obj(cur), key);
    ScriptOne(Obj(cur), AddAt([key], t[key]), Obj(cur[key := t[key]]));
    ScriptThen(Obj(s), ops, Obj(cur), [AddAt([key], t[key])], Obj(cur[key := t[key]]));
  }

  lemma KeepNext(s: map<string, Json>, t: map<string, Json>, todo: set<string>, ops: seq<Op>,
                 cur: map<string, Json>, key: string)
    requires Completed(s, t, todo, ops, cur) && key in todo && key in s
    ensures Completed(s, t, todo - {key}, ops, cur)
  {
  }

  // ---------------------------------------------------------------- where the values come from

  predicate OpOfKind(op: Op, kind: Kind) {
    op.RemoveAt? || OfKind(op.value, kind)
  }

  predicate OpsOfKind(ops: seq<Op>, kind: Kind) {
    forall op | op in ops :: OpOfKind(op, kind)
  }

  /** The operations bring in no number that is stored in another way than those of the target. */
  ghost predicate Borrowed(ops: seq<Op>, target: Json) {
    forall kind: Kind :: OfKind(target, kind) ==> OpsOfKind(ops, kind)
  }

  lemma BorrowedThen(ops: seq<Op>, more: seq<Op>, target: Json)
    requires Borrowed(ops, target) && Borrowed(more, target)
    ensures Borrowed(ops + more, target)
  {
    forall kind: Kind | OfKind(target, kind) ensures OpsOfKind(ops + more, kind) {
      assert OpsOfKind(ops, kind) && OpsOfKind(more, kind);
    }
  }

  lemma BorrowedUnder(token: string, sub: seq<Op>, child: Json, target: Json)
    requires Borrowed(sub, child) && forall kind: Kind :: OfKind(target, kind) ==> OfKind(child, kind)
    ensures Borrowed(AllUnder(token, sub), target)
  {
    forall kind: Kind | OfKind(target, kind) ensures OpsOfKind(AllUnder(token, sub), kind) {
      assert OpsOfKind(sub, kind);
      forall op | op in AllUnder(token, sub) ensures OpOfKind(op, kind) {
        var k :| 0 <= k < |sub| && op == Under(token, sub[k]);
        assert sub[k] in sub;
      }
    }
  }

  lemma {:induction false} RemovalsBorrowNothing(from: nat, n: nat, target: Json)
    requires from <= n
    ensures Borrowed(Removals(from, n), target)
    decreases n
  {
    if from < n {
      RemovalsBorrowNothing(from, n - 1, target);
      BorrowedThen([RemoveAt([Decimal(n - 1)])], Removals(from, n - 1), target);
    }
  }

  lemma ChildOfKind(j: Json, token: string, kind: Kind)
    requires Child(j, token).Ok? && OfKind(j, kind)
    ensures OfKind(Child(j, token).value, kind)
  {
  }

  lemma PutChildOfKind(j: Json, token: string, v: Json, kind: Kind)
    requires Child(j, token).Ok? && OfKind(j, kind) && OfKind(v, kind)
    ensures OfKind(PutChild(j, token, v), kind)
  {
  }

  lemma {:induction false} AtOfKind(j: Json, tokens: seq<string>, kind: Kind)
    requires At(j, tokens).Ok? && OfKind(j, kind)
    ensures OfKind(At(j, tokens).value, kind)
    decreases |tokens|
  {
    if tokens != [] {
      var c := Child(j, tokens[0]).value;
      ChildOfKind(j, tokens[0], kind);
      AtOfKind(c, tokens[1..], kind);
    }
  }

  lemma {:induction false} PutOfKind(j: Json, tokens: seq<string>, v: Json, kind: Kind)
    requires At(j, tokens).Ok? && OfKind(j, kind) && OfKind(v, kind)
    ensures OfKind(Put(j, tokens, v), kind)
    decreases |tokens|
  {
    if tokens != [] {
      var c := Child(j, tokens[0]).value;
      ChildOfKind(j, tokens[0], kind);
      PutOfKind(c, tokens[1..], v, kind);
      PutChildOfKind(j, tokens[0], Put(c, tokens[1..], v), kind);
    }
  }

  lemma AddChildOfKind(parent: Json, last: string, v: Json, kind: Kind)
    requires AddChild(parent, last, v).Ok? && OfKind(parent, kind) && OfKind(v, kind)
    ensures OfKind(AddChild(parent, last, v).value, kind)
  {
  }

  lemma RemoveChildOfKind(parent: Json, last: string, kind: Kind)
    requires RemoveChild(parent, last).Ok? && OfKind(parent, kind)
    ensures OfKind(RemoveChild(parent, last).value, kind)
  {
  }

  lemma {:induction false} EffectOfKind(doc: Json, op: Op, kind: Kind)
    requires OfKind(doc, kind) && OpOfKind(op, kind) && Effect(doc, op).Done?
    ensures OfKind(Effect(doc, op).doc, kind)
  {
    match op
    case AddAt(path, v) =>
      if path != [] {
        AtOfKind(doc, Front(path), kind);
        var parent := At(doc, Front(path)).value;
        AddChildOfKind(parent, Back(path), v, kind);
        PutOfKind(doc, Front(path), AddChild(parent, Back(path), v).value, kind);
      }
    case RemoveAt(path) =>
      AtOfKind(doc, Front(path), kind);
      var parent := At(doc, Front(path)).value;
      RemoveChildOfKind(parent, Back(path), kind);
      PutOfKind(doc, Front(path), RemoveChild(parent, Back(path)).value, kind);
    case ReplaceAt(path, v) => PutOfKind(doc, path, v, kind);
  }

  lemma {:induction false} EffectsOfKind(doc: Json, ops: seq<Op>, kind: Kind)
    requires OfKind(doc, kind) && OpsOfKind(ops, kind) && Effects(doc, ops).Done?
    ensures OfKind(Effects(doc, ops).doc, kind)
    decreases |ops|
  {
    if ops != [] {
      assert ops[0] in ops;
      EffectOfKind(doc, ops[0], kind);
      EffectsOfKind(Effect(doc, ops[0]).doc, ops[1..], kind);
    }
  }

  /** Values with one kind of number come out exactly as they are. */
  lemma ScriptIsExact(source: Json, ops: seq<Op>, patched: Json, target: Json, kind: Kind)
    requires Script(source, ops, patched) && Eq(patched, target) && Borrowed(ops, target)
    requires OfKind(source, kind) && OfKind(target, kind)
    ensures patched == target
  {
    EffectsOfKind(source, ops, kind);
    EqIsEquality(patched, target, kind);
  }

  // ---------------------------------------------------------------- diff

  /** A path extended by a token: what diff concatenates is what to_string prints. */
  lemma PathOf(prefix: seq<string>, token: string)
    ensures ToString(prefix + [token]) == ToString(prefix) + "/" + Escape(token)
  {
    ToStringAppend(prefix, token);
    assert ToString(prefix) + ("/" + Escape(token)) == ToString(prefix) + "/" + Escape(token);
  }

  /** The items of the result so far are the operations, printed with the absolute path. */
  lemma Emitted(prefix: seq<string>, ops: seq<Op>, op: Op)
    ensures OpsJson(prefix, ops + [op]) == OpsJson(prefix, ops) + [OpJson(prefix, op)]
  {
  }

  lemma EmittedUnder(prefix: seq<string>, ops: seq<Op>, token: string, sub: seq<Op>)
    ensures OpsJson(prefix, ops + AllUnder(token, sub)) == OpsJson(prefix, ops) + OpsJson(prefix + [token], sub)
  {
    OpsJsonAppend(prefix, ops, AllUnder(token, sub));
    OpsJsonUnder(prefix, token, sub);
  }

  lemma IndexPath(prefix: seq<string>, i: nat)
    ensures ToString(prefix + [Decimal(i)]) == ToString(prefix) + "/" + Decimal(i)
  {
    DecimalNeedsNoEscape(i);
    PathOf(prefix, Decimal(i));
  }

  lemma EndPath(prefix: seq<string>)
    ensures ToString(prefix + ["-"]) == ToString(prefix) + "/-"
  {
    NothingToEscape("-");
    ToStringAppend(prefix, "-");
    assert "/" + "-" == "/-";
  }

  lemma InsertedFirst(prefix: seq<string>, before: seq<Json>, removals: seq<Op>, op: Op)
    ensures var all := before + OpsJson(prefix, removals);
      all[..|before|] + [OpJson(prefix, op)] + all[|before|..] == before + OpsJson(prefix, [op] + removals)
  {
    assert OpsJson(prefix, [op] + removals) == [OpJson(prefix, op)] + OpsJson(prefix, removals);
    InsertedBetween(before, OpsJson(prefix, removals), OpJson(prefix, op));
  }

  lemma InsertedBetween(before: seq<Json>, after: seq<Json>, v: Json)
    ensures (before + after)[..|before|] + [v] + (before + after)[|before|..] == before + ([v] + after)
  {
  }

  method DiffAt(source: Json, target: Json, path: string, ghost prefix: seq<string>)
    returns (result: seq<Json>, ghost ops: seq<Op>, ghost patched: Json)
    requires path == ToString(prefix) && Sized(source)
    ensures result == OpsJson(prefix, ops)
    ensures Script(source, ops, patched) && Eq(patched, target) && Borrowed(ops, target)
    ensures ops == [] <==> Eq(source, target)
    decreases source, 2
  {
    if Eq(source, target) {
      return [], [], source;
    }
    if SameType(source, target) && source.Arr? {
      result, ops, patched := DiffArrays(source, target, path, prefix);
    } else if SameType(source, target) && source.Obj? {
      result, ops, patched := DiffObjects(source, target, path, prefix);
    } else {
      result := [ReplaceJson(path, target)];
      ops, patched := [ReplaceAt([], target)], target;
      assert prefix + [] == prefix;
      EqReflexive(target);
      ScriptOne(source, ReplaceAt([], target), target);
    }
  }

  /** First pass over two arrays: the common elements. */
  method DiffCommon(source: Json, t: seq<Json>, path: string, ghost prefix: seq<string>)
    returns (result: seq<Json>, i: nat, ghost ops: seq<Op>, ghost cur: seq<Json>)
    requires path == ToString(prefix) && Sized(source) && source.Arr?
    ensures Aligned(source.items, t, i, ops, cur) && result == OpsJson(prefix, ops) && Borrowed(ops, Arr(t))
    ensures i == |source.items| || i == |t|
    decreases source, 0
  {
    var s := source.items;
    i, cur, result, ops := 0, s, [], [];
    AlignStart(s, t);
    while i < |s| && i < |t|
      invariant Aligned(s, t, i, ops, cur) && result == OpsJson(prefix, ops) && Borrowed(ops, Arr(t))
    {
      IndexPath(prefix, i);
      var more, sub, v := DiffAt(s[i], t[i], path + "/" + Decimal(i), prefix + [Decimal(i)]);
      result := result + more;
      EmittedUnder(prefix, ops, Decimal(i), sub);
      AlignNext(s, t, i, ops, cur, sub, v);
      BorrowedUnder(Decimal(i), sub, t[i], Arr(t));
      BorrowedThen(ops, AllUnder(Decimal(i), sub), Arr(t));
      ops, cur := ops + AllUnder(Decimal(i), sub), cur[i := v];
      i := i + 1;
    }
  }

  /** Second pass: removals, each inserted in front of those already there. */
  method DiffRemovals(n: nat, from: nat, path: string, ghost prefix: seq<string>, result0: seq<Json>)
    returns (result: seq<Json>)
    requires path == ToString(prefix) && from <= n
    ensures result == result0 + OpsJson(prefix, Removals(from, n))
  {
    result := result0;
    var endIndex, i := |result|, from;
    while i < n
      invariant from <= i <= n && result == result0 + OpsJson(prefix, Removals(from, i))
    {
      IndexPath(prefix, i);
      InsertedFirst(prefix, result0, Removals(from, i), RemoveAt([Decimal(i)]));
      result := result[..endIndex] + [RemoveJson(path + "/" + Decimal(i))] + result[endIndex..];
      i := i + 1;
    }
  }

  /** Third pass: the elements that only the target has are appended. */
  method DiffAdditions(ghost s: seq<Json>, t: seq<Json>, from: nat, path: string, ghost prefix: seq<string>,
                       result0: seq<Json>, ghost ops0: seq<Op>, ghost cur0: seq<Json>)
    returns (result: seq<Json>, ghost ops: seq<Op>, ghost cur: seq<Json>)
    requires path == ToString(prefix) && result0 == OpsJson(prefix, ops0)
    requires Extended(s, t, Min(from, |t|), ops0, cur0) && Borrowed(ops0, Arr(t))
    ensures Extended(s, t, |t|, ops, cur) && result == OpsJson(prefix, ops) && Borrowed(ops, Arr(t))
  {
    var i := from;
    result, ops, cur := result0, ops0, cur0;
    while i < |t|
      invariant Extended(s, t, Min(i, |t|), ops, cur) && result == OpsJson(prefix, ops) && Borrowed(ops, Arr(t))
    {
      EndPath(prefix);
      result := result + [AddJson(path + "/-", t[i])];
      Emitted(prefix, ops, AddAt(["-"], t[i]));
      ExtendNext(s, t, i, ops, cur);
      BorrowedThen(ops, [AddAt(["-"], t[i])], Arr(t));
      ops, cur := ops + [AddAt(["-"], t[i])], cur + [t[i]];
      i := i + 1;
    }
  }

  method DiffArrays(source: Json, target: Json, path: string, ghost prefix: seq<string>)
    returns (result: seq<Json>, ghost ops: seq<Op>, ghost patched: Json)
    requires path == ToString(prefix) && Sized(source)
    requires source.Arr? && target.Arr? && !Eq(source, target)
    ensures result == OpsJson(prefix, ops)
    ensures Script(source, ops, patched) && Eq(patched, target) && Borrowed(ops, target)
    ensures ops != []
    decreases source, 1
  {
    var s, t := source.items, target.items;
    var i;
    ghost var cur;
    result, i, ops, cur := DiffCommon(source, t, path, prefix);
    ghost var removals := Removals(i, |s|);
    result := DiffRemovals(|s|, i, path, prefix, result);
    TruncateEnds(s, t, i, ops, cur, removals);
    OpsJsonAppend(prefix, ops, removals);
    RemovalsBorrowNothing(i, |s|, target);
    BorrowedThen(ops, removals, target);
    result, ops, cur := DiffAdditions(s, t, if i < |s| then |s| else i, path, prefix, result, ops + removals, cur[..i]);
    patched := Arr(cur);
  }

  /** How far the first pass over two objects has come, with what it has put out. */
  ghost predicate Comparing(source: Json, target: Json, todo: set<string>, ops: seq<Op>, cur: map<string, Json>,
                            prefix: seq<string>, result: seq<Json>)
    requires source.Obj? && target.Obj?
  {
    && Compared(source.members, target.members, todo, ops, cur)
    && result == OpsJson(prefix, ops) && Borrowed(ops, target)
  }

  lemma MemberCompared(source: Json, target: Json, todo: set<string>, ops: seq<Op>, cur: map<string, Json>,
                       prefix: seq<string>, result: seq<Json>, key: string, more: seq<Json>, sub: seq<Op>, v: Json)
    requires source.Obj? && target.Obj? && Comparing(source, target, todo, ops, cur, prefix, result)
    requires key in todo && key in target.members && more == OpsJson(prefix + [key], sub)
    requires Script(source.members[key], sub, v) && Eq(v, target.members[key]) && Borrowed(sub, target.members[key])
    requires sub == [] ==> Eq(source.members[key], target.members[key])
    ensures Comparing(source, target, todo - {key}, ops + AllUnder(key, sub), cur[key := v], prefix, result + more)
  {
    EmittedUnder(prefix, ops, key, sub);
    CompareNext(source.members, target.members, todo, ops, cur, key, sub, v);
    BorrowedUnder(key, sub, target.members[key], target);
    BorrowedThen(ops, AllUnder(key, sub), target);
  }

  lemma MemberDropped(source: Json, target: Json, todo: set<string>, ops: seq<Op>, cur: map<string, Json>,
                      prefix: seq<string>, result: seq<Json>, key: string)
    requires source.Obj? && target.Obj? && Comparing(source, target, todo, ops, cur, prefix, result)
    requires key in todo && key !in target.members
    ensures Comparing(source, target, todo - {key}, ops + [RemoveAt([key])], cur - {key}, prefix,
                      result + [OpJson(prefix, RemoveAt([key]))])
  {
    Emitted(prefix, ops, RemoveAt([key]));
    DropNext(source.members, target.members, todo, ops, cur, key);
    BorrowedThen(ops, [RemoveAt([key])], target);
  }

  /** First pass over two objects: the members of the source. */
  method DiffMembers(source: Json, target: Json, path: string, ghost prefix: seq<string>)
    returns (result: seq<Json>, ghost ops: seq<Op>, ghost cur: map<string, Json>)
    requires path == ToString(prefix) && Sized(source) && source.Obj? && target.Obj?
    ensures Comparing(source, target, {}, ops, cur, prefix, result)
    decreases source, 0
  {
    var s, t := source.members, target.members;
    cur := s;
    result, ops := [], [];
    var todo := s.Keys;
    while todo != {}
      invariant Comparing(source, target, todo, ops, cur, prefix, result)
    {
      var key :| key in todo;
      var escaped := EscapeString(key);
      var pathKey := path + "/" + escaped;
      PathOf(prefix, key);
      if key in t {
        var more, sub, v := DiffAt(s[key], t[key], pathKey, prefix + [key]);
        MemberCompared(source, target, todo, ops, cur, prefix, result, key, more, sub, v);
        result := result + more;
        ops, cur := ops + AllUnder(key, sub), cur[key := v];
      } else {
        MemberDropped(source, target, todo, ops, cur, prefix, result, key);
        result := result + [RemoveJson(pathKey)];
        ops, cur := ops + [RemoveAt([key])], cur - {key};
      }
      todo := todo - {key};
    }
  }

  method DiffObjects(source: Json, target: Json, path: string, ghost prefix: seq<string>)
    returns (result: seq<Json>, ghost ops: seq<Op>, ghost patched: Json)
    requires path == ToString(prefix) && Sized(source)
    requires source.Obj? && target.Obj? && !Eq(source, target)
    ensures result == OpsJson(prefix, ops)
    ensures Script(source, ops, patched) && Eq(patched, target) && Borrowed(ops, target)
    ensures ops != []
    decreases source, 1
  {
    var s, t := source.members, target.members;
    ghost var cur;
    result, ops, cur := DiffMembers(source, target, path, prefix);
    FirstPassEnds(s, t, ops, cur);
    var todo := t.Keys;
    while todo != {}
      invariant Completed(s, t, todo, ops, cur) && result == OpsJson(prefix, ops) && Borrowed(ops, target)
    {
      var key :| key in todo;
      if key !in s {
        var escaped := EscapeString(key);
        PathOf(prefix, key);
        result := result + [AddJson(path + "/" + escaped, t[key])];
        Emitted(prefix, ops, AddAt([key], t[key]));
        AddNext(s, t, todo, ops, cur, key);
        BorrowedThen(ops, [AddAt([key], t[key])], target);
        ops, cur := ops + [AddAt([key], t[key])], cur[key := t[key]];
      } else {
        KeepNext(s, t, todo, ops, cur, key);
      }
      todo := todo - {key};
    }
    patched := Obj(cur);
  }

  /**
   diff(source, target): patch applied to the source never throws, and yields a value equal to the target;
   it is the target itself when the numbers of both are stored in one way.
   */
  method Diff(source: Json, target: Json) returns (patch: Json)
    requires Sized(source)
    ensures patch.Arr? && (patch.items == [] <==> Eq(source, target))
    ensures Patched(source, patch).Done? && Eq(Patched(source, patch).doc, target)
    ensures forall kind: Kind | OfKind(source, kind) && OfKind(target, kind) ::
      Patched(source, patch) == Done(target) && (patch.items == [] <==> source == target)
  {
    var result, ops, patched := DiffAt(source, target, "", []);
    patch := Arr(result);
    ApplyAllReadsOps(source, ops);
    forall kind: Kind | OfKind(source, kind) && OfKind(target, kind)
      ensures patched == target && (Eq(source, target) <==> source == target)
    {
      ScriptIsExact(source, ops, patched, target, kind);
      EqIsEquality(source, target, kind);
    }
  }
}
