/** What each of the six operations of a patch does to a document, and when it succeeds (section 4 of RFC 6902). */
module PatchMeaning {
  import opened Types
  import opened JsonPointer
  import opened JsonPatch

  // ---------------------------------------------------------------- what stays as it is

  /** Two pointers lead to places of which neither lies within the other. */
  predicate Apart(p: seq<string>, q: seq<string>)
    decreases |p|
  {
    p != [] && q != [] && (p[0] != q[0] || Apart(p[1..], q[1..]))
  }

  /** An array index has one text, so different tokens lead to different children. */
  lemma ChildElsewhere(j: Json, token: string, v: Json, other: string)
    requires Child(j, token).Ok? && token != other
    ensures Child(PutChild(j, token, v), other) == Child(j, other)
  {
    if j.Arr? {
      IndexIsItsDecimal(token, ArrayIndex(token).value);
      if ArrayIndex(other).Ok? { IndexIsItsDecimal(other, ArrayIndex(other).value); }
    }
  }

  lemma {:induction false} PutLeavesElsewhere(j: Json, p: seq<string>, v: Json, q: seq<string>)
    requires At(j, p).Ok? && Apart(p, q)
    ensures At(Put(j, p, v), q) == At(j, q)
    decreases |p|
  {
    var c := Child(j, p[0]).value;
    if p[0] != q[0] {
      ChildElsewhere(j, p[0], Put(c, p[1..], v), q[0]);
    } else {
      PutLeavesElsewhere(c, p[1..], v, q[1..]);
    }
  }

  lemma {:induction false} AtJoin(j: Json, p: seq<string>, r: seq<string>)
    ensures At(j, p + r) == match At(j, p) case Err(code) => Err(code) case Ok(c) => At(c, r)
    decreases |p|
  {
    if p == [] {
      assert p + r == r;
    } else {
      assert (p + r)[1..] == p[1..] + r;
      if Child(j, p[0]).Ok? { AtJoin(Child(j, p[0]).value, p[1..], r); }
    }
  }

  lemma {:induction false} ApartWithin(front: seq<string>, last: string, q: seq<string>)
    requires Apart(front + [last], q)
    ensures Apart(front, q) || (|q| > |front| && front == q[..|front|] && q[|front|] != last)
    decreases |front|
  {
    if front != [] && q[0] == front[0] {
      assert (front + [last])[1..] == front[1..] + [last];
      ApartWithin(front[1..], last, q[1..]);
      if !Apart(front[1..], q[1..]) {
        assert q[..|front|] == [q[0]] + q[1..][..|front| - 1];
        assert front == [front[0]] + front[1..];
      }
    }
  }

  /** A change of one value leaves alone whatever lies elsewhere, and within it what the change leaves alone. */
  lemma ChangeLeavesElsewhere(doc: Json, front: seq<string>, last: string, parent: Json, q: seq<string>)
    requires At(doc, front).Ok? && Apart(front + [last], q)
    requires forall other: string | other != last :: Child(parent, other) == Child(At(doc, front).value, other)
    ensures At(Put(doc, front, parent), q) == At(doc, q)
  {
    ApartWithin(front, last, q);
    if Apart(front, q) {
      PutLeavesElsewhere(doc, front, parent, q);
    } else {
      var n := |front|;
      assert q == front + q[n..];
      AtJoin(doc, front, q[n..]);
      AtJoin(Put(doc, front, parent), front, q[n..]);
    }
  }

  // ---------------------------------------------------------------- when a value can be added

  /** The place exists for a new value: the parent is there, and takes a child of that name or at that index. */
  predicate CanAdd(doc: Json, path: seq<string>) {
    path == [] ||
    (At(doc, Front(path)).Ok?
     && match At(doc, Front(path)).value
        case Null => true
        case Obj(_) => true
        case Arr(s) => Back(path) == "-" || exists n: nat :: n <= |s| && n < SIZE_T - 1 && IsIndex(Back(path), n)
        case _ => false)
  }

  predicate IsIndex(token: string, n: nat) {
    token == Decimal(n)
  }

  lemma {:induction false} AddSucceedsExactly(doc: Json, path: seq<string>, v: Json)
    ensures Add(doc, path, v).Done? <==> CanAdd(doc, path)
  {
    if path != [] {
      AddInTermsOfParent(doc, path, v);
      if At(doc, Front(path)).Ok? && At(doc, Front(path)).value.Arr? {
        var s := At(doc, Front(path)).value.items;
        if ArrayIndex(Back(path)).Ok? {
          IndexIsItsDecimal(Back(path), ArrayIndex(Back(path)).value);
          assert IsIndex(Back(path), ArrayIndex(Back(path)).value);
        }
        if n: nat :| n <= |s| && n < SIZE_T - 1 && IsIndex(Back(path), n) {
          IndexIsItsDecimal(Back(path), n);
        }
      }
    }
  }

  /** Inserting into an array moves the elements behind the place by one; everything else stays. */
  predicate Inserted(was: seq<Json>, now: seq<Json>, n: nat, v: Json) {
    && n <= |was| && |now| == |was| + 1 && now[n] == v
    && (forall i | 0 <= i < n :: now[i] == was[i])
    && (forall i | n <= i < |was| :: now[i + 1] == was[i])
  }

  /** What an add leaves behind at the place it was made for. */
  predicate Added(doc: Json, path: seq<string>, v: Json, doc': Json) {
    if path == [] then doc' == v
    else
      && At(doc, Front(path)).Ok? && At(doc', Front(path)).Ok?
      && match (At(doc, Front(path)).value, At(doc', Front(path)).value)
         case (Obj(m), Obj(m')) => Back(path) in m' && m'[Back(path)] == v && m' - {Back(path)} == m - {Back(path)}
         case (Null, Obj(m')) => m' == map[Back(path) := v]
         case (Arr(s), Arr(s')) =>
           if Back(path) == "-" then Inserted(s, s', |s|, v)
           else ArrayIndex(Back(path)).Ok? && Inserted(s, s', ArrayIndex(Back(path)).value, v)
         case _ => false
  }

  /**
   An add puts the value where its path says: as the member of that name, or in front of the element at that
   index, or, for "-", after the last one; and what else the parent holds stays.
   */
  lemma {:induction false} AddMeans(doc: Json, path: seq<string>, v: Json)
    requires Add(doc, path, v).Done?
    ensures Added(doc, path, v, Add(doc, path, v).doc)
  {
    if path != [] {
      AddInTermsOfParent(doc, path, v);
    }
  }

  lemma {:induction false} AddLeavesElsewhere(doc: Json, path: seq<string>, v: Json, q: seq<string>)
    requires Add(doc, path, v).Done? && path != []
    ensures Apart(Front(path), q) ==> At(Add(doc, path, v).doc, q) == At(doc, q)
    ensures Apart(path, q) && !At(doc, Front(path)).value.Arr? && !At(doc, Front(path)).value.Null? ==>
      At(Add(doc, path, v).doc, q) == At(doc, q)
  {
    AddInTermsOfParent(doc, path, v);
    var parent := AddChild(At(doc, Front(path)).value, Back(path), v).value;
    assert Front(path) + [Back(path)] == path;
    if Apart(Front(path), q) { PutLeavesElsewhere(doc, Front(path), parent, q); }
    if Apart(path, q) && At(doc, Front(path)).value.Obj? {
      ChangeLeavesElsewhere(doc, Front(path), Back(path), parent, q);
    }
  }

  // ---------------------------------------------------------------- remove and replace

  /** What a removal leaves behind. */
  predicate Removed(doc: Json, path: seq<string>, doc': Json)
    requires path != []
  {
    && At(doc, Front(path)).Ok? && At(doc', Front(path)).Ok?
    && match (At(doc, Front(path)).value, At(doc', Front(path)).value)
       case (Obj(m), Obj(m')) => Back(path) in m && m' == m - {Back(path)}
       case (Arr(s), Arr(s')) =>
         ArrayIndex(Back(path)).Ok? && ArrayIndex(Back(path)).value < |s|
         && Inserted(s', s, ArrayIndex(Back(path)).value, s[ArrayIndex(Back(path)).value])
       case (parent, parent') => !IsContainer(parent) && doc' == doc
  }

  lemma {:induction false} RemoveMeans(doc: Json, path: seq<string>)
    requires Remove(doc, path).Done?
    ensures path != [] && Removed(doc, path, Remove(doc, path).doc)
  {
    var parent := At(doc, Front(path)).value;
    if !IsContainer(parent) { PutTwice(doc, Front(path), parent, parent); }
  }

  lemma {:induction false} RemoveLeavesElsewhere(doc: Json, path: seq<string>, q: seq<string>)
    requires Remove(doc, path).Done?
    ensures Apart(Front(path), q) ==> At(Remove(doc, path).doc, q) == At(doc, q)
    ensures Apart(path, q) && !At(doc, Front(path)).value.Arr? ==> At(Remove(doc, path).doc, q) == At(doc, q)
  {
    var parent := RemoveChild(At(doc, Front(path)).value, Back(path)).value;
    assert Front(path) + [Back(path)] == path;
    if Apart(Front(path), q) { PutLeavesElsewhere(doc, Front(path), parent, q); }
    if Apart(path, q) && !At(doc, Front(path)).value.Arr? {
      ChangeLeavesElsewhere(doc, Front(path), Back(path), parent, q);
    }
  }

  // ---------------------------------------------------------------- the six operations

  /** The value is an operation of that name on that path. */
  predicate IsOp(val: Json, name: string, path: seq<string>) {
    && val.Obj? && "op" in val.members && val.members["op"] == Str(name)
    && "path" in val.members && val.members["path"].Str? && Split(val.members["path"].s) == Ok(path)
  }

  predicate HasFrom(val: Json, from: seq<string>)
    requires val.Obj?
  {
    "from" in val.members && val.members["from"].Str? && Split(val.members["from"].s) == Ok(from)
  }

  lemma {:induction false} ApplyIsPerform(doc: Json, val: Json, name: string, path: seq<string>)
    requires IsOp(val, name, path)
    ensures Apply(doc, val) == Perform(doc, val.members, name, path)
  {
  }

  /** add: succeeds exactly with a value and a place for it, and does what an add means. */
  lemma {:induction false} AddOperation(doc: Json, val: Json, path: seq<string>)
    requires IsOp(val, "add", path)
    ensures Apply(doc, val).Done? <==> "value" in val.members && CanAdd(doc, path)
    ensures Apply(doc, val).Done? ==> Added(doc, path, val.members["value"], Apply(doc, val).doc)
  {
    ApplyIsPerform(doc, val, "add", path);
    if "value" in val.members {
      AddSucceedsExactly(doc, path, val.members["value"]);
      if CanAdd(doc, path) { AddMeans(doc, path, val.members["value"]); }
    }
  }

  /** remove: succeeds exactly when the target exists, or below a value without children, where it does nothing. */
  lemma {:induction false} RemoveOperation(doc: Json, val: Json, path: seq<string>)
    requires IsOp(val, "remove", path)
    ensures Apply(doc, val).Done? <==>
      path != [] && (At(doc, path).Ok? || (At(doc, Front(path)).Ok? && !IsContainer(At(doc, Front(path)).value)))
    ensures Apply(doc, val).Done? ==> Removed(doc, path, Apply(doc, val).doc)
  {
    ApplyIsPerform(doc, val, "remove", path);
    if path != [] { RemoveSucceedsExactly(doc, path); }
    if Remove(doc, path).Done? { RemoveMeans(doc, path); }
  }

  /** replace: succeeds exactly with a value and an existing target, and changes that target only. */
  lemma {:induction false} ReplaceOperation(doc: Json, val: Json, path: seq<string>, q: seq<string>)
    requires IsOp(val, "replace", path)
    ensures Apply(doc, val).Done? <==> "value" in val.members && At(doc, path).Ok?
    ensures Apply(doc, val).Done? ==> At(Apply(doc, val).doc, path) == Ok(val.members["value"])
    ensures Apply(doc, val).Done? && Apart(path, q) ==> At(Apply(doc, val).doc, q) == At(doc, q)
  {
    ApplyIsPerform(doc, val, "replace", path);
    if "value" in val.members && At(doc, path).Ok? && Apart(path, q) {
      PutLeavesElsewhere(doc, path, val.members["value"], q);
    }
  }

  /** copy: adds the value found at "from", and so leaves that alone wherever an add would. */
  lemma {:induction false} CopyOperation(doc: Json, val: Json, path: seq<string>, from: seq<string>)
    requires IsOp(val, "copy", path) && HasFrom(val, from)
    ensures Apply(doc, val).Done? <==> At(doc, from).Ok? && CanAdd(doc, path)
    ensures Apply(doc, val).Done? ==> Added(doc, path, At(doc, from).value, Apply(doc, val).doc)
    ensures Apply(doc, val).Done? && path != [] && At(doc, Front(path)).value.Obj? && Apart(path, from) ==>
      At(Apply(doc, val).doc, from) == At(doc, from)
  {
    ApplyIsPerform(doc, val, "copy", path);
    if At(doc, from).Ok? {
      var v := At(doc, from).value;
      AddSucceedsExactly(doc, path, v);
      if CanAdd(doc, path) {
        AddMeans(doc, path, v);
        if path != [] { AddLeavesElsewhere(doc, path, v, from); }
      }
    }
  }

  /** move: takes the value at "from" out, and then adds it at its new place in what is left. */
  lemma {:induction false} MoveOperation(doc: Json, val: Json, path: seq<string>, from: seq<string>)
      returns (left: Json)
    requires IsOp(val, "move", path) && HasFrom(val, from)
    ensures from != [] && At(doc, from).Ok? ==> Removed(doc, from, left)
    ensures Apply(doc, val).Done? <==> from != [] && At(doc, from).Ok? && CanAdd(left, path)
    ensures Apply(doc, val).Done? ==> Added(left, path, At(doc, from).value, Apply(doc, val).doc)
  {
    ApplyIsPerform(doc, val, "move", path);
    left := doc;
    if from != [] && At(doc, from).Ok? {
      RemoveSucceedsExactly(doc, from);
      RemoveMeans(doc, from);
      left := Remove(doc, from).doc;
      AddSucceedsExactly(left, path, At(doc, from).value);
      if CanAdd(left, path) { AddMeans(left, path, At(doc, from).value); }
    }
  }

  /** test: succeeds exactly when the target exists and compares equal to the value, and changes nothing. */
  lemma {:induction false} TestOperation(doc: Json, val: Json, path: seq<string>)
    requires IsOp(val, "test", path)
    ensures Apply(doc, val).Done? <==>
      At(doc, path).Ok? && "value" in val.members && Eq(At(doc, path).value, val.members["value"])
    ensures Apply(doc, val).doc == doc
  {
    ApplyIsPerform(doc, val, "test", path);
  }

  /** Everything else is refused: another name, a pointer that is none, a missing member. */
  lemma {:induction false} OnlySixOperations(doc: Json, val: Json)
    ensures Apply(doc, val).Done? ==> exists name: string, path: seq<string> ::
      IsOp(val, name, path) && name in {"add", "remove", "replace", "move", "copy", "test"}
    ensures Apply(doc, val).Done? && val.members["op"].s in {"move", "copy"} ==>
      exists from: seq<string> :: HasFrom(val, from)
  {
    if Apply(doc, val).Done? {
      var path := Split(val.members["path"].s).value;
      assert IsOp(val, val.members["op"].s, path);
      if val.members["op"].s in {"move", "copy"} {
        assert HasFrom(val, Split(val.members["from"].s).value);
      }
    }
  }
}
