/** JSON values, access through a pointer, and the six operations of JSON Patch (RFC 6902). */
module JsonPatch {
  import opened Types
  import opened JsonPointer

  datatype Json =
    | Null
    | Bool(b: bool)
    | Int(i: int64)
    | Uns(u: uint64)
    | Float(x: real)
    | Str(s: string)
    | Arr(items: seq<Json>)
    | Obj(members: map<string, Json>)

  function AsSigned(u: uint64): int64 {
    if u < 0x8000_0000_0000_0000 then u else u - SIZE_T
  }

  const MANTISSA: nat := 0x20_0000_0000_0000  // 2^53, where doubles stop holding every integer

  /** The distance between the doubles around n: the least power of two that leaves n at most 53 bits. */
  function Spacing(n: nat): (p: nat)
    ensures p > 0
  {
    if n < MANTISSA then 1 else 2 * Spacing(n / 2)
  }

  /** The nearest double, and of two equally near the one with an even mantissa. */
  function RoundToDouble(n: nat): nat {
    RoundToMultiple(n / Spacing(n), n % Spacing(n), Spacing(n))
  }

  function RoundToMultiple(q: nat, r: nat, p: nat): nat {
    (if 2 * r > p || (2 * r == p && q % 2 == 1) then q + 1 else q) * p
  }

  lemma MultipleIsNear(q: nat, r: nat, p: nat)
    requires r < p
    ensures -(p as int) <= 2 * (RoundToMultiple(q, r, p) - (q * p + r)) <= p
  {
    assert (q + 1) * p == q * p + p;
  }

  /** static_cast<double> of a 64-bit integer. */
  function ToDouble(i: int): real {
    if i < 0 then -(RoundToDouble(-i) as real) else RoundToDouble(i) as real
  }

  lemma Division(n: nat, p: nat)
    requires p > 0
    ensures n == n / p * p + n % p && n % p < p
  {
  }

  lemma SmallIsExact(n: nat)
    requires n < MANTISSA
    ensures RoundToDouble(n) == n
  {
    var p := Spacing(n);
    assert p == 1;
    assert n / p == n && n % p == 0;
    assert RoundToMultiple(n, 0, 1) == n;
  }

  /** The conversion errs by at most half the spacing, and is exact where the spacing is one. */
  lemma {:induction false} RoundingIsNear(n: nat)
    ensures -(Spacing(n) as int) <= 2 * (RoundToDouble(n) - n) <= Spacing(n)
    ensures n < MANTISSA ==> RoundToDouble(n) == n
  {
    var p := Spacing(n);
    Division(n, p);
    MultipleIsNear(n / p, n % p, p);
    if n < MANTISSA {
      SmallIsExact(n);
    }
  }

  predicate SameType(a: Json, b: Json) {
    match a
    case Null => b.Null?
    case Bool(_) => b.Bool?
    case Int(_) => b.Int?
    case Uns(_) => b.Uns?
    case Float(_) => b.Float?
    case Str(_) => b.Str?
    case Arr(_) => b.Arr?
    case Obj(_) => b.Obj?
  }

  /** operator==: numbers of different types compare after a conversion, an unsigned one to signed. */
  predicate Eq(a: Json, b: Json)
    decreases a
  {
    match (a, b)
    case (Null, Null) => true
    case (Bool(p), Bool(q)) => p == q
    case (Str(p), Str(q)) => p == q
    case (Arr(p), Arr(q)) => |p| == |q| && forall k | 0 <= k < |p| :: Eq(p[k], q[k])
    case (Obj(p), Obj(q)) => p.Keys == q.Keys && forall k | k in p :: Eq(p[k], q[k])
    case (Int(p), Int(q)) => p == q
    case (Uns(p), Uns(q)) => p == q
    case (Float(p), Float(q)) => p == q
    case (Int(p), Float(q)) => ToDouble(p) == q
    case (Float(p), Int(q)) => p == ToDouble(q)
    case (Uns(p), Float(q)) => ToDouble(p) == q
    case (Float(p), Uns(q)) => p == ToDouble(q)
    case (Uns(p), Int(q)) => AsSigned(p) == q
    case (Int(p), Uns(q)) => p == AsSigned(q)
    case _ => false
  }

  lemma {:induction false} EqReflexive(a: Json)
    ensures Eq(a, a)
    decreases a
  {
    match a
    case Arr(p) => forall k | 0 <= k < |p| ensures Eq(p[k], p[k]) { EqReflexive(p[k]); }
    case Obj(p) => forall k | k in p ensures Eq(p[k], p[k]) { EqReflexive(p[k]); }
    case _ =>
  }

  // ---------------------------------------------------------------- values behind a pointer

  /** One step of get_checked. */
  function Child(j: Json, token: string): Result<Json> {
    match j
    case Obj(m) => if token in m then Ok(m[token]) else Err(403)
    case Arr(s) =>
      if token == "-" then Err(402)
      else (match ArrayIndex(token)
            case Err(code) => Err(code)
            case Ok(n) => if n < |s| then Ok(s[n]) else Err(401))
    case _ => Err(404)
  }

  function At(j: Json, tokens: seq<string>): Result<Json>
    decreases |tokens|
  {
    if tokens == [] then Ok(j)
    else match Child(j, tokens[0])
      case Err(code) => Err(code)
      case Ok(c) => At(c, tokens[1..])
  }

  method GetChecked(j: Json, tokens: seq<string>) returns (r: Result<Json>)
    ensures r == At(j, tokens)
  {
    var cursor := j;
    var n := 0;
    assert tokens[0..] == tokens;
    while n < |tokens|
      invariant n <= |tokens| && At(j, tokens) == At(cursor, tokens[n..])
    {
      assert tokens[n..][1..] == tokens[n + 1..];
      var c := Child(cursor, tokens[n]);
      if c.Err? {
        return c;
      }
      cursor := c.value;
      n := n + 1;
    }
    r := Ok(cursor);
  }

  function PutChild(j: Json, token: string, v: Json): (r: Json)
    requires Child(j, token).Ok?
    ensures Child(r, token) == Ok(v) && SameType(r, j)
  {
    match j
    case Obj(m) => Obj(m[token := v])
    case Arr(s) => Arr(s[ArrayIndex(token).value := v])
  }

  /** The document with the value behind an existing location replaced. */
  function Put(j: Json, tokens: seq<string>, v: Json): (r: Json)
    requires At(j, tokens).Ok?
    ensures At(r, tokens) == Ok(v)
    decreases |tokens|
  {
    if tokens == [] then v
    else PutChild(j, tokens[0], Put(Child(j, tokens[0]).value, tokens[1..], v))
  }

  lemma PutChildTwice(j: Json, token: string, v: Json, w: Json)
    requires Child(j, token).Ok?
    ensures PutChild(PutChild(j, token, v), token, w) == PutChild(j, token, w)
    ensures PutChild(j, token, Child(j, token).value) == j
  {
    match j
    case Obj(m) =>
      assert m[token := v][token := w] == m[token := w];
      assert m[token := m[token]] == m;
    case Arr(s) =>
      var n := ArrayIndex(token).value;
      assert s[n := v][n := w] == s[n := w];
      assert s[n := s[n]] == s;
  }

  lemma {:induction false} PutTwice(j: Json, tokens: seq<string>, v: Json, w: Json)
    requires At(j, tokens).Ok?
    ensures Put(Put(j, tokens, v), tokens, w) == Put(j, tokens, w)
    ensures Put(j, tokens, At(j, tokens).value) == j
    decreases |tokens|
  {
    if tokens != [] {
      var c := Child(j, tokens[0]).value;
      PutTwice(c, tokens[1..], v, w);
      PutChildTwice(j, tokens[0], Put(c, tokens[1..], v), Put(c, tokens[1..], w));
    }
  }

  lemma {:induction false} AtAppend(j: Json, tokens: seq<string>, last: string)
    ensures At(j, tokens + [last])
      == match At(j, tokens) case Err(code) => Err(code) case Ok(parent) => Child(parent, last)
    decreases |tokens|
  {
    if tokens == [] {
      assert [] + [last] == [last];
      assert [last][1..] == [];
      assert At(j, [last]) == Child(j, last);
    } else {
      assert (tokens + [last])[1..] == tokens[1..] + [last];
      if Child(j, tokens[0]).Ok? {
        AtAppend(Child(j, tokens[0]).value, tokens[1..], last);
      }
    }
  }

  // ---------------------------------------------------------------- add and remove

  /** An operation completes, or an exception leaves the document as it is at that moment. */
  datatype Run = Done(doc: Json) | Failed(doc: Json, code: nat)

  predicate IsContainer(j: Json) {
    j.Arr? || j.Obj?
  }

  function AddChild(parent: Json, last: string, v: Json): Result<Json> {
    match parent
    case Null => Ok(Obj(map[last := v]))
    case Obj(m) => Ok(Obj(m[last := v]))
    case Arr(s) =>
      if last == "-" then Ok(Arr(s + [v]))
      else (match ArrayIndex(last)
            case Err(code) => Err(code)
            case Ok(n) => if n > |s| then Err(401) else Ok(Arr(s[..n] + [v] + s[n..])))
    case _ => Err(ASSERTION)
  }

  function RemoveChild(parent: Json, last: string): Result<Json> {
    match parent
    case Obj(m) => if last in m then Ok(Obj(m - {last})) else Err(403)
    case Arr(s) =>
      (match ArrayIndex(last)
       case Err(code) => Err(code)
       case Ok(n) => if n >= |s| then Err(401) else Ok(Arr(s[..n] + s[n + 1..])))
    case _ => Ok(parent)
  }

  function Front(tokens: seq<string>): seq<string>
    requires tokens != []
  {
    tokens[..|tokens| - 1]
  }

  function Back(tokens: seq<string>): string
    requires tokens != []
  {
    tokens[|tokens| - 1]
  }

  function Add(doc: Json, path: seq<string>, v: Json): Run {
    if path == [] then Done(v)
    else if |path| > 1 && At(doc, [path[0]]).Err? then Failed(doc, At(doc, [path[0]]).code)
    else match At(doc, Front(path))
      case Err(code) => Failed(doc, code)
      case Ok(parent) =>
        match AddChild(parent, Back(path), v)
        case Err(code) => Failed(doc, code)
        case Ok(child) => Done(Put(doc, Front(path), child))
  }

  function Remove(doc: Json, path: seq<string>): Run {
    if path == [] then Failed(doc, 405)
    else match At(doc, Front(path))
      case Err(code) => Failed(doc, code)
      case Ok(parent) =>
        match RemoveChild(parent, Back(path))
        case Err(code) => Failed(doc, code)
        case Ok(child) => Done(Put(doc, Front(path), child))
  }

  function Replace(doc: Json, path: seq<string>, v: Json): Run {
    match At(doc, path)
    case Err(code) => Failed(doc, code)
    case Ok(_) => Done(Put(doc, path, v))
  }

  /** The check that the first token of the path exists never decides anything. */
  lemma TopCheckIsRedundant(doc: Json, path: seq<string>)
    requires |path| > 1 && At(doc, [path[0]]).Err?
    ensures At(doc, Front(path)) == Err(At(doc, [path[0]]).code)
  {
    assert [path[0]][1..] == [];
    assert Front(path)[0] == path[0];
  }

  lemma AddInTermsOfParent(doc: Json, path: seq<string>, v: Json)
    requires path != []
    ensures Add(doc, path, v).Done? <==>
      At(doc, Front(path)).Ok? && AddChild(At(doc, Front(path)).value, Back(path), v).Ok?
  {
    if |path| > 1 && At(doc, [path[0]]).Err? {
      TopCheckIsRedundant(doc, path);
    }
  }

  /** An added value is found again at its path, unless it was appended with "-". */
  lemma {:induction false} AddedValueIsThere(doc: Json, path: seq<string>, v: Json)
    requires Add(doc, path, v).Done?
    requires path == [] || Back(path) != "-" || !At(doc, Front(path)).Ok? || !At(doc, Front(path)).value.Arr?
    ensures At(Add(doc, path, v).doc, path) == Ok(v)
  {
    if path != [] {
      AddInTermsOfParent(doc, path, v);
      AtAppend(Add(doc, path, v).doc, Front(path), Back(path));
      assert Front(path) + [Back(path)] == path;
    }
  }

  /** What remove can undo: an insertion before an existing index or the end, or a new object member. */
  predicate Removable(parent: Json, last: string) {
    (parent.Arr? && last != "-") || (parent.Obj? && last !in parent.members)
  }

  /** Removing what was just added restores the document exactly in those cases. */
  lemma {:induction false} RemoveUndoesAdd(doc: Json, path: seq<string>, v: Json)
    requires Add(doc, path, v).Done?
    ensures Remove(Add(doc, path, v).doc, path) == Done(doc)
      <==> path != [] && Removable(At(doc, Front(path)).value, Back(path))
  {
    if path != [] {
      AddInTermsOfParent(doc, path, v);
      var parent := At(doc, Front(path)).value;
      var child := AddChild(parent, Back(path), v).value;
      RemoveChildUndoesAddChild(parent, Back(path), v);
      PutTwice(doc, Front(path), child, parent);
      var after := RemoveChild(child, Back(path));
      if after.Ok? {
        PutTwice(doc, Front(path), child, after.value);
        assert At(Put(doc, Front(path), after.value), Front(path)) == Ok(after.value);
      }
    }
  }

  /** A member that an add has overwritten does not come back. */
  lemma OverwrittenMemberIsLost()
    ensures Add(Obj(map["a" := Null]), ["a"], Int(5)) == Done(Obj(map["a" := Int(5)]))
    ensures Remove(Obj(map["a" := Int(5)]), ["a"]) == Done(Obj(map[]))
  {
    assert Front(["a"]) == [] && Back(["a"]) == "a";
    assert map["a" := Null]["a" := Int(5)] == map["a" := Int(5)];
    assert map["a" := Int(5)] - {"a"} == map[];
  }

  /** An element appended with "-" cannot be removed with it. */
  lemma AppendedElementStays()
    ensures Add(Arr([]), ["-"], Null) == Done(Arr([Null]))
    ensures Remove(Arr([Null]), ["-"]).Failed?
  {
    assert Front(["-"]) == [] && Back(["-"]) == "-";
    assert [] + [Null] == [Null];
    assert !IsDigit("-"[0]);
  }

  lemma RemoveChildUndoesAddChild(parent: Json, last: string, v: Json)
    requires AddChild(parent, last, v).Ok?
    ensures RemoveChild(AddChild(parent, last, v).value, last) == Ok(parent) <==> Removable(parent, last)
  {
    match parent
    case Obj(m) =>
      if last !in m {
        assert m[last := v] - {last} == m;
      } else {
        assert last !in m[last := v] - {last};
      }
    case Arr(s) =>
      if last == "-" {
        IndexIsItsDecimal("-", 0);
        assert ArrayIndex("-").Err? by {
          assert !IsDigit("-"[0]);
        }
      } else {
        var n := ArrayIndex(last).value;
        assert (s[..n] + [v] + s[n..])[..n] + (s[..n] + [v] + s[n..])[n + 1..] == s;
      }
    case Null =>
  }

  /** Adding a removed value back at its path restores the document; move relies on it. */
  lemma {:induction false} AddUndoesRemove(doc: Json, path: seq<string>)
    requires path != [] && At(doc, path).Ok? && Remove(doc, path).Done?
    ensures Add(Remove(doc, path).doc, path, At(doc, path).value) == Done(doc)
  {
    AtAppend(doc, Front(path), Back(path));
    assert Front(path) + [Back(path)] == path;
    var parent := At(doc, Front(path)).value;
    var left := RemoveChild(parent, Back(path)).value;
    var v := At(doc, path).value;
    AddChildUndoesRemoveChild(parent, Back(path));
    PutTwice(doc, Front(path), left, parent);
    AddInTermsOfParent(Remove(doc, path).doc, path, v);
  }

  lemma AddChildUndoesRemoveChild(parent: Json, last: string)
    requires Child(parent, last).Ok?
    ensures RemoveChild(parent, last).Ok?
    ensures AddChild(RemoveChild(parent, last).value, last, Child(parent, last).value) == Ok(parent)
  {
    var v := Child(parent, last).value;
    match parent {
      case Obj(m) => assert (m - {last})[last := v] == m;
      case Arr(s) =>
        var n := ArrayIndex(last).value;
        assert (s[..n] + s[n + 1..])[..n] + [v] + (s[..n] + s[n + 1..])[n..] == s;
    }
  }

  /** add ends in a failed assertion exactly when the parent is a value that cannot hold children. */
  lemma {:induction false} AddAssertsOnPrimitives(doc: Json, path: seq<string>, v: Json)
    ensures Add(doc, path, v) == Failed(doc, ASSERTION) <==>
      path != [] && At(doc, Front(path)).Ok?
      && !IsContainer(At(doc, Front(path)).value) && !At(doc, Front(path)).value.Null?
  {
    if path != [] {
      AtCodes(doc, Front(path));
      AtCodes(doc, [path[0]]);
      if |path| > 1 && At(doc, [path[0]]).Err? {
        TopCheckIsRedundant(doc, path);
      }
    }
  }

  lemma {:induction false} AtCodes(doc: Json, tokens: seq<string>)
    ensures At(doc, tokens).Err? ==> At(doc, tokens).code != ASSERTION
    decreases |tokens|
  {
    if tokens != [] && Child(doc, tokens[0]).Ok? {
      AtCodes(Child(doc, tokens[0]).value, tokens[1..]);
    }
  }

  lemma AddBelowANumberAsserts()
    ensures Add(Obj(map["a" := Int(5)]), ["a", "b"], Null) == Failed(Obj(map["a" := Int(5)]), ASSERTION)
  {
    var doc := Obj(map["a" := Int(5)]);
    assert Front(["a", "b"]) == ["a"];
    assert ["a"][1..] == [];
    assert At(doc, ["a"]) == Ok(Int(5));
  }

  lemma RemoveChildSucceeds(parent: Json, last: string)
    ensures RemoveChild(parent, last).Ok? <==> Child(parent, last).Ok? || !IsContainer(parent)
    ensures !IsContainer(parent) ==> RemoveChild(parent, last) == Ok(parent)
  {
    if parent.Arr? && last == "-" {
      assert !IsDigit("-"[0]);
    }
  }

  /** A removal succeeds when the target exists, and also, silently, below a value without children. */
  lemma RemoveSucceedsExactly(doc: Json, path: seq<string>)
    requires path != []
    ensures Remove(doc, path).Done? <==>
      At(doc, path).Ok? || (At(doc, Front(path)).Ok? && !IsContainer(At(doc, Front(path)).value))
    ensures Remove(doc, path).Done? && At(doc, path).Err? ==> Remove(doc, path).doc == doc
  {
    assert Front(path) + [Back(path)] == path;
    AtAppend(doc, Front(path), Back(path));
    if At(doc, Front(path)).Ok? {
      var parent := At(doc, Front(path)).value;
      PutTwice(doc, Front(path), parent, parent);
      RemoveChildSucceeds(parent, Back(path));
    }
  }

  /** Removing below a number reports success, although there was nothing to remove. */
  lemma RemoveBelowANumberIsSilent()
    ensures Remove(Obj(map["a" := Int(5)]), ["a", "b"]) == Done(Obj(map["a" := Int(5)]))
    ensures At(Obj(map["a" := Int(5)]), ["a", "b"]).Err?
  {
    var doc := Obj(map["a" := Int(5)]);
    assert Front(["a", "b"]) == ["a"] && Back(["a", "b"]) == "b";
    assert ["a"][1..] == [] && ["a", "b"][1..] == ["b"];
    assert At(doc, ["a"]) == Ok(Int(5));
    assert Put(doc, ["a"], Int(5)) == Obj(map["a" := Int(5)]["a" := Int(5)]);
    assert map["a" := Int(5)]["a" := Int(5)] == map["a" := Int(5)];
  }

  // ---------------------------------------------------------------- patch_inplace

  /** A mandatory member of an operation. */
  function Member(m: map<string, Json>, name: string, isString: bool): (r: Result<Json>)
    ensures r.Ok? && isString ==> r.value.Str?
  {
    if name !in m then Err(105)
    else if isString && !m[name].Str? then Err(105)
    else Ok(m[name])
  }

  function Pointer(m: map<string, Json>, name: string): Result<seq<string>> {
    match Member(m, name, true)
    case Err(code) => Err(code)
    case Ok(text) => Split(text.s)
  }

  /** The exceptions of class out_of_range, which a test operation swallows. */
  predicate IsOutOfRange(code: nat) {
    400 < code < 500
  }

  function Test(doc: Json, m: map<string, Json>, path: seq<string>): Run {
    match At(doc, path)
    case Err(code) => Failed(doc, if IsOutOfRange(code) then 501 else code)
    case Ok(found) =>
      match Member(m, "value", false)
      case Err(code) => Failed(doc, code)
      case Ok(v) => if Eq(found, v) then Done(doc) else Failed(doc, 501)
  }

  function Move(doc: Json, from: seq<string>, path: seq<string>): Run {
    match At(doc, from)
    case Err(code) => Failed(doc, code)
    case Ok(v) =>
      match Remove(doc, from)
      case Failed(d, code) => Failed(d, code)
      case Done(d) => Add(d, path, v)
  }

  function Copy(doc: Json, from: seq<string>, path: seq<string>): Run {
    match At(doc, from)
    case Err(code) => Failed(doc, code)
    case Ok(v) => Add(doc, path, v)
  }

  function Perform(doc: Json, m: map<string, Json>, op: string, path: seq<string>): Run {
    if op == "add" then
      match Member(m, "value", false)
      case Err(code) => Failed(doc, code)
      case Ok(v) => Add(doc, path, v)
    else if op == "remove" then Remove(doc, path)
    else if op == "replace" then
      match Member(m, "value", false)
      case Err(code) => Failed(doc, code)
      case Ok(v) => Replace(doc, path, v)
    else if op == "move" then
      match Pointer(m, "from")
      case Err(code) => Failed(doc, code)
      case Ok(from) => Move(doc, from, path)
    else if op == "copy" then
      match Pointer(m, "from")
      case Err(code) => Failed(doc, code)
      case Ok(from) => Copy(doc, from, path)
    else if op == "test" then Test(doc, m, path)
    else Failed(doc, 105)
  }

  function Apply(doc: Json, val: Json): Run {
    if !val.Obj? then Failed(doc, 104)
    else match Member(val.members, "op", true)
      case Err(code) => Failed(doc, code)
      case Ok(op) =>
        match Pointer(val.members, "path")
        case Err(code) => Failed(doc, code)
        case Ok(path) => Perform(doc, val.members, op.s, path)
  }

  function ApplyAll(doc: Json, ops: seq<Json>): Run
    decreases |ops|
  {
    if ops == [] then Done(doc)
    else match Apply(doc, ops[0])
      case Failed(d, code) => Failed(d, code)
      case Done(d) => ApplyAll(d, ops[1..])
  }

  function Patched(doc: Json, patch: Json): Run {
    if !patch.Arr? then Failed(doc, 104) else ApplyAll(doc, patch.items)
  }

  /** A document that patch_inplace edits; code is the exception thrown, if any. */
  class Document {
    var value: Json

    constructor (j: Json)
      ensures value == j
    {
      value := j;
    }

    method PatchInPlace(patch: Json) returns (ok: bool, code: nat)
      modifies this
      ensures Patched(old(value), patch) == if ok then Done(value) else Failed(value, code)
    {
      if !patch.Arr? {
        return false, 104;
      }
      var n := 0;
      assert patch.items[0..] == patch.items;
      while n < |patch.items|
        invariant n <= |patch.items|
        invariant Patched(old(value), patch) == ApplyAll(value, patch.items[n..])
      {
        assert patch.items[n..][1..] == patch.items[n + 1..];
        var run := Apply(value, patch.items[n]);
        value := run.doc;
        if run.Failed? {
          return false, run.code;
        }
        n := n + 1;
      }
      ok, code := true, 0;
    }
  }

  /** The patch of a copy: the source document is not touched, whatever happens. */
  method Patch(doc: Document, patch: Json) returns (r: Result<Json>)
    ensures doc.value == old(doc.value)
    ensures match Patched(doc.value, patch)
            case Done(d) => r == Ok(d)
            case Failed(_, code) => r == Err(code)
  {
    var copy := new Document(doc.value);
    var ok, code := copy.PatchInPlace(patch);
    r := if ok then Ok(copy.value) else Err(code);
  }

  lemma {:induction false} ApplyAllAppend(doc: Json, first: seq<Json>, second: seq<Json>)
    ensures ApplyAll(doc, first + second)
      == match ApplyAll(doc, first) case Failed(d, code) => Failed(d, code) case Done(d) => ApplyAll(d, second)
    decreases |first|
  {
    if first == [] {
      assert first + second == second;
    } else {
      assert (first + second)[1..] == first[1..] + second;
      if Apply(doc, first[0]).Done? {
        ApplyAllAppend(Apply(doc, first[0]).doc, first[1..], second);
      }
    }
  }

  lemma FailedPerformChangesNothing(doc: Json, m: map<string, Json>, op: string, path: seq<string>)
    requires Perform(doc, m, op, path).Failed? && op != "move"
    ensures Perform(doc, m, op, path).doc == doc
  {
  }

  /** Removing an existing target leaves a different document. */
  lemma {:induction false} RemovalShows(doc: Json, path: seq<string>)
    requires path != [] && At(doc, path).Ok?
    ensures Remove(doc, path).Done? && Remove(doc, path).doc != doc
  {
    assert Front(path) + [Back(path)] == path;
    AtAppend(doc, Front(path), Back(path));
    RemoveSucceedsExactly(doc, path);
    var parent := At(doc, Front(path)).value;
    ChildRemovalShows(parent, Back(path));
    assert At(Remove(doc, path).doc, Front(path)) == RemoveChild(parent, Back(path));
  }

  lemma ChildRemovalShows(parent: Json, last: string)
    requires Child(parent, last).Ok?
    ensures RemoveChild(parent, last).Ok? && RemoveChild(parent, last).value != parent
  {
    RemoveChildSucceeds(parent, last);
    if parent.Obj? {
      assert last !in RemoveChild(parent, last).value.members;
    } else {
      assert |RemoveChild(parent, last).value.items| == |parent.items| - 1;
    }
  }

  /** A failed move leaves the document alone exactly when it had no source to remove. */
  lemma {:induction false} FailedMove(doc: Json, from: seq<string>, path: seq<string>)
    requires Move(doc, from, path).Failed?
    ensures Move(doc, from, path).doc == doc <==> from == [] || At(doc, from).Err?
  {
    if from != [] && At(doc, from).Ok? {
      RemovalShows(doc, from);
    }
  }

  /** A move, with two well-formed pointers, whose source can be removed. */
  predicate HasMovableSource(doc: Json, val: Json) {
    && val.Obj? && Member(val.members, "op", true) == Ok(Str("move"))
    && Pointer(val.members, "path").Ok? && Pointer(val.members, "from").Ok?
    && Pointer(val.members, "from").value != [] && At(doc, Pointer(val.members, "from").value).Ok?
  }

  /** A failed operation leaves the document alone exactly when it is not a move that has removed its source. */
  lemma {:induction false} FailureChangesNothing(doc: Json, val: Json)
    requires Apply(doc, val).Failed?
    ensures Apply(doc, val).doc == doc <==> !HasMovableSource(doc, val)
  {
    if val.Obj? && Member(val.members, "op", true).Ok? && Pointer(val.members, "path").Ok? {
      var op, path := val.members["op"].s, Pointer(val.members, "path").value;
      if op != "move" {
        FailedPerformChangesNothing(doc, val.members, op, path);
      } else if Pointer(val.members, "from").Ok? {
        FailedMove(doc, Pointer(val.members, "from").value, path);
      }
    }
  }

  /** Moving a member to a place that does not exist loses it. */
  lemma FailedMoveLosesItsSource()
    ensures Move(Obj(map["a" := Null]), ["a"], ["b", "c"]) == Failed(Obj(map[]), 403)
  {
    var doc := Obj(map["a" := Null]);
    assert ["a"][1..] == [] && ["b"][1..] == [];
    assert Front(["a"]) == [] && Front(["b", "c"]) == ["b"];
    assert At(doc, ["a"]) == Ok(Null);
    assert map["a" := Null] - {"a"} == map[];
    assert Remove(doc, ["a"]) == Done(Obj(map[]));
    assert At(Obj(map[]), ["b"]) == Err(403);
  }

  /** patch_inplace stops at the first failing operation and keeps the effect of those before it. */
  lemma {:induction false} FailureKeepsThePrefix(doc: Json, ops: seq<Json>) returns (k: nat)
    requires ApplyAll(doc, ops).Failed?
    ensures k < |ops| && ApplyAll(doc, ops[..k]).Done?
    ensures Apply(ApplyAll(doc, ops[..k]).doc, ops[k]) == ApplyAll(doc, ops)
    decreases |ops|
  {
    if Apply(doc, ops[0]).Failed? {
      k := 0;
    } else {
      var d := Apply(doc, ops[0]).doc;
      var k' := FailureKeepsThePrefix(d, ops[1..]);
      k := k' + 1;
      assert ops[..k][1..] == ops[1..][..k'];
    }
  }
}
