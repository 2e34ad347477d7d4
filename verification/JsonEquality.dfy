/** What operator== means: equality, except between numbers that are stored in different ways. */
module JsonEquality {
  import opened Types
  import opened JsonPointer
  import opened JsonPatch

  datatype Kind = Signed | Unsigned | Floating

  /** All numbers in the value are stored in one way. */
  predicate OfKind(j: Json, kind: Kind)
    decreases j
  {
    match j
    case Int(_) => kind == Signed
    case Uns(_) => kind == Unsigned
    case Float(_) => kind == Floating
    case Arr(s) => forall i | 0 <= i < |s| :: OfKind(s[i], kind)
    case Obj(m) => forall k | k in m :: OfKind(m[k], kind)
    case _ => true
  }

  /** Values whose numbers are all of one kind compare equal exactly when they are the same. */
  lemma {:induction false} EqIsEquality(a: Json, b: Json, kind: Kind)
    requires OfKind(a, kind) && OfKind(b, kind)
    ensures Eq(a, b) <==> a == b
    decreases a
  {
    if Eq(a, b) {
      match a {
        case Arr(s) =>
          forall i | 0 <= i < |s| ensures s[i] == b.items[i] {
            EqIsEquality(s[i], b.items[i], kind);
          }
          assert s == b.items;
        case Obj(m) =>
          forall k | k in m ensures m[k] == b.members[k] {
            EqIsEquality(m[k], b.members[k], kind);
          }
          assert m == b.members;
        case _ =>
      }
    } else if a == b {
      EqReflexive(a);
    }
  }

  predicate IsNumber(j: Json) {
    j.Int? || j.Uns? || j.Float?
  }

  /** Values of different types other than numbers are never equal. */
  lemma TypesDiffer(a: Json, b: Json)
    ensures Eq(a, b) ==> SameType(a, b) || (IsNumber(a) && IsNumber(b))
  {
  }

  // ---------------------------------------------------------------- signed and unsigned

  /**
   A signed and an unsigned number compare equal exactly when they agree modulo 2^64: so a negative number
   equals a large unsigned one.
   */
  lemma SignedEqualsUnsigned(i: int64, u: uint64)
    ensures Eq(Int(i), Uns(u)) <==> (i - u) % SIZE_T == 0
    ensures Eq(Uns(u), Int(i)) <==> (i - u) % SIZE_T == 0
    ensures Eq(Int(i), Uns(u)) && i != u <==> i < 0 && u == i + SIZE_T
  {
  }

  lemma MinusOneEqualsTheLargest()
    ensures Eq(Int(-1), Uns(0xFFFF_FFFF_FFFF_FFFF))
  {
  }

  // ---------------------------------------------------------------- integers and floats

  /** The spacing is the one that leaves 53 significant bits, and no fewer unless the number is small. */
  lemma {:induction false} SpacingFits(n: nat)
    ensures n < MANTISSA * Spacing(n)
    ensures Spacing(n) == 1 || MANTISSA * Spacing(n) <= 2 * n
    decreases n
  {
    if n >= MANTISSA {
      SpacingFits(n / 2);
      Doubles(n, Spacing(n / 2));
    }
  }

  lemma Doubles(n: nat, p: nat)
    requires n >= MANTISSA && n / 2 < MANTISSA * p && (p == 1 || MANTISSA * p <= 2 * (n / 2))
    ensures n < MANTISSA * (2 * p) && MANTISSA * (2 * p) <= 2 * n
  {
  }

  /** v is the double nearest to n, and of two equally near ones the one with an even mantissa. */
  ghost predicate IsNearest(v: int, n: nat) {
    exists m: int :: IsNearestMultiple(v, n, m, Spacing(n))
  }

  predicate IsNearestMultiple(v: int, n: nat, m: int, p: nat) {
    v == m * p && -(p as int) <= 2 * (v - n) <= p && (2 * (v - n) == p || 2 * (n - v) == p ==> m % 2 == 0)
  }

  /** The conversion gives that double, and only that. */
  lemma {:induction false} RoundsToNearest(n: nat, v: int)
    ensures IsNearest(v, n) <==> v == RoundToDouble(n)
  {
    var p := Spacing(n);
    Division(n, p);
    NearestMultiple(n / p, n % p, p);
    assert IsNearestMultiple(RoundToDouble(n), n, Rounded(n / p, n % p, p), p);
    if IsNearest(v, n) {
      var m: int :| IsNearestMultiple(v, n, m, p);
      OneNearest(n / p, n % p, p, m);
    }
  }

  function Rounded(q: nat, r: nat, p: nat): nat {
    if 2 * r > p || (2 * r == p && q % 2 == 1) then q + 1 else q
  }

  lemma NearestMultiple(q: nat, r: nat, p: nat)
    requires r < p
    ensures RoundToMultiple(q, r, p) == Rounded(q, r, p) * p
    ensures IsNearestMultiple(RoundToMultiple(q, r, p), q * p + r, Rounded(q, r, p), p)
  {
    assert (q + 1) * p == q * p + p;
  }

  /** No other multiple is as near. */
  lemma OneNearest(q: nat, r: nat, p: nat, m: int)
    requires r < p && IsNearestMultiple(m * p, q * p + r, m, p)
    ensures m == Rounded(q, r, p)
  {
    if m < q {
      MultipleApart(m, q, p);
    } else if m > q + 1 {
      assert (q + 1) * p == q * p + p;
      MultipleApart(q + 1, m, p);
    } else {
      assert (q + 1) * p == q * p + p;
    }
  }

  lemma MultipleApart(a: int, b: int, p: nat)
    requires a < b
    ensures a * p + p <= b * p
  {
    var d := b - a;
    assert (a + d) * p == a * p + d * p;
    AtLeastOnce(d, p);
  }

  lemma AtLeastOnce(d: int, p: nat)
    requires d >= 1
    ensures d * p >= p
  {
  }

  function Abs(i: int): nat {
    if i < 0 then -i else i
  }

  function WithSign(i: int, v: int): real {
    if i < 0 then -(v as real) else v as real
  }

  /** x is the double nearest to i: doubles lie symmetrically around zero. */
  ghost predicate IsNearestDouble(x: real, i: int) {
    exists v: int :: IsNearest(v, Abs(i)) && WithSign(i, v) == x
  }

  lemma ConvertsToNearest(i: int, x: real)
    ensures IsNearestDouble(x, i) <==> x == ToDouble(i)
    ensures Abs(i) < MANTISSA ==> ToDouble(i) == i as real
  {
    var w := RoundToDouble(Abs(i));
    RoundsToNearest(Abs(i), w);
    RoundingIsNear(Abs(i));
    assert WithSign(i, w) == ToDouble(i);
    if v: int :| IsNearest(v, Abs(i)) && WithSign(i, v) == x {
      RoundsToNearest(Abs(i), v);
    }
  }

  /** An integer and a float compare equal exactly when the float is the double nearest to the integer. */
  lemma IntegerEqualsFloat(i: int64, x: real)
    ensures Eq(Int(i), Float(x)) <==> IsNearestDouble(x, i)
    ensures Eq(Float(x), Int(i)) <==> IsNearestDouble(x, i)
    ensures Abs(i) < MANTISSA ==> (Eq(Int(i), Float(x)) <==> x == i as real)
  {
    ConvertsToNearest(i, x);
  }

  lemma UnsignedEqualsFloat(u: uint64, x: real)
    ensures Eq(Uns(u), Float(x)) <==> IsNearestDouble(x, u)
    ensures Eq(Float(x), Uns(u)) <==> IsNearestDouble(x, u)
    ensures u < MANTISSA ==> (Eq(Uns(u), Float(x)) <==> x == u as real)
  {
    ConvertsToNearest(u, x);
  }
}
