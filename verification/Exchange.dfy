/** Routing: the bucket label that the exchange derives from the first letters of a symbol. */
module Exchange {
  import opened Types

  const BUCKETS: seq<string> := [
    "A", "B", "C", "D", "EA-E", "EF-Z", "F", "G", "H", "IA-E", "IF-Z", "J", "K", "L", "M", "N", "O",
    "PA-E", "PF-Z", "Q", "R", "SA-E", "SF-N", "SO-Z", "T", "U", "V", "W", "X", "Y", "Z"]

  function ToUpper(c: byte): char {
    if 97 <= c <= 122 then (c - 32) as char else c as char
  }

  /** The bucket label of a symbol; the empty label means that the symbol is not accepted. */
  function GetBucket(sym: seq<byte>): string {
    if sym == [] then ""
    else
      var c0 := ToUpper(sym[0]);
      var c1 := if |sym| > 1 then ToUpper(sym[1]) else '\0';
      match c0
      case 'E' => if 'A' <= c1 <= 'E' then "EA-E" else "EF-Z"
      case 'I' => if 'A' <= c1 <= 'E' then "IA-E" else "IF-Z"
      case 'P' => if 'A' <= c1 <= 'E' then "PA-E" else "PF-Z"
      case 'S' => if 'A' <= c1 <= 'E' then "SA-E" else if 'F' <= c1 <= 'N' then "SF-N" else "SO-Z"
      case _ => if 'A' <= c0 <= 'Z' then [c0] else ""
  }

  /** A symbol is accepted exactly when it starts with a letter, and then goes to one of the listed buckets. */
  lemma RoutingIsTotalOnLetters(sym: seq<byte>)
    ensures GetBucket(sym) != "" <==> sym != [] && 'A' <= ToUpper(sym[0]) <= 'Z'
    ensures GetBucket(sym) != "" ==> GetBucket(sym) in BUCKETS
  {
    if |GetBucket(sym)| == 1 {
      SingleLetterBuckets(GetBucket(sym));
    } else {
      assert {BUCKETS[4], BUCKETS[5], BUCKETS[9], BUCKETS[10], BUCKETS[17], BUCKETS[18],
              BUCKETS[21], BUCKETS[22], BUCKETS[23]}
          == {"EA-E", "EF-Z", "IA-E", "IF-Z", "PA-E", "PF-Z", "SA-E", "SF-N", "SO-Z"};
    }
  }

  lemma SingleLetterBuckets(bucket: string)
    requires |bucket| == 1 && 'A' <= bucket[0] <= 'Z' && bucket[0] !in {'E', 'I', 'P', 'S'}
    ensures bucket in BUCKETS
  {
    var c := bucket[0];
    var i := if c <= 'D' then (c - 'A') as int else if c <= 'H' then (c - 'F') as int + 6
             else if c <= 'O' then (c - 'J') as int + 11 else if c <= 'R' then (c - 'Q') as int + 19
             else (c - 'T') as int + 24;
    assert BUCKETS[i] == bucket;
  }

  predicate First(sym: seq<byte>, c: char) {
    sym != [] && ToUpper(sym[0]) == c
  }

  predicate SecondIn(sym: seq<byte>, a: char, b: char) {
    |sym| > 1 && a <= ToUpper(sym[1]) <= b
  }

  /**
   Exactly which symbols each bucket holds, in upper or lower case. The last bucket of a letter holds all
   that its other buckets do not, so also symbols of one letter and those that go on with something else.
   */
  lemma BucketsHold(sym: seq<byte>)
    ensures forall c: char | 'A' <= c <= 'Z' && c !in {'E', 'I', 'P', 'S'} :: GetBucket(sym) == [c] <==> First(sym, c)
    ensures GetBucket(sym) == "EA-E" <==> First(sym, 'E') && SecondIn(sym, 'A', 'E')
    ensures GetBucket(sym) == "EF-Z" <==> First(sym, 'E') && !SecondIn(sym, 'A', 'E')
    ensures GetBucket(sym) == "IA-E" <==> First(sym, 'I') && SecondIn(sym, 'A', 'E')
    ensures GetBucket(sym) == "IF-Z" <==> First(sym, 'I') && !SecondIn(sym, 'A', 'E')
    ensures GetBucket(sym) == "PA-E" <==> First(sym, 'P') && SecondIn(sym, 'A', 'E')
    ensures GetBucket(sym) == "PF-Z" <==> First(sym, 'P') && !SecondIn(sym, 'A', 'E')
    ensures GetBucket(sym) == "SA-E" <==> First(sym, 'S') && SecondIn(sym, 'A', 'E')
    ensures GetBucket(sym) == "SF-N" <==> First(sym, 'S') && SecondIn(sym, 'F', 'N')
    ensures GetBucket(sym) == "SO-Z" <==> First(sym, 'S') && !SecondIn(sym, 'A', 'N')
  {
    LabelsDiffer();
    if sym != [] && ToUpper(sym[0]) !in {'E', 'I', 'P', 'S'} {
      assert |GetBucket(sym)| <= 1;
    }
  }

  lemma LabelsDiffer()
    ensures "EA-E"[1] == 'A' && "EF-Z"[1] == 'F' && "IA-E"[1] == 'A' && "IF-Z"[1] == 'F' && "PA-E"[1] == 'A'
    ensures "PF-Z"[1] == 'F' && "SA-E"[1] == 'A' && "SF-N"[1] == 'F' && "SO-Z"[1] == 'O'
    ensures "EA-E"[0] == 'E' == "EF-Z"[0] && "IA-E"[0] == 'I' == "IF-Z"[0] && "PA-E"[0] == 'P' == "PF-Z"[0]
    ensures "SA-E"[0] == 'S' == "SF-N"[0] == "SO-Z"[0]
  {
  }
}
