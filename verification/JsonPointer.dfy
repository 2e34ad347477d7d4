/** JSON Pointer (RFC 6901): escaping, splitting a string into reference tokens, array indices. */
module JsonPointer {
  import opened Types

  /** An exception is modelled by its identifier; ASSERTION stands for a failed JSON_ASSERT. */
  const ASSERTION: nat := 0

  datatype Result<T> = Ok(value: T) | Err(code: nat)

  // ---------------------------------------------------------------- replace_substring

  predicate OccursAt(s: string, f: string, i: nat) {
    i + |f| <= |s| && s[i..i + |f|] == f
  }

  /** Every occurrence of f replaced by t, from the left and without overlap. */
  function ReplaceAll(s: string, f: string, t: string): string
    requires f != ""
  {
    if s == "" then ""
    else if OccursAt(s, f, 0) then t + ReplaceAll(s[|f|..], f, t)
    else [s[0]] + ReplaceAll(s[1..], f, t)
  }

  /** The first occurrence of f at or after from, or |s| + 1 when there is none. */
  method Find(s: string, f: string, from: nat) returns (pos: nat)
    requires from <= |s|
    ensures pos <= |s| ==> from <= pos && OccursAt(s, f, pos)
    ensures forall i | from <= i < pos && i <= |s| :: !OccursAt(s, f, i)
    ensures pos <= |s| + 1
  {
    pos := from;
    while pos <= |s|
      invariant from <= pos <= |s| + 1
      invariant forall i | from <= i < pos && i <= |s| :: !OccursAt(s, f, i)
    {
      if OccursAt(s, f, pos) {
        return;
      }
      pos := pos + 1;
    }
  }

  lemma OccursInSuffix(s: string, f: string, from: nat, i: nat)
    requires from <= |s|
    ensures OccursAt(s[from..], f, i) <==> OccursAt(s, f, from + i)
  {
    if i + |f| <= |s| - from {
      assert s[from..][i..i + |f|] == s[from + i..from + i + |f|];
    }
  }

  /** Nothing is replaced before the first occurrence. */
  lemma {:induction false} ReplaceSkips(s: string, f: string, t: string, k: nat)
    requires f != "" && k <= |s| && forall i | 0 <= i < k :: !OccursAt(s, f, i)
    ensures ReplaceAll(s, f, t) == s[..k] + ReplaceAll(s[k..], f, t)
    decreases k
  {
    if k == 0 {
      assert s[0..] == s;
    } else {
      forall i | 0 <= i < k - 1 ensures !OccursAt(s[1..], f, i) {
        OccursInSuffix(s, f, 1, i);
        assert !OccursAt(s, f, 1 + i);
      }
      assert !OccursAt(s, f, 0);
      ReplaceSkips(s[1..], f, t, k - 1);
      assert s[1..][k - 1..] == s[k..];
      assert [s[0]] + s[1..][..k - 1] == s[..k];
    }
  }

  /** The text before at is final; what follows is still to be searched. */
  ghost predicate DoneUpTo(s0: string, s: string, f: string, t: string, at: nat)
    requires f != ""
  {
    at <= |s| && ReplaceAll(s0, f, t) == s[..at] + ReplaceAll(s[at..], f, t)
  }

  method ReplaceSubstring(s0: string, f: string, t: string) returns (s: string)
    requires f != ""
    ensures s == ReplaceAll(s0, f, t)
  {
    s := s0;
    var pos := Find(s, f, 0);
    ghost var at: nat := 0;
    assert DoneUpTo(s0, s, f, t, at) by {
      assert s[0..] == s0;
    }
    while pos <= |s|
      invariant DoneUpTo(s0, s, f, t, at)
      invariant pos <= |s| ==> at <= pos && OccursAt(s, f, pos)
      invariant forall i | at <= i < pos && i <= |s| :: !OccursAt(s, f, i)
      invariant pos <= |s| + 1
      decreases |s| - at
    {
      ReplacementStep(s0, s, f, t, at, pos);
      s := s[..pos] + t + s[pos + |f|..];
      at := pos + |t|;
      pos := Find(s, f, pos + |t|);
    }
    NothingToReplace(s, f, t, at);
    assert s[..at] + s[at..] == s;
  }

  lemma ReplacementStep(s0: string, s: string, f: string, t: string, at: nat, pos: nat)
    requires f != "" && DoneUpTo(s0, s, f, t, at) && at <= pos && OccursAt(s, f, pos)
    requires forall i | at <= i < pos && i <= |s| :: !OccursAt(s, f, i)
    ensures DoneUpTo(s0, s[..pos] + t + s[pos + |f|..], f, t, pos + |t|)
  {
    OneReplacement(s, f, t, at, pos);
    assert (s[..pos] + t + s[pos + |f|..])[..pos + |t|] == s[..pos] + t;
    assert (s[..pos] + t + s[pos + |f|..])[pos + |t|..] == s[pos + |f|..];
  }

  /** The leftmost occurrence is the next one to be replaced. */
  lemma FirstReplacement(r: string, f: string, t: string, k: nat)
    requires f != "" && OccursAt(r, f, k) && forall i | 0 <= i < k :: !OccursAt(r, f, i)
    ensures k + |f| <= |r| && ReplaceAll(r, f, t) == r[..k] + (t + ReplaceAll(r[k + |f|..], f, t))
  {
    ReplaceSkips(r, f, t, k);
    OccursInSuffix(r, f, k, 0);
    assert r[k..][|f|..] == r[k + |f|..];
  }

  lemma NoneInSuffix(s: string, f: string, from: nat, to: nat)
    requires from <= |s| && from <= to && forall i | from <= i < to && i <= |s| :: !OccursAt(s, f, i)
    ensures forall i | 0 <= i < to - from && i <= |s| - from :: !OccursAt(s[from..], f, i)
  {
    forall i | 0 <= i < to - from && i <= |s| - from ensures !OccursAt(s[from..], f, i) {
      OccursInSuffix(s, f, from, i);
    }
  }

  lemma OneReplacement(s: string, f: string, t: string, at: nat, pos: nat)
    requires f != "" && at <= pos && OccursAt(s, f, pos)
    requires forall i | at <= i < pos && i <= |s| :: !OccursAt(s, f, i)
    ensures s[..at] + ReplaceAll(s[at..], f, t) == s[..pos] + t + ReplaceAll(s[pos + |f|..], f, t)
  {
    var after := ReplaceAll(s[pos + |f|..], f, t);
    assert ReplaceAll(s[at..], f, t) == s[at..][..pos - at] + (t + after) by {
      NoneInSuffix(s, f, at, pos);
      OccursInSuffix(s, f, at, pos - at);
      FirstReplacement(s[at..], f, t, pos - at);
      assert s[at..][pos - at + |f|..] == s[pos + |f|..];
    }
    Regroup(s, at, pos, t, after);
  }

  lemma Regroup(s: string, at: nat, pos: nat, t: string, after: string)
    requires at <= pos <= |s|
    ensures s[..at] + (s[at..][..pos - at] + (t + after)) == s[..pos] + t + after
  {
    assert s[..at] + s[at..][..pos - at] == s[..pos];
  }

  lemma NothingToReplace(s: string, f: string, t: string, at: nat)
    requires f != "" && at <= |s| && forall i | at <= i <= |s| :: !OccursAt(s, f, i)
    ensures ReplaceAll(s[at..], f, t) == s[at..]
  {
    var r := s[at..];
    NoneInSuffix(s, f, at, |s| + 1);
    ReplaceSkips(r, f, t, |r|);
    assert r[..|r|] + ReplaceAll(r[|r|..], f, t) == r;
  }

  // ---------------------------------------------------------------- escape and unescape

  function Escape(s: string): string {
    ReplaceAll(ReplaceAll(s, "~", "~0"), "/", "~1")
  }

  function Unescape(s: string): string {
    ReplaceAll(ReplaceAll(s, "~1", "/"), "~0", "~")
  }

  method EscapeString(s: string) returns (r: string)
    ensures r == Escape(s)
  {
    r := ReplaceSubstring(s, "~", "~0");
    r := ReplaceSubstring(r, "/", "~1");
  }

  method UnescapeString(s: string) returns (r: string)
    ensures r == Unescape(s)
  {
    r := ReplaceSubstring(s, "~1", "/");
    r := ReplaceSubstring(r, "~0", "~");
  }

  /** Every '~' is followed by '0' or '1'. */
  predicate WellEscaped(s: string) {
    forall i | 0 <= i < |s| && s[i] == '~' :: i + 1 < |s| && (s[i + 1] == '0' || s[i + 1] == '1')
  }

  /** Section 4 of RFC 6901, one escape sequence at a time. */
  function Encode(s: string): string {
    if s == "" then ""
    else (if s[0] == '~' then "~0" else if s[0] == '/' then "~1" else [s[0]]) + Encode(s[1..])
  }

  function Decode(s: string): string {
    if s == "" then ""
    else if s[0] == '~' && |s| > 1 && s[1] == '0' then "~" + Decode(s[2..])
    else if s[0] == '~' && |s| > 1 && s[1] == '1' then "/" + Decode(s[2..])
    else [s[0]] + Decode(s[1..])
  }

  lemma ReplaceOne(c: char, rest: string, f: string, t: string)
    requires f != ""
    ensures |f| == 1 ==> ReplaceAll([c] + rest, f, t) == (if f[0] == c then t else [c]) + ReplaceAll(rest, f, t)
    ensures f[0] != c ==> ReplaceAll([c] + rest, f, t) == [c] + ReplaceAll(rest, f, t)
  {
    var s := [c] + rest;
    assert s[1..] == rest;
    if |f| == 1 && f[0] == c {
      assert s[0..1] == f;
    }
    if OccursAt(s, f, 0) {
      assert f[0] == s[0..|f|][0];
    }
  }

  lemma ReplaceTwo(c: char, d: char, rest: string, f: string, t: string)
    requires |f| == 2 && c != d && f[0] == c
    ensures f[1] == d ==> ReplaceAll([c, d] + rest, f, t) == t + ReplaceAll(rest, f, t)
    ensures f[1] != d ==> ReplaceAll([c, d] + rest, f, t) == [c, d] + ReplaceAll(rest, f, t)
  {
    var s := [c, d] + rest;
    assert s[0..2] == [c, d];
    assert f == [c, f[1]];
    assert s[2..] == rest;
    assert s[1..] == [d] + rest;
    ReplaceOne(d, rest, f, t);
    if f[1] != d {
      assert s[0..2][1] == d;
      assert !OccursAt(s, f, 0);
      assert [c] + ([d] + ReplaceAll(rest, f, t)) == [c, d] + ReplaceAll(rest, f, t);
    }
  }

  /** The escape sequence of a tilde holds no slash. */
  lemma ReplaceNeither(rest: string)
    ensures ReplaceAll("~0" + rest, "/", "~1") == "~0" + ReplaceAll(rest, "/", "~1")
  {
    assert "~0" + rest == ['~'] + (['0'] + rest);
    ReplaceOne('0', rest, "/", "~1");
    ReplaceOne('~', ['0'] + rest, "/", "~1");
    var after := ReplaceAll(rest, "/", "~1");
    assert ['~'] + (['0'] + after) == "~0" + after;
  }

  /** The two replace passes of escape encode character by character. */
  lemma {:induction false} EscapeEncodes(s: string)
    ensures Escape(s) == Encode(s)
  {
    if s != "" {
      assert s == [s[0]] + s[1..];
      var once := ReplaceAll(s[1..], "~", "~0");
      ReplaceOne(s[0], s[1..], "~", "~0");
      EscapeEncodes(s[1..]);
      if s[0] == '~' {
        ReplaceNeither(once);
      } else {
        ReplaceOne(s[0], once, "/", "~1");
      }
    }
  }

  /** On a well-escaped token the two replace passes of unescape decode sequence by sequence. */
  lemma {:induction false} UnescapeDecodes(s: string)
    requires WellEscaped(s)
    ensures Unescape(s) == Decode(s)
  {
    if s != "" {
      if s[0] == '~' {
        var rest := s[2..];
        assert s == [s[0], s[1]] + rest;
        WellEscapedSuffix(s, 2);
        UnescapeDecodes(rest);
        var once := ReplaceAll(rest, "~1", "/");
        ReplaceTwo('~', s[1], rest, "~1", "/");
        if s[1] == '1' {
          ReplaceOne('/', once, "~0", "~");
        } else {
          ReplaceTwo('~', '0', once, "~0", "~");
        }
      } else {
        assert s == [s[0]] + s[1..];
        WellEscapedSuffix(s, 1);
        UnescapeDecodes(s[1..]);
        ReplaceOne(s[0], s[1..], "~1", "/");
        ReplaceOne(s[0], ReplaceAll(s[1..], "~1", "/"), "~0", "~");
      }
    }
  }

  lemma WellEscapedSuffix(s: string, k: nat)
    requires WellEscaped(s) && k <= |s|
    ensures WellEscaped(s[k..])
  {
    forall i | 0 <= i < |s[k..]| && s[k..][i] == '~'
      ensures i + 1 < |s[k..]| && (s[k..][i + 1] == '0' || s[k..][i + 1] == '1')
    {
      assert s[k + i] == '~';
    }
  }

  lemma {:induction false} DecodeEncode(s: string)
    ensures Decode(Encode(s)) == s && WellEscaped(Encode(s)) && '/' !in Encode(s)
  {
    if s != "" {
      var rest := Encode(s[1..]);
      DecodeEncode(s[1..]);
      var head := if s[0] == '~' then "~0" else if s[0] == '/' then "~1" else [s[0]];
      assert (head + rest)[|head|..] == rest;
      forall i | 0 <= i < |head + rest| && (head + rest)[i] == '~'
        ensures i + 1 < |head + rest| && ((head + rest)[i + 1] == '0' || (head + rest)[i + 1] == '1')
      {
        if i >= |head| {
          assert rest[i - |head|] == '~';
        }
      }
      assert [s[0]] + s[1..] == s;
    }
  }

  lemma {:induction false} EncodeDecode(s: string)
    requires WellEscaped(s) && '/' !in s
    ensures Encode(Decode(s)) == s
  {
    if s != "" {
      var k := if s[0] == '~' then 2 else 1;
      WellEscapedSuffix(s, k);
      EncodeDecode(s[k..]);
      var head := if s[0] != '~' then [s[0]] else if s[1] == '0' then "~" else "/";
      assert Decode(s) == head + Decode(s[k..]);
      assert (head + Decode(s[k..]))[1..] == Decode(s[k..]);
      assert s[..k] + s[k..] == s;
      assert s[..k] == if k == 2 then ['~', s[1]] else [s[0]];
    }
  }

  /**
   Escaping loses nothing, and unescaping is its inverse on the tokens a pointer can contain. The order
   of the two passes matters: with "~0" replaced first, "~01" would become "/" instead of "~1".
   */
  lemma UnescapeUndoesEscape(s: string)
    ensures Unescape(Escape(s)) == s && WellEscaped(Escape(s)) && '/' !in Escape(s)
  {
    EscapeEncodes(s);
    DecodeEncode(s);
    UnescapeDecodes(Encode(s));
  }

  lemma EscapeUndoesUnescape(s: string)
    requires WellEscaped(s) && '/' !in s
    ensures Escape(Unescape(s)) == s
  {
    UnescapeDecodes(s);
    EncodeDecode(s);
    EscapeEncodes(Decode(s));
  }

  // ---------------------------------------------------------------- split and to_string

  /** The tokens of a pointer, joined from the left as std::accumulate does. */
  function ToString(tokens: seq<string>): string {
    if tokens == [] then ""
    else ToString(tokens[..|tokens| - 1]) + ("/" + Escape(tokens[|tokens| - 1]))
  }

  lemma ToStringAppend(tokens: seq<string>, token: string)
    ensures ToString(tokens + [token]) == ToString(tokens) + ("/" + Escape(token))
  {
    assert (tokens + [token])[..|tokens|] == tokens;
  }

  lemma Regroup4(a: string, e: string, w: string, x: string)
    ensures (a + (e + w)) + x == a + (e + (w + x))
  {
  }

  lemma {:induction false} ToStringCons(token: string, rest: seq<string>)
    ensures ToString([token] + rest) == "/" + (Escape(token) + ToString(rest))
    decreases |rest|
  {
    if rest == [] {
      assert [token] + rest == [] + [token];
      ToStringAppend([], token);
    } else {
      var front, last := rest[..|rest| - 1], rest[|rest| - 1];
      ToStringCons(token, front);
      ToStringAround(token, front, last);
      assert rest == front + [last];
      ToStringAppend(front, last);
      Regroup4("/", Escape(token), ToString(front), "/" + Escape(last));
    }
  }

  lemma ToStringAround(token: string, front: seq<string>, last: string)
    ensures ToString([token] + (front + [last])) == ToString([token] + front) + ("/" + Escape(last))
  {
    assert [token] + (front + [last]) == ([token] + front) + [last];
    ToStringAppend([token] + front, last);
  }

  /** The position of the first slash, or the length. */
  function SlashAt(s: string): (k: nat)
    ensures k <= |s| && '/' !in s[..k] && (k < |s| ==> s[k] == '/')
  {
    if s == "" || s[0] == '/' then 0
    else
      var k := SlashAt(s[1..]);
      assert s[..k + 1] == [s[0]] + s[1..][..k];
      k + 1
  }

  function Prepend(tokens: seq<string>, r: Result<seq<string>>): Result<seq<string>> {
    match r
    case Ok(rest) => Ok(tokens + rest)
    case Err(code) => Err(code)
  }

  /** The tokens of a pointer string after its first slash. */
  function SplitFrom(s: string): Result<seq<string>> {
    var k := SlashAt(s);
    if !WellEscaped(s[..k]) then Err(108)
    else if k == |s| then Ok([Unescape(s[..k])])
    else Prepend([Unescape(s[..k])], SplitFrom(s[k + 1..]))
  }

  function Split(s: string): Result<seq<string>> {
    if s == "" then Ok([])
    else if s[0] != '/' then Err(107)
    else SplitFrom(s[1..])
  }

  /** The first c at or after from; |s| plays the part of npos. */
  method FindFirstOf(s: string, c: char, from: nat) returns (pos: nat)
    requires from <= |s|
    ensures from <= pos <= |s| && c !in s[from..pos]
    ensures pos < |s| ==> s[pos] == c
  {
    pos := from;
    while pos < |s|
      invariant from <= pos <= |s| && c !in s[from..pos]
    {
      if s[pos] == c {
        return;
      }
      pos := pos + 1;
    }
  }

  method CheckEscapes(token: string) returns (ok: bool)
    ensures ok <==> WellEscaped(token)
  {
    var pos := FindFirstOf(token, '~', 0);
    while pos != |token|
      invariant pos <= |token| && (pos < |token| ==> token[pos] == '~')
      invariant forall i | 0 <= i < pos && token[i] == '~' ::
        i + 1 < |token| && (token[i + 1] == '0' || token[i + 1] == '1')
      decreases |token| - pos
    {
      if pos == |token| - 1 || (token[pos + 1] != '0' && token[pos + 1] != '1') {
        return false;
      }
      var next := FindFirstOf(token, '~', pos + 1);
      forall i | pos < i < next ensures token[i] != '~' {
        assert token[pos + 1..next][i - pos - 1] == token[i];
      }
      pos := next;
    }
    ok := true;
  }

  lemma {:induction false} SlashFound(s: string, k: nat)
    requires k <= |s| && '/' !in s[..k] && (k < |s| ==> s[k] == '/')
    ensures SlashAt(s) == k
  {
    if k > 0 {
      assert s[0] in s[..k];
      forall c | c in s[1..][..k - 1] ensures c in s[..k] {
      }
      SlashFound(s[1..], k - 1);
    }
  }

  /** One token off the front of what is left to split. */
  lemma SplitHead(e: string, w: string)
    requires '/' !in e && (w != "" ==> w[0] == '/')
    ensures !WellEscaped(e) ==> SplitFrom(e + w) == Err(108)
    ensures WellEscaped(e) ==>
      SplitFrom(e + w) == if w == "" then Ok([Unescape(e)]) else Prepend([Unescape(e)], SplitFrom(w[1..]))
  {
    assert (e + w)[..|e|] == e;
    SlashFound(e + w, |e|);
    if w != "" {
      assert (e + w)[|e| + 1..] == w[1..];
    }
  }

  lemma PrependTwice(first: seq<string>, second: seq<string>, r: Result<seq<string>>)
    ensures Prepend(first, Prepend(second, r)) == Prepend(first + second, r)
  {
    if r.Ok? {
      assert first + (second + r.value) == first + second + r.value;
    }
  }

  lemma SplitFromStep(s: string, start: nat, slash: nat, result: seq<string>)
    requires start <= slash <= |s| && '/' !in s[start..slash] && (slash < |s| ==> s[slash] == '/')
    ensures !WellEscaped(s[start..slash]) ==> Prepend(result, SplitFrom(s[start..])) == Err(108)
    ensures WellEscaped(s[start..slash]) ==>
      var more := result + [Unescape(s[start..slash])];
      Prepend(result, SplitFrom(s[start..]))
        == if slash == |s| then Ok(more) else Prepend(more, SplitFrom(s[slash + 1..]))
  {
    var e, w := s[start..slash], s[slash..];
    assert s[start..] == e + w;
    SplitHead(e, w);
    if slash < |s| {
      assert w[1..] == s[slash + 1..];
      PrependTwice(result, [Unescape(e)], SplitFrom(s[slash + 1..]));
    }
  }

  ghost predicate SplitSoFar(s: string, start: nat, slash: nat, result: seq<string>) {
    && start <= slash <= |s| && '/' !in s[start..slash] && (slash < |s| ==> s[slash] == '/')
    && Split(s) == if start == 0 then Ok(result) else Prepend(result, SplitFrom(s[start..]))
  }

  lemma SplitStarts(s: string, slash: nat)
    requires s != "" && s[0] == '/' && 1 <= slash <= |s| && '/' !in s[1..slash] && (slash < |s| ==> s[slash] == '/')
    ensures SplitSoFar(s, 1, slash, [])
  {
    if Split(s).Ok? {
      assert [] + Split(s).value == Split(s).value;
    }
  }

  method SplitString(s: string) returns (r: Result<seq<string>>)
    ensures r == Split(s)
  {
    if s == "" {
      return Ok([]);
    }
    if s[0] != '/' {
      return Err(107);
    }
    var result := [];
    var slash := FindFirstOf(s, '/', 1);
    var start := 1;
    SplitStarts(s, slash);
    while start != 0
      invariant SplitSoFar(s, start, slash, result)
      decreases if start == 0 then 0 else |s| + 1 - start
    {
      SplitFromStep(s, start, slash, result);
      var token := s[start..slash];
      var ok := CheckEscapes(token);
      if !ok {
        return Err(108);
      }
      token := UnescapeString(token);
      result := result + [token];
      start := if slash == |s| then 0 else slash + 1;
      slash := FindFirstOf(s, '/', start);
    }
    r := Ok(result);
  }

  lemma {:induction false} SplitPrinted(token: string, rest: seq<string>)
    ensures SplitFrom(Escape(token) + ToString(rest)) == Ok([token] + rest)
    decreases |rest|
  {
    UnescapeUndoesEscape(token);
    if rest == [] {
      SplitHead(Escape(token), "");
      assert [token] + rest == [token];
    } else {
      PrintedTail(rest);
      SplitPrinted(rest[0], rest[1..]);
      SplitHead(Escape(token), ToString(rest));
    }
  }

  lemma PrintedTail(rest: seq<string>)
    requires rest != []
    ensures ToString(rest) != "" && ToString(rest)[0] == '/'
    ensures ToString(rest)[1..] == Escape(rest[0]) + ToString(rest[1..])
    ensures [rest[0]] + rest[1..] == rest
  {
    assert [rest[0]] + rest[1..] == rest;
    ToStringCons(rest[0], rest[1..]);
  }

  /** Parsing a printed pointer gives back its tokens. */
  lemma SplitUndoesToString(tokens: seq<string>)
    ensures Split(ToString(tokens)) == Ok(tokens)
  {
    if tokens != [] {
      PrintedTail(tokens);
      SplitPrinted(tokens[0], tokens[1..]);
    }
  }

  lemma {:induction false} PrintedSplit(s: string, tokens: seq<string>)
    requires SplitFrom(s) == Ok(tokens)
    ensures ToString(tokens) == "/" + s
    decreases |s|
  {
    var e, w := s[..SlashAt(s)], s[SlashAt(s)..];
    assert s == e + w;
    SplitHead(e, w);
    EscapeUndoesUnescape(e);
    var rest := if w == "" then [] else SplitFrom(w[1..]).value;
    assert tokens == [Unescape(e)] + rest;
    assert ToString(rest) == w by {
      if w != "" {
        PrintedSplit(w[1..], rest);
        assert w == "/" + w[1..];
      }
    }
    ToStringCons(Unescape(e), rest);
  }

  /** Printing the tokens of an accepted string gives back the string. */
  lemma ToStringUndoesSplit(s: string)
    requires Split(s).Ok?
    ensures ToString(Split(s).value) == s
  {
    if s != "" {
      PrintedSplit(s[1..], Split(s).value);
      assert "/" + s[1..] == s;
    }
  }

  lemma {:induction false} SplitFromAccepts(s: string)
    ensures SplitFrom(s).Ok? <==> WellEscaped(s)
    ensures SplitFrom(s).Err? ==> SplitFrom(s).code == 108
    decreases |s|
  {
    var k := SlashAt(s);
    if WellEscaped(s) {
      WellEscapedPrefix(s, k);
    }
    if k < |s| {
      SplitFromAccepts(s[k + 1..]);
      if WellEscaped(s) {
        WellEscapedSuffix(s, k + 1);
      }
      if WellEscaped(s[..k]) && WellEscaped(s[k + 1..]) {
        WellEscapedJoin(s, k);
      }
    } else {
      assert s[..k] == s;
    }
  }

  lemma WellEscapedPrefix(s: string, k: nat)
    requires WellEscaped(s) && k <= |s| && (k < |s| ==> s[k] == '/')
    ensures WellEscaped(s[..k])
  {
    forall i | 0 <= i < k && s[..k][i] == '~'
      ensures i + 1 < k && (s[..k][i + 1] == '0' || s[..k][i + 1] == '1')
    {
      assert s[i] == '~';
    }
  }

  lemma WellEscapedJoin(s: string, k: nat)
    requires k < |s| && s[k] == '/' && WellEscaped(s[..k]) && WellEscaped(s[k + 1..])
    ensures WellEscaped(s)
  {
    forall i | 0 <= i < |s| && s[i] == '~'
      ensures i + 1 < |s| && (s[i + 1] == '0' || s[i + 1] == '1')
    {
      if i < k {
        assert s[..k][i] == '~';
      } else {
        assert s[k + 1..][i - k - 1] == '~';
      }
    }
  }

  /** Exactly which strings are pointers, and which error the others give. */
  lemma SplitAccepts(s: string)
    ensures Split(s).Ok? <==> s == "" || (s[0] == '/' && WellEscaped(s))
    ensures Split(s).Err? ==> Split(s).code == if s[0] != '/' then 107 else 108
  {
    if s != "" && s[0] == '/' {
      SplitFromAccepts(s[1..]);
      if WellEscaped(s) {
        WellEscapedSuffix(s, 1);
      }
      if WellEscaped(s[1..]) {
        assert s[..0] == "";
        WellEscapedJoin(s, 0);
      }
    }
  }

  // ---------------------------------------------------------------- array indices

  function Digit(d: nat): char
    requires d < 10
  {
    ('0' as int + d) as char
  }

  predicate IsDigit(c: char) {
    '0' <= c <= '9'
  }

  predicate AllDigits(s: string) {
    forall i | 0 <= i < |s| :: IsDigit(s[i])
  }

  /** The decimal text that std::to_string produces. */
  function Decimal(n: nat): string {
    if n < 10 then [Digit(n)] else Decimal(n / 10) + [Digit(n % 10)]
  }

  /** The number that strtoull reads from decimal digits, before its range check. */
  function Value(s: string): nat
    requires AllDigits(s)
  {
    if s == "" then 0
    else
      assert IsDigit(s[|s| - 1]);
      10 * Value(s[..|s| - 1]) + (s[|s| - 1] as int - '0' as int)
  }

  function ArrayIndex(s: string): Result<nat> {
    if |s| > 1 && s[0] == '0' then Err(106)
    else if |s| > 1 && !('1' <= s[0] <= '9') then Err(109)
    else if s == "" || !AllDigits(s) || Value(s) >= SIZE_T then Err(404)
    else if Value(s) >= SIZE_T - 1 then Err(410)
    else Ok(Value(s))
  }

  predicate Canonical(s: string) {
    s != "" && AllDigits(s) && (s[0] == '0' ==> |s| == 1)
  }

  lemma {:induction false} DecimalIsCanonical(n: nat)
    ensures Canonical(Decimal(n)) && Value(Decimal(n)) == n
    ensures n > 0 ==> Decimal(n)[0] != '0'
  {
    if n < 10 {
      assert Decimal(n)[..0] == "";
    } else {
      DecimalIsCanonical(n / 10);
      assert Decimal(n)[..|Decimal(n)| - 1] == Decimal(n / 10);
    }
  }

  lemma {:induction false} CanonicalIsDecimal(s: string)
    requires Canonical(s)
    ensures Decimal(Value(s)) == s && (s[0] != '0' ==> Value(s) > 0)
    decreases |s|
  {
    var front := s[..|s| - 1];
    assert IsDigit(s[|s| - 1]);
    if |s| == 1 {
      assert front == "";
      assert s == [s[0]];
    } else {
      assert front[0] == s[0] && IsDigit(s[0]);
      CanonicalIsDecimal(front);
      assert s == front + [s[|s| - 1]];
    }
  }

  /** An index token is accepted exactly when it is the decimal text of a number below the size limit. */
  lemma IndexIsItsDecimal(s: string, n: nat)
    ensures ArrayIndex(s) == Ok(n) <==> n < SIZE_T - 1 && s == Decimal(n)
  {
    DecimalIsCanonical(n);
    if ArrayIndex(s).Ok? {
      CanonicalIsDecimal(s);
    }
  }

  lemma {:induction false} NothingToEscape(s: string)
    requires '~' !in s && '/' !in s
    ensures Escape(s) == s
  {
    EscapeEncodes(s);
    if s != "" {
      NothingToEscape(s[1..]);
      EscapeEncodes(s[1..]);
    }
  }

  lemma DecimalNeedsNoEscape(n: nat)
    ensures Escape(Decimal(n)) == Decimal(n) && Decimal(n) != "-"
  {
    DecimalIsCanonical(n);
    assert IsDigit(Decimal(n)[0]);
    NothingToEscape(Decimal(n));
  }
}
