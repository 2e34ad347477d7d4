/** The binary order messages: what the client writes, what the parser accepts, and the order it builds. */
module OrderParser {
  import opened Types
  import Aggressor

  const BASE_LEN: nat := 9 + ORDER_ID_LEN + TICKER_LEN

  const TYPE_LIMIT_BUY: byte := 1
  const TYPE_LIMIT_SELL: byte := 2
  const TYPE_MARKET_BUY: byte := 3
  const TYPE_MARKET_SELL: byte := 4
  const TYPE_UPDATE: byte := 5
  const TYPE_CANCEL: byte := 6

  const SIDE_BUY: byte := 'B' as int as byte

  // ---------------------------------------------------------------- byte order

  /** The number whose most significant byte comes first. */
  function BigEndian(s: seq<byte>): nat {
    if s == [] then 0 else 256 * BigEndian(s[..|s| - 1]) + s[|s| - 1] as nat
  }

  /** What memcpy from the buffer into an integer yields on a little-endian machine. */
  function Load(s: seq<byte>): nat {
    if s == [] then 0 else s[0] as nat + 256 * Load(s[1..])
  }

  /** The n bytes that an integer occupies there. */
  function Store(v: nat, n: nat): (s: seq<byte>)
    ensures |s| == n
  {
    if n == 0 then [] else [(v % 256) as byte] + Store(v / 256, n - 1)
  }

  function Reverse(s: seq<byte>): (r: seq<byte>)
    ensures |r| == |s| && forall i | 0 <= i < |s| :: r[i] == s[|s| - 1 - i]
  {
    seq(|s|, i requires 0 <= i < |s| => s[|s| - 1 - i])
  }

  /** ntohl and htonl: the four bytes in the opposite order. */
  function Swap32(v: nat): nat {
    Load(Reverse(Store(v, 4)))
  }

  /** ntohll and htonll: the halves change places, and each is swapped. */
  function Swap64(v: nat): nat {
    0x1_0000_0000 * Swap32(v % 0x1_0000_0000) + Swap32(v / 0x1_0000_0000)
  }

  lemma {:induction false} StoreLoad(s: seq<byte>)
    ensures Store(Load(s), |s|) == s
  {
    if s != [] {
      StoreLoad(s[1..]);
      Digit(s[0], Load(s[1..]));
    }
  }

  lemma Digit(a: byte, rest: nat)
    ensures (a as int + 256 * rest) % 256 == a as int && (a as int + 256 * rest) / 256 == rest
  {
  }

  function Pow256(n: nat): (p: nat)
    ensures p > 0
  {
    if n == 0 then 1 else 256 * Pow256(n - 1)
  }

  lemma {:induction false} LoadStore(v: nat, n: nat)
    requires v < Pow256(n)
    ensures Load(Store(v, n)) == v
  {
    if n > 0 {
      LoadStore(v / 256, n - 1);
      assert Store(v, n)[1..] == Store(v / 256, n - 1);
    }
  }

  lemma {:induction false} LoadIsBounded(s: seq<byte>)
    ensures Load(s) < Pow256(|s|)
  {
    if s != [] {
      LoadIsBounded(s[1..]);
    }
  }

  lemma {:induction false} LoadReversed(s: seq<byte>)
    ensures Load(Reverse(s)) == BigEndian(s)
  {
    if s != [] {
      LoadReversed(s[..|s| - 1]);
      assert Reverse(s)[1..] == Reverse(s[..|s| - 1]);
    }
  }

  lemma {:induction false} BigEndianJoin(a: seq<byte>, b: seq<byte>)
    ensures BigEndian(a + b) == Pow256(|b|) * BigEndian(a) + BigEndian(b)
  {
    if b == [] {
      assert a + b == a;
    } else {
      var front := b[..|b| - 1];
      BigEndianJoin(a, front);
      assert (a + b)[..|a + b| - 1] == a + front;
      TakeOut(Pow256(|front|), BigEndian(a), BigEndian(front));
    }
  }

  lemma TakeOut(p: nat, x: nat, y: nat)
    ensures 256 * (p * x + y) == (256 * p) * x + 256 * y
  {
  }

  lemma {:induction false} LoadJoin(a: seq<byte>, b: seq<byte>)
    ensures Load(a + b) == Load(a) + Pow256(|a|) * Load(b)
  {
    if a == [] {
      assert a + b == b;
    } else {
      LoadJoin(a[1..], b);
      assert (a + b)[1..] == a[1..] + b;
      TakeOut(Pow256(|a| - 1), Load(b), Load(a[1..]));
    }
  }

  lemma FourBytes()
    ensures Pow256(4) == 0x1_0000_0000
  {
  }

  lemma Halves(lo: nat, hi: nat)
    requires lo < 0x1_0000_0000
    ensures (lo + 0x1_0000_0000 * hi) % 0x1_0000_0000 == lo && (lo + 0x1_0000_0000 * hi) / 0x1_0000_0000 == hi
  {
  }

  /** Reading four bytes and swapping them reads the big-endian number. */
  lemma ReadsBigEndian32(s: seq<byte>)
    requires |s| == 4
    ensures Swap32(Load(s)) == BigEndian(s) < 0x1_0000_0000
  {
    StoreLoad(s);
    LoadReversed(s);
    LoadIsBounded(Reverse(s));
    FourBytes();
  }

  lemma SwapHalves(lo: nat, hi: nat)
    requires lo < 0x1_0000_0000
    ensures Swap64(lo + 0x1_0000_0000 * hi) == 0x1_0000_0000 * Swap32(lo) + Swap32(hi)
  {
    Halves(lo, hi);
  }

  lemma LoadEight(a: seq<byte>, b: seq<byte>)
    requires |a| == 4 && |b| == 4
    ensures Load(a) < 0x1_0000_0000 && Load(a + b) == Load(a) + 0x1_0000_0000 * Load(b)
    ensures BigEndian(a + b) == 0x1_0000_0000 * BigEndian(a) + BigEndian(b)
  {
    FourBytes();
    LoadIsBounded(a);
    LoadJoin(a, b);
    BigEndianJoin(a, b);
  }

  lemma SwapGlued(w: nat, lo: nat, hi: nat, x: nat, y: nat)
    requires lo < 0x1_0000_0000 && w == lo + 0x1_0000_0000 * hi
    requires Swap32(lo) == x < 0x1_0000_0000 && Swap32(hi) == y < 0x1_0000_0000
    ensures Swap64(w) == 0x1_0000_0000 * x + y < 0x1_0000_0000_0000_0000
  {
    SwapHalves(lo, hi);
  }

  lemma ReadsJoined(a: seq<byte>, b: seq<byte>)
    requires |a| == 4 && |b| == 4
    ensures Swap64(Load(a + b)) == BigEndian(a + b) < 0x1_0000_0000_0000_0000
  {
    var w, lo, hi, x, y := Load(a + b), Load(a), Load(b), BigEndian(a), BigEndian(b);
    assert lo < 0x1_0000_0000 && w == lo + 0x1_0000_0000 * hi && BigEndian(a + b) == 0x1_0000_0000 * x + y by {
      LoadEight(a, b);
    }
    assert Swap32(lo) == x < 0x1_0000_0000 && Swap32(hi) == y < 0x1_0000_0000 by {
      ReadsBigEndian32(a);
      ReadsBigEndian32(b);
    }
    SwapGlued(w, lo, hi, x, y);
  }

  lemma ReadsBigEndian64(s: seq<byte>)
    requires |s| == 8
    ensures Swap64(Load(s)) == BigEndian(s) < 0x1_0000_0000_0000_0000
  {
    ReadsJoined(s[..4], s[4..]);
    assert s[..4] + s[4..] == s;
  }

  /** The four bytes that htonl leaves in memory are the number, most significant byte first. */
  lemma WritesBigEndian32(v: uint32)
    ensures BigEndian(Store(Swap32(v), 4)) == v
    ensures Swap32(v) < 0x1_0000_0000
  {
    var s := Store(v, 4);
    StoreLoad(Reverse(s));
    LoadIsBounded(Reverse(s));
    LoadReversed(Reverse(s));
    assert Reverse(Reverse(s)) == s;
    FourBytes();
    LoadStore(v, 4);
  }

  lemma StoreJoin(lo: nat, hi: nat)
    requires lo < 0x1_0000_0000
    ensures Store(lo + 0x1_0000_0000 * hi, 8) == Store(lo, 4) + Store(hi, 4)
  {
    var a, b := Store(lo, 4), Store(hi, 4);
    FourBytes();
    StoreSplit(lo, hi, 4, 4);
  }

  lemma {:induction false} StoreSplit(lo: nat, hi: nat, n: nat, m: nat)
    requires lo < Pow256(n)
    ensures Store(lo + Pow256(n) * hi, n + m) == Store(lo, n) + Store(hi, m)
  {
    if n > 0 {
      var v := lo + Pow256(n) * hi;
      TakeOut(Pow256(n - 1), hi, lo / 256);
      Digit((lo % 256) as byte, lo / 256 + Pow256(n - 1) * hi);
      assert v == lo % 256 + 256 * (lo / 256 + Pow256(n - 1) * hi);
      StoreSplit(lo / 256, hi, n - 1, m);
    }
  }

  lemma StoredHalves(lo: uint32, hi: uint32)
    ensures BigEndian(Store(Swap32(hi), 4) + Store(Swap32(lo), 4)) == lo + 0x1_0000_0000 * hi
  {
    WritesBigEndian32(hi);
    WritesBigEndian32(lo);
    BigEndianJoin(Store(Swap32(hi), 4), Store(Swap32(lo), 4));
    FourBytes();
  }

  lemma StoredSwap(w: nat, lo: uint32, hi: uint32)
    requires w == Swap32(hi) + 0x1_0000_0000 * Swap32(lo)
    ensures BigEndian(Store(w, 8)) == lo + 0x1_0000_0000 * hi
  {
    WritesBigEndian32(hi);
    StoreJoin(Swap32(hi), Swap32(lo));
    StoredHalves(lo, hi);
  }

  lemma SplitWord(v: uint64) returns (lo: uint32, hi: uint32)
    ensures v == lo + 0x1_0000_0000 * hi && Swap64(v) == Swap32(hi) + 0x1_0000_0000 * Swap32(lo)
  {
    lo, hi := v % 0x1_0000_0000, v / 0x1_0000_0000;
  }

  lemma WritesBigEndian64(v: uint64)
    ensures BigEndian(Store(Swap64(v), 8)) == v
  {
    var lo, hi := SplitWord(v);
    StoredSwap(Swap64(v), lo, hi);
  }

  method ReadLong(s: seq<byte>) returns (v: uint64)
    requires |s| == 8
    ensures v == BigEndian(s)
  {
    ReadsBigEndian64(s);
    v := Swap64(Load(s));
  }

  method ReadInt(s: seq<byte>) returns (v: uint32)
    requires |s| == 4
    ensures v == BigEndian(s)
  {
    ReadsBigEndian32(s);
    v := Swap32(Load(s));
  }

  // ---------------------------------------------------------------- parse_message

  datatype Message = Message(timestamp: nat, msgType: byte, id: OrderId, ticker: Ticker,
                             price: nat, qty: nat, isBuy: bool)

  predicate IsPriced(msgType: byte) {
    1 <= msgType <= 4
  }

  /** The shortest buffer that holds a message of this type; none does for an unknown type. */
  function LengthOf(msgType: byte): Option<nat> {
    if IsPriced(msgType) then Some(37)
    else if msgType == TYPE_UPDATE then Some(38)
    else if msgType == TYPE_CANCEL then Some(29)
    else None
  }

  /** The fields of a message, read off the buffer at their fixed places. */
  function FieldsOf(s: seq<byte>): Message
    requires |s| >= BASE_LEN && LengthOf(s[8]).Some? && |s| >= LengthOf(s[8]).value
  {
    var cancel := s[8] == TYPE_CANCEL;
    Message(BigEndian(s[..8]), s[8], s[9..25], s[25..29],
            if cancel then 0 else BigEndian(s[29..33]), if cancel then 0 else BigEndian(s[33..37]),
            s[8] == TYPE_LIMIT_BUY || s[8] == TYPE_MARKET_BUY || (s[8] == TYPE_UPDATE && s[37] == SIDE_BUY))
  }

  /** A buffer is a message when it is long enough for its type and priced messages have a price and a quantity. */
  function Parse(s: seq<byte>): Option<Message> {
    if |s| < BASE_LEN || LengthOf(s[8]).None? || |s| < LengthOf(s[8]).value then None
    else
      var m := FieldsOf(s);
      if m.msgType != TYPE_CANCEL && (m.price == 0 || m.qty == 0) then None else Some(m)
  }

  /** The record the parser fills in; what it holds after a rejected message means nothing. */
  class ParsedOrder {
    var timestamp: nat
    var msgType: byte
    var id: OrderId
    var ticker: Ticker
    var price: nat
    var qty: nat
    var isBuy: bool

    constructor ()
      ensures Value() == Message(0, 0, seq(16, _ => 0), seq(4, _ => 0), 0, 0, false)
    {
      timestamp, msgType, price, qty, isBuy := 0, 0, 0, 0, false;
      id, ticker := seq(16, _ => 0), seq(4, _ => 0);
    }

    function Value(): Message
      reads this
    {
      Message(timestamp, msgType, id, ticker, price, qty, isBuy)
    }
  }

  method ParseMessage(data: array?<byte>, len: nat, out: ParsedOrder) returns (ok: bool)
    requires data != null ==> len <= data.Length
    modifies out
    ensures data == null ==> !ok
    ensures data != null ==> Parse(data[..len]) == if ok then Some(out.Value()) else None
  {
    if data == null || len < BASE_LEN {
      return false;
    }
    ghost var s := data[..len];
    out.timestamp := ReadLong(data[..8]);
    assert data[..8] == s[..8];
    out.msgType := data[8];
    var p := 9;
    out.id := data[p..p + 16];
    p := p + ORDER_ID_LEN;
    out.ticker := data[p..p + 4];
    p := p + TICKER_LEN;
    assert data[9..25] == s[9..25] && data[25..29] == s[25..29];
    out.price, out.qty, out.isBuy := 0, 0, false;
    if TYPE_LIMIT_BUY <= out.msgType <= TYPE_MARKET_SELL {
      if len < p + 8 {
        return false;
      }
      assert data[29..33] == s[29..33] && data[33..37] == s[33..37];
      out.price := ReadInt(data[p..p + 4]);
      out.qty := ReadInt(data[p + 4..p + 8]);
      out.isBuy := out.msgType == TYPE_LIMIT_BUY || out.msgType == TYPE_MARKET_BUY;
    } else if out.msgType == TYPE_UPDATE {
      if len < p + 9 {
        return false;
      }
      assert data[29..33] == s[29..33] && data[33..37] == s[33..37];
      out.price := ReadInt(data[p..p + 4]);
      out.qty := ReadInt(data[p + 4..p + 8]);
      out.isBuy := data[p + 8] == SIDE_BUY;
    } else if out.msgType != TYPE_CANCEL {
      return false;
    }
    ok := out.msgType == TYPE_CANCEL || (out.price != 0 && out.qty != 0);
  }

  // ---------------------------------------------------------------- what the client writes

  datatype EventKind = LimitAdd | CancelEvent | UpdateEvent

  /** One event of the client's input; the conversion of its price from text is not modelled. */
  datatype Event = Event(kind: EventKind, timestamp: uint64, side: byte, id: seq<byte>, symbol: seq<byte>,
                         price: uint32, size: uint32)

  function TypeOf(e: Event): byte {
    match e.kind
    case LimitAdd => if e.side == SIDE_BUY then TYPE_LIMIT_BUY else TYPE_LIMIT_SELL
    case CancelEvent => TYPE_CANCEL
    case UpdateEvent => TYPE_UPDATE
  }

  /** A name in a field of n bytes: at most n - 1 bytes of it, then zeros. */
  function Pad(name: seq<byte>, n: nat): (s: seq<byte>)
    requires n > 0
    ensures |s| == n
  {
    var cut := if |name| < n then name else name[..n - 1];
    cut + seq(n - |cut|, _ => 0)
  }

  /** The message an event stands for. */
  function MessageOf(e: Event): Message {
    var priced := e.kind != CancelEvent;
    Message(e.timestamp, TypeOf(e), Pad(e.id, 16), Pad(e.symbol, 4),
            if priced then e.price else 0, if priced then e.size else 0, priced && e.side == SIDE_BUY)
  }

  function Header(e: Event): (s: seq<byte>)
    ensures |s| == 29
  {
    Store(Swap64(e.timestamp), 8) + [TypeOf(e)] + Pad(e.id, 16) + Pad(e.symbol, 4)
  }

  function Wire(e: Event): seq<byte> {
    Header(e)
    + (if e.kind == CancelEvent then [] else Store(Swap32(e.price), 4) + Store(Swap32(e.size), 4))
    + (if e.kind == UpdateEvent then [e.side] else [])
  }

  method WriteEvent(e: Event) returns (buf: seq<byte>)
    ensures buf == Wire(e)
  {
    buf := Store(Swap64(e.timestamp), 8);
    var msgType := TypeOf(e);
    buf := buf + [msgType];
    buf := buf + Pad(e.id, 16);
    buf := buf + Pad(e.symbol, 4);
    if msgType == TYPE_LIMIT_BUY || msgType == TYPE_LIMIT_SELL || msgType == TYPE_UPDATE {
      buf := buf + Store(Swap32(e.price), 4);
      buf := buf + Store(Swap32(e.size), 4);
      if msgType == TYPE_UPDATE {
        buf := buf + [e.side];
      }
    }
    assert buf == Wire(e);
  }

  lemma HeaderFields(e: Event)
    ensures Header(e)[..8] == Store(Swap64(e.timestamp), 8) && Header(e)[8] == TypeOf(e)
    ensures Header(e)[9..25] == Pad(e.id, 16) && Header(e)[25..29] == Pad(e.symbol, 4)
  {
  }

  lemma Parts(h: seq<byte>, p: seq<byte>, q: seq<byte>, r: seq<byte>)
    requires |h| == 29 && |p| == 4 && |q| == 4
    ensures var w := h + (p + q) + r;
            w[..29] == h && w[29..33] == p && w[33..37] == q && w[37..] == r && |w| == 37 + |r|
  {
    var w := h + (p + q) + r;
    assert w[29..33] == p;
    assert w[33..37] == q;
  }

  lemma WireFields(e: Event)
    ensures Header(e) <= Wire(e) && LengthOf(TypeOf(e)) == Some(|Wire(e)|)
    ensures e.kind != CancelEvent ==>
      Wire(e)[29..33] == Store(Swap32(e.price), 4) && Wire(e)[33..37] == Store(Swap32(e.size), 4)
    ensures e.kind == UpdateEvent ==> Wire(e)[37] == e.side
  {
    if e.kind != CancelEvent {
      var p, q := Store(Swap32(e.price), 4), Store(Swap32(e.size), 4);
      var r := if e.kind == UpdateEvent then [e.side] else [];
      Parts(Header(e), p, q, r);
      assert Wire(e) == Header(e) + (p + q) + r;
      assert Wire(e)[..29] == Header(e);
      assert e.kind == UpdateEvent ==> Wire(e)[37..][0] == e.side;
    } else {
      assert Wire(e) == Header(e);
    }
  }

  /** A written event is parsed back as its message, unless it is priced without a price or a size. */
  lemma ParseUndoesWrite(e: Event)
    ensures Parse(Wire(e))
      == if e.kind != CancelEvent && (e.price == 0 || e.size == 0) then None else Some(MessageOf(e))
  {
    var h, w := Header(e), Wire(e);
    HeaderFields(e);
    WireFields(e);
    assert w[..29] == h;
    assert w[..8] == h[..8] && w[8] == h[8] && w[9..25] == h[9..25] && w[25..29] == h[25..29];
    WritesBigEndian64(e.timestamp);
    WritesBigEndian32(e.price);
    WritesBigEndian32(e.size);
  }

  /** Every byte of a message is needed: no proper prefix of a written event is accepted. */
  lemma PrefixIsRejected(e: Event, n: nat)
    requires n < |Wire(e)|
    ensures Parse(Wire(e)[..n]) == None
  {
    HeaderFields(e);
    WireFields(e);
    if n > 8 {
      assert Wire(e)[..n][8] == Header(e)[8];
    }
  }

  /** Two events with the same bytes on the wire agree on everything but the cut-off ends of their names. */
  lemma WireIsInjective(e: Event, f: Event)
    requires Wire(e) == Wire(f)
    ensures e.timestamp == f.timestamp && e.kind == f.kind
    ensures Pad(e.id, 16) == Pad(f.id, 16) && Pad(e.symbol, 4) == Pad(f.symbol, 4)
    ensures e.kind != CancelEvent ==> e.price == f.price && e.size == f.size
    ensures e.kind != CancelEvent ==> (e.side == SIDE_BUY <==> f.side == SIDE_BUY)
  {
    HeaderFields(e);
    HeaderFields(f);
    WireFields(e);
    WireFields(f);
    assert Header(e) == Wire(e)[..29] && Header(f) == Wire(f)[..29];
    WritesBigEndian64(e.timestamp);
    WritesBigEndian64(f.timestamp);
    if e.kind != CancelEvent {
      WritesBigEndian32(e.price);
      WritesBigEndian32(f.price);
      WritesBigEndian32(e.size);
      WritesBigEndian32(f.size);
    }
  }

  /** What a reader of a fixed-size name field sees: the bytes before the first zero. */
  function CName(s: seq<byte>): seq<byte> {
    if s == [] || s[0] == 0 then [] else [s[0]] + CName(s[1..])
  }

  /** Zeros after a name do not show, unless the name holds a zero itself. */
  lemma {:induction false} CNamePadded(name: seq<byte>, zeros: seq<byte>)
    requires zeros != [] && zeros[0] == 0
    ensures CName(name + zeros) == CName(name)
    ensures CName(name) == name <==> 0 !in name
  {
    if name != [] {
      assert (name + zeros)[1..] == name[1..] + zeros;
      assert name == [name[0]] + name[1..];
      CNamePadded(name[1..], zeros);
    }
  }

  lemma {:induction false} CNameIsShorter(s: seq<byte>)
    ensures |CName(s)| <= |s|
  {
    if s != [] && s[0] != 0 {
      CNameIsShorter(s[1..]);
    }
  }

  /** A name survives its field exactly when it leaves room for a zero and holds none. */
  lemma NameSurvives(name: seq<byte>, n: nat)
    requires n > 0
    ensures CName(Pad(name, n)) == name <==> |name| < n && 0 !in name
  {
    var cut := if |name| < n then name else name[..n - 1];
    CNamePadded(cut, seq(n - |cut|, _ => 0));
    CNameIsShorter(cut);
  }

  /** The round trip of an event's own fields, with the exact condition under which its names come back. */
  lemma EventSurvivesTheWire(e: Event)
    requires e.kind != CancelEvent ==> e.price > 0 && e.size > 0
    ensures Parse(Wire(e)).Some?
    ensures var m := Parse(Wire(e)).value;
      && m.timestamp == e.timestamp && m.msgType == TypeOf(e)
      && (CName(m.id) == e.id <==> |e.id| < ORDER_ID_LEN && 0 !in e.id)
      && (CName(m.ticker) == e.symbol <==> |e.symbol| < TICKER_LEN && 0 !in e.symbol)
      && (e.kind != CancelEvent ==> m.price == e.price && m.qty == e.size && (m.isBuy <==> e.side == SIDE_BUY))
  {
    ParseUndoesWrite(e);
    NameSurvives(e.id, ORDER_ID_LEN);
    NameSurvives(e.symbol, TICKER_LEN);
  }

  /** The failing family starts at four letters: AAPL arrives as AAP. */
  lemma FourLettersAreCut()
    ensures CName(Pad([65, 65, 80, 76], 4)) == [65, 65, 80]
  {
    CNamePadded([65, 65, 80], [0]);
    assert Pad([65, 65, 80, 76], 4) == [65, 65, 80] + [0];
  }

  // ---------------------------------------------------------------- convert_to_order

  function ToOrder(m: Message): Order {
    var kind := if m.msgType == TYPE_MARKET_BUY || m.msgType == TYPE_MARKET_SELL then KIND_MKT else KIND_LMT;
    var status := if m.msgType == TYPE_UPDATE then STATUS_PARTIALLY_FILLED
                  else if m.msgType == TYPE_CANCEL then STATUS_CANCELLED
                  else STATUS_NEW;
    Order(m.id, m.timestamp, m.qty, m.ticker, m.price, kind, (if m.isBuy then Buy else Sell).Code(), status, false)
  }

  /** What the books rely on: a parsed order has a side, and a quantity unless it is a cancel. */
  lemma ParsedOrdersHaveQuantity(s: seq<byte>)
    requires Parse(s).Some?
    ensures var o := ToOrder(Parse(s).value);
      && Aggressor.HasQuantity(o) && IsSide(o.side)
      && (o.status == STATUS_NEW <==> IsPriced(s[8]))
      && (o.status == STATUS_CANCELLED <==> s[8] == TYPE_CANCEL)
      && (o.status != STATUS_CANCELLED ==> o.price > 0)
      && o.qty < 0x1_0000_0000 && o.price < 0x1_0000_0000
  {
    if s[8] != TYPE_CANCEL {
      ReadsBigEndian32(s[29..33]);
      ReadsBigEndian32(s[33..37]);
    }
  }

  /** From the client's event to the order in the queue. */
  lemma EventBecomesOrder(e: Event)
    requires e.kind != CancelEvent ==> e.price > 0 && e.size > 0
    ensures Parse(Wire(e)).Some?
    ensures var o := ToOrder(Parse(Wire(e)).value);
      && o.id == Pad(e.id, 16) && o.ticker == Pad(e.symbol, 4) && o.timestamp == e.timestamp
      && (e.kind == LimitAdd <==> o.status == STATUS_NEW)
      && (e.kind == CancelEvent <==> o.status == STATUS_CANCELLED)
      && (e.kind != CancelEvent ==>
            o.price == e.price && o.qty == e.size && (SideOf(o.side) == Buy <==> e.side == SIDE_BUY))
  {
    ParseUndoesWrite(e);
  }

  /** Which orders each of the six types gives: buy or sell, limit or market, new, update or cancel. */
  lemma TypesMeanWhatTheySay(s: seq<byte>)
    requires Parse(s).Some?
    ensures var o := ToOrder(Parse(s).value);
      match s[8]
      case 1 => o.side == Buy.Code() && o.kind == KIND_LMT && o.status == STATUS_NEW
      case 2 => o.side == Sell.Code() && o.kind == KIND_LMT && o.status == STATUS_NEW
      case 3 => o.side == Buy.Code() && o.kind == KIND_MKT && o.status == STATUS_NEW
      case 4 => o.side == Sell.Code() && o.kind == KIND_MKT && o.status == STATUS_NEW
      case 5 =>
        o.side == (if s[37] == SIDE_BUY then Buy else Sell).Code() && o.kind == KIND_LMT
        && o.status == STATUS_PARTIALLY_FILLED
      case 6 => o.status == STATUS_CANCELLED && o.qty == o.price == 0
      case _ => false
  {
  }

  // ---------------------------------------------------------------- what the send script writes

  /** A name in a field of n bytes, not cut. */
  function Justified(name: seq<byte>, n: nat): (s: seq<byte>)
    requires |name| <= n
    ensures |s| == n
  {
    name + seq(n - |name|, _ => 0)
  }

  /** The script packs all fields in network byte order, whatever the type. */
  function Sent(msgType: byte, timestamp: uint64, id: seq<byte>, ticker: seq<byte>, price: uint32,
                qty: uint32): seq<byte>
    requires |id| <= ORDER_ID_LEN && |ticker| <= TICKER_LEN
  {
    Store(Swap64(timestamp), 8) + [msgType] + Justified(id, 16) + Justified(ticker, 4)
    + (Store(Swap32(price), 4) + Store(Swap32(qty), 4))
  }

  lemma SentFields(msgType: byte, timestamp: uint64, id: seq<byte>, ticker: seq<byte>, price: uint32, qty: uint32)
    requires |id| <= ORDER_ID_LEN && |ticker| <= TICKER_LEN
    ensures var w := Sent(msgType, timestamp, id, ticker, price, qty);
      && |w| == 37 && w[..8] == Store(Swap64(timestamp), 8) && w[8] == msgType
      && w[9..25] == Justified(id, 16) && w[25..29] == Justified(ticker, 4)
      && w[29..33] == Store(Swap32(price), 4) && w[33..37] == Store(Swap32(qty), 4)
  {
    var h := Store(Swap64(timestamp), 8) + [msgType] + Justified(id, 16) + Justified(ticker, 4);
    var p, q := Store(Swap32(price), 4), Store(Swap32(qty), 4);
    assert |h| == 29 && h[..8] == Store(Swap64(timestamp), 8) && h[8] == msgType;
    assert h[9..25] == Justified(id, 16) && h[25..29] == Justified(ticker, 4);
    Parts(h, p, q, []);
    var w := Sent(msgType, timestamp, id, ticker, price, qty);
    assert w == h + (p + q) + [];
    assert w[..29] == h;
    assert w[..8] == h[..8] && w[8] == h[8] && w[9..25] == h[9..25] && w[25..29] == h[25..29];
  }

  /**
   What the parser makes of the bytes of the script, for every type: the four priced types come back as they
   are unless price or quantity is zero, a cancel comes back without them, and nothing else is accepted, an
   update included, because the script writes no side.
   */
  lemma SentOrderIsParsed(msgType: byte, timestamp: uint64, id: seq<byte>, ticker: seq<byte>, price: uint32,
                          qty: uint32)
    requires |id| <= ORDER_ID_LEN && |ticker| <= TICKER_LEN
    ensures Parse(Sent(msgType, timestamp, id, ticker, price, qty))
      == if 1 <= msgType <= 4 && price > 0 && qty > 0 then
           Some(Message(timestamp, msgType, Justified(id, 16), Justified(ticker, 4), price, qty,
                        msgType == 1 || msgType == 3))
         else if msgType == 6 then
           Some(Message(timestamp, msgType, Justified(id, 16), Justified(ticker, 4), 0, 0, false))
         else None
  {
    SentFields(msgType, timestamp, id, ticker, price, qty);
    WritesBigEndian64(timestamp);
    WritesBigEndian32(price);
    WritesBigEndian32(qty);
  }

  /** Its names come back whole, up to a zero byte inside them: four letters fit. */
  lemma SentNameSurvives(name: seq<byte>, n: nat)
    requires |name| <= n
    ensures CName(Justified(name, n)) == name <==> 0 !in name
  {
    if 0 !in name {
      CNamePadded(name, [0]);
      if |name| < n {
        CNamePadded(name, seq(n - |name|, _ => 0));
      } else {
        assert Justified(name, n) == name;
      }
    } else {
      CNameHasNoZero(Justified(name, n));
    }
  }

  lemma {:induction false} CNameHasNoZero(s: seq<byte>)
    ensures 0 !in CName(s)
    decreases |s|
  {
    if s != [] && s[0] != 0 { CNameHasNoZero(s[1..]); }
  }
}
