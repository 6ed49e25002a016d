/**
 The reference for formatted messages: a recursive printer of object trees, and the events the
 MessagePack parser reports for a tree.
 */
module Printer {
  import opened Wire

  // ---- Tokens.

  function DigitChar(d: nat): char
    requires d < 10
  {
    '0' + d as char
  }

  function Digits(n: nat): string {
    if n < 10 then [DigitChar(n)] else Digits(n / 10) + [DigitChar(n % 10)]
  }

  function Decimal(n: int): string {
    if n < 0 then "-" + Digits(-n) else Digits(n)
  }

  /** The digit at position d of 0123456789ABCDEF. */
  function HexChar(d: int): char
    requires 0 <= d < 16
  {
    if d < 10 then '0' + d as char else 'A' + (d - 10) as char
  }

  function HexOf(b: Byte): string {
    [HexChar(b / 16), HexChar(b % 16)]
  }

  function Hex(bytes: seq<Byte>): (h: string)
    ensures |h| == 2 * |bytes|
  {
    if bytes == [] then "" else Hex(bytes[..|bytes| - 1]) + HexOf(bytes[|bytes| - 1])
  }

  function HexValue(c: char): (v: Option<int>)
    ensures v.Some? ==> 0 <= v.value < 16
  {
    if '0' <= c <= '9' then Some(c as int - '0' as int)
    else if 'A' <= c <= 'F' then Some(c as int - 'A' as int + 10)
    else None
  }

  /** The bytes a hexadecimal text stands for. */
  function Unhex(h: string): Option<seq<Byte>> {
    if h == "" then Some([])
    else if |h| == 1 then None
    else match (Unhex(h[..|h| - 2]), HexValue(h[|h| - 2]), HexValue(h[|h| - 1]))
      case (Some(bytes), Some(upper), Some(lower)) => Some(bytes + [16 * upper + lower])
      case _ => None
  }

  lemma HexDigitRoundTrip(d: int)
    requires 0 <= d < 16
    ensures HexValue(HexChar(d)) == Some(d)
  {
  }

  lemma UnhexDigits(h: string, upper: char, lower: char)
    requires Unhex(h).Some? && HexValue(upper).Some? && HexValue(lower).Some?
    ensures Unhex(h + [upper, lower])
      == Some(Unhex(h).value + [16 * HexValue(upper).value + HexValue(lower).value])
  {
    var both := h + [upper, lower];
    assert both[..|both| - 2] == h;
  }

  lemma UnhexOneMore(h: string, b: Byte)
    requires Unhex(h).Some?
    ensures Unhex(h + HexOf(b)) == Some(Unhex(h).value + [b])
  {
    HexDigitRoundTrip(b / 16);
    HexDigitRoundTrip(b % 16);
    UnhexDigits(h, HexChar(b / 16), HexChar(b % 16));
  }

  /** Hexadecimal output decodes back to its bytes. */
  lemma {:induction false} HexRoundTrip(bytes: seq<Byte>)
    ensures Unhex(Hex(bytes)) == Some(bytes)
  {
    if bytes != [] {
      var init, b := bytes[..|bytes| - 1], bytes[|bytes| - 1];
      assert Hex(bytes) == Hex(init) + HexOf(b);
      assert bytes == init + [b];
      HexRoundTrip(init);
      UnhexOneMore(Hex(init), b);
    }
  }

  /** The number a text of decimal digits stands for. */
  function NumberOf(text: string): (n: Option<int>)
    ensures n.Some? ==> n.value >= 0
  {
    if text == "" then Some(0)
    else
      var n, d := NumberOf(text[..|text| - 1]), HexValue(text[|text| - 1]);
      if n.Some? && d.Some? && d.value < 10 then Some(10 * n.value + d.value) else None
  }

  function IntegerOf(text: string): Option<int> {
    if text == "" || text[0] != '-' then NumberOf(text)
    else
      var n := NumberOf(text[1..]);
      if n.Some? then Some(-n.value) else None
  }

  lemma NumberOneMore(text: string, d: nat)
    requires d < 10 && NumberOf(text).Some?
    ensures NumberOf(text + [DigitChar(d)]) == Some(10 * NumberOf(text).value + d)
  {
    assert (text + [DigitChar(d)])[..|text|] == text;
  }

  lemma {:induction false} DigitsRoundTrip(n: nat)
    ensures NumberOf(Digits(n)) == Some(n)
    ensures Digits(n) != "" && Digits(n)[0] != '-' && (Digits(n)[0] == '0' ==> n == 0)
  {
    if n < 10 {
      NumberOneMore("", n);
      assert "" + [DigitChar(n)] == [DigitChar(n)];
    } else {
      DigitsRoundTrip(n / 10);
      NumberOneMore(Digits(n / 10), n % 10);
    }
  }

  /** Decimal output decodes back to its number, and has no leading zero. */
  lemma DecimalRoundTrip(n: int)
    ensures IntegerOf(Decimal(n)) == Some(n)
    ensures Decimal(n)[0] == '0' ==> n == 0
  {
    if n < 0 {
      DigitsRoundTrip(-n);
      assert Decimal(n)[1..] == Digits(-n);
    } else {
      DigitsRoundTrip(n);
    }
  }

  ghost function Power10(k: nat): nat {
    if k == 0 then 1 else 10 * Power10(k - 1)
  }

  lemma {:induction false} DigitsLength(n: nat, k: nat)
    requires 1 <= k && n < Power10(k)
    ensures 1 <= |Digits(n)| <= k
  {
    if n >= 10 {
      DigitsLength(n / 10, k - 1);
    }
  }

  /** Every 64-bit integer prints in at most 20 characters. */
  lemma DecimalLength(n: int)
    requires -0x8000_0000_0000_0000 <= n < 0x1_0000_0000_0000_0000
    ensures |Decimal(n)| <= 20
  {
    Power10At20();
    if n < 0 {
      DigitsLength(-n, 19);
    } else {
      DigitsLength(n, 20);
    }
  }

  lemma Power10At20()
    ensures Power10(19) == 10_000_000_000_000_000_000
    ensures Power10(20) == 100_000_000_000_000_000_000
  {
    assert Power10(5) == 100_000;
    assert Power10(10) == 10_000_000_000;
    assert Power10(15) == 1_000_000_000_000_000;
  }

  // ---- The recursive printer.

  function Render(v: Obj): string
    decreases v, 1
  {
    match v
    case Nil => "nil"
    case Bool(b) => if b then "true" else "false"
    case Int(n) => Decimal(n)
    case Float(text) => text
    case Str(s) => "\"" + s + "\""
    case Bin(bytes) => "hex(" + Hex(bytes) + ")"
    case Ext(bytes) => "ext(" + Hex(bytes) + ")"
    case Arr(items) => "[" + RenderItems(items) + "]"
    case Map(pairs) => "{" + RenderPairs(pairs) + "}"
  }

  /** The elements joined by commas. */
  function RenderItems(items: seq<Obj>): string
    decreases items, 0
  {
    if items == [] then ""
    else if |items| == 1 then Render(items[0])
    else Render(items[0]) + "," + RenderItems(items[1..])
  }

  function RenderPairs(pairs: seq<(Obj, Obj)>): string
    decreases pairs, 0
  {
    if pairs == [] then ""
    else if |pairs| == 1 then RenderPair(pairs[0])
    else RenderPair(pairs[0]) + "," + RenderPairs(pairs[1..])
  }

  function RenderPair(pair: (Obj, Obj)): string
    decreases pair, 0
  {
    Render(pair.0) + ":" + Render(pair.1)
  }

  /** The texts of single objects: the words, and numbers and bytes that decode back. */
  lemma TextsDecode(n: int, s: string, bytes: seq<Byte>)
    ensures Render(Nil) == "nil" && Render(Bool(true)) == "true" && Render(Bool(false)) == "false"
    ensures IntegerOf(Render(Int(n))) == Some(n)
    ensures Render(Str(s)) == ['"'] + s + ['"']
    ensures exists h :: Render(Bin(bytes)) == "hex(" + h + ")" && Unhex(h) == Some(bytes)
    ensures exists h :: Render(Ext(bytes)) == "ext(" + h + ")" && Unhex(h) == Some(bytes)
  {
    DecimalRoundTrip(n);
    HexRoundTrip(bytes);
    assert Render(Bin(bytes)) == "hex(" + Hex(bytes) + ")";
    assert Render(Ext(bytes)) == "ext(" + Hex(bytes) + ")";
  }

  /** Containers print their elements in order, joined by single commas. */
  lemma {:induction false} ItemsJoin(a: seq<Obj>, b: seq<Obj>)
    requires a != [] && b != []
    ensures RenderItems(a + b) == RenderItems(a) + "," + RenderItems(b)
  {
    assert (a + b)[0] == a[0] && (a + b)[1..] == a[1..] + b;
    if |a| > 1 {
      ItemsJoin(a[1..], b);
      RegroupList(Render(a[0]) + ",", RenderItems(a[1..]), RenderItems(b), "");
    } else {
      assert a[1..] + b == b;
    }
  }

  lemma {:induction false} PairsJoin(a: seq<(Obj, Obj)>, b: seq<(Obj, Obj)>)
    requires a != [] && b != []
    ensures RenderPairs(a + b) == RenderPairs(a) + "," + RenderPairs(b)
  {
    assert (a + b)[0] == a[0] && (a + b)[1..] == a[1..] + b;
    if |a| > 1 {
      PairsJoin(a[1..], b);
      RegroupList(RenderPair(a[0]) + ",", RenderPairs(a[1..]), RenderPairs(b), "");
    } else {
      assert a[1..] + b == b;
    }
  }

  /** One element, or one key with its value, between the brackets, and nothing in empty ones. */
  lemma ContainersPrint(v: Obj, key: Obj)
    ensures Render(Arr([])) == "[]" && Render(Map([])) == "{}"
    ensures Render(Arr([v])) == "[" + Render(v) + "]"
    ensures Render(Map([(key, v)])) == "{" + (Render(key) + ":" + Render(v)) + "}"
  {
    assert RenderItems([]) == "" && RenderPairs([]) == "";
    assert "[" + "" + "]" == "[]" && "{" + "" + "}" == "{}";
    assert RenderItems([v]) == Render(v) && RenderPairs([(key, v)]) == RenderPair((key, v));
  }

  // ---- The parser's events.

  datatype Event =
    | Token(text: string)
    | StrToken(s: string)
    | BinToken(bytes: seq<Byte>)
    | ExtToken(bytes: seq<Byte>)
    | StartArray
    | EndArrayItem
    | EndArray
    | StartMap
    | EndMapKey
    | EndMapValue
    | EndMap

  function Events(v: Obj): seq<Event>
    decreases v, 1
  {
    match v
    case Nil => [Token("nil")]
    case Bool(b) => [Token(if b then "true" else "false")]
    case Int(n) => [Token(Decimal(n))]
    case Float(text) => [Token(text)]
    case Str(s) => [StrToken(s)]
    case Bin(bytes) => [BinToken(bytes)]
    case Ext(bytes) => [ExtToken(bytes)]
    case Arr(items) => [StartArray] + ItemEvents(items) + [EndArray]
    case Map(pairs) => [StartMap] + PairEvents(pairs) + [EndMap]
  }

  function ItemEvents(items: seq<Obj>): seq<Event>
    decreases items, 0
  {
    if items == [] then [] else Events(items[0]) + [EndArrayItem] + ItemEvents(items[1..])
  }

  function PairEvents(pairs: seq<(Obj, Obj)>): seq<Event>
    decreases pairs, 0
  {
    if pairs == [] then [] else PairEvent(pairs[0]) + [EndMapValue] + PairEvents(pairs[1..])
  }

  function PairEvent(pair: (Obj, Obj)): seq<Event>
    decreases pair, 0
  {
    Events(pair.0) + [EndMapKey] + Events(pair.1)
  }

  // ---- What the events print when nothing limits them.

  function WithoutComma(m: string): string {
    if m != "" && m[|m| - 1] == ',' then m[..|m| - 1] else m
  }

  function Emit(m: string, e: Event): string {
    match e
    case Token(text) => m + text
    case StrToken(s) => m + "\"" + s + "\""
    case BinToken(bytes) => m + "hex(" + Hex(bytes) + ")"
    case ExtToken(bytes) => m + "ext(" + Hex(bytes) + ")"
    case StartArray => m + "["
    case EndArrayItem => m + ","
    case EndArray => WithoutComma(m) + "]"
    case StartMap => m + "{"
    case EndMapKey => m + ":"
    case EndMapValue => m + ","
    case EndMap => WithoutComma(m) + "}"
  }

  function EmitAll(m: string, es: seq<Event>): string
    decreases |es|
  {
    if es == [] then m else EmitAll(Emit(m, es[0]), es[1..])
  }

  lemma {:induction false} EmitAllConcat(m: string, a: seq<Event>, b: seq<Event>)
    ensures EmitAll(m, a + b) == EmitAll(EmitAll(m, a), b)
    decreases |a|
  {
    if a == [] {
      assert a + b == b;
    } else {
      assert (a + b)[1..] == a[1..] + b;
      EmitAllConcat(Emit(m, a[0]), a[1..], b);
    }
  }

  lemma EmitSingle(m: string, e: Event)
    ensures EmitAll(m, [e]) == Emit(m, e)
  {
  }

  /** An event, then others, then a last one. */
  lemma EmitAround(m: string, first: Event, es: seq<Event>, last: Event)
    ensures EmitAll(m, [first] + es + [last]) == Emit(EmitAll(Emit(m, first), es), last)
  {
    EmitAllConcat(m, [first] + es, [last]);
    EmitAllConcat(m, [first], es);
  }

  /** Events, then a separating one, then others. */
  lemma EmitBetween(m: string, a: seq<Event>, e: Event, b: seq<Event>)
    ensures EmitAll(m, a + [e] + b) == EmitAll(Emit(EmitAll(m, a), e), b)
  {
    EmitAllConcat(m, a + [e], b);
    EmitAllConcat(m, a, [e]);
  }

  function Comma(empty: bool): string { if empty then "" else "," }

  lemma Regroup(a: string, b: string, c: string, d: string)
    ensures a + b + c + d == a + (b + c + d)
    ensures a + b + c == a + (b + c)
  {
  }

  lemma CommaGoes(m: string)
    ensures WithoutComma(m + ",") == m
  {
    assert (m + ",")[..|m|] == m;
  }

  /** The comma before a closing bracket goes, and there is none in an empty container. */
  lemma CloseBracket(m: string, open: string, inner: string, empty: bool, close: string)
    requires |open| == 1 && open != "," && (empty ==> inner == "")
    ensures WithoutComma(m + open + inner + Comma(empty)) + close == m + (open + inner + close)
  {
    var text := m + open + inner;
    Regroup(m, open, inner, close);
    if empty {
      assert text + Comma(empty) == m + open;
      assert (m + open)[|m|] == open[0];
      assert WithoutComma(m + open) == m + open == text;
    } else {
      CommaGoes(text);
    }
  }

  /** Unlimited, the events of a tree print what the recursive printer prints. */
  lemma {:induction false} EventsPrintRender(v: Obj, m: string)
    ensures EmitAll(m, Events(v)) == m + Render(v)
    decreases v, 1
  {
    match v
    case Arr(items) => ArrayPrints(items, m);
    case Map(pairs) => MapPrints(pairs, m);
    case Str(s) =>
      EmitSingle(m, StrToken(s));
      Regroup(m, "\"", s, "\"");
    case Bin(bytes) =>
      EmitSingle(m, BinToken(bytes));
      Regroup(m, "hex(", Hex(bytes), ")");
    case Ext(bytes) =>
      EmitSingle(m, ExtToken(bytes));
      Regroup(m, "ext(", Hex(bytes), ")");
    case _ =>
      EmitSingle(m, Events(v)[0]);
  }

  lemma {:induction false} ArrayPrints(items: seq<Obj>, m: string)
    ensures EmitAll(m, Events(Arr(items))) == m + Render(Arr(items))
    decreases items, 1
  {
    EmitAround(m, StartArray, ItemEvents(items), EndArray);
    ItemEventsPrint(items, m + "[");
    CloseBracket(m, "[", RenderItems(items), items == [], "]");
  }

  lemma {:induction false} ItemEventsPrint(items: seq<Obj>, m: string)
    ensures EmitAll(m, ItemEvents(items)) == m + RenderItems(items) + Comma(items == [])
    decreases items, 0
  {
    if items != [] {
      var text, rest := Render(items[0]), items[1..];
      EmitBetween(m, Events(items[0]), EndArrayItem, ItemEvents(rest));
      EventsPrintRender(items[0], m);
      ItemEventsPrint(rest, m + text + ",");
      JoinedList(m, text, RenderItems(rest), rest == []);
    }
  }

  /** A first element, its comma, and the list that follows with its own. */
  lemma JoinedList(m: string, first: string, rest: string, empty: bool)
    requires empty ==> rest == ""
    ensures m + first + "," + rest + Comma(empty)
      == m + (if empty then first else first + "," + rest) + ","
  {
    if empty {
      assert m + first + "," + rest + Comma(empty) == m + first + ",";
    } else {
      Regroup(m, first, ",", rest);
    }
  }

  lemma {:induction false} MapPrints(pairs: seq<(Obj, Obj)>, m: string)
    ensures EmitAll(m, Events(Map(pairs))) == m + Render(Map(pairs))
    decreases pairs, 1
  {
    EmitAround(m, StartMap, PairEvents(pairs), EndMap);
    PairEventsPrint(pairs, m + "{");
    CloseBracket(m, "{", RenderPairs(pairs), pairs == [], "}");
  }

  lemma {:induction false} PairEventPrints(pair: (Obj, Obj), m: string)
    ensures EmitAll(m, PairEvent(pair)) == m + RenderPair(pair)
    decreases pair, 0
  {
    EmitBetween(m, Events(pair.0), EndMapKey, Events(pair.1));
    EventsPrintRender(pair.0, m);
    EventsPrintRender(pair.1, m + Render(pair.0) + ":");
    Regroup(m, Render(pair.0), ":", Render(pair.1));
  }

  lemma {:induction false} PairEventsPrint(pairs: seq<(Obj, Obj)>, m: string)
    ensures EmitAll(m, PairEvents(pairs)) == m + RenderPairs(pairs) + Comma(pairs == [])
    decreases pairs, 0
  {
    if pairs != [] {
      var text, rest := RenderPair(pairs[0]), pairs[1..];
      PairThen(pairs[0], m, PairEvents(rest));
      PairEventsPrint(rest, m + text + ",");
      JoinedList(m, text, RenderPairs(rest), rest == []);
    }
  }

  // ---- What a prefix of the events prints.

  /** A prefix of the full text, or one followed by a single comma that the text has no room for. */
  ghost predicate Near(p: string, full: string) {
    p <= full || (p != "" && p[|p| - 1] == ',' && p[..|p| - 1] <= full && |p| <= |full|)
  }

  lemma NearExtends(p: string, a: string, b: string)
    requires Near(p, a)
    ensures Near(p, a + b)
  {
  }

  lemma CommaIsNear(m: string, inner: string, close: string)
    requires close != ""
    ensures Near(m + inner + ",", m + inner + close)
  {
    var p := m + inner + ",";
    assert p[..|p| - 1] == m + inner;
  }

  lemma TakeWithin(a: seq<Event>, e: Event, b: seq<Event>, k: nat)
    requires k <= |a| + 1 + |b|
    ensures (a + [e] + b)[..k] == if k <= |a| then a[..k] else a + [e] + b[..k - |a| - 1]
  {
  }

  lemma TakeAround(first: Event, es: seq<Event>, last: Event, k: nat)
    requires 1 <= k <= |es| + 1
    ensures ([first] + es + [last])[..k] == [first] + es[..k - 1]
  {
  }

  /** Any prefix of a tree's events prints a prefix of its rendering, plus at most one comma. */
  lemma {:induction false} PrefixIsNear(v: Obj, m: string, k: nat)
    requires k <= |Events(v)|
    ensures Near(EmitAll(m, Events(v)[..k]), m + Render(v))
    decreases v, 1
  {
    if k == |Events(v)| {
      assert Events(v)[..k] == Events(v);
      EventsPrintRender(v, m);
    } else if k == 0 {
    } else if v.Arr? {
      ArrayPrefixIsNear(v.items, m, k);
    } else if v.Map? {
      MapPrefixIsNear(v.pairs, m, k);
    }
  }

  lemma {:induction false} ArrayPrefixIsNear(items: seq<Obj>, m: string, k: nat)
    requires 1 <= k <= |ItemEvents(items)| + 1
    ensures Near(EmitAll(m, Events(Arr(items))[..k]), m + Render(Arr(items)))
    decreases items, 1
  {
    TakeAround(StartArray, ItemEvents(items), EndArray, k);
    EmitAllConcat(m, [StartArray], ItemEvents(items)[..k - 1]);
    ItemPrefixIsNear(items, m + "[", k - 1, "]");
    Regroup(m, "[", RenderItems(items), "]");
  }

  lemma {:induction false} ItemPrefixIsNear(items: seq<Obj>, m: string, k: nat, close: string)
    requires k <= |ItemEvents(items)| && close != ""
    ensures Near(EmitAll(m, ItemEvents(items)[..k]), m + RenderItems(items) + close)
    decreases items, 0
  {
    if items != [] {
      var first, rest := Events(items[0]), ItemEvents(items[1..]);
      TakeWithin(first, EndArrayItem, rest, k);
      if k <= |first| {
        PrefixIsNear(items[0], m, k);
        FirstItemIsPrefix(items);
        ExtendPast(EmitAll(m, first[..k]), m, Render(items[0]), RenderItems(items), close);
      } else {
        var j, text := k - |first| - 1, Render(items[0]);
        ItemThen(items[0], m, rest[..j]);
        ItemPrefixIsNear(items[1..], m + text + ",", j, close);
        LaterIsNear(EmitAll(m + text + ",", rest[..j]), m, text, RenderItems(items[1..]), close, |items| == 1);
      }
    }
  }

  lemma ItemThen(v: Obj, m: string, es: seq<Event>)
    ensures EmitAll(m, Events(v) + [EndArrayItem] + es) == EmitAll(m + Render(v) + ",", es)
  {
    EmitBetween(m, Events(v), EndArrayItem, es);
    EventsPrintRender(v, m);
  }

  lemma FirstItemIsPrefix(items: seq<Obj>)
    requires items != []
    ensures Render(items[0]) <= RenderItems(items)
  {
  }

  lemma ExtendPast(p: string, m: string, first: string, list: string, close: string)
    requires Near(p, m + first) && first <= list
    ensures Near(p, m + list + close)
  {
    NearExtends(p, m + first, list[|first|..] + close);
    assert m + first + (list[|first|..] + close) == m + list + close;
  }

  lemma RegroupList(m: string, first: string, rest: string, close: string)
    ensures m + first + "," + rest + close == m + (first + "," + rest) + close
  {
    Regroup(m, first, ",", rest);
  }

  lemma {:induction false} MapPrefixIsNear(pairs: seq<(Obj, Obj)>, m: string, k: nat)
    requires 1 <= k <= |PairEvents(pairs)| + 1
    ensures Near(EmitAll(m, Events(Map(pairs))[..k]), m + Render(Map(pairs)))
    decreases pairs, 1
  {
    TakeAround(StartMap, PairEvents(pairs), EndMap, k);
    EmitAllConcat(m, [StartMap], PairEvents(pairs)[..k - 1]);
    PairsPrefixIsNear(pairs, m + "{", k - 1, "}");
    Regroup(m, "{", RenderPairs(pairs), "}");
  }

  lemma {:induction false} PairPrefixIsNear(pair: (Obj, Obj), m: string, k: nat)
    requires k <= |PairEvent(pair)|
    ensures Near(EmitAll(m, PairEvent(pair)[..k]), m + RenderPair(pair))
    decreases pair, 0
  {
    var key, value := Events(pair.0), Events(pair.1);
    var p := EmitAll(m, PairEvent(pair)[..k]);
    TakeWithin(key, EndMapKey, value, k);
    if k <= |key| {
      PrefixIsNear(pair.0, m, k);
      KeyIsNear(p, m, Render(pair.0), Render(pair.1));
    } else {
      var text := m + Render(pair.0) + ":";
      EmitBetween(m, key, EndMapKey, value[..k - |key| - 1]);
      EventsPrintRender(pair.0, m);
      PrefixIsNear(pair.1, text, k - |key| - 1);
      Regroup(m, Render(pair.0), ":", Render(pair.1));
    }
  }

  lemma KeyIsNear(p: string, m: string, key: string, value: string)
    requires Near(p, m + key)
    ensures Near(p, m + (key + ":" + value))
  {
    NearExtends(p, m + key, ":" + value);
    Regroup(m, key, ":", value);
    Regroup(m + key, ":", value, "");
  }

  lemma {:induction false} PairsPrefixIsNear(pairs: seq<(Obj, Obj)>, m: string, k: nat, close: string)
    requires k <= |PairEvents(pairs)| && close != ""
    ensures Near(EmitAll(m, PairEvents(pairs)[..k]), m + RenderPairs(pairs) + close)
    decreases pairs, 0
  {
    if pairs != [] {
      var first, rest := PairEvent(pairs[0]), PairEvents(pairs[1..]);
      TakeWithin(first, EndMapValue, rest, k);
      if k <= |first| {
        PairPrefixIsNear(pairs[0], m, k);
        FirstPairIsPrefix(pairs);
        ExtendPast(EmitAll(m, first[..k]), m, RenderPair(pairs[0]), RenderPairs(pairs), close);
      } else {
        var j, text := k - |first| - 1, RenderPair(pairs[0]);
        PairThen(pairs[0], m, rest[..j]);
        PairsPrefixIsNear(pairs[1..], m + text + ",", j, close);
        LaterIsNear(EmitAll(m + text + ",", rest[..j]), m, text, RenderPairs(pairs[1..]), close, |pairs| == 1);
      }
    }
  }

  lemma PairThen(pair: (Obj, Obj), m: string, es: seq<Event>)
    ensures EmitAll(m, PairEvent(pair) + [EndMapValue] + es) == EmitAll(m + RenderPair(pair) + ",", es)
    decreases pair, 1
  {
    EmitBetween(m, PairEvent(pair), EndMapValue, es);
    PairEventPrints(pair, m);
  }

  /** Past the first element and its comma: that comma is all there is, or the list goes on. */
  lemma LaterIsNear(p: string, m: string, first: string, rest: string, close: string, alone: bool)
    requires close != "" && (if alone then p == m + first + "," else Near(p, m + first + "," + rest + close))
    ensures Near(p, m + (if alone then first else first + "," + rest) + close)
  {
    if alone {
      CommaIsNear(m, first, close);
    } else {
      RegroupList(m, first, rest, close);
    }
  }

  lemma FirstPairIsPrefix(pairs: seq<(Obj, Obj)>)
    requires pairs != []
    ensures RenderPair(pairs[0]) <= RenderPairs(pairs)
  {
  }
}
