/**
 The bounded formatter: a visitor that appends to a message, stops the parser once the length
 limit is near, and drops the comma before a closing bracket.
 */
module Formatter {
  import opened Wire
  import opened Printer

  const ELLIPSIS := " ..."

  /** size * 2 in 32-bit unsigned arithmetic, as the guards of strings and binaries compute it. */
  function Doubled(size: nat): nat {
    (size * 2) % 0x1_0000_0000
  }

  function Min(a: nat, b: nat): nat { if a < b then a else b }

  function Max(a: nat, b: nat): nat { if a < b then b else a }

  function FormatHex(bytes: seq<Byte>, limit: nat): string {
    Hex(bytes[..Min(|bytes|, limit / 2)])
  }

  datatype Visited = Visited(msg: string, go: bool)

  function CheckLength(m: string, limit: nat): Visited {
    if |m| + 4 >= limit then Visited(m + ELLIPSIS, false) else Visited(m, true)
  }

  /** One call of the visitor. */
  function Visit(m: string, limit: nat, e: Event): Visited {
    match e
    case StrToken(s) =>
      if |m| + Doubled(|s|) > limit then Visited(m + ELLIPSIS, false)
      else CheckLength(m + "\"" + s + "\"", limit)
    case BinToken(bytes) =>
      if |m| + Doubled(|bytes|) > limit then Visited(m + ELLIPSIS, false)
      else CheckLength(m + "hex(" + FormatHex(bytes, limit) + ")", limit)
    case ExtToken(bytes) =>
      if |m| + Doubled(|bytes|) > limit then Visited(m + ELLIPSIS, false)
      else CheckLength(m + "ext(" + FormatHex(bytes, limit) + ")", limit)
    case _ => CheckLength(Emit(m, e), limit)
  }

  /** The parser calls the visitor until it returns false. */
  function Run(m: string, limit: nat, es: seq<Event>): Visited
    decreases |es|
  {
    if es == [] then Visited(m, true)
    else
      var v := Visit(m, limit, es[0]);
      if v.go then Run(v.msg, limit, es[1..]) else v
  }

  function RawSize(e: Event): nat {
    match e
    case StrToken(s) => |s|
    case BinToken(bytes) => |bytes|
    case ExtToken(bytes) => |bytes|
    case _ => 0
  }

  /** Every string, binary and extension is below 2^31 bytes, so that doubling does not wrap. */
  ghost predicate RawsSmall(es: seq<Event>) {
    forall i :: 0 <= i < |es| ==> RawSize(es[i]) < 0x8000_0000
  }

  /** A binary or extension whose doubled size wraps. */
  predicate HugeHex(e: Event) {
    (e.BinToken? || e.ExtToken?) && |e.bytes| >= 0x8000_0000
  }

  /** The text broken off inside a hexadecimal part, its parenthesis closed, and the ellipsis. */
  ghost predicate IsCut(out: string, full: string) {
    exists n: nat :: n < |full| && out == full[..n] + ")" + ELLIPSIS
  }

  lemma {:induction false} HexPrefix(bytes: seq<Byte>, k: nat)
    requires k <= |bytes|
    ensures Hex(bytes[..k]) == Hex(bytes)[..2 * k]
    decreases |bytes|
  {
    if k == |bytes| {
      assert bytes[..k] == bytes;
    } else {
      var init := bytes[..|bytes| - 1];
      HexPrefix(init, k);
      assert init[..k] == bytes[..k];
    }
  }

  lemma CutText(head: string, hex: string, j: nat)
    requires j <= |hex|
    ensures IsCut(head + hex[..j] + ")" + ELLIPSIS, head + hex + ")")
  {
    var full := head + hex + ")";
    assert full[..|head| + j] == head + hex[..j];
  }

  lemma WholeHex(bytes: seq<Byte>, limit: nat)
    requires |bytes| <= limit / 2
    ensures FormatHex(bytes, limit) == Hex(bytes)
  {
    assert bytes[..|bytes|] == bytes;
  }

  /** Cut hexadecimal output fills the limit by itself, so it always stops the parser. */
  lemma HexPrints(head: string, limit: nat, bytes: seq<Byte>)
    requires |head| >= 4
    ensures var c, full := CheckLength(head + FormatHex(bytes, limit) + ")", limit), head + Hex(bytes) + ")";
      if c.go then c.msg == full && |full| + 4 < limit
      else c.msg == full + ELLIPSIS || (|bytes| > limit / 2 && IsCut(c.msg, full))
  {
    if |bytes| <= limit / 2 {
      WholeHex(bytes, limit);
    } else {
      HexPrefix(bytes, limit / 2);
      CutText(head, Hex(bytes), 2 * (limit / 2));
    }
  }

  /** A visit that goes on has printed its event; one that stops has printed it or not, or cut it. */
  ghost predicate VisitOk(m: string, limit: nat, e: Event, v: Visited) {
    if v.go then v.msg == Emit(m, e) && |v.msg| + 4 < limit
    else v.msg == m + ELLIPSIS || v.msg == Emit(m, e) + ELLIPSIS || (HugeHex(e) && IsCut(v.msg, Emit(m, e)))
  }

  lemma DoubledSmall(size: nat)
    requires size < 0x8000_0000
    ensures Doubled(size) == 2 * size
  {
  }

  lemma VisitHexPrints(m: string, limit: nat, e: Event)
    requires e.BinToken? || e.ExtToken?
    ensures VisitOk(m, limit, e, Visit(m, limit, e))
  {
    if |m| + Doubled(|e.bytes|) <= limit {
      if |e.bytes| < 0x8000_0000 {
        DoubledSmall(|e.bytes|);
      }
      HexPrints(m + if e.BinToken? then "hex(" else "ext(", limit, e.bytes);
    }
  }

  lemma VisitPrints(m: string, limit: nat, e: Event)
    ensures VisitOk(m, limit, e, Visit(m, limit, e))
  {
    if e.BinToken? || e.ExtToken? {
      VisitHexPrints(m, limit, e);
    }
  }

  /** A run stopped at its k-th event, before or after printing it, or inside. */
  ghost predicate Stopped(out: string, m: string, es: seq<Event>, k: nat) {
    k <= |es|
    && (out == EmitAll(m, es[..k]) + ELLIPSIS
        || (k > 0 && HugeHex(es[k - 1]) && IsCut(out, EmitAll(m, es[..k]))))
  }

  lemma StoppedLater(out: string, m: string, es: seq<Event>, k: nat)
    requires es != [] && Stopped(out, Emit(m, es[0]), es[1..], k)
    ensures Stopped(out, m, es, k + 1)
  {
    assert es[..k + 1] == [es[0]] + es[1..][..k];
    EmitAllConcat(m, [es[0]], es[1..][..k]);
    EmitSingle(m, es[0]);
  }

  /** A run prints all events, or is stopped at one of them. */
  lemma {:induction false} RunPrints(m: string, limit: nat, es: seq<Event>)
    ensures Run(m, limit, es).go ==> Run(m, limit, es).msg == EmitAll(m, es)
    ensures !Run(m, limit, es).go ==> exists k: nat :: Stopped(Run(m, limit, es).msg, m, es, k)
    decreases |es|
  {
    if es != [] {
      VisitPrints(m, limit, es[0]);
      var v := Visit(m, limit, es[0]);
      if v.go {
        RunPrints(v.msg, limit, es[1..]);
        if !Run(v.msg, limit, es[1..]).go {
          var k: nat :| Stopped(Run(v.msg, limit, es[1..]).msg, v.msg, es[1..], k);
          StoppedLater(Run(m, limit, es).msg, m, es, k);
        }
      } else {
        assert es[..0] == [] && es[..1] == [es[0]];
        EmitSingle(m, es[0]);
        assert Stopped(v.msg, m, es, if v.msg == m + ELLIPSIS then 0 else 1);
      }
    }
  }

  /** A prefix of the full text followed by a closing parenthesis. */
  ghost predicate ClosedEarly(p: string, full: string) {
    p != "" && p[|p| - 1] == ')' && p[..|p| - 1] <= full
  }

  /** What a truncated rendering looks like before the ellipsis. */
  ghost predicate BrokenOff(p: string, v: Obj) {
    Near(p, Render(v)) || ((exists e :: e in Events(v) && HugeHex(e)) && ClosedEarly(p, Render(v)))
  }

  lemma CutOfNear(out: string, text: string, full: string)
    requires IsCut(out, text) && Near(text, full)
    ensures exists p :: out == p + ELLIPSIS && ClosedEarly(p, full)
  {
    var n: nat :| n < |text| && out == text[..n] + ")" + ELLIPSIS;
    var p := text[..n] + ")";
    assert p[..|p| - 1] == text[..n] == text[..|text| - 1][..n];
    assert out == p + ELLIPSIS && ClosedEarly(p, full);
  }

  /** The formatter refines the recursive printer: untruncated output is the rendering; truncated
      output is a prefix of the rendering, at most one more comma, and the ellipsis. Only binaries
      and extensions of 2^31 bytes and more may be broken off inside, before the parenthesis. */
  lemma FormatterRefinesPrinter(v: Obj, limit: nat)
    ensures var out := Run("", limit, Events(v));
      && (out.go ==> out.msg == Render(v))
      && (!out.go ==> exists p :: out.msg == p + ELLIPSIS && BrokenOff(p, v))
  {
    var es := Events(v);
    RunPrints("", limit, es);
    EventsPrintRender(v, "");
    assert "" + Render(v) == Render(v);
    var out := Run("", limit, es);
    if !out.go {
      var k: nat :| Stopped(out.msg, "", es, k);
      PrefixIsNear(v, "", k);
      if out.msg != EmitAll("", es[..k]) + ELLIPSIS {
        assert es[k - 1] in es;
        CutOfNear(out.msg, EmitAll("", es[..k]), Render(v));
      }
    }
  }

  // ---- Exactly when output is truncated.

  /** The doubled size of every string, binary and extension fits behind what was printed before it. */
  ghost predicate RawsFit(v: Obj, offset: nat, limit: nat)
    decreases v, 1
  {
    match v
    case Str(s) => offset + Doubled(|s|) <= limit
    case Bin(bytes) => offset + Doubled(|bytes|) <= limit
    case Ext(bytes) => offset + Doubled(|bytes|) <= limit
    case Arr(items) => ItemsFit(items, offset + 1, limit)
    case Map(pairs) => PairsFit(pairs, offset + 1, limit)
    case _ => true
  }

  ghost predicate ItemsFit(items: seq<Obj>, offset: nat, limit: nat)
    decreases items, 0
  {
    items == []
    || (RawsFit(items[0], offset, limit) && ItemsFit(items[1..], offset + |Render(items[0])| + 1, limit))
  }

  ghost predicate PairsFit(pairs: seq<(Obj, Obj)>, offset: nat, limit: nat)
    decreases pairs, 0
  {
    pairs == []
    || (PairFits(pairs[0], offset, limit) && PairsFit(pairs[1..], offset + |RenderPair(pairs[0])| + 1, limit))
  }

  ghost predicate PairFits(pair: (Obj, Obj), offset: nat, limit: nat)
    decreases pair, 0
  {
    RawsFit(pair.0, offset, limit) && RawsFit(pair.1, offset + |Render(pair.0)| + 1, limit)
  }

  lemma {:induction false} RunConcat(m: string, limit: nat, a: seq<Event>, b: seq<Event>)
    ensures Run(m, limit, a + b)
      == if Run(m, limit, a).go then Run(Run(m, limit, a).msg, limit, b) else Run(m, limit, a)
    decreases |a|
  {
    if a == [] {
      assert a + b == b;
    } else {
      assert (a + b)[1..] == a[1..] + b;
      var v := Visit(m, limit, a[0]);
      if v.go {
        RunConcat(v.msg, limit, a[1..], b);
      }
    }
  }

  /** From m, the events print text and go on exactly when the text leaves room and the raws fit. */
  ghost predicate Prints(m: string, limit: nat, es: seq<Event>, text: string, fit: bool) {
    var out := Run(m, limit, es);
    (out.go <==> |m| + |text| + 4 < limit && fit) && (out.go ==> out.msg == m + text)
  }

  lemma PrintsThen(m: string, limit: nat, a: seq<Event>, b: seq<Event>, s: string, t: string, f: bool, g: bool)
    requires Prints(m, limit, a, s, f) && Prints(m + s, limit, b, t, g)
    ensures Prints(m, limit, a + b, s + t, f && g)
  {
    RunConcat(m, limit, a, b);
    assert m + (s + t) == m + s + t;
  }

  lemma PrintsOne(m: string, limit: nat, e: Event, text: string)
    requires RawSize(e) == 0 && !e.StrToken? && !e.BinToken? && !e.ExtToken? && Emit(m, e) == m + text
    ensures Prints(m, limit, [e], text, true)
  {
    RunOne(m, limit, e);
  }

  lemma RunOne(m: string, limit: nat, e: Event)
    ensures Run(m, limit, [e]) == Visit(m, limit, e)
  {
  }

  lemma PrintsRaw(m: string, limit: nat, e: Event, open: string, inner: string, close: string)
    requires e.StrToken? || e.BinToken? || e.ExtToken?
    requires Emit(m, e) == m + open + inner + close
    ensures Prints(m, limit, [e], open + inner + close, |m| + Doubled(RawSize(e)) <= limit)
  {
    RunOne(m, limit, e);
    VisitPrints(m, limit, e);
    Regroup(m, open, inner, close);
    if |m| + Doubled(RawSize(e)) <= limit && |Emit(m, e)| + 4 < limit && !e.StrToken? {
      WholeHex(e.bytes, limit);
    }
  }

  /** Closing a bracket takes no more room than the comma it replaces. */
  lemma PrintsClose(m: string, limit: nat, es: seq<Event>, open: string, inner: string, last: Event, close: string,
                    fit: bool)
    requires |open| == 1 && open != "," && |close| == 1
    requires Prints(m, limit, es, open + inner + ",", fit)
    requires (last.EndArray? && close == "]") || (last.EndMap? && close == "}")
    ensures Prints(m, limit, es + [last], open + inner + close, fit)
  {
    RunConcat(m, limit, es, [last]);
    CloseBracket(m, open, inner, false, close);
    Regroup(m, open, inner, ",");
    RunOne(m + (open + inner + ","), limit, last);
  }

  lemma PrintsEmpty(m: string, limit: nat, first: Event, last: Event, open: string, close: string)
    requires (first.StartArray? && last.EndArray? && open == "[" && close == "]")
          || (first.StartMap? && last.EndMap? && open == "{" && close == "}")
    ensures Prints(m, limit, [first] + [] + [last], open + "" + close, true)
  {
    PrintsOne(m, limit, first, open);
    CloseBracket(m, open, "", true, close);
    assert m + open + "" + Comma(true) == m + open;
    assert m + (open + "" + close) == m + open + close;
    PrintsOne(m + open, limit, last, close);
    PrintsThen(m, limit, [first], [last], open, close, true, true);
    assert [first] + [] + [last] == [first] + [last] && open + "" + close == open + close;
  }

  lemma {:induction false} TreePrints(v: Obj, m: string, limit: nat)
    ensures Prints(m, limit, Events(v), Render(v), RawsFit(v, |m|, limit))
    decreases v, 1
  {
    match v
    case Str(s) => PrintsRaw(m, limit, Events(v)[0], "\"", s, "\"");
    case Bin(bytes) => PrintsRaw(m, limit, Events(v)[0], "hex(", Hex(bytes), ")");
    case Ext(bytes) => PrintsRaw(m, limit, Events(v)[0], "ext(", Hex(bytes), ")");
    case Arr(items) =>
      if items == [] {
        PrintsEmpty(m, limit, StartArray, EndArray, "[", "]");
      } else {
        PrintsOne(m, limit, StartArray, "[");
        ItemsPrint(items, m + "[", limit);
        PrintsBracketed(m, limit, StartArray, ItemEvents(items), EndArray, "[", RenderItems(items), "]",
                        ItemsFit(items, |m| + 1, limit));
      }
    case Map(pairs) =>
      if pairs == [] {
        PrintsEmpty(m, limit, StartMap, EndMap, "{", "}");
      } else {
        PrintsOne(m, limit, StartMap, "{");
        PairsPrint(pairs, m + "{", limit);
        PrintsBracketed(m, limit, StartMap, PairEvents(pairs), EndMap, "{", RenderPairs(pairs), "}",
                        PairsFit(pairs, |m| + 1, limit));
      }
    case _ => PrintsOne(m, limit, Events(v)[0], Render(v));
  }

  lemma PrintsBracketed(m: string, limit: nat, first: Event, es: seq<Event>, last: Event,
                        open: string, inner: string, close: string, fit: bool)
    requires |open| == 1 && open != "," && |close| == 1
    requires (last.EndArray? && close == "]") || (last.EndMap? && close == "}")
    requires Prints(m, limit, [first], open, true) && Prints(m + open, limit, es, inner + ",", fit)
    ensures Prints(m, limit, [first] + es + [last], open + inner + close, fit)
  {
    PrintsThen(m, limit, [first], es, open, inner + ",", true, fit);
    Regroup(open, inner, ",", "");
    PrintsClose(m, limit, [first] + es, open, inner, last, close, fit);
  }

  /** Events, a separator, and possibly more events. */
  lemma PrintsSeparated(m: string, limit: nat, a: seq<Event>, e: Event, sep: string, b: seq<Event>,
                        s: string, t: string, f: bool, g: bool)
    requires RawSize(e) == 0 && !e.StrToken? && !e.BinToken? && !e.ExtToken? && Emit(m + s, e) == m + s + sep
    requires Prints(m, limit, a, s, f)
    requires if b == [] then t == "" && g else Prints(m + s + sep, limit, b, t, g)
    ensures Prints(m, limit, a + [e] + b, s + sep + t, f && g)
  {
    PrintsOne(m + s, limit, e, sep);
    PrintsThen(m, limit, a, [e], s, sep, f, true);
    Regroup(m, s, sep, "");
    if b == [] {
      assert a + [e] + b == a + [e] && s + sep + t == s + sep;
    } else {
      PrintsThen(m, limit, a + [e], b, s + sep, t, f, g);
    }
  }

  /** The first element of a list, its comma, and the others with theirs. */
  lemma FirstAndRest(m: string, limit: nat, a: seq<Event>, e: Event, b: seq<Event>,
                     first: string, rest: string, f: bool, g: bool)
    requires (e.EndArrayItem? || e.EndMapValue?) && b != []
    requires Prints(m, limit, a, first, f) && Prints(m + first + ",", limit, b, rest + ",", g)
    ensures Prints(m, limit, a + [e] + b, first + "," + rest + ",", f && g)
  {
    PrintsSeparated(m, limit, a, e, ",", b, first, rest + ",", f, g);
    Regroup(first + ",", rest, ",", "");
  }

  lemma {:induction false} ItemsPrint(items: seq<Obj>, m: string, limit: nat)
    requires items != []
    ensures Prints(m, limit, ItemEvents(items), RenderItems(items) + ",", ItemsFit(items, |m|, limit))
    decreases items, 0
  {
    var first, rest, text := Events(items[0]), ItemEvents(items[1..]), Render(items[0]);
    TreePrints(items[0], m, limit);
    if |items| == 1 {
      PrintsSeparated(m, limit, first, EndArrayItem, ",", [], text, "", RawsFit(items[0], |m|, limit), true);
      assert text + "," + "" == RenderItems(items) + ",";
    } else {
      ItemsPrint(items[1..], m + text + ",", limit);
      FirstAndRest(m, limit, first, EndArrayItem, rest, text, RenderItems(items[1..]),
                   RawsFit(items[0], |m|, limit), ItemsFit(items[1..], |m + text + ","|, limit));
    }
  }

  lemma {:induction false} PairPrints(pair: (Obj, Obj), m: string, limit: nat)
    ensures Prints(m, limit, PairEvent(pair), RenderPair(pair), PairFits(pair, |m|, limit))
    decreases pair, 0
  {
    var key, value := Render(pair.0), Render(pair.1);
    TreePrints(pair.0, m, limit);
    TreePrints(pair.1, m + key + ":", limit);
    EventsNonEmpty(pair.1);
    KeyAndValue(m, limit, Events(pair.0), Events(pair.1), key, value,
                RawsFit(pair.0, |m|, limit), RawsFit(pair.1, |m + key + ":"|, limit));
  }

  lemma KeyAndValue(m: string, limit: nat, a: seq<Event>, b: seq<Event>, key: string, value: string, f: bool, g: bool)
    requires b != [] && Prints(m, limit, a, key, f) && Prints(m + key + ":", limit, b, value, g)
    ensures Prints(m, limit, a + [EndMapKey] + b, key + ":" + value, f && g)
  {
    PrintsSeparated(m, limit, a, EndMapKey, ":", b, key, value, f, g);
  }

  lemma EventsNonEmpty(v: Obj)
    ensures Events(v) != []
  {
  }

  lemma {:induction false} PairsPrint(pairs: seq<(Obj, Obj)>, m: string, limit: nat)
    requires pairs != []
    ensures Prints(m, limit, PairEvents(pairs), RenderPairs(pairs) + ",", PairsFit(pairs, |m|, limit))
    decreases pairs, 0
  {
    var first, rest, text := PairEvent(pairs[0]), PairEvents(pairs[1..]), RenderPair(pairs[0]);
    PairPrints(pairs[0], m, limit);
    if |pairs| == 1 {
      PrintsSeparated(m, limit, first, EndMapValue, ",", [], text, "", PairFits(pairs[0], |m|, limit), true);
      assert text + "," + "" == RenderPairs(pairs) + ",";
    } else {
      PairsPrint(pairs[1..], m + text + ",", limit);
      FirstAndRest(m, limit, first, EndMapValue, rest, text, RenderPairs(pairs[1..]),
                   PairFits(pairs[0], |m|, limit), PairsFit(pairs[1..], |m + text + ","|, limit));
    }
  }

  /** Output is complete exactly when the rendering is more than four characters below the limit and
      the doubled size of each string, binary and extension fits behind what precedes it. */
  lemma CompleteIffItFits(v: Obj, limit: nat)
    ensures Run("", limit, Events(v)) == Visited(Render(v), true)
      <==> |Render(v)| + 4 < limit && RawsFit(v, 0, limit)
  {
    TreePrints(v, "", limit);
    assert "" + Render(v) == Render(v);
  }

  // ---- Where the formatter stops, and how long its output is.

  predicate IsRaw(e: Event) { e.StrToken? || e.BinToken? || e.ExtToken? }

  /** The guard on the size of strings, binaries and extensions stops the parser. */
  predicate GuardStops(m: string, limit: nat, e: Event) {
    IsRaw(e) && |m| + Doubled(RawSize(e)) > limit
  }

  /** Behind the text m, the formatter stops at this event. */
  predicate Stops(m: string, limit: nat, e: Event) {
    GuardStops(m, limit, e) || |Emit(m, e)| + 4 >= limit
  }

  /** How much is printed up to this event if the guard lets it pass: of binary data no more than the
      limit allows. */
  function PrintedSize(m: string, limit: nat, e: Event): nat {
    if e.BinToken? || e.ExtToken? then |m| + 5 + 2 * Min(|e.bytes|, limit / 2) else |Emit(m, e)|
  }

  lemma VisitStopsIff(m: string, limit: nat, e: Event)
    ensures Visit(m, limit, e).go <==> !Stops(m, limit, e)
    ensures Visit(m, limit, e).go ==> Visit(m, limit, e).msg == Emit(m, e)
  {
    VisitPrints(m, limit, e);
    if IsRaw(e) && !e.StrToken? && |Emit(m, e)| + 4 < limit {
      WholeHex(e.bytes, limit);
    }
  }

  lemma StoppedSize(m: string, limit: nat, e: Event)
    requires Stops(m, limit, e)
    ensures |Visit(m, limit, e).msg| == 4 + if GuardStops(m, limit, e) then |m| else PrintedSize(m, limit, e)
  {
    VisitStopsIff(m, limit, e);
  }

  /** How many events are printed before the first one that stops. */
  function FirstStop(m: string, limit: nat, es: seq<Event>): (k: nat)
    ensures k <= |es|
    decreases |es|
  {
    if es == [] || Stops(m, limit, es[0]) then 0 else 1 + FirstStop(Emit(m, es[0]), limit, es[1..])
  }

  lemma EmitFirst(m: string, es: seq<Event>, k: nat)
    requires 0 < k <= |es|
    ensures EmitAll(m, es[..k]) == EmitAll(Emit(m, es[0]), es[1..][..k - 1])
  {
    assert es[..k][1..] == es[1..][..k - 1];
  }

  /** A run is the unlimited printing up to the first event that stops, and the visit of that event. */
  lemma {:induction false} RunStopsAt(m: string, limit: nat, es: seq<Event>)
    ensures var k := FirstStop(m, limit, es);
      && Run(m, limit, es) == (if k == |es| then Visited(EmitAll(m, es), true)
                               else Visit(EmitAll(m, es[..k]), limit, es[k]))
      && (k < |es| ==> Stops(EmitAll(m, es[..k]), limit, es[k]))
      && (k > 0 ==> |EmitAll(m, es[..k])| + 4 < limit)
    decreases |es|
  {
    if es != [] {
      VisitStopsIff(m, limit, es[0]);
      if !Stops(m, limit, es[0]) {
        RunStopsAt(Emit(m, es[0]), limit, es[1..]);
        EmitFirst(m, es, FirstStop(m, limit, es));
      }
    }
  }

  /** What format_message returns for data the parser reports as these events, complete or broken off. */
  function FormatMessage(data: seq<Byte>, es: seq<Event>, complete: bool, limit: nat): string {
    var out := Run("", limit, es);
    if out.go && !complete then "invalid_data(" + FormatHex(data, Max(limit, 14) - 14) + ")" else out.msg
  }

  lemma InvalidDataSize(data: seq<Byte>, es: seq<Event>, limit: nat)
    requires Run("", limit, es).go
    ensures 14 <= |FormatMessage(data, es, false, limit)| <= Max(limit, 14)
  {
  }

  lemma StoppedOutput(es: seq<Event>, limit: nat)
    requires FirstStop("", limit, es) < |es|
    ensures var k := FirstStop("", limit, es);
      var m := EmitAll("", es[..k]);
      && !Run("", limit, es).go && (m == "" || |m| + 4 < limit)
      && |Run("", limit, es).msg| == 4 + if GuardStops(m, limit, es[k]) then |m| else PrintedSize(m, limit, es[k])
  {
    var k := FirstStop("", limit, es);
    RunStopsAt("", limit, es);
    VisitStopsIff(EmitAll("", es[..k]), limit, es[k]);
    StoppedSize(EmitAll("", es[..k]), limit, es[k]);
  }

  lemma UnstoppedOutput(es: seq<Event>, limit: nat)
    requires FirstStop("", limit, es) == |es|
    ensures Run("", limit, es).go && |Run("", limit, es).msg| <= limit
  {
    RunStopsAt("", limit, es);
    assert es[..|es|] == es;
  }

  /** How long the output is: nothing stopped, or the size at the event that stopped. */
  lemma OutputSize(data: seq<Byte>, es: seq<Event>, complete: bool, limit: nat)
    ensures var k, out := FirstStop("", limit, es), FormatMessage(data, es, complete, limit);
      if k == |es| then if complete then |out| <= limit else 14 <= |out| <= Max(limit, 14)
      else
        var m := EmitAll("", es[..k]);
        && (m == "" || |m| + 4 < limit)
        && |out| == 4 + if GuardStops(m, limit, es[k]) then |m| else PrintedSize(m, limit, es[k])
  {
    if FirstStop("", limit, es) < |es| {
      StoppedOutput(es, limit);
    } else {
      UnstoppedOutput(es, limit);
      if !complete {
        InvalidDataSize(data, es, limit);
      }
    }
  }

  /** What format_message returns for every value: its rendering if that fits, and otherwise what the
      rendering looks like broken off, and the ellipsis. */
  lemma FormatsValue(data: seq<Byte>, v: Obj, limit: nat)
    ensures var out := FormatMessage(data, Events(v), true, limit);
      if |Render(v)| + 4 < limit && RawsFit(v, 0, limit) then out == Render(v)
      else exists p :: out == p + ELLIPSIS && BrokenOff(p, v)
  {
    CompleteIffItFits(v, limit);
    FormatterRefinesPrinter(v, limit);
  }

  /** What it returns for data that breaks off before the formatter stops: as much of it in
      hexadecimal as the limit leaves room for. */
  lemma FormatsInvalidData(data: seq<Byte>, es: seq<Event>, limit: nat)
    requires FirstStop("", limit, es) == |es|
    ensures exists h :: FormatMessage(data, es, false, limit) == "invalid_data(" + h + ")"
                        && Unhex(h) == Some(data[..Min(|data|, (Max(limit, 14) - 14) / 2)])
  {
    UnstoppedOutput(es, limit);
    var n := Min(|data|, (Max(limit, 14) - 14) / 2);
    HexRoundTrip(data[..n]);
    var h := Hex(data[..n]);
    assert FormatMessage(data, es, false, limit) == "invalid_data(" + h + ")";
  }

  /** Whether the data is complete makes no difference once the formatter has stopped. */
  lemma FormatsStoppedData(data: seq<Byte>, es: seq<Event>, complete: bool, limit: nat)
    requires FirstStop("", limit, es) < |es|
    ensures exists k: nat :: Stopped(FormatMessage(data, es, complete, limit), "", es, k)
  {
    StoppedIsRun(data, es, complete, limit);
    RunPrints("", limit, es);
    var k: nat :| Stopped(Run("", limit, es).msg, "", es, k);
    assert Stopped(FormatMessage(data, es, complete, limit), "", es, k);
  }

  lemma StoppedIsRun(data: seq<Byte>, es: seq<Event>, complete: bool, limit: nat)
    requires FirstStop("", limit, es) < |es|
    ensures !Run("", limit, es).go && FormatMessage(data, es, complete, limit) == Run("", limit, es).msg
  {
    StoppedOutput(es, limit);
  }

  /** The text m and the event that stopped behind it leave the output within the limit. */
  predicate KeepsLimit(m: string, limit: nat, e: Event) {
    if GuardStops(m, limit, e) then |m| + 4 <= limit else |Emit(m, e)| + 4 == limit
  }

  /** For all events and every limit, exactly when the limit is kept: if nothing stops the formatter,
      for valid data always, and for invalid data from 14 on; if an event stops it, exactly when the
      size guard does and leaves room for the ellipsis, or the event ends four characters before the
      limit. */
  lemma LimitIsKeptIff(data: seq<Byte>, es: seq<Event>, complete: bool, limit: nat)
    ensures var k := FirstStop("", limit, es);
      |FormatMessage(data, es, complete, limit)| <= limit <==>
        if k == |es| then complete || limit >= 14 else KeepsLimit(EmitAll("", es[..k]), limit, es[k])
  {
    var k := FirstStop("", limit, es);
    OutputSize(data, es, complete, limit);
    if k < |es| {
      RunStopsAt("", limit, es);
      PrintedSizeFacts(EmitAll("", es[..k]), limit, es[k]);
    }
  }

  /** Cut output is longer than the limit, and so is the uncut text. */
  lemma PrintedSizeFacts(m: string, limit: nat, e: Event)
    ensures PrintedSize(m, limit, e) <= |Emit(m, e)|
    ensures PrintedSize(m, limit, e) < |Emit(m, e)| ==> PrintedSize(m, limit, e) > limit
  {
  }

  /** The text m and the event that stopped behind it leave the output within max(limit, 5) + 19. */
  predicate KeepsBound(m: string, limit: nat, e: Event) {
    GuardStops(m, limit, e) || PrintedSize(m, limit, e) <= Max(limit, 5) + 15
  }

  /** For all events and every limit, exactly when the output has at most max(limit, 5) + 19
      characters: unless the event that stopped was let pass by the guard and prints too far. */
  lemma BoundIsKeptIff(data: seq<Byte>, es: seq<Event>, complete: bool, limit: nat)
    ensures var k := FirstStop("", limit, es);
      |FormatMessage(data, es, complete, limit)| <= Max(limit, 5) + 19 <==>
        k == |es| || KeepsBound(EmitAll("", es[..k]), limit, es[k])
  {
    OutputSize(data, es, complete, limit);
  }

  /** A token of more than 20 characters, or a size whose doubling wraps. */
  predicate Oversized(e: Event) {
    (e.Token? && |e.text| > 20) || RawSize(e) >= 0x8000_0000
  }

  lemma OnlyOversizedBreaks(m: string, limit: nat, e: Event)
    requires (m == "" || |m| + 4 < limit) && !Oversized(e)
    ensures KeepsBound(m, limit, e)
  {
    if IsRaw(e) {
      DoubledSmall(RawSize(e));
    }
  }

  /** So only a token of more than 20 characters, or a string, binary or extension of 2^31 bytes and
      more can break the bound. Invalid data is printed in at most max(limit, 14) characters. */
  lemma OutputIsBounded(data: seq<Byte>, es: seq<Event>, complete: bool, limit: nat)
    requires forall e :: e in es ==> !Oversized(e)
    ensures |FormatMessage(data, es, complete, limit)| <= Max(limit, 5) + 19
    ensures Run("", limit, es).go && !complete ==> |FormatMessage(data, es, complete, limit)| <= Max(limit, 14)
  {
    if Run("", limit, es).go && !complete {
      InvalidDataSize(data, es, limit);
    }
    var k := FirstStop("", limit, es);
    OutputSize(data, es, complete, limit);
    if k < |es| {
      assert es[k] in es;
      OnlyOversizedBreaks(EmitAll("", es[..k]), limit, es[k]);
    }
  }

  ghost predicate TokensShort(es: seq<Event>) {
    forall i :: 0 <= i < |es| && es[i].Token? ==> |es[i].text| <= 20
  }

  /** 64-bit integers, and floating point texts of at most 20 characters. */
  ghost predicate Printable(v: Obj) {
    match v
    case Int(n) => -0x8000_0000_0000_0000 <= n < 0x1_0000_0000_0000_0000
    case Float(text) => |text| <= 20
    case Arr(items) => forall i :: 0 <= i < |items| ==> Printable(items[i])
    case Map(pairs) => forall i :: 0 <= i < |pairs| ==> Printable(pairs[i].0) && Printable(pairs[i].1)
    case _ => true
  }

  lemma {:induction false} PrintableHasShortTokens(v: Obj)
    requires Printable(v)
    ensures TokensShort(Events(v))
    decreases v, 1
  {
    match v
    case Int(n) => DecimalLength(n);
    case Arr(items) => ItemsHaveShortTokens(items);
    case Map(pairs) => PairsHaveShortTokens(pairs);
    case _ =>
  }

  lemma {:induction false} ItemsHaveShortTokens(items: seq<Obj>)
    requires forall i :: 0 <= i < |items| ==> Printable(items[i])
    ensures TokensShort(ItemEvents(items))
    decreases items, 0
  {
    if items != [] {
      PrintableHasShortTokens(items[0]);
      ItemsHaveShortTokens(items[1..]);
    }
  }

  lemma {:induction false} PairsHaveShortTokens(pairs: seq<(Obj, Obj)>)
    requires forall i :: 0 <= i < |pairs| ==> Printable(pairs[i].0) && Printable(pairs[i].1)
    ensures TokensShort(PairEvents(pairs))
    decreases pairs, 0
  {
    if pairs != [] {
      PairHasShortTokens(pairs[0]);
      PairsHaveShortTokens(pairs[1..]);
    }
  }

  lemma {:induction false} PairHasShortTokens(pair: (Obj, Obj))
    requires Printable(pair.0) && Printable(pair.1)
    ensures TokensShort(PairEvent(pair))
    decreases pair, 0
  {
    PrintableHasShortTokens(pair.0);
    PrintableHasShortTokens(pair.1);
  }

  /** So it is for every value. */
  lemma FormattedValueIsBounded(data: seq<Byte>, v: Obj, limit: nat)
    requires Printable(v) && RawsSmall(Events(v))
    ensures |FormatMessage(data, Events(v), true, limit)| <= Max(limit, 5) + 19
  {
    PrintableHasShortTokens(v);
    OutputIsBounded(data, Events(v), true, limit);
  }

  /** An array in an array, and so on, around a value. */
  function Nested(depth: nat, v: Obj): Obj {
    if depth == 0 then v else Arr([Nested(depth - 1, v)])
  }

  /** A run that stops stops whatever follows. */
  lemma RunStops(m: string, limit: nat, first: Event, a: seq<Event>, b: seq<Event>)
    requires Visit(m, limit, first).go && !Run(Visit(m, limit, first).msg, limit, a).go
    ensures Run(m, limit, [first] + (a + b)) == Run(Visit(m, limit, first).msg, limit, a)
  {
    assert ([first] + (a + b))[1..] == a + b;
    RunConcat(Visit(m, limit, first).msg, limit, a, b);
  }

  function Brackets(depth: nat): string {
    if depth == 0 then "" else "[" + Brackets(depth - 1)
  }

  lemma {:induction false} BracketsSize(depth: nat)
    ensures |Brackets(depth)| == depth
  {
    if depth > 0 {
      BracketsSize(depth - 1);
    }
  }

  /** Where everything before it fits, a nested event is visited behind the opening brackets. */
  lemma {:induction false} NestedRun(depth: nat, m: string, limit: nat, v: Obj, e: Event)
    requires Events(v) == [e] && Stops(m + Brackets(depth), limit, e)
    requires depth > 0 ==> |m| + depth + 4 < limit
    ensures Run(m, limit, Events(Nested(depth, v))) == Visit(m + Brackets(depth), limit, e)
    decreases depth
  {
    VisitStopsIff(m + Brackets(depth), limit, e);
    if depth == 0 {
      assert m + Brackets(0) == m;
      RunOne(m, limit, e);
    } else {
      var inner := Nested(depth - 1, v);
      assert m + Brackets(depth) == m + "[" + Brackets(depth - 1);
      NestedRun(depth - 1, m + "[", limit, v, e);
      RunStops(m, limit, StartArray, Events(inner), [EndArrayItem] + [EndArray]);
      NestedEvents(inner);
    }
  }

  lemma NestedEvents(v: Obj)
    ensures Events(Arr([v])) == [StartArray] + (Events(v) + ([EndArrayItem] + [EndArray]))
  {
    assert ItemEvents([v]) == Events(v) + [EndArrayItem] + ItemEvents([v][1..]);
    assert [v][1..] == [];
  }

  /** The bound is reached for every limit, so the documented limit itself does not hold. */
  lemma BoundIsReached(limit: nat)
    ensures var v := Nested(if limit < 5 then 0 else limit - 5, Int(0xFFFF_FFFF_FFFF_FFFF));
      |Run("", limit, Events(v)).msg| == Max(limit, 5) + 19 > limit
  {
    var leaf, depth := Int(0xFFFF_FFFF_FFFF_FFFF), if limit < 5 then 0 else limit - 5;
    var e := Token(Decimal(leaf.n));
    LargestHas20Digits();
    BracketsSize(depth);
    assert "" + Brackets(depth) == Brackets(depth);
    NestedRun(depth, "", limit, leaf, e);
    StoppedSize(Brackets(depth), limit, e);
  }

  /** A binary of 2^31 bytes in nested arrays breaks the bound, for every limit from 16 on. */
  lemma HugeBinaryBreaksBound(limit: nat, bytes: seq<Byte>)
    requires limit >= 16 && |bytes| == 0x8000_0000
    ensures |Run("", limit, Events(Nested(limit - 5, Bin(bytes)))).msg| > Max(limit, 5) + 19
  {
    var depth, e := limit - 5, BinToken(bytes);
    BracketsSize(depth);
    assert "" + Brackets(depth) == Brackets(depth);
    NestedRun(depth, "", limit, Bin(bytes), e);
    StoppedSize(Brackets(depth), limit, e);
  }

  lemma LargestHas20Digits()
    ensures |Decimal(0xFFFF_FFFF_FFFF_FFFF)| == 20
  {
    Power10At20();
    DigitsAtLeast(0xFFFF_FFFF_FFFF_FFFF, 19);
    DecimalLength(0xFFFF_FFFF_FFFF_FFFF);
  }

  lemma {:induction false} DigitsAtLeast(n: nat, k: nat)
    requires k <= 19 && n >= Power10(k)
    ensures |Digits(n)| >= k + 1
    decreases k
  {
    if k > 0 {
      DigitsAtLeast(n / 10, k - 1);
    }
  }

  /** A string of 2^31 bytes is printed in full whatever the limit. */
  lemma HugeStringIsPrinted(limit: nat)
    ensures var s := seq(0x8000_0000, i => 'a');
      |Run("", limit, Events(Str(s))).msg| >= 0x8000_0002
  {
    var s := seq(0x8000_0000, i => 'a');
    RunOne("", limit, StrToken(s));
  }
}
