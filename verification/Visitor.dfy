/**
 The formatting visitor as the object the parser calls, and format_message around it.
 */
module Visitor {
  import opened Wire
  import opened Printer
  import opened Formatter

  /** Binary data in hexadecimal, at most limit characters. */
  method WriteHex(bytes: seq<Byte>, limit: nat) returns (res: string)
    ensures res == FormatHex(bytes, limit)
    ensures |res| <= limit && Unhex(res) == Some(bytes[..Min(|bytes|, limit / 2)])
  {
    res := "";
    var n := Min(|bytes|, limit / 2);
    for i := 0 to n
      invariant res == Hex(bytes[..i])
    {
      var upper := bytes[i] / 16;
      res := res + [HexChar(upper)];
      var lower := bytes[i] % 16;
      res := res + [HexChar(lower)];
      assert bytes[..i + 1][..i] == bytes[..i];
    }
    HexRoundTrip(bytes[..n]);
  }

  class FormattingVisitor {
    const limit: nat
    var msg: string

    constructor (limit: nat)
      ensures this.limit == limit && msg == ""
    {
      this.limit := limit;
      msg := "";
    }

    method Check() returns (go: bool)
      modifies this
      ensures Visited(msg, go) == CheckLength(old(msg), limit)
    {
      if |msg| + 4 >= limit {
        msg := msg + ELLIPSIS;
        return false;
      }
      return true;
    }

    /** nil, booleans and numbers, given the text they print as. */
    method VisitToken(text: string) returns (go: bool)
      modifies this
      ensures Visited(msg, go) == Visit(old(msg), limit, Token(text))
    {
      msg := msg + text;
      go := Check();
    }

    method VisitStr(s: string) returns (go: bool)
      modifies this
      ensures Visited(msg, go) == Visit(old(msg), limit, StrToken(s))
    {
      if |msg| + Doubled(|s|) > limit {
        msg := msg + ELLIPSIS;
        return false;
      }
      msg := msg + "\"";
      msg := msg + s;
      msg := msg + "\"";
      go := Check();
    }

    method VisitBin(bytes: seq<Byte>) returns (go: bool)
      modifies this
      ensures Visited(msg, go) == Visit(old(msg), limit, BinToken(bytes))
    {
      if |msg| + Doubled(|bytes|) > limit {
        msg := msg + ELLIPSIS;
        return false;
      }
      msg := msg + "hex(";
      var hex := WriteHex(bytes, limit);
      msg := msg + hex;
      msg := msg + ")";
      go := Check();
    }

    method VisitExt(bytes: seq<Byte>) returns (go: bool)
      modifies this
      ensures Visited(msg, go) == Visit(old(msg), limit, ExtToken(bytes))
    {
      if |msg| + Doubled(|bytes|) > limit {
        msg := msg + ELLIPSIS;
        return false;
      }
      msg := msg + "ext(";
      var hex := WriteHex(bytes, limit);
      msg := msg + hex;
      msg := msg + ")";
      go := Check();
    }

    /** Starts of containers and ends of items, keys and values: one character each. */
    method VisitMark(e: Event) returns (go: bool)
      requires e.StartArray? || e.EndArrayItem? || e.StartMap? || e.EndMapKey? || e.EndMapValue?
      modifies this
      ensures Visited(msg, go) == Visit(old(msg), limit, e)
    {
      msg := msg + match e {
        case StartArray => "["
        case StartMap => "{"
        case EndMapKey => ":"
        case _ => ","
      };
      go := Check();
    }

    /** Ends of containers: a trailing comma is popped first. */
    method VisitEnd(e: Event) returns (go: bool)
      requires e.EndArray? || e.EndMap?
      modifies this
      ensures Visited(msg, go) == Visit(old(msg), limit, e)
    {
      if msg != "" && msg[|msg| - 1] == ',' {
        msg := msg[..|msg| - 1];
      }
      msg := msg + if e.EndArray? then "]" else "}";
      go := Check();
    }

    method VisitEvent(e: Event) returns (go: bool)
      modifies this
      ensures Visited(msg, go) == Visit(old(msg), limit, e)
    {
      match e
      case Token(text) => go := VisitToken(text);
      case StrToken(s) => go := VisitStr(s);
      case BinToken(bytes) => go := VisitBin(bytes);
      case ExtToken(bytes) => go := VisitExt(bytes);
      case EndArray => go := VisitEnd(e);
      case EndMap => go := VisitEnd(e);
      case _ => go := VisitMark(e);
    }
  }

  /** The parser reports events until the visitor stops it; data it cannot parse to the end makes it
      throw, which turns the output into the data in hexadecimal. */
  method WriteMessage(data: seq<Byte>, es: seq<Event>, complete: bool, limit: nat) returns (res: string)
    ensures res == FormatMessage(data, es, complete, limit)
  {
    var visitor := new FormattingVisitor(limit);
    var go := true;
    var i := 0;
    while i < |es| && go
      invariant i <= |es| && visitor.limit == limit
      invariant Run("", limit, es) == if go then Run(visitor.msg, limit, es[i..]) else Visited(visitor.msg, false)
    {
      assert es[i..][0] == es[i] && es[i..][1..] == es[i + 1..];
      go := visitor.VisitEvent(es[i]);
      i := i + 1;
    }
    if go && !complete {
      var hex := WriteHex(data, Max(limit, 14) - 14);
      return "invalid_data(" + hex + ")";
    }
    return visitor.msg;
  }
}
