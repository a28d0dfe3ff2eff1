/** Telnet command sequences on the console wire: decoding undoes the encoding
    of the "TELNET Command Structure" section of RFC 854 and the
    subnegotiation of RFC 855. */
module Telnet {
  import opened Words

  const IAC: u8 := 255
  const SB: u8 := 250
  const SE: u8 := 240

  // --- decoding ------------------------------------------------------------------

  /** What follows a subnegotiation, if it is ever closed. */
  function SkipSub(raw: seq<u8>): Option<seq<u8>>
    decreases |raw|
  {
    if raw == [] then None
    else if raw[0] != IAC then SkipSub(raw[1..])
    else if |raw| < 2 then None
    else if raw[1] == SE then Some(raw[2..])
    else SkipSub(raw[2..])
  }

  lemma {:induction false} SkipShortens(raw: seq<u8>)
    ensures SkipSub(raw).Some? ==> |SkipSub(raw).value| < |raw|
    decreases |raw|
  {
    if raw == [] {
    } else {
      if raw[0] != IAC { SkipShortens(raw[1..]); }
      else if |raw| >= 2 && raw[1] != SE { SkipShortens(raw[2..]); }
    }
  }

  /** The next data byte and what is left of the wire; None at its end. */
  function NextByte(raw: seq<u8>): Option<(u8, seq<u8>)>
    decreases |raw|
  {
    if raw == [] then None
    else if raw[0] != IAC then Some((raw[0], raw[1..]))
    else if |raw| < 2 then None
    else if raw[1] == IAC then Some((IAC, raw[2..]))
    else if 251 <= raw[1] <= 254 then (if |raw| < 3 then None else NextByte(raw[3..]))
    else if raw[1] == SB then
      (SkipShortens(raw[2..]);
       match SkipSub(raw[2..]) case None => None case Some(rest) => NextByte(rest))
    else NextByte(raw[2..])
  }

  lemma {:induction false} NextByteShortens(raw: seq<u8>)
    ensures NextByte(raw).Some? ==> |NextByte(raw).value.1| < |raw|
    decreases |raw|
  {
    if |raw| >= 2 && raw[0] == IAC && raw[1] != IAC {
      if 251 <= raw[1] <= 254 {
        if |raw| >= 3 { NextByteShortens(raw[3..]); }
      } else if raw[1] == SB {
        SkipShortens(raw[2..]);
        if SkipSub(raw[2..]).Some? { NextByteShortens(SkipSub(raw[2..]).value); }
      } else {
        NextByteShortens(raw[2..]);
      }
    }
  }

  /** All the data on the wire. */
  function Decode(raw: seq<u8>): seq<u8>
    decreases |raw|
  {
    NextByteShortens(raw);
    match NextByte(raw) case None => [] case Some((b, rest)) => [b] + Decode(rest)
  }

  // --- encoding ------------------------------------------------------------------

  datatype Item = Data(b: u8) | Negotiate(verb: u8, opt: u8) | Command(c: u8) | Sub(payload: seq<u8>)

  /** WILL, WONT, DO and DONT take an option byte; other commands are two bytes. */
  predicate Legal(it: Item) {
    match it
    case Negotiate(verb, _) => 251 <= verb <= 254
    case Command(c) => c < 250
    case _ => true
  }

  function Escape(bs: seq<u8>): seq<u8> {
    if bs == [] then [] else (if bs[0] == IAC then [IAC, IAC] else [bs[0]]) + Escape(bs[1..])
  }

  function Encode(it: Item): seq<u8> {
    match it
    case Data(b) => Escape([b])
    case Negotiate(verb, opt) => [IAC, verb, opt]
    case Command(c) => [IAC, c]
    case Sub(payload) => [IAC, SB] + Escape(payload) + [IAC, SE]
  }

  function EncodeAll(items: seq<Item>): seq<u8> {
    if items == [] then [] else Encode(items[0]) + EncodeAll(items[1..])
  }

  function DataOf(items: seq<Item>): seq<u8> {
    if items == [] then [] else (if items[0].Data? then [items[0].b] else []) + DataOf(items[1..])
  }

  lemma {:induction false} SkipEscaped(payload: seq<u8>, tail: seq<u8>)
    ensures SkipSub(Escape(payload) + [IAC, SE] + tail) == Some(tail)
    decreases |payload|
  {
    var raw := Escape(payload) + [IAC, SE] + tail;
    if payload == [] {
      assert raw[2..] == tail;
    } else {
      var rest := Escape(payload[1..]) + [IAC, SE] + tail;
      SkipEscaped(payload[1..], tail);
      if payload[0] == IAC {
        assert raw[2..] == rest;
      } else {
        assert raw[1..] == rest;
      }
    }
  }

  lemma EscapeOne(b: u8)
    ensures Escape([b]) == if b == IAC then [IAC, IAC] else [b]
  {
    assert [b][1..] == [];
  }

  lemma NextAfterData(b: u8, tail: seq<u8>)
    ensures NextByte(Escape([b]) + tail) == Some((b, tail))
  {
    hide SkipSub, Escape;
    EscapeOne(b);
    var raw := Escape([b]) + tail;
    if b == IAC {
      assert raw[2..] == tail;
    } else {
      assert raw[1..] == tail;
    }
  }

  lemma NextAfterSub(payload: seq<u8>, tail: seq<u8>)
    ensures NextByte([IAC, SB] + Escape(payload) + [IAC, SE] + tail) == NextByte(tail)
  {
    hide SkipSub, Escape;
    SkipEscaped(payload, tail);
    var raw := [IAC, SB] + Escape(payload) + [IAC, SE] + tail;
    assert raw[2..] == Escape(payload) + [IAC, SE] + tail;
  }

  lemma NextAfterCommand(c: u8, tail: seq<u8>)
    requires c < 250
    ensures NextByte([IAC, c] + tail) == NextByte(tail)
  {
    hide SkipSub;
    assert ([IAC, c] + tail)[2..] == tail;
  }

  lemma NextAfterNegotiation(verb: u8, opt: u8, tail: seq<u8>)
    requires 251 <= verb <= 254
    ensures NextByte([IAC, verb, opt] + tail) == NextByte(tail)
  {
    hide SkipSub;
    assert ([IAC, verb, opt] + tail)[3..] == tail;
  }

  lemma NextAfterItem(it: Item, tail: seq<u8>)
    requires Legal(it)
    ensures NextByte(Encode(it) + tail) == if it.Data? then Some((it.b, tail)) else NextByte(tail)
  {
    hide NextByte, SkipSub, Escape;
    match it {
      case Data(b) => NextAfterData(b, tail);
      case Negotiate(verb, opt) => NextAfterNegotiation(verb, opt, tail);
      case Command(c) => NextAfterCommand(c, tail);
      case Sub(payload) => NextAfterSub(payload, tail);
    }
  }

  /** One item in front of a wire adds its data byte, if it is one. */
  lemma DecodeItem(it: Item, tail: seq<u8>)
    requires Legal(it)
    ensures Decode(Encode(it) + tail) == (if it.Data? then [it.b] else []) + Decode(tail)
  {
    hide NextByte, Encode;
    NextAfterItem(it, tail);
  }

  /** Whatever negotiation, commands and subnegotiations are threaded between
      the data, exactly the data comes out. */
  lemma {:induction false} DecodeInvertsEncode(items: seq<Item>, tail: seq<u8>)
    requires forall it :: it in items ==> Legal(it)
    ensures Decode(EncodeAll(items) + tail) == DataOf(items) + Decode(tail)
    decreases |items|
  {
    if items == [] {
      assert EncodeAll(items) + tail == tail;
    } else {
      var rest := EncodeAll(items[1..]) + tail;
      assert EncodeAll(items) + tail == Encode(items[0]) + rest;
      DecodeItem(items[0], rest);
      DecodeInvertsEncode(items[1..], tail);
    }
  }

  /** The two directions together: a wire holding exactly an encoding. */
  lemma RoundTrip(items: seq<Item>)
    requires forall it :: it in items ==> Legal(it)
    ensures Decode(EncodeAll(items)) == DataOf(items)
  {
    DecodeInvertsEncode(items, []);
    assert EncodeAll(items) + [] == EncodeAll(items);
    assert Decode([]) == [];
  }

  // --- the decoder as it runs -------------------------------------------------------

  /** The receiving end of a connection: bytes still to come, and one byte of
      pushback that is read again before them. */
  class Wire {
    var raw: seq<u8>
    var pushback: int
    var eof: bool

    constructor (raw: seq<u8>)
      ensures Valid() && Stream() == raw && !eof
    {
      this.raw, pushback, eof := raw, -1, false;
    }

    ghost predicate Valid()
      reads this
    {
      -1 <= pushback < 256 && (eof ==> raw == [] && pushback == -1)
    }

    /** Everything the next reads will see. */
    ghost function Stream(): seq<u8>
      requires Valid()
      reads this
    {
      if pushback >= 0 then [pushback] + raw else raw
    }

    method Recv() returns (b: int)
      requires Valid()
      modifies this
      ensures Valid() && pushback == -1
      ensures old(Stream()) == [] ==> b == -1 && Stream() == [] && eof
      ensures old(Stream()) != [] ==> b == old(Stream())[0] && Stream() == old(Stream())[1..] && eof == old(eof)
    {
      if pushback >= 0 {
        b := pushback;
        pushback := -1;
        return;
      }
      if raw == [] {
        eof := true;
        return -1;
      }
      b, raw := raw[0], raw[1..];
    }

    /** Skip a subnegotiation; false if the wire ends inside it. */
    method Skip() returns (closed: bool)
      requires Valid()
      modifies this
      ensures Valid() && pushback == -1
      ensures closed == SkipSub(old(Stream())).Some?
      ensures if closed then eof == old(eof) else eof
      ensures Stream() == if closed then SkipSub(old(Stream())).value else []
    {
      while true
        invariant Valid()
        invariant SkipSub(Stream()) == SkipSub(old(Stream()))
        invariant eof == old(eof)
        decreases |Stream()|
      {
        ghost var s := Stream();
        var d := Recv();
        if d < 0 { return false; }
        if d == 255 {
          var e := Recv();
          if e < 0 { return false; }
          assert s[1..][1..] == s[2..];
          if e == 240 { return true; }
        }
      }
    }

    /** The next data byte, command sequences consumed on the way. */
    method InByte() returns (b: int)
      requires Valid()
      modifies this
      ensures Valid() && pushback == -1
      ensures match NextByte(old(Stream()))
        case None => b == -1 && Stream() == [] && eof
        case Some((x, rest)) => b == x && Stream() == rest && eof == old(eof)
    {
      while true
        invariant Valid()
        invariant NextByte(Stream()) == NextByte(old(Stream()))
        invariant if NextByte(Stream()).Some? then eof == old(eof) else (old(eof) ==> eof)
        decreases |Stream()|
      {
        ghost var s := Stream();
        b := Recv();
        if b != 255 { return; }
        b := Recv();
        if b < 0 { return; }
        assert s[1..][1..] == s[2..];
        if b == 255 { return; }
        if 251 <= b <= 254 {
          var opt := Recv();
          if opt >= 0 { assert s[2..][1..] == s[3..]; }
        } else if b == 250 {
          SkipShortens(Stream());
          var closed := Skip();
          if !closed { return -1; }
        }
      }
    }
  }
}
