/** The console as it runs: a line buffer filled from the wire and drained by
    reads, and the newline translation of its output. */
module Terminal {
  import opened Words
  import opened Telnet
  import opened Lines

  const LINE_CAP: nat := 4100
  const OUT_CAP: nat := 2048

  // --- a byte pushed back onto the wire is decoded again ---------------------------------

  lemma DecodePlain(b: u8, raw: seq<u8>)
    requires b != IAC
    ensures Decode([b] + raw) == [b] + Decode(raw)
  {
    hide SkipSub;
    assert ([b] + raw)[1..] == raw;
  }

  /** Pushing a data byte back is lossless whatever follows it, exactly when it
      is not an escaped 0xFF. */
  lemma PushbackLosslessIff(b: u8)
    ensures (forall raw: seq<u8> :: Decode([b] + raw) == [b] + Decode(raw)) <==> b != IAC
  {
    if b != IAC {
      forall raw: seq<u8> ensures Decode([b] + raw) == [b] + Decode(raw) { DecodePlain(b, raw); }
    } else {
      assert NextByte([IAC]).None?;
      assert Decode([IAC] + []) == [] != [IAC] + Decode([]);
    }
  }

  /** A line end and an escaped 0xFF: pushed back, the 0xFF waits for a command byte
      that never comes. */
  lemma LostByteExample()
    ensures Decode([CR, IAC, IAC]) == [CR, IAC] && Decode([IAC]) == []
  {
    DecodePlain(CR, [IAC, IAC]);
    assert [CR] + [IAC, IAC] == [CR, IAC, IAC] && [IAC, IAC][2..] == [];
    DecodeStep([IAC, IAC]);
    DecodeNothing();
  }

  /** No escaped 0xFF directly behind a CR. */
  predicate Safe(d: seq<u8>) {
    forall i :: 1 <= i < |d| && d[i] == IAC ==> d[i - 1] != CR
  }

  lemma SafeSuffix(d: seq<u8>, k: nat)
    requires Safe(d) && k <= |d|
    ensures Safe(d[k..])
  {
    forall i | 1 <= i < |d[k..]| && d[k..][i] == IAC ensures d[k..][i - 1] != CR {
      assert d[k + i] == IAC && d[k..][i - 1] == d[k + i - 1];
    }
  }

  // --- output ---------------------------------------------------------------------------

  /** Each newline goes out as CR LF. */
  function Onlcr(p: seq<u8>): seq<u8> {
    if p == [] then [] else
      Onlcr(p[..|p| - 1]) + Crlf(p[|p| - 1])
  }

  function Crlf(b: u8): seq<u8> { if b == LF then [CR, LF] else [b] }

  lemma OnlcrOne(p: seq<u8>, i: nat)
    requires i < |p|
    ensures Onlcr(p[..i + 1]) == Onlcr(p[..i]) + Crlf(p[i])
  {
    assert p[..i + 1][..i] == p[..i];
  }

  lemma OnlcrNothing()
    ensures Onlcr([]) == []
  {
  }

  /** What the terminal received, read back: CR LF is a newline. */
  function FromCrlf(s: seq<u8>): seq<u8> {
    if s == [] then []
    else if |s| >= 2 && s[|s| - 2] == CR && s[|s| - 1] == LF then FromCrlf(s[..|s| - 2]) + [LF]
    else FromCrlf(s[..|s| - 1]) + [s[|s| - 1]]
  }

  lemma FromCrlfAppend(x: seq<u8>, b: u8)
    ensures FromCrlf(x + [CR, LF]) == FromCrlf(x) + [LF]
    ensures b != LF ==> FromCrlf(x + [b]) == FromCrlf(x) + [b]
  {
    var s, t := x + [CR, LF], x + [b];
    assert s[..|s| - 2] == x && t[..|t| - 1] == x;
  }

  lemma {:induction false} OnlcrInvertible(p: seq<u8>)
    ensures FromCrlf(Onlcr(p)) == p
    decreases |p|
  {
    hide FromCrlf;
    if p == [] {
      FromCrlfNothing();
    } else {
      OnlcrInvertible(p[..|p| - 1]);
      FromCrlfAppend(Onlcr(p[..|p| - 1]), p[|p| - 1]);
    }
  }

  lemma FromCrlfNothing()
    ensures FromCrlf([]) == []
  {
  }

  // --- the unit ---------------------------------------------------------------------------

  class Console {
    const wire: Wire
    const line: array<u8>
    const outBuf: array<u8>
    var len: nat
    var pos: nat
    var sent: seq<u8>

    constructor (wire: Wire)
      requires wire.Valid()
      ensures Valid() && this.wire == wire && sent == [] && Left() == []
      ensures fresh(line) && fresh(outBuf)
    {
      this.wire := wire;
      line := new u8[LINE_CAP](_ => 0);
      outBuf := new u8[OUT_CAP](_ => 0);
      len, pos, sent := 0, 0, [];
    }

    ghost predicate Valid()
      reads this, wire
    {
      wire.Valid() && line.Length == LINE_CAP && outBuf.Length == OUT_CAP && line != outBuf && pos <= len <= LINE_CAP
    }

    /** Cooked bytes not yet read. */
    ghost function Left(): seq<u8>
      requires Valid()
      reads this, wire, line
    {
      line[pos..len]
    }

    /** All input still on the wire, decoded. */
    ghost function Input(): seq<u8>
      requires Valid()
      reads this, wire
    {
      Decode(wire.Stream())
    }

    /** The keys of a line so far: buffered and echoed. */
    ghost predicate Typing(n: nat, keys: seq<u8>, out: seq<u8>)
      reads this, line
    {
      n <= LINE_CAP && line.Length == LINE_CAP && NoEnd(keys) &&
      line[..n] == Edit(keys, LINE_CAP) && sent == out + Echo(keys, LINE_CAP)
    }

    /** Nothing reaches a client that has gone. */
    method Send(bs: seq<u8>)
      modifies this`sent
      ensures sent == old(sent) + if wire.eof then [] else bs
    {
      if !wire.eof { sent := sent + bs; }
    }

    /** Take the next byte of the decoded input. */
    method Take() returns (b: int)
      requires Valid()
      modifies wire
      ensures Valid()
      ensures if old(Input()) == [] then b == -1 && Input() == [] && wire.eof
        else 0 <= b < 256 && old(Input()) == [b] + Input() && !wire.eof && wire.pushback == -1
    {
      hide NextByte, SkipSub, Decode;
      DecodeNothing();
      DecodeStep(wire.Stream());
      b := wire.InByte();
    }

    /** Finish a line at its CR: take a paired LF or NUL, push anything else back. */
    method TakePair()
      requires Valid()
      modifies wire
      ensures Valid() && wire.eof == (old(Input()) == [])
      ensures var d := old(Input());
        if d == [] then Input() == []
        else if d[0] == LF || d[0] == 0 then Input() == d[1..]
        else if d[0] != IAC then Input() == d
        else wire.pushback == IAC && Decode(wire.raw) == d[1..]
    {
      hide NextByte, SkipSub, Decode;
      var nx := Take();
      if nx >= 0 {
        if nx != 10 && nx != 0 {
          if nx != 255 { DecodePlain(nx, wire.raw); }
          wire.pushback := nx;
        }
      }
    }

    /** One key inside a line. */
    method Key(n: nat, b: u8) returns (m: nat)
      requires Valid() && n <= LINE_CAP && !Ends(b) && !wire.eof
      modifies line, this`sent
      ensures m <= LINE_CAP && line[..m] == Press(old(line[..n]), b, LINE_CAP)
      ensures sent == old(sent) + EchoKey(old(line[..n]), b, LINE_CAP)
    {
      m := n;
      if b == 0 { return; }
      if b == 127 || b == 8 {
        if m > 0 {
          m := m - 1;
          Send([BS, 32, BS]);
        }
        return;
      }
      if m < LINE_CAP {
        line[m] := b;
        m := m + 1;
        if b >= 32 || b == 9 { Send([b]); }
      }
    }

    method KeyOf(n: nat, b: u8, ghost keys: seq<u8>, ghost out: seq<u8>) returns (m: nat)
      requires Valid() && !Ends(b) && !wire.eof && Typing(n, keys, out)
      modifies line, this`sent
      ensures Typing(m, keys + [b], out)
    {
      hide Edit, Echo, Press, EchoKey, NoEnd;
      EditOne(keys, b, LINE_CAP);
      m := Key(n, b);
    }

    /** The newline that closes a line, if there is room for it. */
    method NewLine(n: nat) returns (m: nat)
      requires Valid() && n <= LINE_CAP
      modifies line, this`sent
      ensures m <= LINE_CAP && line[..m] == old(line[..n]) + if n < LINE_CAP then [LF] else []
      ensures sent == old(sent) + if wire.eof then [] else [CR, LF]
    {
      m := n;
      Send([CR, LF]);
      if m < LINE_CAP {
        line[m] := 10;
        m := m + 1;
      }
    }

    /** A line's terminator has been read. */
    method EndLine(n: nat, b: u8, ghost keys: seq<u8>, ghost out: seq<u8>) returns (m: nat)
      requires Valid() && Ends(b) && !wire.eof && Typing(n, keys, out)
      modifies wire, line, this`sent
      ensures Valid() && m <= LINE_CAP
      ensures var d := keys + ([b] + old(Input()));
        line[..m] == Cook(d, LINE_CAP).line && sent == out + CookEcho(d, LINE_CAP)
      ensures var d := keys + ([b] + old(Input()));
        if PairIsIac(d) then wire.pushback == IAC && Decode(wire.raw) == Cook(d, LINE_CAP).rest[1..]
        else Input() == Cook(d, LINE_CAP).rest
    {
      hide NextByte, SkipSub, Decode, Edit, Echo, EndAt, AfterEnd, Cook, CookEcho, PairIsIac;
      CookAt(keys, [b] + Input(), LINE_CAP);
      EndParts(keys, b, Input());
      m := n;
      if b == 4 { return; }
      if b == 13 { TakePair(); }
      m := NewLine(n);
    }

    /** Assemble one line. Line and echo depend on the decoded input alone; the
        wire is left in step with it unless an escaped 0xFF was pushed back. */
    method CookLine() returns (n: nat)
      requires Valid()
      modifies wire, line, this`sent
      ensures Valid() && n <= LINE_CAP
      ensures line[..n] == Cook(old(Input()), LINE_CAP).line
      ensures sent == old(sent) + CookEcho(old(Input()), LINE_CAP)
      ensures var rest := Cook(old(Input()), LINE_CAP).rest;
        if PairIsIac(old(Input())) then wire.pushback == IAC && Decode(wire.raw) == rest[1..]
        else Input() == rest
    {
      hide NextByte, SkipSub, Decode, Edit, Echo, EndAt, Press, EchoKey, AfterEnd, Cook, CookEcho, PairIsIac;
      hide NoEnd, EndEcho;
      n := 0;
      ghost var d := Input();
      ghost var keys: seq<u8> := [];
      EditNothing(LINE_CAP);
      while true
        invariant Valid() && Typing(n, keys, old(sent))
        invariant d == keys + Input()
        decreases |Input()|
      {
        var b := Take();
        if b < 0 {
          assert d == keys + [];
          EofParts(keys);
          return;
        }
        Assoc(keys, b, Input());
        if b == 13 || b == 10 || b == 4 {
          n := EndLine(n, b, keys, old(sent));
          return;
        }
        n := KeyOf(n, b, keys, old(sent));
        keys := keys + [b];
      }
    }

    /** Serve a read of at most max bytes: leftovers first, a fresh line when
        there are none. What it returns depends on the decoded input alone; the
        wire stays in step with it but for an escaped 0xFF pushed back. */
    method SockRead(max: nat) returns (out: seq<u8>)
      requires Valid()
      modifies wire, line, this
      ensures Valid()
      ensures out == ReadOut(Reader(old(Left()), old(Input())), max, LINE_CAP)
      ensures Left() == ReadState(Reader(old(Left()), old(Input())), max, LINE_CAP).left
      ensures (old(Left()) == [] && PairIsIac(old(Input()))) ||
        Input() == ReadState(Reader(old(Left()), old(Input())), max, LINE_CAP).input
      ensures sent == old(sent) + if old(Left()) == [] then CookEcho(old(Input()), LINE_CAP) else []
    {
      hide Decode, Cook, CookEcho, EndAt, PairIsIac;
      if pos >= len {
        len, pos := 0, 0;
        var n := CookLine();
        if n == 0 {
          assert Left() == [];
          return [];
        }
        len := n;
      }
      var avail := len - pos;
      var k := if max < avail then max else avail;
      out := line[pos..pos + k];
      pos := pos + k;
    }

    /** Reads of any sizes, one after another: together they return the edited text
        of the input in order, and what they have not returned is still owed. */
    method ReadAll(sizes: seq<nat>) returns (out: seq<u8>)
      requires Valid() && Safe(Input())
      modifies wire, line, this
      ensures Valid() && Safe(Input())
      ensures out == ReadsOut(Reader(old(Left()), old(Input())), sizes, LINE_CAP)
      ensures Reader(Left(), Input()) == ReadsState(Reader(old(Left()), old(Input())), sizes, LINE_CAP)
      ensures out + Owed(Reader(Left(), Input()), LINE_CAP) == Owed(Reader(old(Left()), old(Input())), LINE_CAP)
    {
      hide Decode, Cook, CookEcho, EndAt, PairIsIac, Safe, ReadOut, ReadState, Owed, ReadsOut, ReadsState;
      ghost var r0 := Reader(Left(), Input());
      ghost var r := r0;
      out := [];
      assert sizes[0..] == sizes;
      for i := 0 to |sizes|
        invariant Valid() && Safe(Input()) && r == Reader(Left(), Input())
        invariant ReadsOut(r0, sizes, LINE_CAP) == out + ReadsOut(r, sizes[i..], LINE_CAP)
        invariant ReadsState(r0, sizes, LINE_CAP) == ReadsState(r, sizes[i..], LINE_CAP)
      {
        SafeRead(r, sizes[i]);
        ReadsStep(r, sizes, i, out);
        var got := SockRead(sizes[i]);
        out := out + got;
        r := ReadState(r, sizes[i], LINE_CAP);
      }
      ReadsNothing(r, sizes, out);
      ReadsKeep(r0, sizes, LINE_CAP);
    }

    method Emit(j: nat, b: u8) returns (k: nat)
      requires j + 2 <= outBuf.Length
      modifies outBuf
      ensures k <= j + 2 && k <= outBuf.Length && outBuf[..k] == old(outBuf[..j]) + Crlf(b)
    {
      if b == 10 {
        outBuf[j] := 13;
        outBuf[j + 1] := 10;
        k := j + 2;
      } else {
        outBuf[j] := b;
        k := j + 1;
      }
    }

    /** Send guest output with newlines translated, a full buffer at a time. */
    method SockWrite(p: seq<u8>)
      requires Valid()
      modifies outBuf, this`sent
      ensures Valid()
      ensures sent == old(sent) + if wire.eof then [] else Onlcr(p)
    {
      hide Onlcr;
      var j := 0;
      OnlcrNothing();
      ghost var put: seq<u8> := [];
      for i := 0 to |p|
        invariant 0 <= j < OUT_CAP - 2
        invariant put + outBuf[..j] == Onlcr(p[..i])
        invariant sent == old(sent) + if wire.eof then [] else put
      {
        OnlcrOne(p, i);
        j := Emit(j, p[i]);
        if j >= OUT_CAP - 2 {
          put := put + outBuf[..j];
          Send(outBuf[..j]);
          j := 0;
        }
      }
      assert p[..|p|] == p;
      if j > 0 { Send(outBuf[..j]); }
    }
  }

  lemma Assoc(keys: seq<u8>, b: u8, more: seq<u8>)
    ensures keys + ([b] + more) == keys + [b] + more
  {
  }

  /** What follows a terminator, by cases of the byte behind it. */
  lemma EndParts(keys: seq<u8>, b: u8, more: seq<u8>)
    requires NoEnd(keys) && Ends(b)
    ensures var d := keys + ([b] + more);
      AfterEnd([b] + more) == (if b == CR && more != [] && (more[0] == LF || more[0] == 0) then more[1..] else more) &&
      PairIsIac(d) == (b == CR && more != [] && more[0] == IAC) &&
      CookEcho(d, LINE_CAP) == Echo(keys, LINE_CAP) + EndEcho([b] + more) &&
      EndEcho([b] + more) == if b == EOT || (b == CR && more == []) then [] else [CR, LF]
  {
    hide Edit, Echo, EndAt;
    CookAt(keys, [b] + more, LINE_CAP);
  }

  lemma EofParts(keys: seq<u8>)
    requires NoEnd(keys)
    ensures var d := keys + [];
      Cook(d, LINE_CAP) == Cooked(Edit(keys, LINE_CAP), []) && !PairIsIac(d) &&
        CookEcho(d, LINE_CAP) == Echo(keys, LINE_CAP)
  {
    hide Edit, Echo, EndAt;
    CookAt(keys, [], LINE_CAP);
  }

  /** A safe input stays safe and in step over a read. */
  lemma SafeRead(r: Reader, max: nat)
    requires Safe(r.input)
    ensures Safe(ReadState(r, max, LINE_CAP).input) && !PairIsIac(r.input)
  {
    hide Cook, Safe, PairIsIac;
    SafeAfter(r.input);
  }

  lemma ReadsStep(r: Reader, sizes: seq<nat>, i: nat, out: seq<u8>)
    requires i < |sizes|
    ensures out + ReadsOut(r, sizes[i..], LINE_CAP) ==
      out + ReadOut(r, sizes[i], LINE_CAP) + ReadsOut(ReadState(r, sizes[i], LINE_CAP), sizes[i + 1..], LINE_CAP)
    ensures ReadsState(r, sizes[i..], LINE_CAP) ==
      ReadsState(ReadState(r, sizes[i], LINE_CAP), sizes[i + 1..], LINE_CAP)
  {
    hide ReadOut, ReadState;
    assert sizes[i..][1..] == sizes[i + 1..];
  }

  lemma ReadsNothing(r: Reader, sizes: seq<nat>, out: seq<u8>)
    ensures out + ReadsOut(r, sizes[|sizes|..], LINE_CAP) == out && ReadsState(r, sizes[|sizes|..], LINE_CAP) == r
  {
  }

  /** Whether the byte behind the CR that ends this line is an escaped 0xFF. */
  predicate PairIsIac(d: seq<u8>) {
    var e := EndAt(d);
    e + 1 < |d| && d[e] == CR && d[e + 1] == IAC
  }

  /** Input without an escaped 0xFF behind a CR stays so, and in step. */
  lemma SafeAfter(d: seq<u8>)
    requires Safe(d)
    ensures !PairIsIac(d) && Safe(Cook(d, LINE_CAP).rest)
  {
    var e := EndAt(d);
    if e < |d| {
      if d[e] == CR && e + 1 < |d| && (d[e + 1] == LF || d[e + 1] == 0) {
        SafeSuffix(d, e + 2);
        assert d[e..][2..] == d[e + 2..];
      } else {
        SafeSuffix(d, e + 1);
        assert d[e..][1..] == d[e + 1..];
      }
    }
  }

  lemma DecodeNothing()
    ensures Decode([]) == []
  {
  }

  lemma DecodeStep(raw: seq<u8>)
    ensures match NextByte(raw)
      case None => Decode(raw) == []
      case Some((b, rest)) => Decode(raw) == [b] + Decode(rest)
  {
  }
}
