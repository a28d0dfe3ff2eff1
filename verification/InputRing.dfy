/** The page's input ring: two free-running 32-bit counters over 8192 bytes,
    against a bounded first-in-first-out queue. */
module InputRing {
  import opened Words

  const RING_CAP: nat := 8192

  // --- the queue it stands for ---------------------------------------------------

  datatype Got = Byte(b: u8) | Closed | Waiting

  datatype Op = Push(bytes: seq<u8>) | Take

  /** A push keeps what fits; a byte is dropped only when the queue is full. */
  function Pushed(q: seq<u8>, bytes: seq<u8>): seq<u8>
    decreases |bytes|
  {
    if bytes == [] then q
    else Pushed(if |q| < RING_CAP then q + [bytes[0]] else q, bytes[1..])
  }

  function After(q: seq<u8>, ops: seq<Op>): seq<u8>
    decreases |ops|
  {
    if ops == [] then q
    else match ops[0]
      case Push(bytes) => After(Pushed(q, bytes), ops[1..])
      case Take => After(if q == [] then q else q[1..], ops[1..])
  }

  /** The bytes taken, in order. */
  function Taken(q: seq<u8>, ops: seq<Op>): seq<u8>
    decreases |ops|
  {
    if ops == [] then []
    else match ops[0]
      case Push(bytes) => Taken(Pushed(q, bytes), ops[1..])
      case Take => if q == [] then Taken(q, ops[1..]) else [q[0]] + Taken(q[1..], ops[1..])
  }

  function Offered(ops: seq<Op>): seq<u8> {
    if ops == [] then [] else (if ops[0].Push? then ops[0].bytes else []) + Offered(ops[1..])
  }

  /** No push ever meets a queue it does not fit in. */
  predicate Fits(q: seq<u8>, ops: seq<Op>)
    decreases |ops|
  {
    ops == [] ||
    match ops[0]
    case Push(bytes) => |q| + |bytes| <= RING_CAP && Fits(q + bytes, ops[1..])
    case Take => Fits(if q == [] then q else q[1..], ops[1..])
  }

  /** In closed form: what fits of the whole. */
  lemma {:induction false} PushedKeeps(q: seq<u8>, bytes: seq<u8>)
    requires |q| <= RING_CAP
    ensures Pushed(q, bytes) == if |q| + |bytes| <= RING_CAP then q + bytes else (q + bytes)[..RING_CAP]
    decreases |bytes|
  {
    if bytes == [] {
      assert q + bytes == q;
    } else {
      PushedKeeps(if |q| < RING_CAP then q + [bytes[0]] else q, bytes[1..]);
      assert q + [bytes[0]] + bytes[1..] == q + bytes;
    }
  }

  /** Every byte comes out once and in order, for any run that never meets a
      full queue. */
  lemma {:induction false} Lossless(q: seq<u8>, ops: seq<Op>)
    requires |q| <= RING_CAP && Fits(q, ops)
    ensures Taken(q, ops) + After(q, ops) == q + Offered(ops)
    decreases |ops|
  {
    hide Taken, After, Fits, Offered, Pushed;
    if ops == [] {
      NothingRuns(q);
    } else {
      var next := Next(q, ops[0]);
      RunStep(q, ops);
      Lossless(next, ops[1..]);
      Regroup(q, ops[0], Taken(next, ops[1..]), After(next, ops[1..]), Offered(ops[1..]));
    }
  }

  /** The queue after one operation, the byte it takes and those it offers. */
  function Next(q: seq<u8>, op: Op): seq<u8> {
    match op case Push(bytes) => Pushed(q, bytes) case Take => if q == [] then q else q[1..]
  }

  function Emitted(q: seq<u8>, op: Op): seq<u8> { if op.Take? && q != [] then [q[0]] else [] }

  function Given(op: Op): seq<u8> { if op.Push? then op.bytes else [] }

  lemma NothingRuns(q: seq<u8>)
    ensures Taken(q, []) == [] && After(q, []) == q && Offered([]) == []
  {
  }

  lemma RunStep(q: seq<u8>, ops: seq<Op>)
    requires |q| <= RING_CAP && ops != [] && Fits(q, ops)
    ensures Taken(q, ops) == Emitted(q, ops[0]) + Taken(Next(q, ops[0]), ops[1..])
    ensures After(q, ops) == After(Next(q, ops[0]), ops[1..]) && Offered(ops) == Given(ops[0]) + Offered(ops[1..])
    ensures |Next(q, ops[0])| <= RING_CAP && Fits(Next(q, ops[0]), ops[1..])
    ensures Emitted(q, ops[0]) + Next(q, ops[0]) == q + Given(ops[0])
  {
    hide Pushed;
    match ops[0] {
      case Push(bytes) => PushedKeeps(q, bytes);
      case Take =>
        hide Fits;
        HeadTaken(q);
        FitsTake(q, ops);
    }
  }

  lemma HeadTaken(q: seq<u8>)
    ensures Emitted(q, Take) + Next(q, Take) == q
  {
  }

  lemma FitsTake(q: seq<u8>, ops: seq<Op>)
    requires ops != [] && ops[0].Take? && Fits(q, ops)
    ensures Fits(Next(q, Take), ops[1..])
  {
  }

  lemma Regroup(q: seq<u8>, op: Op, t: seq<u8>, a: seq<u8>, o: seq<u8>)
    requires Emitted(q, op) + Next(q, op) == q + Given(op) && t + a == Next(q, op) + o
    ensures Emitted(q, op) + t + a == q + (Given(op) + o)
  {
    hide Emitted, Next, Given;
    assert Emitted(q, op) + t + a == Emitted(q, op) + (t + a);
    assert Emitted(q, op) + (Next(q, op) + o) == Emitted(q, op) + Next(q, op) + o;
  }

  // --- the ring ----------------------------------------------------------------------

  function Slot(x: nat): (k: nat)
    ensures k < RING_CAP
  {
    x % RING_CAP
  }

  /** n bytes from counter r on, in a ring's buffer. */
  function Window(s: seq<u8>, r: u32, n: nat): (q: seq<u8>)
    requires |s| == RING_CAP
    ensures |q| == n && forall i {:trigger q[i]} :: 0 <= i < n ==> q[i] == s[Slot(r + i)]
  {
    seq(n, i requires 0 <= i < n => s[Slot(r + i)])
  }

  /** The capacity divides the counters' range, so a counter that wraps stays on
      its slot. */
  lemma WrapSlot(x: nat)
    ensures Slot(Wrap(x)) == Slot(x)
  {
    assert x == Wrap(x) + RING_CAP * (x / 0x1_0000_0000 * 0x8_0000);
    DivModUnique(x, RING_CAP, x / RING_CAP, x % RING_CAP);
    DivModUnique(x, RING_CAP, Wrap(x) / RING_CAP + x / 0x1_0000_0000 * 0x8_0000, Slot(Wrap(x)));
  }

  lemma SlotsDiffer(x: nat, i: nat, n: nat)
    requires i < n < RING_CAP
    ensures Slot(x + i) != Slot(x + n)
  {
  }

  lemma WindowPush(s: seq<u8>, r: u32, n: nat, b: u8)
    requires |s| == RING_CAP && n < RING_CAP
    ensures Window(s[Slot(Wrap(r + n)) := b], r, n + 1) == Window(s, r, n) + [b]
  {
    hide Slot;
    WrapSlot(r + n);
    var x, y := Window(s[Slot(Wrap(r + n)) := b], r, n + 1), Window(s, r, n) + [b];
    forall i | 0 <= i < n + 1 ensures x[i] == y[i] {
      if i < n { SlotsDiffer(r, i, n); }
    }
  }

  lemma WindowTake(s: seq<u8>, r: u32, n: nat)
    requires |s| == RING_CAP && 0 < n <= RING_CAP
    ensures Window(s, r, n)[1..] == Window(s, Wrap(r + 1), n - 1)
  {
    var x, y := Window(s, r, n)[1..], Window(s, Wrap(r + 1), n - 1);
    forall i | 0 <= i < n - 1 ensures x[i] == y[i] {
      WrapSlot(r + 1 + i);
      WrapSlot(Wrap(r + 1) + i);
      WrapAdd(r + 1, i);
      assert x[i] == Window(s, r, n)[i + 1];
    }
  }

  class Ring {
    const buf: array<u8>
    var r: u32
    var w: u32
    var eof: bool

    constructor ()
      ensures Valid() && fresh(buf) && Contents() == [] && !eof
    {
      buf := new u8[RING_CAP](_ => 0);
      r, w, eof := 0, 0, false;
    }

    function Avail(): nat
      reads this
    {
      Wrap(w - r)
    }

    ghost predicate Valid()
      reads this
    {
      buf.Length == RING_CAP && Avail() <= RING_CAP
    }

    ghost function Contents(): seq<u8>
      requires Valid()
      reads this, buf
    {
      Window(buf[..], r, Avail())
    }

    method PushByte(b: u8)
      requires Valid()
      modifies this`w, buf
      ensures Valid()
      ensures Contents() == if old(|Contents()|) < RING_CAP then old(Contents()) + [b] else old(Contents())
    {
      ghost var n := Avail();
      if Wrap(w - r) < RING_CAP {
        Counters(r, w, n);
        WindowPush(buf[..], r, n, b);
        buf[Slot(w)] := b;
        w := Wrap(w + 1);
      }
    }

    /** Keystrokes arrive. */
    method Push(p: seq<u8>)
      requires Valid()
      modifies this`w, buf
      ensures Valid()
      ensures Contents() == Pushed(old(Contents()), p)
    {
      for i := 0 to |p|
        invariant Valid()
        invariant Pushed(Contents(), p[i..]) == Pushed(old(Contents()), p)
      {
        assert p[i..][1..] == p[i + 1..];
        PushByte(p[i]);
      }
    }

    /** One attempt to take a byte: with nothing typed it reports end of input, or
        that the caller sleeps and tries again. */
    method Getc() returns (got: Got)
      requires Valid()
      modifies this`r
      ensures Valid()
      ensures old(Contents()) == [] ==> Contents() == [] && got == (if eof then Closed else Waiting)
      ensures old(Contents()) != [] ==> got == Byte(old(Contents())[0]) && Contents() == old(Contents())[1..]
    {
      if r == w { return if eof then Closed else Waiting; }
      ghost var n := Avail();
      Counters(r, w, n);
      WindowTake(buf[..], r, n);
      got := Byte(buf[Slot(r)]);
      r := Wrap(r + 1);
    }

    /** Any run of keystrokes and takes: what is taken and what is left is the queue's,
        and nothing is lost or reordered if no push met a full ring. */
    method Play(ops: seq<Op>) returns (got: seq<u8>)
      requires Valid()
      modifies this, buf
      ensures Valid()
      ensures got == Taken(old(Contents()), ops) && Contents() == After(old(Contents()), ops)
      ensures Fits(old(Contents()), ops) ==> got + Contents() == old(Contents()) + Offered(ops)
    {
      hide Pushed, Taken, After, Fits, Window;
      ghost var q0 := Contents();
      got := [];
      assert ops[0..] == ops;
      for i := 0 to |ops|
        invariant Valid()
        invariant Taken(q0, ops) == got + Taken(Contents(), ops[i..])
        invariant After(q0, ops) == After(Contents(), ops[i..])
      {
        PlayStep(Contents(), ops, i, got);
        match ops[i] {
          case Push(bytes) => Push(bytes);
          case Take =>
            var g := Getc();
            if g.Byte? { got := got + [g.b]; }
        }
      }
      PlayNothing(Contents(), ops, got);
      if Fits(q0, ops) { Lossless(q0, ops); }
    }
  }

  lemma PlayStep(q: seq<u8>, ops: seq<Op>, i: nat, got: seq<u8>)
    requires i < |ops|
    ensures got + Taken(q, ops[i..]) == match ops[i]
      case Push(bytes) => got + Taken(Pushed(q, bytes), ops[i + 1..])
      case Take => if q == [] then got + Taken(q, ops[i + 1..]) else got + [q[0]] + Taken(q[1..], ops[i + 1..])
    ensures After(q, ops[i..]) == match ops[i]
      case Push(bytes) => After(Pushed(q, bytes), ops[i + 1..])
      case Take => After(if q == [] then q else q[1..], ops[i + 1..])
  {
    hide Pushed;
    assert ops[i..][1..] == ops[i + 1..];
    if ops[i].Take? && q != [] {
      assert got + ([q[0]] + Taken(q[1..], ops[i + 1..])) == got + [q[0]] + Taken(q[1..], ops[i + 1..]);
    }
  }

  lemma PlayNothing(q: seq<u8>, ops: seq<Op>, got: seq<u8>)
    ensures got + Taken(q, ops[|ops|..]) == got && After(q, ops[|ops|..]) == q
  {
  }

  /** Counters a wrapped distance apart, and one step further on either side. */
  lemma Counters(r: u32, w: u32, n: nat)
    requires n == Wrap(w - r) && n <= RING_CAP
    ensures w == Wrap(r + n)
    ensures Wrap(Wrap(w + 1) - r) == n + 1
    ensures n > 0 ==> Wrap(w - Wrap(r + 1)) == n - 1
    ensures n == 0 <==> r == w
  {
    Apart(r, w);
    Apart(r, Wrap(w + 1));
    Apart(Wrap(r + 1), w);
  }

  lemma Apart(r: u32, w: u32)
    ensures Wrap(w - r) == if w >= r then w - r else w - r + 0x1_0000_0000
    ensures Wrap(w + 1) == if w == 0xFFFF_FFFF then 0 else w + 1
    ensures Wrap(r + 1) == if r == 0xFFFF_FFFF then 0 else r + 1
  {
    if w < r {
      DivModUnique(w - r, 0x1_0000_0000, -1, w - r + 0x1_0000_0000);
    }
  }
}
