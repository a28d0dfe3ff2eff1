/** The console's line discipline: erase editing, line endings, end of file and
    server-side echo, drained by reads of any size. */
module Lines {
  import opened Words
  import opened Telnet

  const CR: u8 := 13
  const LF: u8 := 10
  const EOT: u8 := 4
  const BS: u8 := 8
  const DEL: u8 := 127

  // --- one line, on decoded input --------------------------------------------------

  predicate Ends(b: u8) { b == CR || b == LF || b == EOT }

  predicate NoEnd(keys: seq<u8>) { forall i :: 0 <= i < |keys| ==> !Ends(keys[i]) }

  /** Where the line ends: its first terminator, or the end of the input. */
  function EndAt(d: seq<u8>): (e: nat)
    ensures e <= |d| && NoEnd(d[..e])
    ensures e < |d| ==> Ends(d[e])
  {
    if d == [] || Ends(d[0]) then 0 else
      var e := EndAt(d[1..]);
      assert d[..e + 1] == [d[0]] + d[1..][..e];
      e + 1
  }

  /** The buffer after one key that does not end the line. */
  function Press(buf: seq<u8>, b: u8, cap: nat): seq<u8> {
    if b == 0 then buf
    else if b == DEL || b == BS then (if buf == [] then buf else buf[..|buf| - 1])
    else if |buf| < cap then buf + [b]
    else buf
  }

  /** What that key makes the terminal receive. */
  function EchoKey(buf: seq<u8>, b: u8, cap: nat): seq<u8> {
    if b == 0 then []
    else if b == DEL || b == BS then (if buf == [] then [] else [BS, 32, BS])
    else if |buf| < cap && (b >= 32 || b == 9) then [b]
    else []
  }

  function Edit(keys: seq<u8>, cap: nat): (buf: seq<u8>)
    ensures |buf| <= cap && |buf| <= |keys|
  {
    if keys == [] then [] else Press(Edit(keys[..|keys| - 1], cap), keys[|keys| - 1], cap)
  }

  function Echo(keys: seq<u8>, cap: nat): seq<u8> {
    if keys == [] then [] else
      Echo(keys[..|keys| - 1], cap) + EchoKey(Edit(keys[..|keys| - 1], cap), keys[|keys| - 1], cap)
  }

  /** The line, and the input after it. */
  datatype Cooked = Cooked(line: seq<u8>, rest: seq<u8>)

  /** Input from a terminator on, without the terminator: a CR takes an LF or a
      NUL behind it along. */
  function AfterEnd(t: seq<u8>): (rest: seq<u8>)
    requires t != []
    ensures |rest| < |t|
  {
    if t[0] == CR && |t| > 1 && (t[1] == LF || t[1] == 0) then t[2..] else t[1..]
  }

  function Cook(d: seq<u8>, cap: nat): (c: Cooked)
    ensures d != [] ==> |c.rest| < |d|
    ensures |c.rest| <= |d| && |c.line| <= cap
  {
    var e := EndAt(d);
    var buf := Edit(d[..e], cap);
    if e == |d| then Cooked(buf, [])
    else Cooked(if d[e] != EOT && |buf| < cap then buf + [LF] else buf, AfterEnd(d[e..]))
  }

  function CookEcho(d: seq<u8>, cap: nat): seq<u8> {
    Echo(d[..EndAt(d)], cap) + EndEcho(d[EndAt(d)..])
  }

  /** A terminator moves the terminal to a new line; a client that hung up right
      after its CR gets nothing. */
  function EndEcho(t: seq<u8>): seq<u8> {
    if t == [] || t[0] == EOT || (t[0] == CR && |t| == 1) then [] else [CR, LF]
  }

  /** Zero is returned, and only returned, for an empty line closed by the
      end-of-file key or by the disconnect. */
  lemma ZeroMeansEof(d: seq<u8>, cap: nat)
    requires cap > 0
    ensures Cook(d, cap).line == [] <==>
      (Edit(d[..EndAt(d)], cap) == [] && (EndAt(d) == |d| || d[EndAt(d)] == EOT))
  {
  }

  lemma {:induction false} EndOf(keys: seq<u8>, tail: seq<u8>)
    requires NoEnd(keys)
    ensures EndAt(keys + tail) == |keys| + EndAt(tail)
    decreases |keys|
  {
    if keys == [] {
      assert keys + tail == tail;
    } else {
      EndOf(keys[1..], tail);
      assert (keys + tail)[1..] == keys[1..] + tail;
    }
  }

  /** Once the keys of a line are known, so is the whole result. */
  lemma CookAt(keys: seq<u8>, tail: seq<u8>, cap: nat)
    requires NoEnd(keys) && (tail == [] || Ends(tail[0]))
    ensures tail == [] ==> Cook(keys + tail, cap) == Cooked(Edit(keys, cap), [])
    ensures tail != [] ==>
      Cook(keys + tail, cap).rest == AfterEnd(tail) &&
      Cook(keys + tail, cap).line ==
        Edit(keys, cap) + (if tail[0] != EOT && |Edit(keys, cap)| < cap then [LF] else [])
    ensures EndAt(keys + tail) == |keys|
    ensures (keys + tail)[..|keys|] == keys && (keys + tail)[|keys|..] == tail
  {
    hide Edit, AfterEnd;
    EndOf(keys, tail);
    var d := keys + tail;
    assert d[..|keys|] == keys && d[|keys|..] == tail;
  }

  // --- all the lines of an input -----------------------------------------------------

  /** The edited text of the whole input. */
  function Text(d: seq<u8>, cap: nat): seq<u8>
    decreases |d|
  {
    if d == [] then [] else Cook(d, cap).line + Text(Cook(d, cap).rest, cap)
  }

  lemma TextStep(d: seq<u8>, cap: nat)
    ensures Text(d, cap) == Cook(d, cap).line + if d == [] then [] else Text(Cook(d, cap).rest, cap)
  {
  }

  /** A read of at most max bytes: leftovers first, a fresh line if there are none. */
  datatype Reader = Reader(left: seq<u8>, input: seq<u8>)

  function Refill(r: Reader, cap: nat): Reader {
    if r.left != [] then r else Reader(Cook(r.input, cap).line, Cook(r.input, cap).rest)
  }

  function Min(a: nat, b: nat): nat { if a < b then a else b }

  function ReadOut(r: Reader, max: nat, cap: nat): seq<u8> {
    var f := Refill(r, cap);
    f.left[..Min(max, |f.left|)]
  }

  function ReadState(r: Reader, max: nat, cap: nat): Reader {
    var f := Refill(r, cap);
    Reader(f.left[Min(max, |f.left|)..], f.input)
  }

  function ReadsOut(r: Reader, sizes: seq<nat>, cap: nat): seq<u8>
    decreases |sizes|
  {
    if sizes == [] then [] else
      ReadOut(r, sizes[0], cap) + ReadsOut(ReadState(r, sizes[0], cap), sizes[1..], cap)
  }

  function ReadsState(r: Reader, sizes: seq<nat>, cap: nat): Reader
    decreases |sizes|
  {
    if sizes == [] then r else ReadsState(ReadState(r, sizes[0], cap), sizes[1..], cap)
  }

  /** Everything still to be read. */
  function Owed(r: Reader, cap: nat): seq<u8> { r.left + Text(r.input, cap) }

  lemma TextOfNothing(cap: nat)
    ensures Cook([], cap) == Cooked([], [])
  {
  }

  lemma RefillKeeps(r: Reader, cap: nat)
    ensures Owed(Refill(r, cap), cap) == Owed(r, cap)
  {
    hide Cook;
    if r.left == [] {
      if r.input == [] {
        TextOfNothing(cap);
      } else {
        assert Text(r.input, cap) == Cook(r.input, cap).line + Text(Cook(r.input, cap).rest, cap);
      }
    }
  }

  lemma ReadKeeps(r: Reader, max: nat, cap: nat)
    ensures ReadOut(r, max, cap) + Owed(ReadState(r, max, cap), cap) == Owed(r, cap)
  {
    hide Cook, Refill, Text;
    RefillKeeps(r, cap);
    var f := Refill(r, cap);
    var k := Min(max, |f.left|);
    assert f.left[..k] + (f.left[k..] + Text(f.input, cap)) == f.left + Text(f.input, cap);
  }

  /** Reads of any sizes return the edited text in order: what they have
      returned and what is still owed is always the whole of it. */
  lemma {:induction false} ReadsKeep(r: Reader, sizes: seq<nat>, cap: nat)
    ensures ReadsOut(r, sizes, cap) + Owed(ReadsState(r, sizes, cap), cap) == Owed(r, cap)
    decreases |sizes|
  {
    hide Cook, Refill, Text, Owed, ReadOut, ReadState;
    if sizes == [] {
    } else {
      var s := ReadState(r, sizes[0], cap);
      ReadKeeps(r, sizes[0], cap);
      ReadsKeep(s, sizes[1..], cap);
      var o, os := ReadOut(r, sizes[0], cap), ReadsOut(s, sizes[1..], cap);
      var w := Owed(ReadsState(s, sizes[1..], cap), cap);
      assert (o + os) + w == o + (os + w);
    }
  }

  /** A positive read makes progress: it returns something, or it steps over an
      end-of-file mark in the input, or everything has been read. */
  lemma ReadProgress(r: Reader, max: nat, cap: nat)
    requires max > 0
    ensures ReadOut(r, max, cap) == [] <==> r.left == [] && Cook(r.input, cap).line == []
    ensures ReadOut(r, max, cap) == [] && r.input != [] ==> |ReadState(r, max, cap).input| < |r.input|
    ensures ReadOut(r, max, cap) == [] && r.input == [] ==> Owed(r, cap) == []
    ensures |ReadState(r, max, cap).input| <= |r.input|
  {
  }

  /** Enough positive reads deliver all of it. */
  lemma {:induction false} ReadsDrain(r: Reader, sizes: seq<nat>, cap: nat)
    requires forall i :: 0 <= i < |sizes| ==> sizes[i] > 0
    requires |sizes| >= |Owed(r, cap)| + |r.input|
    ensures ReadsOut(r, sizes, cap) == Owed(r, cap)
    decreases |sizes|
  {
    hide Cook, Refill, Text, Owed, ReadOut, ReadState;
    ReadsKeep(r, sizes, cap);
    if |Owed(r, cap)| > 0 {
      var s := ReadState(r, sizes[0], cap);
      ReadProgress(r, sizes[0], cap);
      ReadKeeps(r, sizes[0], cap);
      ReadsDrain(s, sizes[1..], cap);
    }
  }

  // --- typed lines ---------------------------------------------------------------------

  datatype Ending = BareCr | BareLf | CrLf | CrNul

  datatype Typed = Typed(keys: seq<u8>, end: Ending)

  function EndBytes(e: Ending): seq<u8> {
    match e case BareCr => [CR] case BareLf => [LF] case CrLf => [CR, LF] case CrNul => [CR, 0]
  }

  function Wired(ls: seq<Typed>): seq<u8> {
    if ls == [] then [] else ls[0].keys + EndBytes(ls[0].end) + Wired(ls[1..])
  }

  function Meant(ls: seq<Typed>, cap: nat): seq<u8> {
    if ls == [] then [] else Edit(ls[0].keys, cap) + [LF] + Meant(ls[1..], cap)
  }

  /** Whether a line may follow a bare CR without being taken for part of it. */
  predicate Follows(l: Typed) {
    if l.keys == [] then !l.end.BareLf? else l.keys[0] != 0
  }

  /** A bare CR is told from CR LF and CR NUL by what comes next. */
  predicate Distinct(ls: seq<Typed>) {
    (forall i :: 0 <= i < |ls| ==> NoEnd(ls[i].keys)) &&
    (forall i :: 1 <= i < |ls| ==> Follows(ls[i]) || !ls[i - 1].end.BareCr?)
  }

  /** Under the cap, there is always room for the newline. */
  predicate Roomy(ls: seq<Typed>, cap: nat) {
    forall i :: 0 <= i < |ls| ==> |ls[i].keys| < cap
  }

  lemma CookTyped(l: Typed, tail: seq<u8>, cap: nat)
    requires NoEnd(l.keys) && |l.keys| < cap
    requires l.end.BareCr? && tail != [] ==> tail[0] != LF && tail[0] != 0
    ensures Cook(l.keys + EndBytes(l.end) + tail, cap) == Cooked(Edit(l.keys, cap) + [LF], tail)
  {
    hide Edit, Cook, EndAt, AfterEnd, EndBytes;
    var e := EndBytes(l.end) + tail;
    assert l.keys + EndBytes(l.end) + tail == l.keys + e;
    AfterEnding(l.end, tail);
    CookAt(l.keys, e, cap);
  }

  lemma AfterEnding(end: Ending, tail: seq<u8>)
    requires end.BareCr? && tail != [] ==> tail[0] != LF && tail[0] != 0
    ensures var e := EndBytes(end) + tail; e != [] && (e[0] == CR || e[0] == LF) && AfterEnd(e) == tail
  {
    var e := EndBytes(end) + tail;
    assert e[|EndBytes(end)|..] == tail;
  }

  lemma WiredHead(ls: seq<Typed>)
    requires ls != []
    ensures Wired(ls) != []
    ensures Wired(ls)[0] == (if ls[0].keys != [] then ls[0].keys[0] else if ls[0].end.BareLf? then LF else CR)
  {
  }

  /** CR, LF, CR LF and CR NUL each end one line, and each line reads as its
      edited keys and a newline. */
  lemma {:induction false} TypedLines(ls: seq<Typed>, cap: nat)
    requires Distinct(ls) && Roomy(ls, cap)
    ensures Text(Wired(ls), cap) == Meant(ls, cap)
    decreases |ls|
  {
    hide Cook, Edit, EndBytes, Text;
    if ls == [] {
      TextStep([], cap);
      TextOfNothing(cap);
    } else {
      var l, tail := ls[0], Wired(ls[1..]);
      assert Distinct(ls[1..]) && Roomy(ls[1..], cap);
      if ls[1..] != [] {
        WiredHead(ls[1..]);
        assert ls[1..][0] == ls[1];
      }
      CookTyped(l, tail, cap);
      WiredHead(ls);
      TextStep(Wired(ls), cap);
      TypedLines(ls[1..], cap);
    }
  }

  // --- the echo on a terminal ----------------------------------------------------------

  /** One row of a terminal and its cursor. */
  datatype Screen = Screen(cells: seq<u8>, cur: nat)

  /** BS moves left without erasing; anything else is drawn over the cell there. */
  function Draw(s: Screen, b: u8): Screen {
    if b == BS then Screen(s.cells, if s.cur == 0 then 0 else s.cur - 1)
    else if s.cur < |s.cells| then Screen(s.cells[s.cur := b], s.cur + 1)
    else Screen(s.cells + [b], s.cur + 1)
  }

  function Drawn(s: Screen, out: seq<u8>): Screen {
    if out == [] then s else Draw(Drawn(s, out[..|out| - 1]), out[|out| - 1])
  }

  lemma {:induction false} DrawnAppend(s: Screen, x: seq<u8>, y: seq<u8>)
    ensures Drawn(s, x + y) == Drawn(Drawn(s, x), y)
    decreases |y|
  {
    if y == [] {
      assert x + y == x;
    } else {
      DrawnAppend(s, x, y[..|y| - 1]);
      assert (x + y)[..|x + y| - 1] == x + y[..|y| - 1];
    }
  }

  function Blanks(n: nat): seq<u8> { seq(n, _ => 32) }

  predicate Erases(b: u8) { b == BS || b == DEL }

  predicate Displayable(b: u8) { b == 0 || Erases(b) || b >= 32 }

  lemma Rubout(s: Screen)
    ensures Drawn(s, [BS, 32, BS]) == Draw(Draw(Draw(s, BS), 32), BS)
  {
    assert [BS, 32, BS][..2] == [BS, 32] && [BS, 32][..1] == [BS] && [BS][..0] == [];
    assert Drawn(s, [BS]) == Draw(s, BS);
    assert Drawn(s, [BS, 32]) == Draw(Draw(s, BS), 32);
  }

  lemma DrawOne(s: Screen, b: u8)
    ensures Drawn(s, [b]) == Draw(s, b)
  {
    assert [b][..0] == [];
    assert Drawn(s, []) == s;
  }

  /** The row after a prompt and a buffer, with n cells rubbed out behind. */
  function Row(prompt: seq<u8>, buf: seq<u8>, n: nat): Screen {
    Screen(prompt + buf + Blanks(n), |prompt| + |buf|)
  }

  lemma EchoErase(prompt: seq<u8>, buf: seq<u8>, n: nat)
    requires buf != []
    ensures Drawn(Row(prompt, buf, n), [BS, 32, BS]) == Row(prompt, buf[..|buf| - 1], n + 1)
  {
    hide Drawn;
    var s := Row(prompt, buf, n);
    Rubout(s);
    var c := s.cur - 1;
    assert s.cells[c := 32] == prompt + buf[..|buf| - 1] + Blanks(n + 1);
  }

  lemma EchoPrint(prompt: seq<u8>, buf: seq<u8>, n: nat, b: u8)
    requires b >= 32
    ensures Drawn(Row(prompt, buf, n), [b]) == Row(prompt, buf + [b], if n == 0 then 0 else n - 1)
  {
    hide Drawn;
    var s := Row(prompt, buf, n);
    DrawOne(s, b);
    if n == 0 {
      assert s.cells + [b] == prompt + (buf + [b]) + Blanks(0);
    } else {
      assert s.cells[s.cur := b] == prompt + (buf + [b]) + Blanks(n - 1);
    }
  }

  /** Rubbed-out cells behind the text after one key. */
  function Behind(keys: seq<u8>, cap: nat): nat {
    if keys == [] then 0 else
      var n := Behind(keys[..|keys| - 1], cap);
      var e := EchoKey(Edit(keys[..|keys| - 1], cap), keys[|keys| - 1], cap);
      if |e| == 3 then n + 1 else if |e| == 1 && n > 0 then n - 1 else n
  }

  /** Bytes taken into the buffer that are never drawn, or not in one cell. */
  function Hidden(keys: seq<u8>, cap: nat): nat {
    if keys == [] then 0 else
      Hidden(keys[..|keys| - 1], cap) +
      (if !Displayable(keys[|keys| - 1]) && |Edit(keys[..|keys| - 1], cap)| < cap then 1 else 0)
  }

  /** Below the cap every byte is taken. */
  lemma {:induction false} HiddenBound(keys: seq<u8>, cap: nat)
    ensures (forall i :: 0 <= i < |keys| ==> Displayable(keys[i])) ==> Hidden(keys, cap) == 0
    ensures |keys| <= cap && Hidden(keys, cap) == 0 ==> forall i :: 0 <= i < |keys| ==> Displayable(keys[i])
    decreases |keys|
  {
    if keys == [] {
    } else {
      HiddenBound(keys[..|keys| - 1], cap);
      assert forall i :: 0 <= i < |keys| - 1 ==> keys[..|keys| - 1][i] == keys[i];
    }
  }

  /** On printable input with erases the echo leaves exactly the buffer behind
      the prompt, and only blanks behind that. */
  lemma {:induction false} EchoShows(prompt: seq<u8>, keys: seq<u8>, cap: nat)
    requires Hidden(keys, cap) == 0
    ensures Drawn(Row(prompt, [], 0), Echo(keys, cap)) == Row(prompt, Edit(keys, cap), Behind(keys, cap))
    decreases |keys|
  {
    hide Drawn, Row;
    if keys == [] {
      DrawnNothing(Row(prompt, [], 0));
    } else {
      var before, b := keys[..|keys| - 1], keys[|keys| - 1];
      EchoShows(prompt, before, cap);
      var buf, n := Edit(before, cap), Behind(before, cap);
      DrawnAppend(Row(prompt, [], 0), Echo(before, cap), EchoKey(buf, b, cap));
      if EchoKey(buf, b, cap) == [] {
        DrawnNothing(Row(prompt, buf, n));
      } else if Erases(b) {
        EchoErase(prompt, buf, n);
      } else {
        EchoPrint(prompt, buf, n, b);
      }
    }
  }

  lemma DrawnNothing(s: Screen)
    ensures Drawn(s, []) == s
  {
  }

  lemma {:induction false} CursorLags(start: Screen, keys: seq<u8>, cap: nat)
    requires Hidden(keys, cap) <= start.cur
    requires 9 !in keys
    ensures Drawn(start, Echo(keys, cap)).cur + Hidden(keys, cap) == start.cur + |Edit(keys, cap)|
    decreases |keys|
  {
    hide Drawn;
    if keys == [] {
      DrawnNothing(start);
    } else {
      var before, b := keys[..|keys| - 1], keys[|keys| - 1];
      CursorLags(start, before, cap);
      var buf, s := Edit(before, cap), Drawn(start, Echo(before, cap));
      var e := EchoKey(buf, b, cap);
      DrawnAppend(start, Echo(before, cap), e);
      DrawnNothing(s);
      if |e| == 1 { DrawOne(s, b); }
      if |e| == 3 { Rubout(s); }
    }
  }

  /** Exactly: each control byte taken leaves the cursor one cell short of the
      text for good (tabs aside, which a terminal expands its own way; and as
      long as erases do not reach the left edge). */
  lemma EchoInStepIff(prompt: seq<u8>, keys: seq<u8>, cap: nat)
    requires Hidden(keys, cap) <= |prompt| && 9 !in keys
    ensures Hidden(keys, cap) == 0 <==>
      Drawn(Row(prompt, [], 0), Echo(keys, cap)) == Row(prompt, Edit(keys, cap), Behind(keys, cap))
    ensures |keys| <= cap ==> (Hidden(keys, cap) == 0 <==> forall i :: 0 <= i < |keys| ==> Displayable(keys[i]))
  {
    hide Drawn, Edit, Echo, Hidden, Behind;
    CursorLags(Row(prompt, [], 0), keys, cap);
    HiddenBound(keys, cap);
    if Hidden(keys, cap) == 0 {
      EchoShows(prompt, keys, cap);
    }
  }

  /** One more key. */
  lemma EditOne(keys: seq<u8>, b: u8, cap: nat)
    ensures NoEnd(keys) && !Ends(b) ==> NoEnd(keys + [b])
    ensures Edit(keys + [b], cap) == Press(Edit(keys, cap), b, cap)
    ensures Echo(keys + [b], cap) == Echo(keys, cap) + EchoKey(Edit(keys, cap), b, cap)
    ensures Hidden(keys + [b], cap) ==
      Hidden(keys, cap) + (if !Displayable(b) && |Edit(keys, cap)| < cap then 1 else 0)
  {
    assert (keys + [b])[..|keys|] == keys;
  }

  lemma EditNothing(cap: nat)
    ensures Edit([], cap) == [] && Echo([], cap) == [] && NoEnd([]) && Hidden([], cap) == 0
  {
  }

  /** Control-A and a letter typed after "$ ": two bytes are in the line, and the
      cursor has moved by one. */
  lemma ControlKeyExample()
    ensures Edit([1, 65], 4100) == [1, 65]
    ensures Drawn(Row([36, 32], [], 0), Echo([1, 65], 4100)).cur == 3
  {
    hide Edit, Echo, Hidden, Drawn;
    EditNothing(4100);
    EditOne([], 1, 4100);
    EditOne([1], 65, 4100);
    assert [] + [1] == [1] && [1] + [65] == [1, 65];
    CursorLags(Row([36, 32], [], 0), [1, 65], 4100);
  }
}
