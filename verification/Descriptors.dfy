/** Which descriptors the emulator answers for, per process: one live working
    copy and 24 saved slots, against a plain map from process to its set. */
module Descriptors {
  import opened Words

  const SLOT_COUNT: nat := 24

  function Zeros(n: nat): (s: seq<int>)
    ensures |s| == n && forall i :: 0 <= i < n ==> s[i] == 0
  {
    seq(n, _ => 0)
  }

  type Bytes64 = s: seq<u8> | |s| == 64 witness Zeros(64)
  type Words64 = s: seq<u32> | |s| == 64 witness Zeros(64)

  datatype FdSet = FdSet(con: Bytes64, dsk: Bytes64, krn: Bytes64, off: Words64)

  const ZERO_SET: FdSet := FdSet(Zeros(64), Zeros(64), Zeros(64), Zeros(64))

  /** A set the code takes for one never filled in. */
  predicate Blank(s: FdSet) { s.con[0] == 0 && s.con[1] == 0 && s.con[2] == 0 && s.krn[0] == 0 }

  // --- the table as values -----------------------------------------------------------

  datatype Table = Table(saved: map<int, FdSet>, live: FdSet, cur: int)

  predicate Room(m: map<int, FdSet>, pid: int) { pid in m || |m| < SLOT_COUNT }

  /** A process's slot, a blank one if it had none; a full table gives none. */
  function Claim(m: map<int, FdSet>, pid: int): map<int, FdSet> {
    if pid in m || !Room(m, pid) then m else m[pid := ZERO_SET]
  }

  function SaveCurrent(t: Table): map<int, FdSet> {
    if t.cur > 0 && Room(t.saved, t.cur) then t.saved[t.cur := t.live] else t.saved
  }

  /** The parent's set if it has one that is filled in, else what is live. */
  function Inherited(m: map<int, FdSet>, live: FdSet, ppid: int): FdSet {
    if ppid > 0 && ppid in m && !Blank(m[ppid]) then m[ppid] else live
  }

  function ClaimParent(m: map<int, FdSet>, ppid: int): map<int, FdSet> {
    if ppid > 0 then Claim(m, ppid) else m
  }

  function Enter(m: map<int, FdSet>, live: FdSet, pid: int, ppid: int): Table
    requires pid in m
  {
    if !Blank(m[pid]) then Table(m, m[pid], pid) else
      var p := ClaimParent(m, ppid);
      var s := Inherited(p, live, ppid);
      Table(p[pid := s], s, pid)
  }

  function Switch(t: Table, pid: int, ppid: int): Table {
    if pid <= 0 || pid == t.cur then t else
      var m := SaveCurrent(t);
      if !Room(m, pid) then Table(m, t.live, pid) else Enter(Claim(m, pid), t.live, pid, ppid)
  }

  // --- the map it stands for -------------------------------------------------------------

  /** Every process seen owns a set; before the first, flags belong to the boot. */
  datatype Owners = Owners(sets: map<int, FdSet>, cur: int, boot: FdSet)

  function Running(o: Owners): FdSet { if o.cur in o.sets then o.sets[o.cur] else o.boot }

  datatype Event = SwitchTo(pid: int, ppid: int) | Change(to: FdSet)

  /** A process seen before gets its own set back; a new one starts from its
      parent's current set, if that is filled in, else from the running one. */
  function OwnersStep(o: Owners, e: Event): Owners {
    match e
    case SwitchTo(pid, ppid) =>
      if pid <= 0 then o
      else if pid in o.sets then o.(cur := pid)
      else
        var s := if ppid in o.sets && !Blank(o.sets[ppid]) then o.sets[ppid] else Running(o);
        Owners(o.sets[pid := s], pid, o.boot)
    case Change(to) =>
      if o.cur in o.sets then o.(sets := o.sets[o.cur := to]) else o.(boot := to)
  }

  function OwnersRun(o: Owners, es: seq<Event>): Owners
    decreases |es|
  {
    if es == [] then o else OwnersRun(OwnersStep(o, es[0]), es[1..])
  }

  function TableStep(t: Table, e: Event): Table {
    match e case SwitchTo(pid, ppid) => Switch(t, pid, ppid) case Change(to) => t.(live := to)
  }

  function TableRun(t: Table, es: seq<Event>): Table
    decreases |es|
  {
    if es == [] then t else TableRun(TableStep(t, es[0]), es[1..])
  }

  // --- the conditions it needs ---------------------------------------------------------------

  /** All processes and parents named fall in one set no larger than the table. */
  predicate Within(u: set<int>, e: Event) {
    e.SwitchTo? ==> (e.pid > 0 ==> e.pid in u && (e.ppid > 0 ==> e.ppid in u))
  }

  /** Nobody is switched out with a set that looks never filled in. */
  predicate LeavesFilled(o: Owners, e: Event) {
    e.SwitchTo? && e.pid > 0 && e.pid != o.cur && o.cur > 0 ==> !Blank(Running(o))
  }

  predicate Kept(o: Owners, es: seq<Event>)
    decreases |es|
  {
    es == [] || (LeavesFilled(o, es[0]) && Kept(OwnersStep(o, es[0]), es[1..]))
  }

  /** The saved slot of a process not running: its set, or blank if unseen. */
  predicate SlotMatches(t: Table, o: Owners, p: int)
    requires p in t.saved
  {
    if p in o.sets then p == o.cur || (t.saved[p] == o.sets[p] && !Blank(o.sets[p]))
    else t.saved[p] == ZERO_SET
  }

  predicate Matches(t: Table, o: Owners, u: set<int>) {
    t.cur == o.cur && t.live == Running(o) && (t.cur > 0 <==> t.cur in o.sets) &&
    o.sets.Keys <= t.saved.Keys <= u && |u| <= SLOT_COUNT &&
    (forall p :: p in t.saved ==> p > 0 && SlotMatches(t, o, p))
  }

  // --- refinement --------------------------------------------------------------------------

  lemma {:induction false} SmallerSet<T>(a: set<T>, b: set<T>)
    requires a <= b
    ensures |a| <= |b|
    ensures |a| == |b| ==> a == b
    decreases a
  {
    if a != {} {
      var x :| x in a;
      SmallerSet(a - {x}, b - {x});
      assert a == (a - {x}) + {x} && b == (b - {x}) + {x};
    }
  }

  /** Inside the universe there is always a slot. */
  lemma RoomInside(m: map<int, FdSet>, u: set<int>, pid: int)
    requires m.Keys <= u && |u| <= SLOT_COUNT && pid in u
    ensures Room(m, pid)
  {
    assert |m| == |m.Keys|;
    SmallerSet(m.Keys, u);
  }

  predicate SavedRight(m: map<int, FdSet>, o: Owners, p: int)
    requires p in m
  {
    p > 0 && if p in o.sets then m[p] == o.sets[p] && !Blank(m[p]) else m[p] == ZERO_SET
  }

  lemma SaveMatches(t: Table, o: Owners, u: set<int>)
    requires Matches(t, o, u) && (o.cur > 0 ==> !Blank(Running(o)))
    ensures o.sets.Keys <= SaveCurrent(t).Keys <= u
    ensures forall p :: p in SaveCurrent(t) ==> SavedRight(SaveCurrent(t), o, p)
  {
    if t.cur > 0 { RoomInside(t.saved, u, t.cur); }
  }

  lemma SwitchMatches(t: Table, o: Owners, u: set<int>, e: Event)
    requires Matches(t, o, u) && e.SwitchTo? && Within(u, e) && LeavesFilled(o, e)
    ensures Matches(TableStep(t, e), OwnersStep(o, e), u)
  {
    if e.pid > 0 && e.pid != t.cur {
      SaveMatches(t, o, u);
      var m := SaveCurrent(t);
      RoomInside(m, u, e.pid);
      var c := Claim(m, e.pid);
      if Blank(c[e.pid]) && e.ppid > 0 {
        RoomInside(c, u, e.ppid);
      }
    }
  }

  /** Over every run the live copy and the slots are that map: it refines. */
  lemma {:induction false} RunMatches(t: Table, o: Owners, u: set<int>, es: seq<Event>)
    requires Matches(t, o, u) && Kept(o, es)
    requires forall i :: 0 <= i < |es| ==> Within(u, es[i])
    ensures Matches(TableRun(t, es), OwnersRun(o, es), u)
    decreases |es|
  {
    if es == [] {
    } else {
      if es[0].SwitchTo? { SwitchMatches(t, o, u, es[0]); }
      RunMatches(TableStep(t, es[0]), OwnersStep(o, es[0]), u, es[1..]);
    }
  }

  // --- what it gives each process ------------------------------------------------------------

  predicate NeverEnters(es: seq<Event>, p: int) {
    forall i :: 0 <= i < |es| && es[i].SwitchTo? ==> es[i].pid != p
  }

  /** While others run, a process's set stays what it was. */
  lemma {:induction false} OthersUntouched(o: Owners, es: seq<Event>, p: int)
    requires p in o.sets && o.cur != p && NeverEnters(es, p)
    ensures var z := OwnersRun(o, es); p in z.sets && z.sets[p] == o.sets[p] && z.cur != p
    decreases |es|
  {
    if es == [] {
    } else {
      OthersUntouched(OwnersStep(o, es[0]), es[1..], p);
    }
  }

  lemma {:induction false} OwnersRunAppend(o: Owners, x: seq<Event>, y: seq<Event>)
    ensures OwnersRun(o, x + y) == OwnersRun(OwnersRun(o, x), y)
    decreases |x|
  {
    if x == [] {
      assert x + y == y;
    } else {
      OwnersRunAppend(OwnersStep(o, x[0]), x[1..], y);
      assert (x + y)[1..] == x[1..] + y;
    }
  }

  /** A process that runs again finds exactly the set it left, whatever the
      others did in between. */
  lemma Isolation(t: Table, o: Owners, u: set<int>, away: seq<Event>, ppid: int)
    requires Matches(t, o, u) && t.cur > 0
    requires away != [] && away[0].SwitchTo? && away[0].pid > 0 && NeverEnters(away, t.cur)
    requires var es := away + [SwitchTo(t.cur, ppid)];
      Kept(o, es) && forall i :: 0 <= i < |es| ==> Within(u, es[i])
    ensures TableRun(t, away + [SwitchTo(t.cur, ppid)]).live == t.live
  {
    hide Within, Kept, TableRun, SlotMatches;
    var back := SwitchTo(t.cur, ppid);
    RunMatches(t, o, u, away + [back]);
    OwnersRunAppend(o, away, [back]);
    assert OwnersRun(o, away) == OwnersRun(OwnersStep(o, away[0]), away[1..]);
    OthersUntouched(OwnersStep(o, away[0]), away[1..], t.cur);
    var z := OwnersRun(o, away);
    assert OwnersRun(z, [back]) == OwnersStep(z, back) by { OneEvent(z, back); }
  }

  lemma OneEvent(o: Owners, e: Event)
    ensures OwnersRun(o, [e]) == OwnersStep(o, e)
  {
    assert [e][1..] == [];
  }

  /** A process first seen starts from its parent's current set, the parent
      being the one running or not. */
  lemma ChildInherits(t: Table, o: Owners, u: set<int>, pid: int, ppid: int)
    requires Matches(t, o, u) && LeavesFilled(o, SwitchTo(pid, ppid)) && Within(u, SwitchTo(pid, ppid))
    requires pid > 0 && pid !in o.sets && ppid in o.sets && !Blank(o.sets[ppid])
    ensures Switch(t, pid, ppid).live == o.sets[ppid]
  {
    SwitchMatches(t, o, u, SwitchTo(pid, ppid));
  }

  /** Leaving a process saves its set if there is a slot for it. */
  lemma LeavingSaves(t: Table, pid: int, ppid: int)
    requires t.cur > 0 && pid > 0 && pid != t.cur && Room(t.saved, t.cur)
    ensures t.cur in Switch(t, pid, ppid).saved && Switch(t, pid, ppid).saved[t.cur] == t.live
  {
  }

  /** Exactly when a saved process gets its own set back: not if it left a blank
      one, since that is taken for one never filled in. */
  lemma ReturnsOwnSetIff(t: Table, pid: int, ppid: int)
    requires pid > 0 && pid != t.cur && pid in t.saved
    ensures Switch(t, pid, ppid).live == t.saved[pid] <==>
      !Blank(t.saved[pid]) ||
      (!(ppid > 0 && ppid in SaveCurrent(t) && !Blank(SaveCurrent(t)[ppid])) && t.live == t.saved[pid])
  {
    var m := SaveCurrent(t);
    assert m[pid] == t.saved[pid];
  }

  /** From boot: process 5 runs and closes everything, process 7 runs and opens
      descriptor 0, and 5 comes back with no known parent: it is given 7's set. */
  lemma BlankSetExample(boot: FdSet, full: FdSet)
    requires full.con[0] == 1
    ensures var left := TableRun(Table(map[], boot, -1), [SwitchTo(5, 0), Change(ZERO_SET)]);
      left.cur == 5 && left.live == ZERO_SET
    ensures var back := TableRun(Table(map[], boot, -1),
        [SwitchTo(5, 0), Change(ZERO_SET), SwitchTo(7, 0), Change(full), SwitchTo(5, 0)]);
      back.cur == 5 && back.live == full != ZERO_SET
  {
    hide Switch;
    var t0 := Table(map[], boot, -1);
    var t2, t4 := Table(map[5 := boot], ZERO_SET, 5), Table(map[5 := ZERO_SET, 7 := ZERO_SET], full, 7);
    FirstSwitch(boot);
    SecondSwitch(boot);
    var e1, e2, e3, e4, e5 := SwitchTo(5, 0), Change(ZERO_SET), SwitchTo(7, 0), Change(full), SwitchTo(5, 0);
    var left, all := [e1, e2], [e1, e2, e3, e4, e5];
    assert left[1..] == [e2] && [e2][1..] == [];
    assert TableRun(t2, []) == t2;
    assert all[1..] == [e2, e3, e4, e5] && [e2, e3, e4, e5][1..] == [e3, e4, e5];
    assert [e3, e4, e5][1..] == [e4, e5] && [e4, e5][1..] == [e5] && [e5][1..] == [];
    BlankReturns(t4, 5);
    assert TableRun(TableStep(t4, e5), []) == TableStep(t4, e5);
    assert TableRun(t4, [e5]) == TableRun(TableStep(t4, e5), []);
    assert TableRun(t2, [e3, e4, e5]) == TableRun(t4, [e5]);
  }

  lemma FirstSwitch(boot: FdSet)
    ensures Switch(Table(map[], boot, -1), 5, 0) == Table(map[5 := boot], boot, 5)
  {
    assert map[5 := ZERO_SET][5 := boot] == map[5 := boot];
  }

  lemma SecondSwitch(boot: FdSet)
    ensures Switch(Table(map[5 := boot], ZERO_SET, 5), 7, 0) == Table(map[5 := ZERO_SET, 7 := ZERO_SET], ZERO_SET, 7)
  {
    var m := map[5 := boot][5 := ZERO_SET];
    assert m == map[5 := ZERO_SET] && m[7 := ZERO_SET][7 := ZERO_SET] == map[5 := ZERO_SET, 7 := ZERO_SET];
    assert |m| == 1;
  }

  /** A blank set in the slot, no parent: the live set stays. */
  lemma BlankReturns(t: Table, pid: int)
    requires pid > 0 && pid != t.cur && pid in t.saved && Blank(t.saved[pid])
    ensures Switch(t, pid, 0).live == t.live && Switch(t, pid, 0).cur == pid
  {
    assert SaveCurrent(t)[pid] == t.saved[pid];
  }

  // --- the table in place ----------------------------------------------------------------------

  datatype Slot = Slot(used: bool, pid: int, fds: FdSet)

  /** What used slots hold. */
  function Held(s: seq<Slot>): map<int, FdSet> {
    if s == [] then map[] else
      var h := Held(s[..|s| - 1]);
      var x := s[|s| - 1];
      if x.used then h[x.pid := x.fds] else h
  }

  predicate OnePerPid(s: seq<Slot>) {
    forall i, j :: 0 <= i < j < |s| && s[i].used && s[j].used ==> s[i].pid != s[j].pid
  }

  lemma {:induction false} HeldKeys(s: seq<Slot>, pid: int)
    ensures pid in Held(s) <==> exists i :: 0 <= i < |s| && s[i].used && s[i].pid == pid
    decreases |s|
  {
    if s == [] {
    } else {
      var b := s[..|s| - 1];
      HeldKeys(b, pid);
      if pid in Held(b) {
        var i :| 0 <= i < |b| && b[i].used && b[i].pid == pid;
        assert s[i] == b[i];
      }
      forall i | 0 <= i < |s| && s[i].used && s[i].pid == pid ensures pid in Held(s) {
        if i < |b| { assert b[i] == s[i]; }
      }
    }
  }

  lemma {:induction false} HeldAt(s: seq<Slot>, i: nat)
    requires OnePerPid(s) && i < |s| && s[i].used
    ensures s[i].pid in Held(s) && Held(s)[s[i].pid] == s[i].fds
    decreases |s|
  {
    if i == |s| - 1 {
    } else {
      HeldAt(s[..|s| - 1], i);
    }
  }

  /** Writing a used slot, or taking an unused one for a new process, changes
      just that process. */
  lemma {:induction false} HeldWrite(s: seq<Slot>, i: nat, x: Slot)
    requires OnePerPid(s) && i < |s| && x.used
    requires if s[i].used then s[i].pid == x.pid else x.pid !in Held(s)
    ensures Held(s[i := x]) == Held(s)[x.pid := x.fds] && OnePerPid(s[i := x])
    decreases |s|
  {
    hide Held;
    HeldWriteMap(s, i, x);
    if !s[i].used { HeldKeys(s, x.pid); }
  }

  lemma {:induction false} HeldWriteMap(s: seq<Slot>, i: nat, x: Slot)
    requires OnePerPid(s) && i < |s| && x.used
    requires if s[i].used then s[i].pid == x.pid else x.pid !in Held(s)
    ensures Held(s[i := x]) == Held(s)[x.pid := x.fds]
    decreases |s|
  {
    var n := |s| - 1;
    var b := s[..n];
    if i == n {
      assert s[i := x][..n] == b;
    } else {
      assert s[i := x][..n] == b[i := x];
      if !s[i].used { HeldKeys(b, x.pid); HeldKeys(s, x.pid); }
      HeldWriteMap(b, i, x);
    }
  }

  /** Full exactly when every slot is used. */
  lemma {:induction false} HeldSize(s: seq<Slot>)
    requires OnePerPid(s)
    ensures |Held(s)| <= |s|
    ensures |Held(s)| == |s| <==> forall i :: 0 <= i < |s| ==> s[i].used
    decreases |s|
  {
    if s == [] {
    } else {
      var b := s[..|s| - 1];
      HeldSize(b);
      HeldKeys(b, s[|s| - 1].pid);
      assert forall i :: 0 <= i < |b| ==> b[i] == s[i];
    }
  }

  class FdTable {
    const procexp: bool
    const slots: array<Slot>
    var live: FdSet
    var cur: int

    constructor (procexp: bool, boot: FdSet)
      ensures Valid() && fresh(slots) && this.procexp == procexp
      ensures View() == Table(map[], boot, -1)
      ensures forall u: set<int> :: |u| <= SLOT_COUNT ==> Matches(View(), Owners(map[], -1, boot), u)
    {
      this.procexp := procexp;
      slots := new Slot[SLOT_COUNT](_ => Slot(false, 0, ZERO_SET));
      live, cur := boot, -1;
      new;
      NoneHeld(slots[..]);
    }

    ghost predicate Valid()
      reads this, slots
    {
      slots.Length == SLOT_COUNT && OnePerPid(slots[..]) &&
      forall i :: 0 <= i < SLOT_COUNT && !slots[i].used ==> slots[i].fds == ZERO_SET
    }

    ghost function View(): Table
      reads this, slots
    {
      Table(Held(slots[..]), live, cur)
    }

    /** The slot of a process, taking an unused one if it has none yet. */
    method Find(pid: int) returns (k: int)
      requires Valid()
      modifies slots
      ensures Valid() && -1 <= k < SLOT_COUNT
      ensures Held(slots[..]) == Claim(old(Held(slots[..])), pid)
      ensures k < 0 <==> !Room(old(Held(slots[..])), pid)
      ensures forall i :: 0 <= i < SLOT_COUNT && old(slots[i].used) ==> slots[i] == old(slots[i])
      ensures k >= 0 ==> slots[k].used && slots[k].pid == pid && slots[k].fds == Held(slots[..])[pid]
    {
      hide Held;
      ghost var s := slots[..];
      HeldKeys(s, pid);
      HeldSize(s);
      for i := 0 to SLOT_COUNT
        invariant forall j :: 0 <= j < i ==> !(slots[j].used && slots[j].pid == pid)
      {
        if slots[i].used && slots[i].pid == pid {
          HeldAt(s, i);
          return i;
        }
      }
      assert pid !in Held(s);
      for i := 0 to SLOT_COUNT
        invariant forall j :: 0 <= j < i ==> slots[j].used
        invariant slots[..] == s
      {
        if !slots[i].used {
          ghost var x := Slot(true, pid, ZERO_SET);
          HeldWrite(s, i, x);
          slots[i] := slots[i].(used := true, pid := pid);
          assert slots[..] == s[i := x];
          HeldAt(slots[..], i);
          return i;
        }
      }
      return -1;
    }

    method Save(k: nat)
      requires Valid() && k < SLOT_COUNT && slots[k].used
      modifies slots
      ensures Valid() && slots[k].used && slots[k].pid == old(slots[k].pid) && slots[k].fds == live
      ensures Held(slots[..]) == old(Held(slots[..]))[slots[k].pid := live]
    {
      HeldWrite(slots[..], k, slots[k].(fds := live));
      slots[k] := slots[k].(fds := live);
    }

    /** Change of process. */
    method SwitchTo(pid: int, ppid: int)
      requires Valid()
      modifies this, slots
      ensures Valid()
      ensures View() == if procexp then Switch(old(View()), pid, ppid) else old(View())
    {
      hide Held, OnePerPid;
      if !procexp || pid <= 0 || pid == cur { return; }
      if cur > 0 {
        var o := Find(cur);
        if o >= 0 { Save(o); }
      }
      assert Held(slots[..]) == SaveCurrent(old(View()));
      var n := Find(pid);
      if n < 0 {
        cur := pid;
        return;
      }
      if Blank(slots[n].fds) {
        Seed(n, ppid);
      }
      live := slots[n].fds;
      cur := pid;
    }

    /** First sight of the process of slot n. */
    method Seed(n: nat, ppid: int)
      requires Valid() && n < SLOT_COUNT && slots[n].used
      modifies this`live, slots
      ensures Valid() && slots[n].used && slots[n].pid == old(slots[n].pid) && slots[n].fds == live
      ensures var m := ClaimParent(old(Held(slots[..])), ppid);
        live == Inherited(m, old(live), ppid) && Held(slots[..]) == m[old(slots[n].pid) := live]
    {
      hide Held, OnePerPid;
      if ppid > 0 {
        var p := Find(ppid);
        if p >= 0 && !Blank(slots[p].fds) { live := slots[p].fds; }
      }
      Save(n);
    }
  }

  lemma {:induction false} NoneHeld(s: seq<Slot>)
    requires forall i :: 0 <= i < |s| ==> !s[i].used
    ensures Held(s) == map[] && OnePerPid(s)
    decreases |s|
  {
    if s == [] {
    } else {
      NoneHeld(s[..|s| - 1]);
    }
  }
}
