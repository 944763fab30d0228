/** Counter-based protection of the data sections and of global memory (core/dynamo.c), over every
    interleaving of threads.  Each call of protect_data_section is one step, since it holds the
    section's lock throughout; dynamorio_protect and dynamorio_unprotect are several steps, since
    other threads go on using the sections while the protection lock is held. */
module SelfProtection {

  type Tid = nat

  datatype Sec = Rarely | Cxtsw | Freq

  datatype Section = Section(count: nat, writable: bool)
  datatype Sections = Sections(rarely: Section, cxtsw: Section, freq: Section)

  function Get(s: Sections, sec: Sec): Section {
    match sec case Rarely => s.rarely case Cxtsw => s.cxtsw case Freq => s.freq
  }

  function Put(s: Sections, sec: Sec, x: Section): Sections {
    match sec case Rarely => s.(rarely := x) case Cxtsw => s.(cxtsw := x) case Freq => s.(freq := x)
  }

  /** protect_data_section(sec, true): the pages change only if the section was protected. */
  function Unprotected(x: Section): Section { Section(x.count + 1, if x.count == 0 then true else x.writable) }

  /** protect_data_section(sec, false): the pages change only after the last matching call. */
  function Protected(x: Section): Section
    requires x.count > 0
  {
    Section(x.count - 1, if x.count - 1 == 0 then false else x.writable)
  }

  class ProtectInfo {
    var rarelyWritable: nat
    var cxtswWritable: nat
    var freqWritable: nat
    var pages: map<Sec, bool>
    var numThreadsUnprot: int
    var globalWritable: bool

    function View(): Sections
      reads this
    {
      Sections(Section(rarelyWritable, Page(Rarely)), Section(cxtswWritable, Page(Cxtsw)),
               Section(freqWritable, Page(Freq)))
    }

    function Page(sec: Sec): bool
      reads this
    {
      sec in pages && pages[sec]
    }

    constructor ()
      ensures View() == Sections(Section(0, false), Section(0, false), Section(0, false)) && numThreadsUnprot == 0
      ensures !globalWritable
    {
      rarelyWritable, cxtswWritable, freqWritable, pages, numThreadsUnprot, globalWritable := 0, 0, 0, map[], 0, false;
    }

    method Count(sec: Sec) returns (n: nat)
      ensures n == Get(View(), sec).count
    {
      n := match sec case Rarely => rarelyWritable case Cxtsw => cxtswWritable case Freq => freqWritable;
    }

    method SetCount(sec: Sec, n: nat)
      modifies `rarelyWritable, `cxtswWritable, `freqWritable
      ensures View() == Put(old(View()), sec, Section(n, old(Page(sec))))
    {
      match sec
      case Rarely => rarelyWritable := n;
      case Cxtsw => cxtswWritable := n;
      case Freq => freqWritable := n;
    }

    /** protect_data_section */
    method ProtectDataSection(sec: Sec, writable: bool)
      requires !writable ==> Get(View(), sec).count > 0
      modifies `rarelyWritable, `cxtswWritable, `freqWritable, `pages
      ensures View() ==
        Put(old(View()), sec, if writable then Unprotected(Get(old(View()), sec)) else Protected(Get(old(View()), sec)))
    {
      var n := Count(sec);
      if writable {
        if n == 0 {
          pages := pages[sec := true];
        }
        SetCount(sec, n + 1);
      } else {
        SetCount(sec, n - 1);
        if n - 1 == 0 {
          pages := pages[sec := false];
        }
      }
    }

    /** dynamorio_unprotect, when no other thread runs in between. */
    method DynamorioUnprotect()
      requires numThreadsUnprot >= 0
      modifies this
      ensures numThreadsUnprot == old(numThreadsUnprot) + 1
      ensures old(numThreadsUnprot) > 0 ==> View() == old(View()) && globalWritable == old(globalWritable)
      ensures old(numThreadsUnprot) == 0 ==> globalWritable
      ensures old(numThreadsUnprot) == 0 ==>
        View() == old(View()).(cxtsw := Unprotected(old(View()).cxtsw), freq := Unprotected(old(View()).freq))
    {
      numThreadsUnprot := numThreadsUnprot + 1;
      if numThreadsUnprot == 1 {
        ProtectDataSection(Cxtsw, true);
        ProtectDataSection(Freq, true);
        globalWritable := true;
      }
    }

    /** dynamorio_protect, when no other thread runs in between; an exit too many is ignored. */
    method DynamorioProtect()
      requires numThreadsUnprot == 1 ==> cxtswWritable > 0 && freqWritable > 0
      modifies this
      ensures numThreadsUnprot == if old(numThreadsUnprot) <= 0 then 0 else old(numThreadsUnprot) - 1
      ensures old(numThreadsUnprot) != 1 ==> View() == old(View()) && globalWritable == old(globalWritable)
      ensures old(numThreadsUnprot) == 1 ==> !globalWritable
      ensures old(numThreadsUnprot) == 1 ==>
        View() == old(View()).(cxtsw := Protected(old(View()).cxtsw), freq := Protected(old(View()).freq))
    {
      if numThreadsUnprot <= 0 {
        numThreadsUnprot := 0;
        return;
      }
      numThreadsUnprot := numThreadsUnprot - 1;
      if numThreadsUnprot > 0 {
        return;
      }
      globalWritable := false;
      ProtectDataSection(Freq, false);
      ProtectDataSection(Cxtsw, false);
    }
  }

  // ----- the interleavings

  /** Who has a window on a section open: a thread, or the threads inside as a group. */
  datatype Owner = Thread(t: Tid) | Group
  datatype Windows = Windows(rarely: multiset<Owner>, cxtsw: multiset<Owner>, freq: multiset<Owner>)

  function Open(w: Windows, sec: Sec): multiset<Owner> {
    match sec case Rarely => w.rarely case Cxtsw => w.cxtsw case Freq => w.freq
  }

  function SetOpen(w: Windows, sec: Sec, m: multiset<Owner>): Windows {
    match sec case Rarely => w.(rarely := m) case Cxtsw => w.(cxtsw := m) case Freq => w.(freq := m)
  }

  /** Where the thread that holds the protection lock stands. */
  datatype Step = Enter1 | Enter2 | Enter3 | Leave1 | Leave2 | Leave3 | Done
  datatype Lock = Unlocked | Held(t: Tid, at: Step)

  /** The program's state, the windows that are open, and the threads that count as inside. */
  datatype State = State(secs: Sections, num: int, global: bool, lock: Lock, win: Windows, counted: set<Tid>)

  function Unprotect(s: State, o: Owner, sec: Sec): State {
    s.(secs := Put(s.secs, sec, Unprotected(Get(s.secs, sec))),
       win := SetOpen(s.win, sec, Open(s.win, sec) + multiset{o}))
  }

  function Protect(s: State, o: Owner, sec: Sec): State
    requires Get(s.secs, sec).count > 0
  {
    s.(secs := Put(s.secs, sec, Protected(Get(s.secs, sec))),
       win := SetOpen(s.win, sec, Open(s.win, sec) - multiset{o}))
  }

  predicate Busy(s: State, t: Tid) { s.lock.Held? && s.lock.t == t }

  datatype Action =
    | OpenWindow(t: Tid, sec: Sec)
    | CloseWindow(t: Tid, sec: Sec)
    | BeginEnter(t: Tid)
    | BeginLeave(t: Tid)
    | Continue

  /** The calls are properly nested: a thread closes only its own windows, enters when it is outside
      and leaves when it is inside; and a thread inside a locked routine does nothing else. */
  predicate Enabled(s: State, a: Action) {
    match a
    case OpenWindow(t, sec) => !Busy(s, t)
    case CloseWindow(t, sec) => !Busy(s, t) && Thread(t) in Open(s.win, sec) && Get(s.secs, sec).count > 0
    case BeginEnter(t) => s.lock.Unlocked? && t !in s.counted
    case BeginLeave(t) => s.lock.Unlocked? && t in s.counted
    case Continue =>
      && s.lock.Held?
      && (s.lock.at == Leave2 ==> s.secs.freq.count > 0) && (s.lock.at == Leave3 ==> s.secs.cxtsw.count > 0)
  }

  function Act(s: State, a: Action): State
    requires Enabled(s, a)
  {
    match a
    case OpenWindow(t, sec) => Unprotect(s, Thread(t), sec)
    case CloseWindow(t, sec) => Protect(s, Thread(t), sec)
    case BeginEnter(t) =>
      s.(num := s.num + 1, counted := s.counted + {t}, lock := Held(t, if s.num + 1 == 1 then Enter1 else Done))
    case BeginLeave(t) =>
      if s.num <= 0 then s.(num := 0)
      else s.(num := s.num - 1, counted := s.counted - {t}, lock := Held(t, if s.num - 1 > 0 then Done else Leave1))
    case Continue =>
      var t := s.lock.t;
      match s.lock.at
      case Enter1 => Unprotect(s, Group, Cxtsw).(lock := Held(t, Enter2))
      case Enter2 => Unprotect(s, Group, Freq).(lock := Held(t, Enter3))
      case Enter3 => s.(global := true, lock := Held(t, Done))
      case Leave1 => s.(global := false, lock := Held(t, Leave2))
      case Leave2 => Protect(s, Group, Freq).(lock := Held(t, Leave3))
      case Leave3 => Protect(s, Group, Cxtsw).(lock := Held(t, Done))
      case Done => s.(lock := Unlocked)
  }

  /** A section's counter is the number of open windows on it, and its pages are writable exactly
      while there is one. */
  ghost predicate SectionOk(x: Section, m: multiset<Owner>) { x.count == |m| && (x.writable <==> x.count > 0) }

  /** How far the group's own windows and global memory are opened. */
  ghost predicate GroupOk(s: State) {
    && s.win.rarely[Group] == 0
    && match s.lock
       case Held(t, Enter1) =>
         s.num == 1 && t in s.counted && s.win.cxtsw[Group] == 0 && s.win.freq[Group] == 0 && !s.global
       case Held(t, Enter2) =>
         s.num == 1 && t in s.counted && s.win.cxtsw[Group] == 1 && s.win.freq[Group] == 0 && !s.global
       case Held(t, Enter3) =>
         s.num == 1 && t in s.counted && s.win.cxtsw[Group] == 1 && s.win.freq[Group] == 1 && !s.global
       case Held(t, Leave1) => s.num == 0 && s.win.cxtsw[Group] == 1 && s.win.freq[Group] == 1 && s.global
       case Held(t, Leave2) => s.num == 0 && s.win.cxtsw[Group] == 1 && s.win.freq[Group] == 1 && !s.global
       case Held(t, Leave3) => s.num == 0 && s.win.cxtsw[Group] == 1 && s.win.freq[Group] == 0 && !s.global
       case _ => (s.num > 0 <==> s.global) && s.win.cxtsw[Group] == s.win.freq[Group] == if s.num > 0 then 1 else 0
  }

  ghost predicate Inv(s: State) {
    && SectionOk(s.secs.rarely, s.win.rarely) && SectionOk(s.secs.cxtsw, s.win.cxtsw)
    && SectionOk(s.secs.freq, s.win.freq)
    && s.num == |s.counted| && GroupOk(s)
  }

  const INIT := State(
    Sections(Section(0, false), Section(0, false), Section(0, false)), 0, false, Unlocked,
    Windows(multiset{}, multiset{}, multiset{}), {})

  lemma OneMore(x: Section, m: multiset<Owner>, o: Owner)
    requires SectionOk(x, m)
    ensures SectionOk(Unprotected(x), m + multiset{o})
  {
  }

  lemma OneLess(x: Section, m: multiset<Owner>, o: Owner)
    requires SectionOk(x, m) && o in m
    ensures x.count > 0 && SectionOk(Protected(x), m - multiset{o})
  {
    assert |m - multiset{o}| == |m| - 1;
  }

  lemma Occupied(m: multiset<Owner>, o: Owner)
    requires o in m
    ensures |m| > 0
  {
    assert |m - multiset{o}| == |m| - 1;
  }

  lemma UnprotectInv(s: State, o: Owner, sec: Sec)
    requires SectionOk(s.secs.rarely, s.win.rarely) && SectionOk(s.secs.cxtsw, s.win.cxtsw)
    requires SectionOk(s.secs.freq, s.win.freq)
    ensures var s' := Unprotect(s, o, sec);
      SectionOk(s'.secs.rarely, s'.win.rarely) && SectionOk(s'.secs.cxtsw, s'.win.cxtsw)
      && SectionOk(s'.secs.freq, s'.win.freq)
  {
    hide SectionOk, Unprotected;
    OneMore(Get(s.secs, sec), Open(s.win, sec), o);
  }

  lemma ProtectInv(s: State, o: Owner, sec: Sec)
    requires SectionOk(s.secs.rarely, s.win.rarely) && SectionOk(s.secs.cxtsw, s.win.cxtsw)
    requires SectionOk(s.secs.freq, s.win.freq)
    requires o in Open(s.win, sec)
    ensures Get(s.secs, sec).count > 0
    ensures var s' := Protect(s, o, sec);
      SectionOk(s'.secs.rarely, s'.win.rarely) && SectionOk(s'.secs.cxtsw, s'.win.cxtsw)
      && SectionOk(s'.secs.freq, s'.win.freq)
  {
    hide SectionOk, Protected;
    OneLess(Get(s.secs, sec), Open(s.win, sec), o);
  }

  lemma OpenInv(s: State, t: Tid, sec: Sec)
    requires Inv(s) && Enabled(s, OpenWindow(t, sec))
    ensures Inv(Act(s, OpenWindow(t, sec)))
  {
    hide SectionOk, Unprotected, GroupOk;
    UnprotectInv(s, Thread(t), sec);
    GroupStays(s, Act(s, OpenWindow(t, sec)));
  }

  /** The windows of single threads are no matter of the group. */
  lemma GroupStays(s: State, s': State)
    requires GroupOk(s) && s' == s.(secs := s'.secs, win := s'.win)
    requires forall sec :: Open(s'.win, sec)[Group] == Open(s.win, sec)[Group]
    ensures GroupOk(s')
  {
    assert Open(s'.win, Rarely)[Group] == Open(s.win, Rarely)[Group];
    assert Open(s'.win, Cxtsw)[Group] == Open(s.win, Cxtsw)[Group];
    assert Open(s'.win, Freq)[Group] == Open(s.win, Freq)[Group];
  }

  lemma CloseInv(s: State, t: Tid, sec: Sec)
    requires Inv(s) && Enabled(s, CloseWindow(t, sec))
    ensures Inv(Act(s, CloseWindow(t, sec)))
  {
    hide SectionOk, Protected, GroupOk;
    ProtectInv(s, Thread(t), sec);
    GroupStays(s, Act(s, CloseWindow(t, sec)));
  }

  lemma BeginInv(s: State, t: Tid, a: Action)
    requires Inv(s) && Enabled(s, a) && (a == BeginEnter(t) || a == BeginLeave(t))
    ensures Inv(Act(s, a))
  {
    hide SectionOk, Unprotected, Protected;
    if a == BeginLeave(t) { assert |s.counted - {t}| == |s.counted| - 1; }
  }

  lemma EnterInv(s: State)
    requires Inv(s) && Enabled(s, Continue)
    requires (s.lock.at == Enter1 || s.lock.at == Enter2 || s.lock.at == Enter3 || s.lock.at == Done)
    ensures Inv(Act(s, Continue))
  {
    hide SectionOk, Unprotected, Protected;
    if s.lock.at == Enter1 { UnprotectInv(s, Group, Cxtsw); }
    if s.lock.at == Enter2 { UnprotectInv(s, Group, Freq); }
  }

  lemma LeaveInv(s: State)
    requires Inv(s) && Enabled(s, Continue) && (s.lock.at == Leave1 || s.lock.at == Leave2 || s.lock.at == Leave3)
    ensures Inv(Act(s, Continue))
  {
    hide SectionOk, Unprotected, Protected, Inv;
    if s.lock.at == Leave2 {
      LeaveFreqInv(s);
    } else if s.lock.at == Leave3 {
      LeaveCxtswInv(s);
    } else {
      LeaveGlobalInv(s);
    }
  }

  lemma LeaveGlobalInv(s: State)
    requires Inv(s) && Enabled(s, Continue) && s.lock.at == Leave1
    ensures Inv(Act(s, Continue))
  {
    hide SectionOk;
  }

  lemma LeaveFreqInv(s: State)
    requires Inv(s) && Enabled(s, Continue) && s.lock.at == Leave2
    ensures Inv(Act(s, Continue))
  {
    hide SectionOk, Protected;
    ProtectInv(s, Group, Freq);
  }

  lemma LeaveCxtswInv(s: State)
    requires Inv(s) && Enabled(s, Continue) && s.lock.at == Leave3
    ensures Inv(Act(s, Continue))
  {
    hide SectionOk, Protected;
    ProtectInv(s, Group, Cxtsw);
  }

  /** Every step of every thread keeps the invariant. */
  lemma StepInv(s: State, a: Action)
    requires Inv(s) && Enabled(s, a)
    ensures Inv(Act(s, a))
  {
    hide Inv, Act;
    match a
    case OpenWindow(t, sec) => OpenInv(s, t, sec);
    case CloseWindow(t, sec) => CloseInv(s, t, sec);
    case BeginEnter(t) => BeginInv(s, t, a);
    case BeginLeave(t) => BeginInv(s, t, a);
    case Continue =>
      if s.lock.at == Leave1 || s.lock.at == Leave2 || s.lock.at == Leave3 { LeaveInv(s); } else { EnterInv(s); }
  }

  /** The locked routines never get stuck: their counters are positive when they decrement them,
      and the defensive branch of dynamorio_protect is not taken. */
  lemma NeverStuck(s: State)
    requires Inv(s)
    ensures s.lock.Held? ==> Enabled(s, Continue)
    ensures forall t :: t in s.counted ==> s.num > 0
    ensures forall t, sec :: !Busy(s, t) && Thread(t) in Open(s.win, sec) ==> Enabled(s, CloseWindow(t, sec))
  {
    if s.lock.Held? && s.lock.at == Leave2 { Occupied(s.win.freq, Group); }
    if s.lock.Held? && s.lock.at == Leave3 { Occupied(s.win.cxtsw, Group); }
    forall t, sec | Thread(t) in Open(s.win, sec)
      ensures Get(s.secs, sec).count > 0
    {
      Occupied(Open(s.win, sec), Thread(t));
    }
    forall t | t in s.counted ensures s.num > 0 { assert |s.counted| > 0; }
  }

  /** The states reached by doing the actions one after the other. */
  ghost predicate IsRun(run: seq<State>, actions: seq<Action>) {
    && |run| == |actions| + 1 && run[0] == INIT
    && forall i :: 0 <= i < |actions| ==> Enabled(run[i], actions[i]) && run[i + 1] == Act(run[i], actions[i])
  }

  lemma {:induction false} RunInv(run: seq<State>, actions: seq<Action>, k: nat)
    requires IsRun(run, actions) && k < |run|
    ensures Inv(run[k])
  {
    hide Inv;
    if k == 0 {
      InitInv();
    } else {
      RunInv(run, actions, k - 1);
      StepInv(run[k - 1], actions[k - 1]);
    }
  }

  lemma InitInv()
    ensures Inv(INIT)
  {
  }

  /** In every state of every run: counters count the open windows and pages are writable exactly
      while there is one, so no thread inside its own window ever finds the section read-only. */
  lemma WindowsSafe(run: seq<State>, actions: seq<Action>, k: nat, sec: Sec)
    requires IsRun(run, actions) && k < |run|
    ensures Get(run[k].secs, sec).count == |Open(run[k].win, sec)|
    ensures Get(run[k].secs, sec).writable <==> |Open(run[k].win, sec)| > 0
    ensures forall t :: Thread(t) in Open(run[k].win, sec) ==> Get(run[k].secs, sec).writable
  {
    RunInv(run, actions, k);
    forall t | Thread(t) in Open(run[k].win, sec)
      ensures Get(run[k].secs, sec).writable
    {
      Occupied(Open(run[k].win, sec), Thread(t));
    }
  }

  /** A thread that has entered and not begun to leave finds global memory and the sections that
      are opened on entry writable. */
  lemma InsideSafe(run: seq<State>, actions: seq<Action>, k: nat, t: Tid)
    requires IsRun(run, actions) && k < |run| && t in run[k].counted && !Busy(run[k], t)
    ensures run[k].global && run[k].secs.cxtsw.writable && run[k].secs.freq.writable
  {
    RunInv(run, actions, k);
    var s := run[k];
    assert |s.counted - {t}| == |s.counted| - 1;
    if s.lock.Held? && s.lock.t in s.counted { TwoMembers(s.counted, t, s.lock.t); }
    Entered(s);
  }

  lemma TwoMembers(s: set<Tid>, t: Tid, u: Tid)
    requires t in s && u in s && t != u
    ensures |s| >= 2
  {
    assert |s - {t}| == |s| - 1 && u in s - {t};
  }

  lemma Entered(s: State)
    requires Inv(s) && s.num > 0 && (s.lock.Held? && s.lock.t in s.counted ==> s.num > 1)
    ensures s.global && s.secs.cxtsw.writable && s.secs.freq.writable
  {
    Occupied(s.win.cxtsw, Group);
    Occupied(s.win.freq, Group);
  }

  /** Once every thread has left and closed its windows, everything is protected again. */
  lemma AllProtected(run: seq<State>, actions: seq<Action>, k: nat)
    requires IsRun(run, actions) && k < |run| && run[k].lock.Unlocked? && run[k].counted == {}
    requires forall t, sec :: Thread(t) !in Open(run[k].win, sec)
    ensures !run[k].global && forall sec :: !Get(run[k].secs, sec).writable
  {
    RunInv(run, actions, k);
    var s := run[k];
    forall sec ensures !Get(s.secs, sec).writable {
      NoOwners(Open(s.win, sec));
    }
  }

  lemma NoOwners(m: multiset<Owner>)
    requires m[Group] == 0 && forall t :: Thread(t) !in m
    ensures |m| == 0
  {
    if |m| > 0 {
      var o :| o in m;
      match o case Thread(t) => case Group =>
    }
  }
}
