/** The pid-file lock (pkg/util/pidlock/pidfile.go) as the atomic file
    operations of any number of processes, in any order.  A file keeps its
    identity (its inode) while a process has it open, even when the directory
    entry is removed and made anew; Remove goes by the entry, not the inode. */
module PidLock {
  import opened Text

  type Pid = nat
  type Inode = nat

  /** Where a process is in WaitFor or Drop.  `holder` tells whether the Drop is
      the one that answers a successful WaitFor. */
  datatype Phase =
    | Out
    | Waiting
    | Created(file: Inode)
    | Holding
    | Opened(file: Inode, holder: bool)
    | Matched(holder: bool)
    | Dead

  /** `link` is the directory entry, `content` the pid written to each file ever
      made, if any, and `maker` the process that made it. */
  datatype Lock = Lock(link: Option<Inode>, content: map<Inode, Option<Pid>>, maker: map<Inode, Pid>, phase: map<Pid, Phase>)

  datatype Event = BeginWait | Create(file: Inode) | GiveUp | WritePid(ok: bool) | OpenForDrop | ReadForDrop | Remove(ok: bool) | AbandonDrop | Crash

  function At(l: Lock, p: Pid): Phase { if p in l.phase then l.phase[p] else Out }

  function Goto(l: Lock, p: Pid, ph: Phase): Lock { l.(phase := l.phase[p := ph]) }

  /** From a successful create in WaitFor to the end of the matching Drop. */
  predicate Holds(l: Lock, p: Pid) {
    match At(l, p)
    case Created(_) => true
    case Holding => true
    case Opened(_, holder) => holder
    case Matched(holder) => holder
    case _ => false
  }

  predicate Enabled(l: Lock, p: Pid, e: Event) {
    match (e, At(l, p))
    case (BeginWait, Out) => true
    // O_EXCL: only when there is no entry, and the inode is a new one
    case (Create(file), Waiting) => l.link.None? && file !in l.content
    // the timeout, or an error other than "exists"
    case (GiveUp, Waiting) => true
    case (WritePid(_), Created(_)) => true
    case (OpenForDrop, Out) => true
    case (OpenForDrop, Holding) => true
    case (ReadForDrop, Opened(file, _)) => file in l.content
    case (Remove(_), Matched(_)) => true
    // the home directory is unknown, or a call fails
    case (AbandonDrop, Holding) => true
    case (AbandonDrop, Opened(_, _)) => true
    case (Crash, ph) => ph != Dead
    case _ => false
  }

  function Do(l: Lock, p: Pid, e: Event): Lock
    requires Enabled(l, p, e)
  {
    match e
    case BeginWait => Goto(l, p, Waiting)
    case Create(file) =>
      Goto(l, p, Created(file)).(link := Some(file), content := l.content[file := None], maker := l.maker[file := p])
    case GiveUp => Goto(l, p, Out)
    // the error of Write is not looked at
    case WritePid(ok) =>
      var l' := Goto(l, p, Holding);
      if ok then l'.(content := l.content[At(l, p).file := Some(p)]) else l'
    case OpenForDrop =>
      if l.link.None? then Goto(l, p, Out) else Goto(l, p, Opened(l.link.value, At(l, p) == Holding))
    // an empty file reads as an error, and another's pid is refused
    case ReadForDrop =>
      var ph := At(l, p);
      if l.content[ph.file] == Some(p) then Goto(l, p, Matched(ph.holder)) else Goto(l, p, Out)
    // the error of Remove is not looked at either
    case Remove(ok) => if ok then Goto(l, p, Out).(link := None) else Goto(l, p, Out)
    case AbandonDrop => Goto(l, p, Out)
    case Crash => Goto(l, p, Dead)
  }

  predicate Initial(l: Lock) { l.link.None? && l.content == map[] && l.maker == map[] && l.phase == map[] }

  // ---------- the invariant

  ghost predicate LinkedTo(l: Lock, p: Pid) {
    l.link.Some? && l.link.value in l.maker && l.maker[l.link.value] == p
  }

  ghost predicate PhaseInv(l: Lock, p: Pid) {
    && (Holds(l, p) ==> LinkedTo(l, p))
    && match At(l, p)
       case Created(file) => l.link == Some(file) && file in l.content && l.content[file] == None
       case Opened(file, _) => file in l.content && file in l.maker && (l.maker[file] == p ==> l.link == Some(file))
       case Matched(_) => LinkedTo(l, p)
       case _ => true
  }

  ghost predicate FilesInv(l: Lock) {
    && l.content.Keys == l.maker.Keys
    && (forall i | i in l.content :: l.content[i].Some? ==> l.maker[i] == l.content[i].value)
    && (l.link.Some? ==> l.link.value in l.content)
  }

  ghost predicate LockInv(l: Lock) {
    && FilesInv(l)
    && forall p: Pid :: PhaseInv(l, p)
  }

  lemma StepKeepsInvariant(l: Lock, p: Pid, e: Event)
    requires LockInv(l) && Enabled(l, p, e)
    ensures LockInv(Do(l, p, e))
  {
    var l' := Do(l, p, e);
    assert PhaseInv(l, p);
    forall q: Pid
      ensures PhaseInv(l', q)
    {
      assert PhaseInv(l, q);
      if q != p {
        OthersKeepPhaseInv(l, p, e, q);
      }
    }
  }

  lemma OthersKeepPhaseInv(l: Lock, p: Pid, e: Event, q: Pid)
    requires FilesInv(l) && PhaseInv(l, p) && PhaseInv(l, q) && Enabled(l, p, e) && p != q
    ensures PhaseInv(Do(l, p, e), q)
  {
  }

  /** At most one process is between a successful WaitFor and its Drop. */
  lemma MutualExclusion(l: Lock, p: Pid, q: Pid)
    requires LockInv(l) && Holds(l, p) && Holds(l, q)
    ensures p == q
  {
    assert PhaseInv(l, p) && PhaseInv(l, q);
  }

  /** Whatever another process does, a Drop without the lock included, leaves the
      holder's entry, its file and its hold alone. */
  lemma OthersLeaveHolderAlone(l: Lock, p: Pid, e: Event, q: Pid)
    requires LockInv(l) && Enabled(l, p, e) && Holds(l, q) && p != q
    ensures var l' := Do(l, p, e);
      Holds(l', q) && l'.link == l.link && l.link.Some? && l'.content[l.link.value] == l.content[l.link.value]
  {
    assert PhaseInv(l, p) && PhaseInv(l, q);
  }

  /** The entry goes only when the process that made it takes it away, so a
      process that crashed holding the lock leaves it locked for good. */
  lemma OnlyMakerRemoves(l: Lock, p: Pid, e: Event)
    requires LockInv(l) && Enabled(l, p, e) && l.link.Some? && Do(l, p, e).link != l.link
    ensures Do(l, p, e).link.None? && e == Remove(true) && l.maker[l.link.value] == p
  {
    assert PhaseInv(l, p);
  }

  // ---------- runs

  function Run(l: Lock, steps: seq<(Pid, Event)>): Option<Lock>
    decreases |steps|
  {
    if steps == [] then Some(l)
    else
      var (p, e) := steps[0];
      if Enabled(l, p, e) then Run(Do(l, p, e), steps[1..]) else None
  }

  lemma {:induction false} RunKeepsInvariant(l: Lock, steps: seq<(Pid, Event)>)
    requires LockInv(l) && Run(l, steps).Some?
    ensures LockInv(Run(l, steps).value)
    decreases |steps|
  {
    if steps != [] {
      var (p, e) := steps[0];
      StepKeepsInvariant(l, p, e);
      RunKeepsInvariant(Do(l, p, e), steps[1..]);
    }
  }

  lemma RunsAreExclusive(l: Lock, steps: seq<(Pid, Event)>, p: Pid, q: Pid)
    requires Initial(l) && Run(l, steps).Some?
    requires Holds(Run(l, steps).value, p) && Holds(Run(l, steps).value, q)
    ensures p == q
  {
    assert LockInv(l);
    RunKeepsInvariant(l, steps);
    MutualExclusion(Run(l, steps).value, p, q);
  }

  /** After a crash of the holder no other process gets the lock, in any run. */
  lemma {:induction false} CrashedHolderKeepsOthersOut(l: Lock, steps: seq<(Pid, Event)>, dead: Pid, q: Pid)
    requires LockInv(l) && LinkedTo(l, dead) && At(l, dead) == Dead && Run(l, steps).Some?
    ensures !Holds(Run(l, steps).value, q)
    decreases |steps|
  {
    assert PhaseInv(l, q);
    if steps != [] {
      var (p, e) := steps[0];
      var l' := Do(l, p, e);
      StepKeepsInvariant(l, p, e);
      if l'.link != l.link {
        OnlyMakerRemoves(l, p, e);
      }
      CrashedHolderKeepsOthersOut(l', steps[1..], dead, q);
    }
  }

  // ---------- getting the lock and giving it up

  /** A WaitFor that finds no entry gets the lock, and its pid stands in the file. */
  lemma WaitForAcquires(l: Lock, p: Pid, file: Inode)
    requires LockInv(l) && l.link.None? && At(l, p) == Out && file !in l.content
    ensures var r := Run(l, [(p, BeginWait), (p, Create(file)), (p, WritePid(true))]);
      && r.Some? && LockInv(r.value)
      && At(r.value, p) == Holding && Holds(r.value, p)
      && r.value.link == Some(file) && r.value.content == l.content[file := Some(p)]
      && forall q: Pid | q != p :: At(r.value, q) == At(l, q)
  {
    var steps := [(p, BeginWait), (p, Create(file)), (p, WritePid(true))];
    RunThree(l, steps[0], steps[1], steps[2]);
    RunKeepsInvariant(l, steps);
  }

  /** A Drop that answers it gives the lock up, for whoever waits to take. */
  lemma DropReleases(l: Lock, p: Pid)
    requires LockInv(l) && At(l, p) == Holding && l.link.Some? && l.content[l.link.value] == Some(p)
    ensures var r := Run(l, [(p, OpenForDrop), (p, ReadForDrop), (p, Remove(true))]);
      && r.Some? && LockInv(r.value)
      && r.value.link.None? && At(r.value, p) == Out && r.value.content == l.content
      && (forall q: Pid | q != p :: At(r.value, q) == At(l, q))
      && forall q: Pid, file: Inode | At(r.value, q) == Waiting && file !in l.content :: Enabled(r.value, q, Create(file))
  {
    assert PhaseInv(l, p);
    var steps := [(p, OpenForDrop), (p, ReadForDrop), (p, Remove(true))];
    RunThree(l, steps[0], steps[1], steps[2]);
    RunKeepsInvariant(l, steps);
  }

  /** But if the pid could not be written, which WaitFor does not notice, the Drop
      finds no pid in the file and the entry stays. */
  lemma FailedWriteIsNotDropped(l: Lock, p: Pid, file: Inode)
    requires LockInv(l) && l.link.None? && At(l, p) == Out && file !in l.content
    ensures var r := Run(l, [(p, BeginWait), (p, Create(file)), (p, WritePid(false))]);
      && r.Some? && At(r.value, p) == Holding
      && var t := Run(r.value, [(p, OpenForDrop), (p, ReadForDrop)]);
         t.Some? && At(t.value, p) == Out && t.value.link == Some(file)
  {
    var steps := [(p, BeginWait), (p, Create(file)), (p, WritePid(false))];
    RunThree(l, steps[0], steps[1], steps[2]);
    var r := Run(l, steps).value;
    RunTwo(r, (p, OpenForDrop), (p, ReadForDrop));
  }

  lemma RunThree(l: Lock, a: (Pid, Event), b: (Pid, Event), c: (Pid, Event))
    requires Enabled(l, a.0, a.1) && Enabled(Do(l, a.0, a.1), b.0, b.1)
    requires Enabled(Do(Do(l, a.0, a.1), b.0, b.1), c.0, c.1)
    ensures Run(l, [a, b, c]) == Some(Do(Do(Do(l, a.0, a.1), b.0, b.1), c.0, c.1))
  {
    hide Do, Enabled;
    var m := Do(l, a.0, a.1);
    var n := Do(m, b.0, b.1);
    assert [c][1..] == [] && Run(n, [c]) == Run(Do(n, c.0, c.1), []);
    RunTwo(m, b, c);
    assert [a, b, c][1..] == [b, c];
  }

  lemma EnabledThree(l: Lock, a: (Pid, Event), b: (Pid, Event), c: (Pid, Event))
    requires Run(l, [a, b, c]).Some?
    ensures Enabled(l, a.0, a.1) && Enabled(Do(l, a.0, a.1), b.0, b.1)
    ensures Enabled(Do(Do(l, a.0, a.1), b.0, b.1), c.0, c.1)
    ensures Run(l, [a, b, c]) == Some(Do(Do(Do(l, a.0, a.1), b.0, b.1), c.0, c.1))
  {
    hide Do, Enabled;
    assert [a, b, c][1..] == [b, c] && [b, c][1..] == [c] && [c][1..] == [];
    var m := Do(l, a.0, a.1);
    assert Run(m, [b, c]).Some?;
    assert Run(Do(m, b.0, b.1), [c]).Some?;
    RunThree(l, a, b, c);
  }

  lemma RunTwo(l: Lock, a: (Pid, Event), b: (Pid, Event))
    requires Enabled(l, a.0, a.1) && Enabled(Do(l, a.0, a.1), b.0, b.1)
    ensures Run(l, [a, b]) == Some(Do(Do(l, a.0, a.1), b.0, b.1))
  {
    hide Do, Enabled;
    var m := Do(l, a.0, a.1);
    assert [b][1..] == [] && Run(m, [b]) == Run(Do(m, b.0, b.1), []);
    assert [a, b][1..] == [b];
  }

  /** A process that has crashed does nothing more, and a step touches the files only
      to make, write or remove one. */
  lemma StepsLeaveFiles(l: Lock, p: Pid, e: Event)
    requires Enabled(l, p, e)
    ensures At(l, p) != Dead && (e == Crash ==> At(Do(l, p, e), p) == Dead)
    ensures !e.Create? && e != Remove(true) ==> Do(l, p, e).link == l.link
    ensures !e.Create? && !e.WritePid? ==> Do(l, p, e).content == l.content && Do(l, p, e).maker == l.maker
    ensures e in {BeginWait} ==> At(Do(l, p, e), p) == Waiting
    ensures e in {GiveUp, AbandonDrop, Remove(true), Remove(false)} ==> At(Do(l, p, e), p) == Out
  {
  }
}
