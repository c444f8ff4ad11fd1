/** Any number of processes that start and delete clusters
    (initializeCluster and Delete in pkg/cluster/driver/libvirt/libvirt.go),
    interleaved at every file operation. */
module ClusterRuns {
  import opened Text
  import opened PidLock
  import opened Addresses

  /** What addCluster or removeCluster wants to write. */
  datatype Change = Added(host: string, name: string, ip: Addr, port: uint16) | Removed(name: string)

  function Apply(c: Change, i: Info): Option<Info> {
    match c
    case Added(host, name, ip, port) => AddCluster(i, host, name, ip, port)
    case Removed(name) => RemoveCluster(i, name)
  }

  /** How far a process is in its critical section.  os.WriteFile empties the
      file first and then fills it; `base` remembers what was there. */
  datatype Work =
    | Idle
    | Allocated(host: string, port: uint16)
    | Saving(change: Change, info: Info)
    | Truncated(change: Change, info: Info, base: Info)

  datatype State = State(lock: Lock, file: Info, work: map<Pid, Work>)

  datatype Action =
    | OnLock(event: Event)
    | Allocate(host: string, port: Option<uint16>)
    | Record(name: string, ip: Addr)
    | Forget(name: string)
    | Truncate
    | Write

  function WorkOf(s: State, p: Pid): Work { if p in s.work then s.work[p] else Idle }

  ghost predicate Enabled(s: State, p: Pid, a: Action) {
    match a
    case OnLock(e) => PidLock.Enabled(s.lock, p, e)
    case _ =>
      && At(s.lock, p) == Holding
      && match a
         case Allocate(host, port) => WorkOf(s, p) == Idle && LeastFreePort(HostOf(s.file, host).ports, port)
         // generating certificates and booting the first node may fail: then Drop comes next
         case Record(_, _) => WorkOf(s, p).Allocated?
         case Forget(_) => WorkOf(s, p) == Idle
         case Truncate => WorkOf(s, p).Saving?
         case Write => WorkOf(s, p).Truncated?
         case OnLock(_) => true
  }

  /** Reads the file and gets ready to save the change; the error of addCluster
      and an unknown name in removeCluster are passed over. */
  function Prepare(s: State, p: Pid, c: Change): State {
    match Apply(c, s.file)
    case None => s.(work := s.work[p := Idle])
    case Some(info) => s.(work := s.work[p := Saving(c, info)])
  }

  function Next(s: State, p: Pid, a: Action): State
    requires Enabled(s, p, a)
  {
    match a
    case OnLock(e) => s.(lock := Do(s.lock, p, e), work := s.work - {p})
    case Allocate(host, port) => if port.None? then s else s.(work := s.work[p := Allocated(host, port.value)])
    case Record(name, ip) => var w := WorkOf(s, p); Prepare(s, p, Added(w.host, name, ip, w.port))
    case Forget(name) => Prepare(s, p, Removed(name))
    case Truncate => var w := WorkOf(s, p); s.(file := EMPTY, work := s.work[p := Truncated(w.change, w.info, s.file)])
    case Write => s.(file := WorkOf(s, p).info, work := s.work[p := Idle])
  }

  // ---------- the invariant

  ghost predicate WorkInv(s: State, p: Pid) {
    && (WorkOf(s, p) != Idle ==> At(s.lock, p) == Holding)
    && match WorkOf(s, p)
       case Idle => true
       case Allocated(host, port) => port !in HostOf(s.file, host).ports
       case Saving(c, info) => Apply(c, s.file) == Some(info) && PortsExact(info)
       case Truncated(c, info, base) => s.file == EMPTY && Apply(c, base) == Some(info) && PortsExact(info)
  }

  ghost predicate Inv(s: State) {
    && LockInv(s.lock)
    && PortsExact(s.file)
    && forall p: Pid :: WorkInv(s, p)
  }

  /** While a process holds the lock nobody else changes the file. */
  lemma OthersLeaveFileAlone(s: State, p: Pid, a: Action, q: Pid)
    requires Inv(s) && Enabled(s, p, a) && p != q && At(s.lock, q) == Holding
    ensures Next(s, p, a).file == s.file && At(Next(s, p, a).lock, q) == Holding
  {
    hide PortsExact, AddCluster, RemoveCluster;
    if a.OnLock? {
      OthersLeaveHolderAlone(s.lock, p, a.event, q);
    } else {
      MutualExclusion(s.lock, p, q);
    }
  }

  lemma StepKeepsInv(s: State, p: Pid, a: Action)
    requires Inv(s) && Enabled(s, p, a)
    ensures Inv(Next(s, p, a))
  {
    hide PortsExact, AddCluster, RemoveCluster, LockInv, PidLock.Enabled, Do;
    var s' := Next(s, p, a);
    assert WorkInv(s, p);
    if a.OnLock? {
      StepKeepsInvariant(s.lock, p, a.event);
    }
    EmptyIsExact();
    OwnWork(s, p, a);
    forall q: Pid
      ensures WorkInv(s', q)
    {
      assert WorkInv(s, q);
      if q != p && WorkOf(s, q) != Idle {
        OthersLeaveFileAlone(s, p, a, q);
      }
    }
  }

  lemma OwnWork(s: State, p: Pid, a: Action)
    requires Inv(s) && Enabled(s, p, a)
    ensures WorkInv(Next(s, p, a), p) && PortsExact(Next(s, p, a).file)
  {
    hide PortsExact, AddCluster, RemoveCluster, LockInv, PidLock.Enabled, Do;
    assert WorkInv(s, p);
    EmptyIsExact();
    match a {
      case Record(name, ip) =>
        var w := WorkOf(s, p);
        ChangeKeepsExact(s.file, Added(w.host, name, ip, w.port));
      case Forget(name) => ChangeKeepsExact(s.file, Removed(name));
      case _ =>
    }
  }

  lemma ChangeKeepsExact(i: Info, c: Change)
    requires PortsExact(i)
    requires c.Added? ==> c.port !in HostOf(i, c.host).ports
    ensures Apply(c, i).Some? ==> PortsExact(Apply(c, i).value)
  {
    match c {
      case Added(host, name, ip, port) => if name !in i.clusters { AddKeepsPortsExact(i, host, name, ip, port); }
      case Removed(name) => if name in i.clusters { RemoveKeepsPortsExact(i, name); }
    }
  }

  // ---------- runs

  ghost predicate Run(s: State, steps: seq<(Pid, Action)>, t: State)
    decreases |steps|
  {
    if steps == [] then s == t
    else
      var (p, a) := steps[0];
      Enabled(s, p, a) && Run(Next(s, p, a), steps[1..], t)
  }

  predicate Initial(s: State) { PidLock.Initial(s.lock) && s.file == EMPTY && s.work == map[] }

  lemma {:induction false} RunKeepsInv(s: State, steps: seq<(Pid, Action)>, t: State)
    requires Inv(s) && Run(s, steps, t)
    ensures Inv(t)
    decreases |steps|
  {
    hide Inv, Enabled, Next;
    if steps != [] {
      var (p, a) := steps[0];
      StepKeepsInv(s, p, a);
      RunKeepsInv(Next(s, p, a), steps[1..], t);
    }
  }

  /** In every interleaving of any number of processes, crashes included: no two
      clusters recorded for a host have the same port, the used ports of a host
      are exactly those of its clusters, and a port about to be recorded is free. */
  lemma RunsKeepPortsApart(s: State, steps: seq<(Pid, Action)>, t: State)
    requires Initial(s) && Run(s, steps, t)
    ensures PortsExact(t.file)
    ensures forall m, n | m in t.file.clusters && n in t.file.clusters && m != n ::
      t.file.clusters[m].host == t.file.clusters[n].host ==> t.file.clusters[m].port != t.file.clusters[n].port
    ensures forall p: Pid | WorkOf(t, p).Allocated? :: WorkOf(t, p).port !in HostOf(t.file, WorkOf(t, p).host).ports
  {
    assert Inv(s);
    RunKeepsInv(s, steps, t);
    forall p: Pid | WorkOf(t, p).Allocated?
      ensures WorkOf(t, p).port !in HostOf(t.file, WorkOf(t, p).host).ports
    {
      assert WorkInv(t, p);
    }
  }

  // ---------- atomicity

  /** The contents that count: those a save in progress started from, or else
      those of the file. */
  ghost function Committed(s: State): Info {
    if exists p: Pid :: WorkOf(s, p).Truncated? then
      var p: Pid :| WorkOf(s, p).Truncated?;
      WorkOf(s, p).base
    else s.file
  }

  lemma CommittedIs(s: State, p: Pid)
    requires Inv(s) && WorkOf(s, p).Truncated?
    ensures Committed(s) == WorkOf(s, p).base
  {
    hide PortsExact, AddCluster, RemoveCluster, LockInv;
    var q: Pid :| WorkOf(s, q).Truncated? && Committed(s) == WorkOf(s, q).base;
    assert WorkInv(s, p) && WorkInv(s, q);
    MutualExclusion(s.lock, p, q);
  }

  /** Each change reaches the file as one step over the latest contents, so no
      update is lost, except that a writer stopped between emptying and filling
      the file leaves it empty. */
  lemma ChangesAreAtomic(s: State, p: Pid, a: Action)
    requires Inv(s) && Enabled(s, p, a)
    ensures var before, after, w := Committed(s), Committed(Next(s, p, a)), WorkOf(s, p);
      if a == Write then Apply(w.change, before) == Some(after)
      else if a.OnLock? && w.Truncated? then after == EMPTY
      else after == before
  {
    hide PortsExact, AddCluster, RemoveCluster, LockInv, PidLock.Enabled, Do, Apply;
    var s', w := Next(s, p, a), WorkOf(s, p);
    StepKeepsInv(s, p, a);
    assert WorkInv(s, p);
    if q: Pid :| q != p && WorkOf(s, q).Truncated? {
      // then p does not hold the lock
      assert WorkInv(s, q);
      if At(s.lock, p) == Holding {
        MutualExclusion(s.lock, p, q);
      }
      assert WorkOf(s', q) == WorkOf(s, q);
      CommittedIs(s, q);
      CommittedIs(s', q);
    } else {
      assert forall q: Pid | q != p :: WorkOf(s', q) == WorkOf(s, q);
      if w.Truncated? {
        CommittedIs(s, p);
      }
      if WorkOf(s', p).Truncated? {
        CommittedIs(s', p);
      }
    }
  }

  // ---------- what starting and deleting a cluster do

  lemma RunThree(s: State, a: (Pid, Action), b: (Pid, Action), c: (Pid, Action))
    requires Enabled(s, a.0, a.1) && Enabled(Next(s, a.0, a.1), b.0, b.1)
    requires Enabled(Next(Next(s, a.0, a.1), b.0, b.1), c.0, c.1)
    ensures Run(s, [a, b, c], Next(Next(Next(s, a.0, a.1), b.0, b.1), c.0, c.1))
  {
    hide Enabled, Next;
    var m := Next(s, a.0, a.1);
    var n := Next(m, b.0, b.1);
    assert [c][1..] == [] && [b, c][1..] == [c] && [a, b, c][1..] == [b, c];
    assert Run(n, [c], Next(n, c.0, c.1)) by { assert Run(Next(n, c.0, c.1), [], Next(n, c.0, c.1)); }
    assert Run(m, [b, c], Next(n, c.0, c.1));
  }

  lemma {:induction false} RunAppend(s: State, a: seq<(Pid, Action)>, t: State, b: seq<(Pid, Action)>, u: State)
    requires Run(s, a, t) && Run(t, b, u)
    ensures Run(s, a + b, u)
    decreases |a|
  {
    hide Enabled, Next;
    if a == [] {
      assert a + b == b;
    } else {
      assert (a + b)[1..] == a[1..] + b;
      RunAppend(Next(s, a[0].0, a[0].1), a[1..], t, b, u);
    }
  }

  /** With the lock and a port, recording, emptying the file and filling it put the
      cluster, its port and its address in the file. */
  lemma StartRecords(s: State, p: Pid, name: string, ip: Addr) returns (t: State)
    requires Inv(s) && At(s.lock, p) == Holding && WorkOf(s, p).Allocated? && name !in s.file.clusters
    ensures Run(s, [(p, Record(name, ip)), (p, Truncate), (p, Write)], t)
    ensures Recorded(s.file, WorkOf(s, p).host, name, ip, WorkOf(s, p).port, t.file)
    ensures t.lock == s.lock && WorkOf(t, p) == Idle && forall q: Pid | q != p :: WorkOf(t, q) == WorkOf(s, q)
  {
    hide AddCluster, RemoveCluster, PortsExact, LockInv, Recorded;
    var w := WorkOf(s, p);
    AddRecords(s.file, w.host, name, ip, w.port);
    RunThree(s, (p, Record(name, ip)), (p, Truncate), (p, Write));
    t := Next(Next(Next(s, p, Record(name, ip)), p, Truncate), p, Write);
  }

  /** A name recorded already is not recorded again, and the file stays. */
  lemma RecordedNameStays(s: State, p: Pid, name: string, ip: Addr)
    requires At(s.lock, p) == Holding && WorkOf(s, p).Allocated? && name in s.file.clusters
    ensures Enabled(s, p, Record(name, ip))
    ensures var t := Next(s, p, Record(name, ip)); t.file == s.file && t.lock == s.lock && WorkOf(t, p) == Idle
  {
  }

  /** With the lock, deleting takes the cluster, its port and its address out. */
  lemma DeleteForgets(s: State, p: Pid, name: string) returns (t: State)
    requires Inv(s) && At(s.lock, p) == Holding && WorkOf(s, p) == Idle && name in s.file.clusters
    ensures Run(s, [(p, Forget(name)), (p, Truncate), (p, Write)], t)
    ensures Forgotten(s.file, name, t.file)
    ensures t.lock == s.lock && WorkOf(t, p) == Idle && forall q: Pid | q != p :: WorkOf(t, q) == WorkOf(s, q)
  {
    hide AddCluster, RemoveCluster, LockInv, Forgotten;
    assert s.file.clusters[name].host in s.file.hosts;
    hide PortsExact;
    RemoveForgets(s.file, name);
    RunThree(s, (p, Forget(name)), (p, Truncate), (p, Write));
    t := Next(Next(Next(s, p, Forget(name)), p, Truncate), p, Write);
  }

  lemma UnknownNameStays(s: State, p: Pid, name: string)
    requires At(s.lock, p) == Holding && WorkOf(s, p) == Idle && name !in s.file.clusters
    ensures Enabled(s, p, Forget(name))
    ensures var t := Next(s, p, Forget(name)); t.file == s.file && t.lock == s.lock && WorkOf(t, p) == Idle
  {
  }

  /** The port that is allocated is the least free one, and stays with the process. */
  lemma AllocateTakesLeast(s: State, p: Pid, host: string, port: uint16)
    requires At(s.lock, p) == Holding && WorkOf(s, p) == Idle && Enabled(s, p, Allocate(host, Some(port)))
    ensures FIRST_PORT <= port < PORT_END && (host in s.file.hosts ==> port !in s.file.hosts[host].ports)
    ensures host in s.file.hosts ==> forall q: uint16 | FIRST_PORT <= q < port :: q in s.file.hosts[host].ports
    ensures host !in s.file.hosts ==> port == FIRST_PORT
    ensures var t := Next(s, p, Allocate(host, Some(port)));
      t.file == s.file && t.lock == s.lock && WorkOf(t, p) == Allocated(host, port)
  {
    assert FIRST_PORT < port ==> FIRST_PORT in HostOf(s.file, host).ports;
  }

  /** Three steps on the lock leave the file and the work of others alone. */
  lemma LockSteps(s: State, p: Pid, a: Event, b: Event, c: Event) returns (t: State)
    requires PidLock.Run(s.lock, [(p, a), (p, b), (p, c)]).Some?
    ensures Run(s, [(p, OnLock(a)), (p, OnLock(b)), (p, OnLock(c))], t)
    ensures t.lock == PidLock.Run(s.lock, [(p, a), (p, b), (p, c)]).value && t.file == s.file
    ensures WorkOf(t, p) == Idle && forall q: Pid | q != p :: WorkOf(t, q) == WorkOf(s, q)
  {
    hide PidLock.Enabled, Do, PidLock.Run;
    EnabledThree(s.lock, (p, a), (p, b), (p, c));
    RunThree(s, (p, OnLock(a)), (p, OnLock(b)), (p, OnLock(c)));
    t := Next(Next(Next(s, p, OnLock(a)), p, OnLock(b)), p, OnLock(c));
  }

  /** What a start does when nothing fails and nobody interferes: from a free lock to a
      free lock, with the cluster and the least free port of its host recorded. */
  lemma StartRunsToEnd(s: State, p: Pid, file: Inode, host: string, name: string, ip: Addr, port: uint16)
    returns (steps: seq<(Pid, Action)>, t: State)
    requires Inv(s) && s.lock.link.None? && At(s.lock, p) == Out && file !in s.lock.content
    requires name !in s.file.clusters && LeastFreePort(HostOf(s.file, host).ports, Some(port))
    ensures Run(s, steps, t) && Inv(t)
    ensures t.lock.link.None? && At(t.lock, p) == Out && Recorded(s.file, host, name, ip, port, t.file)
  {
    hide PortsExact, LockInv, Recorded, PidLock.Run, AddCluster, LeastFreePort, WorkInv, PidLock.Enabled, Do;
    WaitForAcquires(s.lock, p, file);
    var held := LockSteps(s, p, BeginWait, Create(file), WritePid(true));
    var wait := [(p, OnLock(BeginWait)), (p, OnLock(Create(file))), (p, OnLock(WritePid(true)))];
    RunKeepsInv(s, wait, held);
    var chosen := Next(held, p, Allocate(host, Some(port)));
    var choose := [(p, Allocate(host, Some(port)))];
    assert choose[1..] == [];
    assert Run(held, choose, chosen) by { assert Run(chosen, [], chosen); }
    RunKeepsInv(held, choose, chosen);
    var recorded := StartRecords(chosen, p, name, ip);
    var record := [(p, Record(name, ip)), (p, Truncate), (p, Write)];
    RunKeepsInv(chosen, record, recorded);
    DropReleases(recorded.lock, p);
    t := LockSteps(recorded, p, OpenForDrop, ReadForDrop, Remove(true));
    var drop := [(p, OnLock(OpenForDrop)), (p, OnLock(ReadForDrop)), (p, OnLock(Remove(true)))];
    RunKeepsInv(recorded, drop, t);
    RunAppend(s, wait, held, choose, chosen);
    RunAppend(s, wait + choose, chosen, record, recorded);
    RunAppend(s, wait + choose + record, recorded, drop, t);
    steps := wait + choose + record + drop;
  }

  /** And what a delete does. */
  lemma DeleteRunsToEnd(s: State, p: Pid, file: Inode, name: string) returns (steps: seq<(Pid, Action)>, t: State)
    requires Inv(s) && s.lock.link.None? && At(s.lock, p) == Out && file !in s.lock.content
    requires name in s.file.clusters
    ensures Run(s, steps, t) && Inv(t)
    ensures t.lock.link.None? && At(t.lock, p) == Out && Forgotten(s.file, name, t.file)
  {
    hide PortsExact, LockInv, Forgotten, PidLock.Run, RemoveCluster, WorkInv, PidLock.Enabled, Do;
    WaitForAcquires(s.lock, p, file);
    var held := LockSteps(s, p, BeginWait, Create(file), WritePid(true));
    var wait := [(p, OnLock(BeginWait)), (p, OnLock(Create(file))), (p, OnLock(WritePid(true)))];
    RunKeepsInv(s, wait, held);
    var forgotten := DeleteForgets(held, p, name);
    var forget := [(p, Forget(name)), (p, Truncate), (p, Write)];
    RunKeepsInv(held, forget, forgotten);
    DropReleases(forgotten.lock, p);
    t := LockSteps(forgotten, p, OpenForDrop, ReadForDrop, Remove(true));
    var drop := [(p, OnLock(OpenForDrop)), (p, OnLock(ReadForDrop)), (p, OnLock(Remove(true)))];
    RunKeepsInv(forgotten, drop, t);
    RunAppend(s, wait, held, forget, forgotten);
    RunAppend(s, wait + forget, forgotten, drop, t);
    steps := wait + forget + drop;
  }
}
