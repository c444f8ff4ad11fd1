/** waitFor and WaitForSerial (pkg/util/logutils/logutils.go): polling loops against
    functions that complete at any moment.  fails[i] says whether function i will
    return an error. */
module Waiters {

  function Range(n: nat): seq<nat> { seq(n, i => i) }

  /** The waiters, by number. */
  function All(n: nat): set<nat> { set i | i in Range(n) }

  predicate AnyFails(fails: seq<bool>, m: multiset<nat>) {
    exists i: nat | i < |fails| :: i in m && fails[i]
  }

  lemma AnyFailsNext(fails: seq<bool>, m: multiset<nat>, w: nat)
    ensures !AnyFails(fails, multiset{})
    ensures AnyFails(fails, m + multiset{w}) <==> AnyFails(fails, m) || (w < |fails| && fails[w])
  {
    if AnyFails(fails, m) {
      var i: nat :| i < |fails| && i in m && fails[i];
      assert i in m + multiset{w};
    }
  }

  lemma AllNext(n: nat)
    ensures All(0) == {}
    ensures All(n + 1) == All(n) + {n} && n !in All(n)
  {
    assert Range(n + 1) == Range(n) + [n];
  }

  lemma {:induction false} RangeIsAll(n: nat)
    ensures multiset(Range(n)) == multiset(All(n))
  {
    if n > 0 {
      RangeIsAll(n - 1);
      AllNext(n - 1);
      assert Range(n) == Range(n - 1) + [n - 1];
    }
  }

  // ---------- waitFor

  datatype Pc = Checking | Starting(k: nat) | Looking | Reporting | Returned(result: bool)

  /** What is shared with the functions, and what is local to waitFor: the waiters
      still to look at in this round, and those found done and not done.  `reported`
      lists the waiters for which a final message has been logged. */
  datatype State = State(started: set<nat>, finished: set<nat>, reported: seq<nat>,
    waiters: seq<nat>, done: seq<nat>, notDone: seq<nat>, haveError: bool, pc: Pc)

  datatype Step = CheckFails | CheckSucceeds | Launch | Finish(i: nat) | Look | Report

  const INITIAL := State({}, {}, [], [], [], [], false, Checking)

  predicate Enabled(s: State, e: Step) {
    match e
    case CheckFails => s.pc.Checking?
    case CheckSucceeds => s.pc.Checking?
    case Launch => s.pc.Starting?
    case Finish(i) => i in s.started && i !in s.finished
    case Look => s.pc.Looking?
    case Report => s.pc.Reporting?
  }

  /** The head of the loop over the waiters that are left. */
  function NextRound(s: State, waiters: seq<nat>): State {
    s.(waiters := waiters, done := [], notDone := [], pc := if waiters == [] then Returned(s.haveError) else Looking)
  }

  function Do(fails: seq<bool>, s: State, e: Step): State
    requires Enabled(s, e)
  {
    match e
    case CheckFails => s.(pc := Returned(true))
    case CheckSucceeds => s.(pc := Starting(0))
    case Launch =>
      if s.pc.k < |fails| then s.(started := s.started + {s.pc.k}, pc := Starting(s.pc.k + 1))
      else NextRound(s, Range(|fails|))
    case Finish(i) => s.(finished := s.finished + {i})
    case Look =>
      if s.waiters == [] then s.(pc := Reporting)
      else
        var w, rest := s.waiters[0], s.waiters[1..];
        if w !in s.finished then s.(waiters := rest, notDone := s.notDone + [w])
        else s.(waiters := rest, done := s.done + [w], haveError := s.haveError || (w < |fails| && fails[w]))
    case Report =>
      if s.done == [] then NextRound(s, s.notDone)
      else s.(reported := s.reported + [s.done[0]], done := s.done[1..])
  }

  /** The waiters seen to be done, and those that are not. */
  function Seen(s: State): multiset<nat> { multiset(s.reported) + multiset(s.done) }
  function Left(s: State): multiset<nat> { multiset(s.notDone) + multiset(s.waiters) }

  ghost predicate Inv(fails: seq<bool>, s: State) {
    && s.finished <= s.started
    && match s.pc
       case Checking => s == INITIAL
       case Starting(k) => k <= |fails| && s.started == All(k) && s == INITIAL.(started := All(k), finished := s.finished, pc := s.pc)
       case Returned(result) => (s.started == {} && result && s.reported == []) || Complete(fails, s)
       case _ => Partway(fails, s)
  }

  ghost predicate Partway(fails: seq<bool>, s: State) {
    && s.started == All(|fails|)
    && Seen(s) + Left(s) == multiset(All(|fails|))
    && (forall i | i in Seen(s) :: i in s.finished)
    && (s.haveError <==> AnyFails(fails, Seen(s)))
    && (s.pc.Reporting? ==> s.waiters == [])
  }

  /** All functions have run to the end, each is reported once, and the result says
      whether one of them failed. */
  ghost predicate Complete(fails: seq<bool>, s: State) {
    && s.pc.Returned?
    && s.started == s.finished == All(|fails|)
    && multiset(s.reported) == multiset(All(|fails|))
    && (s.pc.result <==> true in fails)
  }

  lemma RoundStarts(fails: seq<bool>, s: State, waiters: seq<nat>)
    requires s.finished <= s.started == All(|fails|)
    requires multiset(s.reported) + multiset(waiters) == multiset(All(|fails|))
    requires forall i | i in s.reported :: i in s.finished
    requires s.haveError <==> AnyFails(fails, multiset(s.reported))
    ensures Inv(fails, NextRound(s, waiters))
    ensures waiters == [] ==> Complete(fails, NextRound(s, waiters))
  {
    if waiters == [] {
      forall i | i in All(|fails|)
        ensures i in s.finished
      {
        assert i in multiset(All(|fails|));
      }
      forall i: nat | i < |fails|
        ensures i in multiset(s.reported)
      {
        assert Range(|fails|)[i] in multiset(All(|fails|));
      }
    }
  }

  lemma LookKeepsInv(fails: seq<bool>, s: State)
    requires s.finished <= s.started && s.pc.Looking? && Partway(fails, s)
    ensures Inv(fails, Do(fails, s, Look))
  {
    hide AnyFails, All;
    if s.waiters != [] {
      var w := s.waiters[0];
      assert s.waiters == [w] + s.waiters[1..];
      AnyFailsNext(fails, Seen(s), w);
      assert w in s.finished ==> Seen(Do(fails, s, Look)) == Seen(s) + multiset{w};
    }
  }

  /** A report moves a waiter from those found done to those reported. */
  lemma ReportMoves(fails: seq<bool>, s: State)
    requires s.pc.Reporting? && s.done != []
    ensures Seen(Do(fails, s, Report)) == Seen(s) && Left(Do(fails, s, Report)) == Left(s)
  {
    assert s.done == [s.done[0]] + s.done[1..];
  }

  lemma ReportKeepsInv(fails: seq<bool>, s: State)
    requires s.finished <= s.started && s.pc.Reporting? && Partway(fails, s)
    ensures Inv(fails, Do(fails, s, Report))
  {
    hide AnyFails, All;
    if s.done == [] {
      assert Seen(s) == multiset(s.reported);
      assert forall i | i in s.reported :: i in Seen(s);
      hide Inv;
      RoundStarts(fails, s, s.notDone);
    } else {
      hide Seen, Left;
      ReportMoves(fails, s);
    }
  }

  lemma StepKeepsInv(fails: seq<bool>, s: State, e: Step)
    requires Inv(fails, s) && Enabled(s, e)
    ensures Inv(fails, Do(fails, s, e))
  {
    hide AnyFails, All, Range;
    match e
    case CheckSucceeds => AllNext(0);
    case Launch =>
      if s.pc.k == |fails| {
        RangeIsAll(|fails|);
        AnyFailsNext(fails, multiset{}, 0);
        RoundStarts(fails, s, Range(|fails|));
      } else {
        AllNext(s.pc.k);
      }
    case Look => LookKeepsInv(fails, s);
    case Report => ReportKeepsInv(fails, s);
    case _ =>
  }

  ghost predicate Run(fails: seq<bool>, s: State, steps: seq<Step>, t: State)
    decreases |steps|
  {
    if steps == [] then s == t
    else Enabled(s, steps[0]) && Run(fails, Do(fails, s, steps[0]), steps[1..], t)
  }

  /** What has become of the call, given whether the check of the terminal failed. */
  ghost predicate Outcome(fails: seq<bool>, s: State, failed: bool) {
    && Inv(fails, s)
    && (failed ==> s.pc == Returned(true) && s.started == {} && s.reported == [])
    && (!failed && s.pc.Returned? ==> Complete(fails, s))
  }

  lemma StepOutcome(fails: seq<bool>, s: State, e: Step, failed: bool)
    requires Outcome(fails, s, failed) && Enabled(s, e)
    ensures Outcome(fails, Do(fails, s, e), failed || e == CheckFails)
  {
    hide AnyFails, All, Range;
    StepKeepsInv(fails, s, e);
    if e.Launch? && s.pc.k == |fails| {
      RangeIsAll(|fails|);
      AnyFailsNext(fails, multiset{}, 0);
      RoundStarts(fails, s, Range(|fails|));
    } else if e.Report? && s.done == [] {
      assert Seen(s) == multiset(s.reported);
      assert forall i | i in s.reported :: i in Seen(s);
      RoundStarts(fails, s, s.notDone);
    }
  }

  lemma {:induction false} RunOutcome(fails: seq<bool>, s: State, steps: seq<Step>, t: State, failed: bool)
    requires Outcome(fails, s, failed) && Run(fails, s, steps, t)
    ensures Outcome(fails, t, failed || CheckFails in steps)
    decreases |steps|
  {
    hide Outcome, Enabled, Do;
    if steps != [] {
      StepOutcome(fails, s, steps[0], failed);
      assert CheckFails in steps <==> steps[0] == CheckFails || CheckFails in steps[1..];
      RunOutcome(fails, Do(fails, s, steps[0]), steps[1..], t, failed || steps[0] == CheckFails);
    }
  }

  /** Whatever the order in which the functions complete, waitFor returns only after
      all of them, has reported each exactly once, and returns whether one failed;
      if the check of the terminal fails, and only then, it starts none and returns
      true. */
  lemma WaitForIsComplete(fails: seq<bool>, steps: seq<Step>, t: State)
    requires Run(fails, INITIAL, steps, t)
    ensures CheckFails in steps ==> t.pc == Returned(true) && t.started == {} && t.reported == []
    ensures CheckFails !in steps && t.pc.Returned? ==> Complete(fails, t)
  {
    hide Run, Complete;
    RunOutcome(fails, INITIAL, steps, t, false);
  }

  /** How many steps waitFor still takes once all functions have completed. */
  function Remaining(s: State): nat {
    if s.pc.Returned? then 0
    else
      |s.done| + (if s.pc.Looking? then 2 * |s.waiters| + 2 else 1)
      + (if s.notDone == [] then 0 else 2 * |s.notDone| + 2)
  }

  /** With every function completed, each step brings the return closer. */
  lemma ReturnsWhenDone(fails: seq<bool>, s: State, e: Step)
    requires Inv(fails, s) && s.started == s.finished == All(|fails|)
    requires (s.pc.Looking? && e == Look) || (s.pc.Reporting? && e == Report)
    ensures Remaining(Do(fails, s, e)) == Remaining(s) - 1
  {
    hide AnyFails, All;
    if s.pc.Looking? && s.waiters != [] {
      assert s.waiters[0] in Left(s);
      assert s.waiters[0] in multiset(All(|fails|));
    }
  }

  /** From wherever the call stands it can still return, and then everything has
      been waited for. */
  lemma CanReturn(fails: seq<bool>, s: State) returns (steps: seq<Step>, t: State)
    requires Outcome(fails, s, false)
    ensures CheckFails !in steps && Run(fails, s, steps, t) && Complete(fails, t)
    decreases if s.pc.Checking? then 2 else if s.pc.Starting? then 1 else 0,
              if s.pc.Starting? then |fails| + 1 - s.pc.k else 0, s.started - s.finished, Remaining(s)
  {
    hide Complete, Run, Partway;
    if s.pc.Returned? {
      RunNone(fails, s);
      return [], s;
    }
    var e := if s.pc.Checking? then CheckSucceeds else if s.pc.Starting? then Launch else NextStep(fails, s);
    StepOutcome(fails, s, e, false);
    if (s.pc.Looking? || s.pc.Reporting?) && !e.Finish? {
      assert s.started == s.finished == All(|fails|) by { AllStarted(fails, s); }
      ReturnsWhenDone(fails, s, e);
    }
    steps, t := CanReturn(fails, Do(fails, s, e));
    RunFirst(fails, s, e, steps, t);
    steps := [e] + steps;
  }

  /** A function that has not completed yet does so; else waitFor goes on. */
  ghost function NextStep(fails: seq<bool>, s: State): (e: Step)
    requires Inv(fails, s) && (s.pc.Looking? || s.pc.Reporting?)
    ensures Enabled(s, e)
    ensures if s.finished < s.started then e.Finish? else e == if s.pc.Looking? then Look else Report
  {
    if s.started == s.finished then if s.pc.Looking? then Look else Report
    else var i :| i in s.started && i !in s.finished; Finish(i)
  }

  lemma AllStarted(fails: seq<bool>, s: State)
    requires Inv(fails, s) && (s.pc.Looking? || s.pc.Reporting?) && !(s.finished < s.started)
    ensures s.started == s.finished == All(|fails|)
  {
  }

  lemma RunNone(fails: seq<bool>, s: State)
    ensures Run(fails, s, [], s)
  {
  }

  lemma RunFirst(fails: seq<bool>, s: State, e: Step, steps: seq<Step>, t: State)
    requires Enabled(s, e) && Run(fails, Do(fails, s, e), steps, t)
    ensures Run(fails, s, [e] + steps, t)
  {
    assert ([e] + steps)[1..] == steps;
  }

  // ---------- WaitForSerial

  datatype SerialPc = SerialChecking | Next(k: nat) | Polling(k: nat) | SerialReturned(result: bool)

  datatype Happening = Started(i: nat) | Finished(i: nat)

  /** `log` records when functions start and finish. */
  datatype SerialState = SerialState(log: seq<Happening>, haveError: bool, pc: SerialPc)

  datatype SerialStep = SerialCheckFails | SerialCheckSucceeds | SerialLaunch | SerialFinish(i: nat) | Poll

  const SERIAL_INITIAL := SerialState([], false, SerialChecking)

  predicate SerialEnabled(s: SerialState, e: SerialStep) {
    match e
    case SerialCheckFails => s.pc.SerialChecking?
    case SerialCheckSucceeds => s.pc.SerialChecking?
    case SerialLaunch => s.pc.Next?
    case SerialFinish(i) => Started(i) in s.log && Finished(i) !in s.log
    case Poll => s.pc.Polling?
  }

  function SerialDo(fails: seq<bool>, s: SerialState, e: SerialStep): SerialState
    requires SerialEnabled(s, e)
  {
    match e
    case SerialCheckFails => s.(pc := SerialReturned(true))
    case SerialCheckSucceeds => s.(pc := Next(0))
    case SerialLaunch =>
      if s.pc.k < |fails| then s.(log := s.log + [Started(s.pc.k)], pc := Polling(s.pc.k))
      else s.(pc := SerialReturned(s.haveError))
    case SerialFinish(i) => s.(log := s.log + [Finished(i)])
    case Poll =>
      if Finished(s.pc.k) !in s.log then s
      else s.(haveError := s.haveError || (s.pc.k < |fails| && fails[s.pc.k]), pc := Next(s.pc.k + 1))
  }

  /** One function after the other, in the order given. */
  function InOrder(n: nat): seq<Happening> {
    if n == 0 then [] else InOrder(n - 1) + [Started(n - 1), Finished(n - 1)]
  }

  lemma {:induction false} InOrderHas(n: nat, i: nat)
    ensures Started(i) in InOrder(n) <==> i < n
    ensures Finished(i) in InOrder(n) <==> i < n
  {
    if n > 0 { InOrderHas(n - 1, i); }
  }

  ghost predicate SerialInv(fails: seq<bool>, s: SerialState) {
    match s.pc
    case SerialChecking => s == SERIAL_INITIAL
    case Next(k) => k <= |fails| && s.log == InOrder(k) && (s.haveError <==> true in fails[..k])
    case Polling(k) =>
      && k < |fails| && (s.haveError <==> true in fails[..k])
      && (s.log == InOrder(k) + [Started(k)] || s.log == InOrder(k + 1))
    case SerialReturned(result) => (s.log == [] && result) || (s.log == InOrder(|fails|) && (result <==> true in fails))
  }

  lemma SerialStepKeepsInv(fails: seq<bool>, s: SerialState, e: SerialStep)
    requires SerialInv(fails, s) && SerialEnabled(s, e)
    ensures SerialInv(fails, SerialDo(fails, s, e))
  {
    match e
    case SerialLaunch => assert fails[..|fails|] == fails;
    case SerialFinish(i) =>
      InOrderHas(if s.pc.Polling? || s.pc.Next? then s.pc.k else |fails|, i);
      if s.pc.Polling? {
        InOrderHas(s.pc.k + 1, i);
        assert InOrder(s.pc.k + 1) == InOrder(s.pc.k) + [Started(s.pc.k)] + [Finished(s.pc.k)];
      }
    case Poll =>
      InOrderHas(s.pc.k, s.pc.k);
      assert fails[..s.pc.k + 1] == fails[..s.pc.k] + [fails[s.pc.k]];
    case _ =>
  }

  ghost predicate SerialRun(fails: seq<bool>, s: SerialState, steps: seq<SerialStep>, t: SerialState)
    decreases |steps|
  {
    if steps == [] then s == t
    else SerialEnabled(s, steps[0]) && SerialRun(fails, SerialDo(fails, s, steps[0]), steps[1..], t)
  }

  /** What has become of the call, given whether the check of the terminal failed. */
  ghost predicate SerialOutcome(fails: seq<bool>, s: SerialState, failed: bool) {
    && SerialInv(fails, s)
    && (failed ==> s == SerialState([], false, SerialReturned(true)))
    && (!failed && s.pc.SerialReturned? ==> s.log == InOrder(|fails|) && (s.pc.result <==> true in fails))
  }

  lemma SerialStepOutcome(fails: seq<bool>, s: SerialState, e: SerialStep, failed: bool)
    requires SerialOutcome(fails, s, failed) && SerialEnabled(s, e)
    ensures SerialOutcome(fails, SerialDo(fails, s, e), failed || e == SerialCheckFails)
  {
    SerialStepKeepsInv(fails, s, e);
    assert fails[..|fails|] == fails;
    if e.SerialFinish? {
      InOrderHas(|fails|, e.i);
    }
  }

  lemma {:induction false} SerialRunOutcome(fails: seq<bool>, s: SerialState, steps: seq<SerialStep>, t: SerialState, failed: bool)
    requires SerialOutcome(fails, s, failed) && SerialRun(fails, s, steps, t)
    ensures SerialOutcome(fails, t, failed || SerialCheckFails in steps)
    decreases |steps|
  {
    hide SerialOutcome, SerialEnabled, SerialDo;
    if steps != [] {
      SerialStepOutcome(fails, s, steps[0], failed);
      assert SerialCheckFails in steps <==> steps[0] == SerialCheckFails || SerialCheckFails in steps[1..];
      SerialRunOutcome(fails, SerialDo(fails, s, steps[0]), steps[1..], t, failed || steps[0] == SerialCheckFails);
    }
  }

  lemma {:induction false} InOrderExtends(m: nat, n: nat)
    requires m <= n
    ensures InOrder(m) <= InOrder(n)
    decreases n
  {
    if m < n { InOrderExtends(m, n - 1); }
  }

  /** At any moment the functions have run one after the other in the order given; a
      failure does not keep the later ones from running.  Only a failed check of the
      terminal does. */
  lemma SerialIsInOrder(fails: seq<bool>, steps: seq<SerialStep>, t: SerialState)
    requires SerialRun(fails, SERIAL_INITIAL, steps, t)
    ensures t.log <= InOrder(|fails|)
    ensures SerialCheckFails in steps ==> t.pc == SerialReturned(true) && t.log == []
    ensures SerialCheckFails !in steps && t.pc.SerialReturned? ==>
      t.log == InOrder(|fails|) && (t.pc.result <==> true in fails)
  {
    hide SerialRun;
    SerialRunOutcome(fails, SERIAL_INITIAL, steps, t, false);
    var k := if t.pc.Next? then t.pc.k else if t.pc.Polling? then t.pc.k + 1 else 0;
    if k <= |fails| {
      InOrderExtends(k, |fails|);
    }
  }

  /** From wherever the call stands it can still return. */
  lemma SerialCanReturn(fails: seq<bool>, s: SerialState) returns (steps: seq<SerialStep>, t: SerialState)
    requires SerialOutcome(fails, s, false)
    ensures SerialCheckFails !in steps && SerialRun(fails, s, steps, t)
    ensures t.pc.SerialReturned? && t.log == InOrder(|fails|) && (t.pc.result <==> true in fails)
    decreases Ahead(fails, s)
  {
    hide SerialRun;
    if s.pc.SerialReturned? {
      SerialRunNone(fails, s);
      return [], s;
    }
    var e :=
      match s.pc
      case SerialChecking => SerialCheckSucceeds
      case Next(_) => SerialLaunch
      case Polling(k) => if Finished(k) in s.log then Poll else SerialFinish(k);
    if s.pc.Polling? {
      InOrderHas(s.pc.k, s.pc.k);
      InOrderHas(s.pc.k + 1, s.pc.k);
    }
    SerialStepOutcome(fails, s, e, false);
    steps, t := SerialCanReturn(fails, SerialDo(fails, s, e));
    SerialRunFirst(fails, s, e, steps, t);
    steps := [e] + steps;
  }

  /** How many steps are still to come. */
  ghost function Ahead(fails: seq<bool>, s: SerialState): nat
    requires SerialInv(fails, s)
  {
    match s.pc
    case SerialChecking => 3 * |fails| + 2
    case Next(k) => 3 * (|fails| - k) + 1
    case Polling(k) => 3 * (|fails| - k) - if Finished(k) in s.log then 1 else 0
    case SerialReturned(_) => 0
  }

  lemma SerialRunNone(fails: seq<bool>, s: SerialState)
    ensures SerialRun(fails, s, [], s)
  {
  }

  lemma SerialRunFirst(fails: seq<bool>, s: SerialState, e: SerialStep, steps: seq<SerialStep>, t: SerialState)
    requires SerialEnabled(s, e) && SerialRun(fails, SerialDo(fails, s, e), steps, t)
    ensures SerialRun(fails, s, [e] + steps, t)
  {
    assert ([e] + steps)[1..] == steps;
  }
}
