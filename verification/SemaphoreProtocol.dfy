/**
 * The Semaphore of Buffer.cpp among any number of threads that use it in pairs of -- and ++, as TcpServer.cpp does to
 * guard its client counter: every mutex, condition variable and memory operation is a step of its own.
 */
module SemaphoreProtocol {
  import opened Options

  /** Where a thread is: in operator--, in the section it guards, or in operator++. */
  datatype Pc =
    | Idle
    | DecLock | DecTest | Asleep | Awake | DecTake | DecUnlock
    | Inside | HasRead(count: int) | Done
    | IncLock | IncAdd | IncUnlock | IncSignal

  datatype State = State(value: int, owner: Option<nat>, pcs: seq<Pc>, clients: int, counted: nat)

  /** A new semaphore and counter, and threads that have not used them yet. */
  predicate Init(s: State) {
    && s.value == 0 && s.owner == None && s.clients == 0 && s.counted == 0
    && forall t :: 0 <= t < |s.pcs| ==> s.pcs[t] == Idle
  }

  /** Whether thread t can take s to n in one step. */
  predicate Step(s: State, n: State, t: nat)
    requires t < |s.pcs|
  {
    match s.pcs[t]
    case Idle => n == Goto(s, t, DecLock)
    case DecLock => s.owner == None && n == Goto(s, t, DecTest).(owner := Some(t))
    case DecTest => n == if s.value < 0 then Goto(s, t, Asleep).(owner := None) else Goto(s, t, DecTake)
    case Asleep => n == Goto(s, t, Awake)
    case Awake => s.owner == None && n == Goto(s, t, DecTest).(owner := Some(t))
    case DecTake => n == Goto(s, t, DecUnlock).(value := s.value - 1)
    case DecUnlock => n == Goto(s, t, Inside).(owner := None)
    case Inside => n == Goto(s, t, HasRead(s.clients)) || n == Goto(s, t, Done)
    case HasRead(count) => n == Goto(s, t, Done).(clients := count + 1, counted := s.counted + 1)
    case Done => n == Goto(s, t, IncLock)
    case IncLock => s.owner == None && n == Goto(s, t, IncAdd).(owner := Some(t))
    case IncAdd => n == Goto(s, t, IncUnlock).(value := s.value + 1)
    case IncUnlock => n == Goto(s, t, IncSignal).(owner := None)
    case IncSignal =>
      if Sleeps(s) then exists u :: 0 <= u < |s.pcs| && s.pcs[u] == Asleep && n == Goto(Goto(s, u, Awake), t, Idle)
      else n == Goto(s, t, Idle)
  }

  function Goto(s: State, t: nat, pc: Pc): State
    requires t < |s.pcs|
  {
    s.(pcs := s.pcs[t := pc])
  }

  predicate Sleeps(s: State) { exists u :: 0 <= u < |s.pcs| && s.pcs[u] == Asleep }

  // ----- What every run keeps -----

  predicate InMutex(pc: Pc) {
    pc == DecTest || pc == DecTake || pc == DecUnlock || pc == IncAdd || pc == IncUnlock
  }

  /** The thread has taken the semaphore and not given it back. */
  predicate Holds(pc: Pc) {
    pc == DecUnlock || pc == Inside || pc.HasRead? || pc == Done || pc == IncLock || pc == IncAdd
  }

  function Holders(pcs: seq<Pc>): nat {
    if pcs == [] then 0 else Holders(pcs[..|pcs| - 1]) + if Holds(pcs[|pcs| - 1]) then 1 else 0
  }

  /** Awake on the way to the semaphore, or about to wake a sleeper. */
  predicate Stirring(pc: Pc) {
    pc == DecLock || pc == DecTest || pc == Awake || pc == DecTake || pc == IncUnlock || pc == IncSignal
  }

  predicate Stirs(s: State) { exists t :: 0 <= t < |s.pcs| && Stirring(s.pcs[t]) }

  /** The value is minus the number of holders, and there is one at most. */
  predicate Counted(s: State) { s.value == 0 - Holders(s.pcs) && Holders(s.pcs) <= 1 }

  /** The mutex belongs to the one thread inside a locked stretch; whoever has passed the test finds the semaphore free. */
  predicate Locked(s: State) {
    && (s.owner.Some? ==> s.owner.value < |s.pcs|)
    && (forall t :: 0 <= t < |s.pcs| ==> (InMutex(s.pcs[t]) <==> s.owner == Some(t)))
    && (forall t :: 0 <= t < |s.pcs| && s.pcs[t] == DecTake ==> s.value >= 0)
  }

  /** While the semaphore is free and a thread sleeps, another is awake on the way to it or about to signal. */
  predicate NoLostWakeUp(s: State) { s.value >= 0 && Sleeps(s) ==> Stirs(s) }

  /** No increment of the guarded counter is lost. */
  predicate CounterExact(s: State) {
    && s.clients == s.counted
    && (forall t :: 0 <= t < |s.pcs| && s.pcs[t].HasRead? ==> s.pcs[t].count == s.clients)
  }

  predicate Invariant(s: State) { Counted(s) && Locked(s) && NoLostWakeUp(s) && CounterExact(s) }

  lemma {:induction false} HoldersAfter(pcs: seq<Pc>, t: nat, pc: Pc)
    requires t < |pcs|
    ensures Holders(pcs[t := pc]) == Holders(pcs) - (if Holds(pcs[t]) then 1 else 0) + if Holds(pc) then 1 else 0
  {
    var front := pcs[..|pcs| - 1];
    if t < |front| {
      HoldersAfter(front, t, pc);
      assert pcs[t := pc][..|front|] == front[t := pc];
    } else {
      assert pcs[t := pc][..|front|] == front;
    }
  }

  lemma {:induction false} HolderCounts(pcs: seq<Pc>, t: nat)
    requires t < |pcs| && Holds(pcs[t])
    ensures Holders(pcs) >= 1
  {
    if t < |pcs| - 1 { HolderCounts(pcs[..|pcs| - 1], t); }
  }

  /** Two holders count twice. */
  lemma {:induction false} HoldersDiffer(pcs: seq<Pc>, t: nat, u: nat)
    requires t < u < |pcs| && Holds(pcs[t]) && Holds(pcs[u])
    ensures Holders(pcs) >= 2
  {
    if u < |pcs| - 1 {
      HoldersDiffer(pcs[..|pcs| - 1], t, u);
    } else {
      HolderCounts(pcs[..|pcs| - 1], t);
    }
  }

  lemma {:induction false} NoHolders(pcs: seq<Pc>)
    requires forall t :: 0 <= t < |pcs| ==> !Holds(pcs[t])
    ensures Holders(pcs) == 0
  {
    if pcs != [] { NoHolders(pcs[..|pcs| - 1]); }
  }

  lemma InitIsInvariant(s: State)
    requires Init(s)
    ensures Invariant(s)
  {
    NoHolders(s.pcs);
  }

  /** Every step of every thread keeps the invariant. */
  lemma StepKeepsInvariant(s: State, n: State, t: nat)
    requires Invariant(s) && t < |s.pcs| && Step(s, n, t)
    ensures Invariant(n) && |n.pcs| == |s.pcs|
  {
    hide Step, Counted, Locked, NoLostWakeUp, CounterExact;
    CountedKept(s, n, t);
    LockedKept(s, n, t);
    WakeUpKept(s, n, t);
    CounterKept(s, n, t);
  }

  /** The sleeper a signal wakes is moved first; otherwise a step moves its own thread alone. */
  lemma StepShape(s: State, n: State, t: nat)
    requires Locked(s) && t < |s.pcs| && Step(s, n, t)
    ensures |n.pcs| == |s.pcs|
    ensures n.pcs == s.pcs[t := n.pcs[t]]
            || exists u :: 0 <= u < |s.pcs| && s.pcs[u] == Asleep && s.pcs[t] == IncSignal && n.pcs == s.pcs[u := Awake][t := Idle]
    ensures n.value == s.value + (if s.pcs[t] == DecTake then -1 else if s.pcs[t] == IncAdd then 1 else 0)
    ensures Holds(n.pcs[t]) == (s.pcs[t] == DecTake || (Holds(s.pcs[t]) && s.pcs[t] != IncAdd))
    ensures InMutex(n.pcs[t]) ==> n.owner == Some(t)
    ensures !InMutex(n.pcs[t]) ==> n.owner == if s.owner == Some(t) then None else s.owner
    ensures s.owner == Some(t) || s.owner == None || n.owner == s.owner
    ensures n.value != s.value ==> s.owner == Some(t)
    ensures n.pcs[t] == DecTake ==> s.value >= 0
    ensures InMutex(n.pcs[t]) && !InMutex(s.pcs[t]) ==> s.owner == None
  {
    hide Holders;
    if s.pcs[t] == IncSignal && Sleeps(s) {
      var u :| 0 <= u < |s.pcs| && s.pcs[u] == Asleep && n == Goto(Goto(s, u, Awake), t, Idle);
    }
  }

  lemma CountedKept(s: State, n: State, t: nat)
    requires Counted(s) && Locked(s) && t < |s.pcs| && Step(s, n, t)
    ensures Counted(n) && |n.pcs| == |s.pcs|
  {
    StepShape(s, n, t);
    assert s.pcs[t] == DecTake ==> s.value >= 0;
    hide Step, Locked, Holders, InMutex;
    HoldersChange(s, n, t);
    if s.pcs[t] == IncAdd { HolderCounts(s.pcs, t); }
  }

  lemma HoldersChange(s: State, n: State, t: nat)
    requires t < |s.pcs| == |n.pcs|
    requires n.pcs == s.pcs[t := n.pcs[t]]
             || exists u :: 0 <= u < |s.pcs| && s.pcs[u] == Asleep && s.pcs[t] == IncSignal && n.pcs == s.pcs[u := Awake][t := Idle]
    ensures Holders(n.pcs) == Holders(s.pcs) - (if Holds(s.pcs[t]) then 1 else 0) + if Holds(n.pcs[t]) then 1 else 0
  {
    hide Holders;
    if n.pcs == s.pcs[t := n.pcs[t]] {
      HoldersAfter(s.pcs, t, n.pcs[t]);
    } else {
      var u :| 0 <= u < |s.pcs| && s.pcs[u] == Asleep && s.pcs[t] == IncSignal && n.pcs == s.pcs[u := Awake][t := Idle];
      HoldersAfter(s.pcs, u, Awake);
      HoldersAfter(s.pcs[u := Awake], t, Idle);
    }
  }

  lemma LockedKept(s: State, n: State, t: nat)
    requires Locked(s) && t < |s.pcs| && Step(s, n, t)
    ensures Locked(n)
  {
    StepShape(s, n, t);
    hide Step, Holds, InMutex;
    forall v | 0 <= v < |n.pcs| && v != t
      ensures InMutex(n.pcs[v]) <==> n.owner == Some(v)
      ensures n.pcs[v] == DecTake ==> n.value >= 0
    {
      assert InMutex(s.pcs[v]) <==> s.owner == Some(v);
      assert InMutex(s.pcs[t]) <==> s.owner == Some(t);
      assert n.pcs[v] == s.pcs[v] || (s.pcs[v] == Asleep && n.pcs[v] == Awake);
    }
  }

  lemma WakeUpKept(s: State, n: State, t: nat)
    requires Locked(s) && Counted(s) && NoLostWakeUp(s) && t < |s.pcs| && Step(s, n, t)
    ensures NoLostWakeUp(n)
  {
    if s.pcs[t] == IncSignal && Sleeps(s) {
      var u :| 0 <= u < |s.pcs| && s.pcs[u] == Asleep && n == Goto(Goto(s, u, Awake), t, Idle);
      assert n.pcs[u] == Awake;
    } else if n.value >= 0 && Sleeps(n) && !Stirring(n.pcs[t]) {
      StirringGoesOn(s, n, t);
      hide Step, Locked, Counted;
      var u :| 0 <= u < |n.pcs| && n.pcs[u] == Asleep;
      assert s.pcs[u] == Asleep;
      var v :| 0 <= v < |s.pcs| && Stirring(s.pcs[v]);
      assert n.pcs[v] == s.pcs[v];
    } else if n.value >= 0 && Sleeps(n) {
      OwnLength(s, n, t);
      assert Stirs(n);
    }
  }

  lemma OwnLength(s: State, n: State, t: nat)
    requires t < |s.pcs| && Step(s, n, t)
    ensures |n.pcs| == |s.pcs|
  {}

  /** With the semaphore free, a thread stops stirring only by taking it, or by signalling when nobody sleeps. */
  lemma StirringGoesOn(s: State, n: State, t: nat)
    requires Locked(s) && Counted(s) && t < |s.pcs| && Step(s, n, t) && !(s.pcs[t] == IncSignal && Sleeps(s))
    requires n.value >= 0 && Sleeps(n) && !Stirring(n.pcs[t])
    ensures n.pcs == s.pcs[t := n.pcs[t]] && n.value == s.value && n.pcs[t] != Asleep && !Stirring(s.pcs[t])
  {
    hide Holders, Holds;
  }

  lemma CounterKept(s: State, n: State, t: nat)
    requires Counted(s) && CounterExact(s) && t < |s.pcs| && Step(s, n, t)
    ensures CounterExact(n)
  {
    hide Holders;
    if s.pcs[t] == IncSignal && Sleeps(s) {
      var u :| 0 <= u < |s.pcs| && s.pcs[u] == Asleep && n == Goto(Goto(s, u, Awake), t, Idle);
    } else if s.pcs[t].HasRead? {
      forall v | 0 <= v < |s.pcs| && v != t ensures !s.pcs[v].HasRead? {
        if s.pcs[v].HasRead? { if v < t { HoldersDiffer(s.pcs, v, t); } else { HoldersDiffer(s.pcs, t, v); } }
      }
    }
  }

  // ----- Runs -----

  /** A run: every state follows from the one before by a step of some thread. */
  predicate Run(r: seq<State>) {
    && r != [] && Init(r[0])
    && forall i :: 0 < i < |r| ==> CanStep(r[i - 1], r[i])
  }

  predicate CanStep(s: State, n: State) { exists t: nat :: t < |s.pcs| && Step(s, n, t) }

  predicate Busy(s: State) { exists t :: 0 <= t < |s.pcs| && s.pcs[t] != Idle }

  lemma {:induction false} EveryRunKeepsInvariant(r: seq<State>)
    requires Run(r)
    ensures Invariant(r[|r| - 1])
  {
    hide Step, Invariant, Init;
    var k := |r| - 1;
    if k == 0 {
      InitIsInvariant(r[0]);
    } else {
      EveryRunKeepsInvariant(r[..k]);
      assert CanStep(r[k - 1], r[k]);
      var t: nat :| t < |r[k - 1].pcs| && Step(r[k - 1], r[k], t);
      StepKeepsInvariant(r[k - 1], r[k], t);
    }
  }

  /** In every state of every run two threads are never both between -- and ++, and the counter has every increment. */
  lemma MutualExclusion(r: seq<State>, t: nat, u: nat)
    requires Run(r) && t < u < |r[|r| - 1].pcs|
    ensures var s := r[|r| - 1]; !(Holds(s.pcs[t]) && Holds(s.pcs[u])) && s.clients == s.counted
  {
    EveryRunKeepsInvariant(r);
    var s := r[|r| - 1];
    if Holds(s.pcs[t]) && Holds(s.pcs[u]) { HoldersDiffer(s.pcs, t, u); }
  }

  /** As long as a thread is on its way, some thread that is neither idle nor asleep can take a step. */
  lemma NoDeadlock(r: seq<State>) returns (t: nat, n: State)
    requires Run(r) && Busy(r[|r| - 1])
    ensures var s := r[|r| - 1];
            t < |s.pcs| && s.pcs[t] != Idle && s.pcs[t] != Asleep && Step(s, n, t)
  {
    EveryRunKeepsInvariant(r);
    var s := r[|r| - 1];
    if s.owner.Some? {
      t := s.owner.value;
    } else {
      t := SomeoneAwake(s);
    }
    n := StepOf(s, t);
  }

  lemma SomeoneAwake(s: State) returns (t: nat)
    requires Invariant(s) && Busy(s)
    ensures t < |s.pcs| && s.pcs[t] != Idle && s.pcs[t] != Asleep
  {
    var u: nat :| u < |s.pcs| && s.pcs[u] != Idle;
    if s.pcs[u] != Asleep {
      t := u;
    } else if Stirs(s) {
      t :| 0 <= t < |s.pcs| && Stirring(s.pcs[t]);
    } else if forall v :: 0 <= v < |s.pcs| ==> !Holds(s.pcs[v]) {
      NoHolders(s.pcs);
    } else {
      t :| 0 <= t < |s.pcs| && Holds(s.pcs[t]);
    }
  }

  lemma StepOf(s: State, t: nat) returns (n: State)
    requires t < |s.pcs| && s.pcs[t] != Idle && s.pcs[t] != Asleep
    requires s.owner == None || s.owner == Some(t)
    requires Locked(s)
    ensures Step(s, n, t)
  {
    match s.pcs[t]
    case Idle => n := s;
    case Asleep => n := s;
    case DecLock => n := Goto(s, t, DecTest).(owner := Some(t));
    case DecTest => n := if s.value < 0 then Goto(s, t, Asleep).(owner := None) else Goto(s, t, DecTake);
    case Awake => n := Goto(s, t, DecTest).(owner := Some(t));
    case DecTake => n := Goto(s, t, DecUnlock).(value := s.value - 1);
    case DecUnlock => n := Goto(s, t, Inside).(owner := None);
    case Inside => n := Goto(s, t, Done);
    case HasRead(count) => n := Goto(s, t, Done).(clients := count + 1, counted := s.counted + 1);
    case Done => n := Goto(s, t, IncLock);
    case IncLock => n := Goto(s, t, IncAdd).(owner := Some(t));
    case IncAdd => n := Goto(s, t, IncUnlock).(value := s.value + 1);
    case IncUnlock => n := Goto(s, t, IncSignal).(owner := None);
    case IncSignal =>
      if Sleeps(s) {
        var u :| 0 <= u < |s.pcs| && s.pcs[u] == Asleep;
        n := Goto(Goto(s, u, Awake), t, Idle);
      } else {
        n := Goto(s, t, Idle);
      }
  }
}
