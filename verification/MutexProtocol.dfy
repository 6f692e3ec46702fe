/** The recursive mutex and the critical section: the same protocol over a lock word, an owner, a recursion count
    and a futex queue. A state machine with one program counter per thread; every atomic access is one step.
    A critical section never times out, so its runs are among these. */
module MutexProtocol {
  import opened Wrappers

  const TWO_32: int := 0x1_0000_0000

  /** Where a thread is. `Idle` is outside the operations, holding the lock or not. */
  datatype Pc =
    | Idle
    | Trying          // about to compare-and-exchange the lock word
    | Failed          // the exchange failed; about to sleep, or to give up at the deadline
    | Asleep          // in the futex queue
    | Acquired        // the exchange succeeded; about to store the owner
    | OwnerStored     // about to store recursion 1
    | Reentering      // owner already; about to increment the recursion
    | Leaving         // owner; about to decrement the recursion
    | Disowning       // recursion reached 0; about to clear the owner
    | Unlocking       // about to store 0 in the lock word
    | Waking          // about to wake one sleeper

  /** `depth` counts a thread's acquires minus its releases since it last took the word. */
  datatype State = State(lock: nat, owner: nat, recursion: nat, pcs: seq<Pc>, ghost depth: seq<nat>)

  /** The id of thread `t`; 0 stands for no owner. */
  function Id(t: nat): nat { t + 1 }

  /** One step of a thread, with the choices left to the scheduler and the kernel. */
  datatype Action =
    | StartAcquire | TryLock | TimeOut | Sleep | SpuriousReturn | SpuriousWake | StoreOwner | StoreRecursion | Reenter
    | StartRelease | Decrement | ClearOwner | Unlock | Wake(sleeper: nat) | WakeNobody

  ghost predicate Valid(s: State) {
    |s.depth| == |s.pcs|
  }

  ghost function Goto(s: State, t: nat, pc: Pc): State
    requires t < |s.pcs|
  {
    s.(pcs := s.pcs[t := pc])
  }

  /** The state after thread `t` takes step `a`; `None` if it cannot. */
  ghost function Apply(s: State, t: nat, a: Action): Option<State>
    requires Valid(s)
  {
    if t >= |s.pcs| then None
    else match a
      case StartAcquire =>
        if s.pcs[t] != Idle then None
        else Some(Goto(s, t, if s.owner == Id(t) then Reentering else Trying))
      case TryLock =>
        if s.pcs[t] != Trying then None
        else if s.lock == 0 then Some(Goto(s, t, Acquired).(lock := 1))
        else Some(Goto(s, t, Failed))
      case TimeOut => if s.pcs[t] != Failed then None else Some(Goto(s, t, Idle))
      case Sleep =>
        // The kernel compares and sleeps atomically.
        if s.pcs[t] != Failed then None else Some(Goto(s, t, if s.lock == 1 then Asleep else Trying))
      case SpuriousReturn => if s.pcs[t] != Failed then None else Some(Goto(s, t, Trying))
      case SpuriousWake => if s.pcs[t] != Asleep then None else Some(Goto(s, t, Trying))
      case StoreOwner => if s.pcs[t] != Acquired then None else Some(Goto(s, t, OwnerStored).(owner := Id(t)))
      case StoreRecursion =>
        if s.pcs[t] != OwnerStored then None
        else Some(Goto(s, t, Idle).(recursion := 1, depth := s.depth[t := 1]))
      case Reenter =>
        if s.pcs[t] != Reentering then None
        else Some(Goto(s, t, Idle).(recursion := (s.recursion + 1) % TWO_32, depth := s.depth[t := s.depth[t] + 1]))
      case StartRelease =>
        if s.pcs[t] != Idle then None
        else Some(if s.owner == Id(t) then Goto(s, t, Leaving) else s)
      case Decrement =>
        if s.pcs[t] != Leaving then None
        else
          var r := (s.recursion - 1) % TWO_32;
          Some(Goto(s, t, if r == 0 then Disowning else Idle)
               .(recursion := r, depth := s.depth[t := if s.depth[t] == 0 then 0 else s.depth[t] - 1]))
      case ClearOwner => if s.pcs[t] != Disowning then None else Some(Goto(s, t, Unlocking).(owner := 0))
      case Unlock => if s.pcs[t] != Unlocking then None else Some(Goto(s, t, Waking).(lock := 0))
      case Wake(u) =>
        if s.pcs[t] != Waking || u >= |s.pcs| || s.pcs[u] != Asleep then None
        else Some(Goto(Goto(s, t, Idle), u, Trying))
      case WakeNobody =>
        if s.pcs[t] != Waking || (exists u :: 0 <= u < |s.pcs| && s.pcs[u] == Asleep) then None
        else Some(Goto(s, t, Idle))
  }

  /** No thread is inside an operation; the lock is free, or was created owned by thread `who`. */
  ghost predicate Initial(s: State, who: Option<nat>) {
    && Valid(s) && (forall t :: 0 <= t < |s.pcs| ==> s.pcs[t] == Idle)
    && (match who
        case None => s.lock == 0 && s.owner == 0 && s.recursion == 0
        case Some(t) => t < |s.pcs| && s.lock == 1 && s.owner == Id(t) && s.recursion == 1 && s.depth[t] == 1)
  }

  // --- invariant ---

  /** Between a successful exchange and the releasing store. */
  ghost predicate Holds(s: State, t: nat)
    requires t < |s.pcs|
  {
    s.owner == Id(t) || s.pcs[t] in {Acquired, Unlocking}
  }

  ghost predicate ThreadOk(s: State, t: nat)
    requires Valid(s) && t < |s.pcs|
  {
    && (s.pcs[t] in {Acquired, Unlocking} ==> s.owner == 0)
    && (s.pcs[t] in {OwnerStored, Reentering, Leaving, Disowning} ==> s.owner == Id(t))
    && (s.owner == Id(t) ==> s.pcs[t] in {Idle, OwnerStored, Reentering, Leaving, Disowning})
    && (s.owner == Id(t) && s.pcs[t] != OwnerStored ==> s.recursion == s.depth[t] % TWO_32)
    && (s.owner == Id(t) && s.pcs[t] in {Idle, Reentering, Leaving} ==> s.depth[t] >= 1)
    && (s.pcs[t] in {Disowning, Unlocking} ==> s.depth[t] % TWO_32 == 0)
  }

  /** A thread that will bring the lock word back into play. */
  ghost predicate Stirring(pc: Pc) {
    pc in {Trying, Waking}
  }

  ghost predicate SomeStirring(s: State) {
    exists t :: 0 <= t < |s.pcs| && Stirring(s.pcs[t])
  }

  ghost predicate SomeAsleep(s: State) {
    exists t :: 0 <= t < |s.pcs| && s.pcs[t] == Asleep
  }

  ghost predicate Inv(s: State) {
    && Valid(s) && s.lock <= 1 && s.recursion < TWO_32 && s.owner <= |s.pcs|
    && (forall t :: 0 <= t < |s.pcs| ==> ThreadOk(s, t))
    && (forall t, u :: 0 <= t < |s.pcs| && 0 <= u < |s.pcs| && Holds(s, t) && Holds(s, u) ==> t == u)
    && (s.lock == 1 <==> exists t :: 0 <= t < |s.pcs| && Holds(s, t))
    && (s.lock == 0 && SomeAsleep(s) ==> SomeStirring(s))
  }

  lemma {:induction false} InitialInv(s: State, who: Option<nat>)
    requires Initial(s, who)
    ensures Inv(s)
  {
    if who.Some? {
      assert Holds(s, who.value);
    }
  }

  /** Every step keeps mutual exclusion, ownership and the recursion count. */
  lemma {:induction false} StepKeepsSafety(s: State, t: nat, a: Action)
    requires Inv(s) && Apply(s, t, a).Some?
    ensures var s' := Apply(s, t, a).value;
      && Valid(s') && s'.lock <= 1 && s'.recursion < TWO_32 && s'.owner <= |s'.pcs| && |s'.pcs| == |s.pcs|
      && (forall u :: 0 <= u < |s'.pcs| ==> ThreadOk(s', u))
      && (forall u, v :: 0 <= u < |s'.pcs| && 0 <= v < |s'.pcs| && Holds(s', u) && Holds(s', v) ==> u == v)
      && (s'.lock == 1 <==> exists u :: 0 <= u < |s'.pcs| && Holds(s', u))
  {
    var s' := Apply(s, t, a).value;
    HoldersAfter(s, t, a);
    forall u | 0 <= u < |s'.pcs| ensures ThreadOk(s', u) {
      ThreadOkAfter(s, t, a, u);
    }
    if a == TryLock && s.lock == 0 {
      assert Holds(s', t);
    } else if a != Unlock && s.lock == 1 {
      var h :| 0 <= h < |s.pcs| && Holds(s, h);
      assert Holds(s', h);
    }
  }

  lemma {:induction false} ThreadOkAfter(s: State, t: nat, a: Action, u: nat)
    requires Inv(s) && Apply(s, t, a).Some? && u < |s.pcs|
    ensures ThreadOk(Apply(s, t, a).value, u)
  {
    assert ThreadOk(s, u) && ThreadOk(s, t);
    assert Holds(s, t) && Holds(s, u) ==> t == u;
    if s.owner > 0 {
      assert Holds(s, s.owner - 1);
    }
  }

  /** Who holds the lock changes only by a successful exchange and by the releasing store. */
  lemma {:induction false} HoldersAfter(s: State, t: nat, a: Action)
    requires Inv(s) && Apply(s, t, a).Some?
    ensures var s' := Apply(s, t, a).value;
      |s'.pcs| == |s.pcs| && forall u :: 0 <= u < |s.pcs| ==>
        (Holds(s', u) <==> if u == t && a == TryLock && s.lock == 0 then true
                           else if u == t && a == Unlock then false
                           else Holds(s, u))
    ensures a == TryLock && s.lock == 0 ==> Apply(s, t, a).value.lock == 1
    ensures a == Unlock ==> Apply(s, t, a).value.lock == 0 && Holds(s, t)
    ensures !(a == TryLock && s.lock == 0) && a != Unlock ==> Apply(s, t, a).value.lock == s.lock
  {
    var s' := Apply(s, t, a).value;
    assert ThreadOk(s, t);
    forall u | 0 <= u < |s.pcs|
      ensures Holds(s', u) <==> if u == t && a == TryLock && s.lock == 0 then true
                                else if u == t && a == Unlock then false
                                else Holds(s, u)
    {
      assert ThreadOk(s, u);
    }
  }

  /** No wake-up is lost: while the word is 0 and a thread sleeps, another is about to try or about to wake. */
  lemma {:induction false} StepKeepsStirring(s: State, t: nat, a: Action)
    requires Inv(s) && Apply(s, t, a).Some?
    ensures var s' := Apply(s, t, a).value; s'.lock == 0 && SomeAsleep(s') ==> SomeStirring(s')
  {
    var s' := Apply(s, t, a).value;
    if s'.lock == 0 && SomeAsleep(s') {
      var z :| 0 <= z < |s'.pcs| && s'.pcs[z] == Asleep;
      if a in {Unlock, SpuriousReturn, SpuriousWake, Sleep} {
        assert Stirring(s'.pcs[t]);
      } else if a.Wake? {
        assert Stirring(s'.pcs[a.sleeper]);
      } else {
        assert s.pcs[z] == Asleep;
        HoldersAfter(s, t, a);
        var u :| 0 <= u < |s.pcs| && Stirring(s.pcs[u]);
        assert Stirring(s'.pcs[u]);
      }
    }
  }

  lemma {:induction false} StepKeepsInv(s: State, t: nat, a: Action)
    requires Inv(s) && Apply(s, t, a).Some?
    ensures Inv(Apply(s, t, a).value)
  {
    StepKeepsSafety(s, t, a);
    StepKeepsStirring(s, t, a);
  }

  // --- runs ---

  datatype Event = Event(thread: nat, action: Action)

  /** The state after a sequence of steps; `None` if some step is impossible. */
  ghost function After(s: State, run: seq<Event>): Option<State>
    requires Inv(s)
    decreases |run|
  {
    if run == [] then Some(s)
    else
      match Apply(s, run[0].thread, run[0].action)
      case None => None
      case Some(s1) =>
        StepKeepsInv(s, run[0].thread, run[0].action);
        After(s1, run[1..])
  }

  /** In every reachable state at most one thread holds the lock, the word says whether one does, the recorded owner
      holds it and its recursion count is its acquires minus its releases (modulo 2^32), and no sleeper is stranded. */
  lemma {:induction false} AlwaysSafe(s: State, who: Option<nat>, run: seq<Event>)
    requires Initial(s, who) && Inv(s) && After(s, run).Some?
    ensures var s' := After(s, run).value;
      && Valid(s')
      && (forall t, u :: 0 <= t < |s'.pcs| && 0 <= u < |s'.pcs| && Holds(s', t) && Holds(s', u) ==> t == u)
      && (s'.lock == 0 <==> forall t :: 0 <= t < |s'.pcs| ==> !Holds(s', t))
      && (forall t :: 0 <= t < |s'.pcs| && s'.owner == Id(t) && s'.pcs[t] != OwnerStored ==>
            s'.recursion == s'.depth[t] % TWO_32)
      && (s'.lock == 0 && SomeAsleep(s') ==> SomeStirring(s'))
  {
    AfterInv(s, run);
    var s' := After(s, run).value;
    forall t | 0 <= t < |s'.pcs| && s'.owner == Id(t) && s'.pcs[t] != OwnerStored
      ensures s'.recursion == s'.depth[t] % TWO_32
    {
      assert ThreadOk(s', t);
    }
  }

  lemma {:induction false} AfterInv(s: State, run: seq<Event>)
    requires Inv(s) && After(s, run).Some?
    ensures Inv(After(s, run).value)
    decreases |run|
  {
    if run != [] {
      StepKeepsInv(s, run[0].thread, run[0].action);
      AfterInv(Apply(s, run[0].thread, run[0].action).value, run[1..]);
    }
  }

  // --- what the lock promises ---

  /** The abstract lock: who holds it. */
  ghost function Holder(s: State): Option<nat>
    requires Inv(s)
  {
    if t :| 0 <= t < |s.pcs| && Holds(s, t) then Some(t) else None
  }

  /** Each step is, on the abstract lock, nothing, an acquisition of the free lock, or a release by its holder. */
  lemma {:induction false} StepRefinesLock(s: State, t: nat, a: Action)
    requires Inv(s) && Apply(s, t, a).Some? && Inv(Apply(s, t, a).value)
    ensures var h, h' := Holder(s), Holder(Apply(s, t, a).value);
      h' == h || (h == None && h' == Some(t)) || (h == Some(t) && h' == None)
  {
    HoldersAfter(s, t, a);
    var s' := Apply(s, t, a).value;
    forall u | 0 <= u < |s.pcs| && Holds(s, u) ensures Holder(s) == Some(u) {
    }
    forall u | 0 <= u < |s'.pcs| && Holds(s', u) ensures Holder(s') == Some(u) {
    }
    if a == TryLock && s.lock == 0 {
      assert Holds(s', t);
    } else if a != Unlock && Holder(s).Some? {
      assert Holds(s', Holder(s).value);
    }
  }

  /** The word goes from 1 to 0 only in the holder's releasing store, when its acquires and releases cancel out
      modulo 2^32: exactly, as long as it has not nested 2^32 deep. */
  lemma {:induction false} ReleasedOutermost(s: State, t: nat, a: Action)
    requires Inv(s) && Apply(s, t, a).Some? && s.lock == 1 && Apply(s, t, a).value.lock == 0
    ensures a == Unlock && Holds(s, t) && s.depth[t] % TWO_32 == 0
    ensures s.depth[t] < TWO_32 ==> s.depth[t] == 0
  {
    assert ThreadOk(s, t);
  }

  /** Decrementing the recursion starts the release exactly when the depth is 1 modulo 2^32: when this was the
      outermost release, as long as the thread has not nested 2^32 deep. */
  lemma {:induction false} OutermostExact(s: State, t: nat)
    requires Inv(s) && t < |s.pcs| && s.pcs[t] == Leaving
    ensures Apply(s, t, Decrement).Some?
    ensures Apply(s, t, Decrement).value.pcs[t] == Disowning <==> s.depth[t] % TWO_32 == 1
    ensures s.depth[t] <= TWO_32 ==> (Apply(s, t, Decrement).value.pcs[t] == Disowning <==> s.depth[t] == 1)
  {
    assert ThreadOk(s, t);
  }

  // --- nesting ---

  /** Thread `t` holds the lock and is outside the operations. */
  ghost predicate Owned(s: State, t: nat) {
    Inv(s) && t < |s.pcs| && s.pcs[t] == Idle && s.owner == Id(t)
  }

  /** `n` more acquires by a thread that holds the lock. */
  function NestRun(t: nat, n: nat): seq<Event> {
    if n == 0 then [] else [Event(t, StartAcquire)] + ([Event(t, Reenter)] + NestRun(t, n - 1))
  }

  lemma {:induction false} RunCons(s: State, e: Event, rest: seq<Event>)
    requires Inv(s) && Apply(s, e.thread, e.action).Some? && Inv(Apply(s, e.thread, e.action).value)
    ensures After(s, [e] + rest) == After(Apply(s, e.thread, e.action).value, rest)
  {
    assert ([e] + rest)[1..] == rest;
  }

  lemma {:induction false} RunUncons(s: State, run: seq<Event>) returns (s1: State)
    requires Inv(s) && run != [] && After(s, run).Some?
    ensures Apply(s, run[0].thread, run[0].action) == Some(s1) && Inv(s1) && After(s1, run[1..]) == After(s, run)
  {
    s1 := Apply(s, run[0].thread, run[0].action).value;
    StepKeepsInv(s, run[0].thread, run[0].action);
  }

  lemma {:induction false} RunNothing(s: State)
    requires Inv(s)
    ensures After(s, []) == Some(s)
  {
  }

  lemma {:induction false} RunAppend(s: State, a: seq<Event>, b: seq<Event>)
    requires Inv(s) && After(s, a).Some? && Inv(After(s, a).value)
    ensures After(s, a + b) == After(After(s, a).value, b)
    decreases |a|
  {
    hide Apply, Inv, After;
    if a == [] {
      RunNothing(s);
      assert a + b == b;
    } else {
      var s1 := RunUncons(s, a);
      RunAppend(s1, a[1..], b);
      RunCons(s, a[0], a[1..] + b);
      assert a + b == [a[0]] + (a[1..] + b);
    }
  }

  /** One nested acquire. */
  lemma {:induction false} NestOnce(s: State, t: nat) returns (s1: State, s2: State)
    requires Owned(s, t)
    ensures Apply(s, t, StartAcquire) == Some(s1) && Inv(s1) && Apply(s1, t, Reenter) == Some(s2) && Owned(s2, t)
    ensures s2.pcs == s.pcs && s2.lock == s.lock && s2.depth == s.depth[t := s.depth[t] + 1]
  {
    s1 := Apply(s, t, StartAcquire).value;
    StepKeepsInv(s, t, StartAcquire);
    s2 := Apply(s1, t, Reenter).value;
    StepKeepsInv(s1, t, Reenter);
  }

  lemma {:induction false} Nested(s: State, t: nat, n: nat)
    requires Owned(s, t)
    ensures After(s, NestRun(t, n)).Some?
    ensures var s' := After(s, NestRun(t, n)).value;
      Owned(s', t) && s'.pcs == s.pcs && s'.lock == s.lock && s'.depth == s.depth[t := s.depth[t] + n]
    decreases n
  {
    assert Valid(s);
    hide Apply, Inv;
    if n > 0 {
      var s1, s2 := NestOnce(s, t);
      Nested(s2, t, n - 1);
      assert s2.depth[t := s2.depth[t] + (n - 1)] == s.depth[t := s.depth[t] + n];
      RunCons(s1, Event(t, Reenter), NestRun(t, n - 1));
      RunCons(s, Event(t, StartAcquire), [Event(t, Reenter)] + NestRun(t, n - 1));
    } else {
      assert s.depth[t := s.depth[t] + 0] == s.depth;
    }
  }

  /** A free lock can be acquired. */
  lemma {:induction false} FirstAcquire(s: State, t: nat) returns (run: seq<Event>)
    requires Inv(s) && s.lock == 0 && t < |s.pcs| && s.pcs[t] == Idle
    ensures After(s, run).Some? && Owned(After(s, run).value, t)
    ensures After(s, run).value.depth[t] == 1 && After(s, run).value.pcs == s.pcs
  {
    run := [Event(t, StartAcquire)] + ([Event(t, TryLock)] + ([Event(t, StoreOwner)] + ([Event(t, StoreRecursion)] + [])));
    assert !Holds(s, t) && ThreadOk(s, t);
    var s1 := Apply(s, t, StartAcquire).value;
    StepKeepsInv(s, t, StartAcquire);
    var s2 := Apply(s1, t, TryLock).value;
    StepKeepsInv(s1, t, TryLock);
    var s3 := Apply(s2, t, StoreOwner).value;
    StepKeepsInv(s2, t, StoreOwner);
    var s4 := Apply(s3, t, StoreRecursion).value;
    StepKeepsInv(s3, t, StoreRecursion);
    hide Apply, Inv;
    RunCons(s3, Event(t, StoreRecursion), []);
    RunCons(s2, Event(t, StoreOwner), [Event(t, StoreRecursion)] + []);
    RunCons(s1, Event(t, TryLock), [Event(t, StoreOwner)] + ([Event(t, StoreRecursion)] + []));
    RunCons(s, Event(t, StartAcquire), [Event(t, TryLock)] + ([Event(t, StoreOwner)] + ([Event(t, StoreRecursion)] + [])));
  }

  /** One release by a holder whose depth is 1 modulo 2^32 frees the lock. */
  lemma {:induction false} ReleaseFrees(s: State, t: nat) returns (run: seq<Event>)
    requires Owned(s, t) && s.depth[t] % TWO_32 == 1
    ensures After(s, run).Some? && After(s, run).value.lock == 0
    ensures |After(s, run).value.depth| == |s.depth| && After(s, run).value.depth[t] == s.depth[t] - 1
  {
    run := [Event(t, StartRelease)] + ([Event(t, Decrement)] + ([Event(t, ClearOwner)] + ([Event(t, Unlock)] + [])));
    var s1 := Apply(s, t, StartRelease).value;
    StepKeepsInv(s, t, StartRelease);
    OutermostExact(s1, t);
    var s2 := Apply(s1, t, Decrement).value;
    StepKeepsInv(s1, t, Decrement);
    var s3 := Apply(s2, t, ClearOwner).value;
    StepKeepsInv(s2, t, ClearOwner);
    var s4 := Apply(s3, t, Unlock).value;
    StepKeepsInv(s3, t, Unlock);
    hide Apply, Inv;
    RunCons(s3, Event(t, Unlock), []);
    RunCons(s2, Event(t, ClearOwner), [Event(t, Unlock)] + []);
    RunCons(s1, Event(t, Decrement), [Event(t, ClearOwner)] + ([Event(t, Unlock)] + []));
    RunCons(s, Event(t, StartRelease), [Event(t, Decrement)] + ([Event(t, ClearOwner)] + ([Event(t, Unlock)] + [])));
  }

  /** From a new lock, free or created owned by `t`, `n` nested acquires of `t` after its first and one release are a
      run. If `n` is a multiple of 2^32 the count has wrapped, and the release frees the lock with `n` acquires
      outstanding. */
  lemma {:induction false} NestingWraps(s: State, who: Option<nat>, t: nat, n: nat) returns (run: seq<Event>)
    requires Initial(s, who) && Inv(s) && t < |s.pcs| && who in {None, Some(t)} && n % TWO_32 == 0
    ensures After(s, run).Some?
    ensures After(s, run).value.lock == 0 && |After(s, run).value.depth| == |s.pcs| && After(s, run).value.depth[t] == n
  {
    var first: seq<Event> := [];
    if who.None? {
      first := FirstAcquire(s, t);
    }
    var s1 := After(s, first).value;
    Nested(s1, t, n);
    var s2 := After(s1, NestRun(t, n)).value;
    var last := ReleaseFrees(s2, t);
    hide Apply, Inv;
    RunAppend(s1, NestRun(t, n), last);
    RunAppend(s, first, NestRun(t, n) + last);
    run := first + (NestRun(t, n) + last);
    AfterLength(s, run);
  }

  lemma {:induction false} AfterLength(s: State, run: seq<Event>)
    requires Inv(s) && After(s, run).Some?
    ensures |After(s, run).value.pcs| == |s.pcs| && |After(s, run).value.depth| == |s.pcs|
    decreases |run|
  {
    if run != [] {
      StepKeepsInv(s, run[0].thread, run[0].action);
      AfterLength(Apply(s, run[0].thread, run[0].action).value, run[1..]);
    }
  }

  /** A release by a thread that does not hold the lock changes nothing. */
  lemma {:induction false} StrayRelease(s: State, t: nat)
    requires Inv(s) && t < |s.pcs| && s.pcs[t] == Idle
    ensures Apply(s, t, StartRelease) == Some(s) <==> !Holds(s, t)
  {
    assert ThreadOk(s, t);
    if Holds(s, t) {
      assert Goto(s, t, Leaving).pcs[t] == Leaving;
    }
  }

  lemma {:induction false} OneStep(s: State, t: nat, a: Action)
    requires Inv(s) && Apply(s, t, a).Some?
    ensures After(s, [Event(t, a)]) == Apply(s, t, a)
  {
    StepKeepsInv(s, t, a);
    assert [Event(t, a)][1..] == [];
    assert After(Apply(s, t, a).value, []) == Apply(s, t, a);
  }

  /** From any reachable state with the word 0 and a sleeper, at most two steps take the lock. */
  lemma {:induction false} SleeperNotStranded(s: State) returns (run: seq<Event>)
    requires Inv(s) && s.lock == 0 && SomeAsleep(s)
    ensures |run| <= 2 && After(s, run).Some? && After(s, run).value.lock == 1
  {
    var z :| 0 <= z < |s.pcs| && s.pcs[z] == Asleep;
    var t :| 0 <= t < |s.pcs| && Stirring(s.pcs[t]);
    if s.pcs[t] == Trying {
      run := [Event(t, TryLock)];
      OneStep(s, t, TryLock);
    } else {
      run := [Event(t, Wake(z)), Event(z, TryLock)];
      var s1 := Apply(s, t, Wake(z)).value;
      StepKeepsInv(s, t, Wake(z));
      assert run[1..] == [Event(z, TryLock)];
      assert s1.pcs[z] == Trying && s1.lock == 0;
      OneStep(s1, z, TryLock);
    }
  }

  // --- whole operations ---

  /** An acquire by a thread that does not hold the lock, while another does, ends asleep in the queue, or gives up at
      the deadline and changes nothing. */
  lemma {:induction false} AcquireBlocks(s: State, t: nat)
    requires Inv(s) && t < |s.pcs| && s.pcs[t] == Idle && !Holds(s, t) && s.lock == 1
    ensures After(s, [Event(t, StartAcquire)] + ([Event(t, TryLock)] + ([Event(t, Sleep)] + []))) == Some(Goto(s, t, Asleep))
    ensures After(s, [Event(t, StartAcquire)] + ([Event(t, TryLock)] + ([Event(t, TimeOut)] + []))) == Some(s)
  {
    var s1 := Apply(s, t, StartAcquire).value;
    StepKeepsInv(s, t, StartAcquire);
    var s2 := Apply(s1, t, TryLock).value;
    StepKeepsInv(s1, t, TryLock);
    var s3, s4 := Apply(s2, t, Sleep).value, Apply(s2, t, TimeOut).value;
    StepKeepsInv(s2, t, Sleep);
    StepKeepsInv(s2, t, TimeOut);
    assert s3.pcs == s.pcs[t := Asleep] && s4.pcs == s.pcs;
    assert s3 == Goto(s, t, Asleep) && s4 == s;
    hide Apply, Inv;
    RunNothing(s3);
    RunNothing(s4);
    RunCons(s2, Event(t, Sleep), []);
    RunCons(s1, Event(t, TryLock), [Event(t, Sleep)] + []);
    RunCons(s, Event(t, StartAcquire), [Event(t, TryLock)] + ([Event(t, Sleep)] + []));
    RunCons(s2, Event(t, TimeOut), []);
    RunCons(s1, Event(t, TryLock), [Event(t, TimeOut)] + []);
    RunCons(s, Event(t, StartAcquire), [Event(t, TryLock)] + ([Event(t, TimeOut)] + []));
  }

  /** A sleeper leaves the queue exactly when it wakes up spuriously or is the one woken; and a wake-up owed is always
      possible. */
  lemma {:induction false} WokenExact(s: State, t: nat, a: Action, u: nat)
    requires Inv(s) && Apply(s, t, a).Some? && u < |s.pcs| && s.pcs[u] == Asleep
    ensures var s' := Apply(s, t, a).value;
      u < |s'.pcs| && (s'.pcs[u] == Trying <==> (a == SpuriousWake && t == u) || a == Wake(u)) && s'.pcs[u] in {Asleep, Trying}
    ensures a.Wake? ==> s.pcs[t] == Waking
    ensures a != WakeNobody
  {
  }

  lemma {:induction false} OwedCanBePaid(s: State, t: nat)
    requires Inv(s) && t < |s.pcs| && s.pcs[t] == Waking
    ensures exists a :: Apply(s, t, a).Some? && Apply(s, t, a).value.pcs[t] == Idle
  {
    if u :| 0 <= u < |s.pcs| && s.pcs[u] == Asleep {
      assert Apply(s, t, Wake(u)).Some? && Apply(s, t, Wake(u)).value.pcs[t] == Idle;
    } else {
      assert Apply(s, t, WakeNobody).Some? && Apply(s, t, WakeNobody).value.pcs[t] == Idle;
    }
  }

  /** A step changes where the thread itself is, and wakes sleepers; every other thread stays where it is. */
  lemma {:induction false} OthersStay(s: State, t: nat, a: Action, u: nat)
    requires Inv(s) && Apply(s, t, a).Some? && u < |s.pcs| && u != t && s.pcs[u] != Asleep
    ensures u < |Apply(s, t, a).value.pcs| && Apply(s, t, a).value.pcs[u] == s.pcs[u]
  {
  }
}
