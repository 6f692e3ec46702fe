/** Auto-reset and manual-reset events: a futex word that is 0 or 1. Counters of what happened so far are part of
    the state, for the accounting of signals. */
module EventProtocol {
  import opened Wrappers

  datatype Pc =
    | Idle
    | Loading      // in a wait, about to load the word
    | Consuming    // auto-reset: saw 1; about to exchange it for 0
    | Waiting      // saw 0; about to sleep, or to give up at the deadline
    | Asleep       // in the futex queue
    | SetWaking    // stored 1 in a set; about to wake
    | PulseWaking  // stored 1 in a pulse; about to wake
    | PulseClearing // about to store 0 in a pulse

  /** `succeeded` counts waits that consumed the signal, `raised` the changes of the word from 0 to 1, `cleared`
      the changes from 1 to 0 by reset and pulse. */
  datatype State = State(manual: bool, word: nat, pcs: seq<Pc>, succeeded: nat, raised: nat, cleared: nat)

  datatype Action =
    | StartWait | Load | Consume | TimeOut | Sleep | SpuriousReturn | SpuriousWake
    | Set | Reset | Pulse | WakeAll | Wake(sleeper: nat) | WakeNobody | ClearPulse

  function At(s: State, t: nat, pc: Pc): State
    requires t < |s.pcs|
  {
    s.(pcs := s.pcs[t := pc])
  }

  function AllAwake(pcs: seq<Pc>): (r: seq<Pc>)
    ensures |r| == |pcs|
  {
    seq(|pcs|, t requires 0 <= t < |pcs| => if pcs[t] == Asleep then Loading else pcs[t])
  }

  predicate Wakes(pc: Pc) { pc in {SetWaking, PulseWaking} }

  function AfterWake(pc: Pc): Pc { if pc == PulseWaking then PulseClearing else Idle }

  function Raise(s: State): State {
    s.(word := 1, raised := s.raised + (if s.word == 0 then 1 else 0))
  }

  function Clear(s: State): State {
    s.(word := 0, cleared := s.cleared + (if s.word == 1 then 1 else 0))
  }

  predicate NobodyAsleep(pcs: seq<Pc>) {
    forall u :: 0 <= u < |pcs| ==> pcs[u] != Asleep
  }

  function Apply(s: State, t: nat, a: Action): Option<State> {
    if t >= |s.pcs| then None
    else
      var pc := s.pcs[t];
      match a
      case StartWait => if pc != Idle then None else Some(At(s, t, Loading))
      case Load =>
        if pc != Loading then None
        else Some(At(s, t, if s.word != 1 then Waiting else if s.manual then Idle else Consuming))
      case Consume =>
        if pc != Consuming then None
        else if s.word == 1 then Some(At(s, t, Idle).(word := 0, succeeded := s.succeeded + 1))
        else Some(At(s, t, Loading))
      case TimeOut => if pc != Waiting then None else Some(At(s, t, Idle))
      case Sleep => if pc != Waiting then None else Some(At(s, t, if s.word == 0 then Asleep else Loading))
      case SpuriousReturn => if pc != Waiting then None else Some(At(s, t, Loading))
      case SpuriousWake => if pc != Asleep then None else Some(At(s, t, Loading))
      case Set => if pc != Idle then None else Some(Raise(At(s, t, SetWaking)))
      case Pulse => if pc != Idle then None else Some(Raise(At(s, t, PulseWaking)))
      case Reset => if pc != Idle then None else Some(Clear(s))
      case ClearPulse => if pc != PulseClearing then None else Some(Clear(At(s, t, Idle)))
      case WakeAll =>
        if !Wakes(pc) || !s.manual then None else Some(s.(pcs := AllAwake(s.pcs)[t := AfterWake(pc)]))
      case Wake(u) =>
        if !Wakes(pc) || s.manual || u >= |s.pcs| || s.pcs[u] != Asleep then None
        else Some(At(At(s, t, AfterWake(pc)), u, Loading))
      case WakeNobody =>
        if !Wakes(pc) || s.manual || !NobodyAsleep(s.pcs) then None else Some(At(s, t, AfterWake(pc)))
  }

  predicate Initial(s: State, initial: nat) {
    && initial <= 1 && s.word == initial && s.succeeded == s.raised == s.cleared == 0
    && forall t :: 0 <= t < |s.pcs| ==> s.pcs[t] == Idle
  }

  // --- invariant ---

  /** Every 0-to-1 change is consumed by one wait, cleared, or still there. */
  predicate Balanced(s: State, initial: nat) {
    initial + s.raised == s.succeeded + s.cleared + s.word
  }

  /** A thread on account of which sleepers may go on sleeping although the event is signaled: it owes a wake-up or,
      for an auto-reset event, it has yet to try to consume the signal. */
  predicate Stirring(manual: bool, pc: Pc) {
    Wakes(pc) || (!manual && pc in {Loading, Consuming})
  }

  ghost predicate SomeStirring(s: State) {
    exists t :: 0 <= t < |s.pcs| && Stirring(s.manual, s.pcs[t])
  }

  ghost predicate Inv(s: State, initial: nat) {
    && s.word <= 1 && Balanced(s, initial)
    && (s.manual ==> s.succeeded == 0 && forall t :: 0 <= t < |s.pcs| ==> s.pcs[t] != Consuming)
    && (s.word == 1 && !NobodyAsleep(s.pcs) ==> SomeStirring(s))
  }

  lemma {:induction false} StepKeepsBalance(s: State, initial: nat, t: nat, a: Action)
    requires Inv(s, initial) && Apply(s, t, a).Some?
    ensures var s' := Apply(s, t, a).value;
      && s'.word <= 1 && Balanced(s', initial) && s'.manual == s.manual && |s'.pcs| == |s.pcs|
      && (s'.manual ==> s'.succeeded == 0 && forall t :: 0 <= t < |s'.pcs| ==> s'.pcs[t] != Consuming)
  {
  }

  lemma {:induction false} StepKeepsStirring(s: State, initial: nat, t: nat, a: Action)
    requires Inv(s, initial) && Apply(s, t, a).Some?
    ensures var s' := Apply(s, t, a).value; s'.word == 1 && !NobodyAsleep(s'.pcs) ==> SomeStirring(s')
  {
    var s' := Apply(s, t, a).value;
    if s'.word == 1 && !NobodyAsleep(s'.pcs) && !Stirring(s'.manual, s'.pcs[t]) {
      var z :| 0 <= z < |s'.pcs| && s'.pcs[z] == Asleep;
      if a.Wake? {
        assert Stirring(s'.manual, s'.pcs[a.sleeper]);
      } else {
        assert s.pcs[z] == Asleep && s.word == 1;
        var u :| 0 <= u < |s.pcs| && Stirring(s.manual, s.pcs[u]);
        assert Stirring(s'.manual, s'.pcs[u]);
      }
    }
  }

  lemma {:induction false} InitialInv(s: State, initial: nat)
    requires Initial(s, initial)
    ensures Inv(s, initial)
  {
  }

  lemma {:induction false} StepKeepsInv(s: State, initial: nat, t: nat, a: Action)
    requires Inv(s, initial) && Apply(s, t, a).Some?
    ensures Inv(Apply(s, t, a).value, initial) && Apply(s, t, a).value.manual == s.manual
  {
    hide Apply;
    StepKeepsBalance(s, initial, t, a);
    StepKeepsStirring(s, initial, t, a);
  }

  // --- runs ---

  datatype Event = Event(thread: nat, action: Action)

  function After(s: State, run: seq<Event>): Option<State>
    decreases |run|
  {
    if run == [] then Some(s)
    else
      var s1 :- Apply(s, run[0].thread, run[0].action);
      After(s1, run[1..])
  }

  lemma {:induction false} AfterInv(s: State, initial: nat, run: seq<Event>)
    requires Inv(s, initial) && After(s, run).Some?
    ensures Inv(After(s, run).value, initial) && After(s, run).value.manual == s.manual
    decreases |run|
  {
    if run != [] {
      StepKeepsInv(s, initial, run[0].thread, run[0].action);
      AfterInv(Apply(s, run[0].thread, run[0].action).value, initial, run[1..]);
    }
  }

  /** Reachable states: every signal is accounted for, and one signal releases at most one auto-reset wait. */
  lemma {:induction false} SignalsAccounted(s: State, initial: nat, run: seq<Event>)
    requires Initial(s, initial) && After(s, run).Some?
    ensures var s' := After(s, run).value;
      && initial + s'.raised == s'.succeeded + s'.cleared + s'.word
      && s'.succeeded <= initial + s'.raised
  {
    InitialInv(s, initial);
    AfterInv(s, initial, run);
  }

  /** Reachable states: while the event is signaled and a waiter sleeps, a wake-up is still owed or, for an
      auto-reset event only, a waiter that is awake has yet to try to consume the signal. */
  lemma {:induction false} NoLostWakeup(s: State, initial: nat, run: seq<Event>)
    requires Initial(s, initial) && After(s, run).Some?
    ensures var s' := After(s, run).value;
      s'.word == 1 && !NobodyAsleep(s'.pcs) ==>
        exists t :: 0 <= t < |s'.pcs| && (Wakes(s'.pcs[t]) || (!s.manual && s'.pcs[t] in {Loading, Consuming}))
  {
    InitialInv(s, initial);
    AfterInv(s, initial, run);
    var s' := After(s, run).value;
    if s'.word == 1 && !NobodyAsleep(s'.pcs) {
      var t :| 0 <= t < |s'.pcs| && Stirring(s'.manual, s'.pcs[t]);
      assert Wakes(s'.pcs[t]) || (!s.manual && s'.pcs[t] in {Loading, Consuming});
    }
  }

  /** A wait ends successfully exactly at a signaled word: a manual-reset one leaves it, an auto-reset one takes it. */
  lemma {:induction false} WaitEndsSignaled(s: State, t: nat, a: Action)
    requires Apply(s, t, a).Some? && s.pcs[t] in {Loading, Consuming} && a in {Load, Consume}
    ensures var s' := Apply(s, t, a).value;
      s'.pcs[t] == Idle <==> s.word == 1 && (s.manual || s.pcs[t] == Consuming)
    ensures Apply(s, t, a).value.pcs[t] == Idle ==>
      Apply(s, t, a).value.word == if s.pcs[t] == Consuming then 0 else 1
  {
  }

  // --- pulses ---

  /** A step that leaves the word 0: the end of a pulse, a reset, an exchange by a waiter. */
  predicate Lowers(a: Action) { a in {ClearPulse, Reset, Consume} }

  predicate Raises(a: Action) { a in {Set, Pulse} }

  predicate Lowered(run: seq<Event>) {
    exists i :: 0 <= i < |run| && Lowers(run[i].action)
  }

  /** In the `i`-th step of the run thread `u` ends a wait successfully. */
  predicate SucceedsAt(s: State, run: seq<Event>, u: nat, i: nat)
    requires i < |run|
  {
    && run[i].thread == u && run[i].action in {Load, Consume} && u < |s.pcs|
    && After(s, run[..i + 1]).Some? && |After(s, run[..i + 1]).value.pcs| == |s.pcs|
    && After(s, run[..i + 1]).value.pcs[u] == Idle
  }

  lemma {:induction false} AfterSplit(s: State, run: seq<Event>, i: nat)
    requires i <= |run| && After(s, run).Some?
    ensures After(s, run[..i]).Some?
    ensures i < |run| ==>
      && After(s, run[..i + 1]) == Apply(After(s, run[..i]).value, run[i].thread, run[i].action)
      && After(s, run[..i + 1]).Some?
    decreases i
  {
    if i > 0 {
      var s1 := Apply(s, run[0].thread, run[0].action).value;
      AfterSplit(s1, run[1..], i - 1);
      assert run[..i][1..] == run[1..][..i - 1];
      if i < |run| {
        assert run[..i + 1][1..] == run[1..][..i];
      }
    } else if run != [] {
      assert run[..1][1..] == [];
    }
  }

  lemma {:induction false} StepWord(s: State, t: nat, a: Action)
    requires Apply(s, t, a).Some? && s.word <= 1 && !Raises(a)
    ensures var s' := Apply(s, t, a).value;
      s'.word == (if Lowers(a) then 0 else s.word) && s'.manual == s.manual && |s'.pcs| == |s.pcs|
  {
  }

  /** Without raises, the word stays 1 until something lowers it, and 0 from then on. */
  lemma {:induction false} WordUntilLowered(s: State, run: seq<Event>)
    requires s.word == 1 && After(s, run).Some?
    requires forall i :: 0 <= i < |run| ==> !Raises(run[i].action)
    ensures After(s, run).value.word == if Lowered(run) then 0 else 1
    ensures After(s, run).value.manual == s.manual && |After(s, run).value.pcs| == |s.pcs|
    decreases |run|
  {
    hide Apply;
    if run != [] {
      var n := |run| - 1;
      var front := run[..n];
      AfterSplit(s, run, n);
      WordUntilLowered(s, front);
      StepWord(After(s, front).value, run[n].thread, run[n].action);
      assert run[..n + 1] == run;
      if Lowered(run) && !Lowers(run[n].action) {
        var i :| 0 <= i < |run| && Lowers(run[i].action);
        assert front[i] == run[i];
      }
      if Lowered(front) {
        var i :| 0 <= i < |front| && Lowers(front[i].action);
        assert run[i] == front[i];
      }
    }
  }

  /** After a set or a pulse, as long as nobody raises the event again, a wait of thread `u` succeeds exactly when its
      load (for an auto-reset event, its exchange) comes before the end of a pulse, every reset and every other
      exchange. */
  lemma {:induction false} RaiseReleasesExact(s: State, initial: nat, p: nat, a: Action, u: nat, run: seq<Event>)
    requires Inv(s, initial) && Raises(a) && Apply(s, p, a).Some? && u < |s.pcs|
    requires After(Apply(s, p, a).value, run).Some?
    requires forall i :: 0 <= i < |run| ==> !Raises(run[i].action)
    ensures var s1 := Apply(s, p, a).value;
      (exists i :: 0 <= i < |run| && SucceedsAt(s1, run, u, i))
      <==> exists i :: 0 <= i < |run| && run[i] == Event(u, if s.manual then Load else Consume) && !Lowered(run[..i])
  {
    var s1 := Apply(s, p, a).value;
    StepKeepsInv(s, initial, p, a);
    forall i | 0 <= i < |run|
      ensures SucceedsAt(s1, run, u, i) <==> run[i] == Event(u, if s.manual then Load else Consume) && !Lowered(run[..i])
    {
      AfterSplit(s1, run, i);
      AfterInv(s1, initial, run[..i]);
      WordUntilLowered(s1, run[..i]);
      StepSucceeds(After(s1, run[..i]).value, s1, run, u, i);
    }
  }

  /** So for a pulse and a thread asleep when it came: whether the pulse woke it does not matter. */
  lemma {:induction false} PulseReleasesExact(s: State, initial: nat, p: nat, u: nat, run: seq<Event>)
    requires Inv(s, initial) && Apply(s, p, Pulse).Some? && u < |s.pcs| && s.pcs[u] == Asleep
    requires After(Apply(s, p, Pulse).value, run).Some?
    requires forall i :: 0 <= i < |run| ==> !Raises(run[i].action)
    ensures var s1 := Apply(s, p, Pulse).value;
      (exists i :: 0 <= i < |run| && SucceedsAt(s1, run, u, i))
      <==> exists i :: 0 <= i < |run| && run[i] == Event(u, if s.manual then Load else Consume) && !Lowered(run[..i])
  {
    RaiseReleasesExact(s, initial, p, Pulse, u, run);
  }

  /** A thread outside the operations can always set the event. Then the word is 1, and in every run, whoever raises the
      event again, it stays 1 until something lowers it; the thread itself only has its wake-up left to do. */
  lemma {:induction false} SetSignals(s: State, initial: nat, p: nat, run: seq<Event>)
    requires Inv(s, initial) && p < |s.pcs| && s.pcs[p] == Idle
    ensures Apply(s, p, Set).Some? && Apply(s, p, Set).value.word == 1 && Apply(s, p, Set).value.manual == s.manual
    ensures var s1 := Apply(s, p, Set).value;
      After(s1, run).Some? && !Lowered(run) ==> After(s1, run).value.word == 1 && Inv(After(s1, run).value, initial)
    ensures var s1 := Apply(s, p, Set).value;
      forall a :: Apply(s1, p, a).Some? ==> Apply(s1, p, a).value.pcs[p] == Idle && Apply(s1, p, a).value.word == 1
  {
    StepKeepsInv(s, initial, p, Set);
    var s1 := Apply(s, p, Set).value;
    if After(s1, run).Some? && !Lowered(run) {
      AfterInv(s1, initial, run);
      WordStaysUp(s1, run);
    }
  }

  lemma {:induction false} WordStaysUp(s: State, run: seq<Event>)
    requires s.word == 1 && After(s, run).Some? && !Lowered(run)
    ensures After(s, run).value.word == 1
    decreases |run|
  {
    if run != [] {
      assert !Lowers(run[0].action);
      var s1 := Apply(s, run[0].thread, run[0].action).value;
      assert s1.word == 1;
      forall i | 0 <= i < |run[1..]| ensures !Lowers(run[1..][i].action) {
        assert !Lowers(run[i + 1].action);
      }
      WordStaysUp(s1, run[1..]);
    }
  }

  // --- whole waits ---

  /** A wait at a signaled word goes through: it leaves a manual-reset event as it is and takes the signal of an
      auto-reset one. */
  lemma {:induction false} WaitPasses(s: State, u: nat)
    requires s.word == 1 && u < |s.pcs| && s.pcs[u] == Idle
    ensures s.manual ==> After(s, [Event(u, StartWait), Event(u, Load)]) == Some(s)
    ensures !s.manual ==>
      After(s, [Event(u, StartWait), Event(u, Load), Event(u, Consume)]) == Some(s.(word := 0, succeeded := s.succeeded + 1))
  {
    var s1 := Apply(s, u, StartWait).value;
    var s2 := Apply(s1, u, Load).value;
    if s.manual {
      assert s2 == s;
      Cons(s1, Event(u, Load), []);
      Cons(s, Event(u, StartWait), [Event(u, Load)]);
    } else {
      var s3 := Apply(s2, u, Consume).value;
      assert s3.pcs == s.pcs;
      Cons(s2, Event(u, Consume), []);
      Cons(s1, Event(u, Load), [Event(u, Consume)]);
      Cons(s, Event(u, StartWait), [Event(u, Load), Event(u, Consume)]);
    }
  }

  /** A wait at an unsignaled word ends asleep in the queue, or gives up at the deadline and changes nothing. */
  lemma {:induction false} WaitBlocks(s: State, u: nat)
    requires s.word == 0 && u < |s.pcs| && s.pcs[u] == Idle
    ensures After(s, [Event(u, StartWait), Event(u, Load), Event(u, Sleep)]) == Some(At(s, u, Asleep))
    ensures After(s, [Event(u, StartWait), Event(u, Load), Event(u, TimeOut)]) == Some(s)
  {
    var s1 := Apply(s, u, StartWait).value;
    var s2 := Apply(s1, u, Load).value;
    assert Apply(s2, u, Sleep).value.pcs == s.pcs[u := Asleep] && Apply(s2, u, TimeOut).value.pcs == s.pcs;
    Cons(s2, Event(u, Sleep), []);
    Cons(s1, Event(u, Load), [Event(u, Sleep)]);
    Cons(s, Event(u, StartWait), [Event(u, Load), Event(u, Sleep)]);
    Cons(s2, Event(u, TimeOut), []);
    Cons(s1, Event(u, Load), [Event(u, TimeOut)]);
    Cons(s, Event(u, StartWait), [Event(u, Load), Event(u, TimeOut)]);
  }

  /** A sleeper leaves the queue exactly when it is woken, spuriously or by the wake-up of a set or pulse; that of a
      manual-reset event is for all sleepers, that of an auto-reset event for one, and it fails only if nobody sleeps. */
  lemma {:induction false} WokenExact(s: State, t: nat, a: Action, u: nat)
    requires Apply(s, t, a).Some? && u < |s.pcs| && s.pcs[u] == Asleep
    ensures var s' := Apply(s, t, a).value;
      u < |s'.pcs| && (s'.pcs[u] == Loading <==> (a == SpuriousWake && t == u) || (Wakes(s.pcs[t]) && a in {WakeAll, Wake(u)}))
      && s'.pcs[u] in {Asleep, Loading}
    ensures Wakes(s.pcs[t]) ==> if s.manual then a == WakeAll else a.Wake?
  {
  }

  /** Inside a wait. */
  predicate InWait(pc: Pc) { pc in {Loading, Consuming, Waiting, Asleep} }

  /** A wait ends exactly by its own step, at a signaled word or at the deadline: whatever else the thread or another one
      does, and however the kernel wakes it, the waiter goes on waiting. */
  lemma {:induction false} WaitEndsExact(s: State, t: nat, a: Action, u: nat)
    requires Apply(s, t, a).Some? && u < |s.pcs| && InWait(s.pcs[u]) && (s.manual ==> s.pcs[u] != Consuming)
    ensures var s' := Apply(s, t, a).value;
      && u < |s'.pcs| && (s'.pcs[u] == Idle || InWait(s'.pcs[u]))
      && (s'.pcs[u] == Idle <==> t == u && (a == TimeOut || (s.word == 1 && a == if s.manual then Load else Consume)))
  {
  }

  /** A step changes where the thread itself is, and wakes sleepers; every other thread stays where it is. */
  lemma {:induction false} OthersStay(s: State, t: nat, a: Action, u: nat)
    requires Apply(s, t, a).Some? && u < |s.pcs| && u != t && s.pcs[u] != Asleep
    ensures u < |Apply(s, t, a).value.pcs| && Apply(s, t, a).value.pcs[u] == s.pcs[u]
  {
  }

  /** A reset lowers the word; a set, once it has woken, is over, and a pulse lowers the word first. */
  lemma {:induction false} SignalEnds(s: State, t: nat)
    requires t < |s.pcs| && s.word <= 1
    ensures s.pcs[t] == Idle ==> Apply(s, t, Reset).Some? && Apply(s, t, Reset).value.word == 0 && Apply(s, t, Reset).value.pcs == s.pcs
    ensures s.pcs[t] == PulseClearing ==> Apply(s, t, ClearPulse).Some? && Apply(s, t, ClearPulse).value.word == 0
    ensures forall a :: Wakes(s.pcs[t]) && Apply(s, t, a).Some? ==>
      Apply(s, t, a).value.pcs[t] == (if s.pcs[t] == SetWaking then Idle else PulseClearing)
    ensures Wakes(s.pcs[t]) ==> exists a :: Apply(s, t, a).Some?
  {
    if Wakes(s.pcs[t]) {
      if s.manual {
        assert Apply(s, t, WakeAll).Some?;
      } else if NobodyAsleep(s.pcs) {
        assert Apply(s, t, WakeNobody).Some?;
      } else {
        var u :| 0 <= u < |s.pcs| && s.pcs[u] == Asleep;
        assert Apply(s, t, Wake(u)).Some?;
      }
    }
  }

  /** One step of a run, from the state before it. */
  lemma {:induction false} StepSucceeds(before: State, s: State, run: seq<Event>, u: nat, i: nat)
    requires i < |run| && u < |s.pcs| && |before.pcs| == |s.pcs|
    requires After(s, run[..i + 1]) == Apply(before, run[i].thread, run[i].action) && After(s, run[..i + 1]).Some?
    requires before.word <= 1
    ensures SucceedsAt(s, run, u, i) <==>
      run[i].thread == u && before.word == 1 && (run[i].action == Consume || (run[i].action == Load && before.manual))
    ensures run[i].action == Consume ==> run[i].thread < |before.pcs| && before.pcs[run[i].thread] == Consuming
  {
    if run[i].thread == u && run[i].action in {Load, Consume} {
      WaitEndsSignaled(before, u, run[i].action);
    }
  }

  /** A pulse can come to nothing: a waiter it wakes finds the word 0 again and goes back to sleep. */
  lemma {:induction false} PulseCanReleaseNobody(manual: bool)
    ensures var s := State(manual, 0, [Idle, Asleep], 0, 0, 0);
      var run := [Event(0, Pulse), Event(0, if manual then WakeAll else Wake(1)), Event(0, ClearPulse),
                  Event(1, Load), Event(1, Sleep)];
      After(s, run) == Some(s.(raised := 1, cleared := 1))
  {
    var s := State(manual, 0, [Idle, Asleep], 0, 0, 0);
    var s1 := Apply(s, 0, Pulse).value;
    var wake := if manual then WakeAll else Wake(1);
    var s2 := Apply(s1, 0, wake).value;
    assert s2.pcs == [PulseClearing, Loading];
    var s3 := Apply(s2, 0, ClearPulse).value;
    var s4 := Apply(s3, 1, Load).value;
    var s5 := Apply(s4, 1, Sleep).value;
    assert s5 == s.(raised := 1, cleared := 1);
    Cons(s4, Event(1, Sleep), []);
    Cons(s3, Event(1, Load), [Event(1, Sleep)]);
    Cons(s2, Event(0, ClearPulse), [Event(1, Load), Event(1, Sleep)]);
    Cons(s1, Event(0, wake), [Event(0, ClearPulse), Event(1, Load), Event(1, Sleep)]);
    Cons(s, Event(0, Pulse), [Event(0, wake), Event(0, ClearPulse), Event(1, Load), Event(1, Sleep)]);
  }

  lemma {:induction false} Cons(s: State, e: Event, rest: seq<Event>)
    requires Apply(s, e.thread, e.action).Some?
    ensures After(s, [e] + rest) == After(Apply(s, e.thread, e.action).value, rest)
  {
    assert ([e] + rest)[1..] == rest;
  }
}
