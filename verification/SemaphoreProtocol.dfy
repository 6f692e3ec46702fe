/** The counting semaphore: a futex word holding the available count, as a state machine over its atomic steps.
    Counters of what happened so far are part of the state, for the conservation law. */
module SemaphoreProtocol {
  import opened Wrappers

  const TWO_32: int := 0x1_0000_0000
  /** A release count is a non-negative `i32`. */
  const TWO_31: int := 0x8000_0000

  datatype Pc =
    | Idle
    | Loading            // in a wait, about to load the count
    | Taking(c: nat)     // saw `c > 0`; about to exchange it for `c - 1`
    | Waiting            // saw 0; about to sleep, or to give up at the deadline
    | Asleep             // in the futex queue
    | Waking(n: nat)     // added `n` to the count; about to wake up to `n` sleepers

  /** `taken` counts successful waits, `released` the units released, `wraps` the overflows of the word. */
  datatype State = State(count: nat, pcs: seq<Pc>, taken: nat, released: nat, wraps: nat)

  datatype Action =
    | StartWait | Load | Take | TimeOut | Sleep | SpuriousReturn | SpuriousWake
    | Release(n: nat) | Wake(sleepers: set<nat>)

  function At(s: State, t: nat, pc: Pc): State
    requires t < |s.pcs|
  {
    s.(pcs := s.pcs[t := pc])
  }

  function Sleepers(s: State): set<nat> {
    set t: nat | t < |s.pcs| && s.pcs[t] == Asleep
  }

  /** The threads in `ws` leave the futex queue. */
  function WakeAll(pcs: seq<Pc>, ws: set<nat>): (r: seq<Pc>)
    ensures |r| == |pcs|
  {
    seq(|pcs|, t requires 0 <= t < |pcs| => if t in ws && pcs[t] == Asleep then Loading else pcs[t])
  }

  predicate IsWaking(pc: Pc) { pc.Waking? }

  function Apply(s: State, t: nat, a: Action): Option<State> {
    if t >= |s.pcs| then None
    else match a
      case StartWait => if s.pcs[t] != Idle then None else Some(At(s, t, Loading))
      case Load =>
        if s.pcs[t] != Loading then None else Some(At(s, t, if s.count > 0 then Taking(s.count) else Waiting))
      case Take =>
        if !s.pcs[t].Taking? then None
        else if s.count == s.pcs[t].c && s.count > 0 then Some(At(s, t, Idle).(count := s.count - 1, taken := s.taken + 1))
        else Some(At(s, t, Loading))
      case TimeOut => if s.pcs[t] != Waiting then None else Some(At(s, t, Idle))
      case Sleep => if s.pcs[t] != Waiting then None else Some(At(s, t, if s.count == 0 then Asleep else Loading))
      case SpuriousReturn => if s.pcs[t] != Waiting then None else Some(At(s, t, Loading))
      case SpuriousWake => if s.pcs[t] != Asleep then None else Some(At(s, t, Loading))
      case Release(n) =>
        if s.pcs[t] != Idle || n >= TWO_31 then None
        else Some(At(s, t, Waking(n)).(
          count := (s.count + n) % TWO_32, released := s.released + n, wraps := s.wraps + (s.count + n) / TWO_32))
      case Wake(ws) =>
        if !IsWaking(s.pcs[t]) || !(ws <= Sleepers(s)) then None
        else if |ws| != (if s.pcs[t].n < |Sleepers(s)| then s.pcs[t].n else |Sleepers(s)|) then None
        else Some(s.(pcs := WakeAll(s.pcs, ws)[t := Idle]))
  }

  predicate Initial(s: State, initial: nat) {
    && initial < TWO_32 && s.count == initial && s.taken == s.released == s.wraps == 0
    && forall t :: 0 <= t < |s.pcs| ==> s.pcs[t] == Idle
  }

  // --- invariant ---

  /** Awake inside a wait and not yet resigned to a count of 0. */
  predicate Contends(pc: Pc) { pc.Loading? || pc.Taking? }

  function Contenders(s: State): set<nat> {
    set t: nat | t < |s.pcs| && Contends(s.pcs[t])
  }

  function OwedBy(pc: Pc): nat { if pc.Waking? then pc.n else 0 }

  /** Wake-ups still owed by releasers. */
  function Owed(pcs: seq<Pc>): nat {
    if pcs == [] then 0 else OwedBy(pcs[0]) + Owed(pcs[1..])
  }

  predicate Covered(s: State) {
    Sleepers(s) != {} ==> s.count <= |Contenders(s)| + Owed(s.pcs)
  }

  predicate Balanced(s: State, initial: nat) {
    initial + s.released == s.taken + s.count + TWO_32 * s.wraps
  }

  predicate Inv(s: State, initial: nat) {
    s.count < TWO_32 && Balanced(s, initial) && Covered(s)
  }

  lemma {:induction false} OwedUpdate(pcs: seq<Pc>, t: nat, pc: Pc)
    requires t < |pcs|
    ensures Owed(pcs[t := pc]) + OwedBy(pcs[t]) == Owed(pcs) + OwedBy(pc)
    decreases |pcs|
  {
    if t == 0 {
      assert pcs[t := pc][1..] == pcs[1..];
    } else {
      assert pcs[t := pc][1..] == pcs[1..][t - 1 := pc];
      OwedUpdate(pcs[1..], t - 1, pc);
    }
  }

  lemma {:induction false} OwedSame(pcs: seq<Pc>, pcs': seq<Pc>)
    requires |pcs'| == |pcs| && forall t :: 0 <= t < |pcs| ==> OwedBy(pcs'[t]) == OwedBy(pcs[t])
    ensures Owed(pcs') == Owed(pcs)
    decreases |pcs|
  {
    if pcs != [] {
      OwedSame(pcs[1..], pcs'[1..]);
    }
  }

  /** Moving one thread to a program counter. */
  lemma {:induction false} AtFacts(s: State, t: nat, pc: Pc)
    requires t < |s.pcs|
    ensures var s' := At(s, t, pc);
      && Sleepers(s') == (if pc == Asleep then Sleepers(s) + {t} else Sleepers(s) - {t})
      && |Contenders(s')| + (if Contends(s.pcs[t]) then 1 else 0) == |Contenders(s)| + (if Contends(pc) then 1 else 0)
      && Owed(s'.pcs) + OwedBy(s.pcs[t]) == Owed(s.pcs) + OwedBy(pc)
  {
    OwedUpdate(s.pcs, t, pc);
    AtSleepers(s, t, pc);
    AtContenders(s, t, pc);
  }

  lemma {:induction false} AtSleepers(s: State, t: nat, pc: Pc)
    requires t < |s.pcs|
    ensures Sleepers(At(s, t, pc)) == (if pc == Asleep then Sleepers(s) + {t} else Sleepers(s) - {t})
  {
  }

  lemma {:induction false} AtContenders(s: State, t: nat, pc: Pc)
    requires t < |s.pcs|
    ensures |Contenders(At(s, t, pc))| + (if Contends(s.pcs[t]) then 1 else 0)
         == |Contenders(s)| + (if Contends(pc) then 1 else 0)
  {
    var s' := At(s, t, pc);
    var before, after := Contenders(s), Contenders(s');
    assert after - {t} == before - {t};
    assert t in after <==> Contends(pc);
    assert t in before <==> Contends(s.pcs[t]);
    CardinalityWithout(before, t);
    CardinalityWithout(after, t);
  }

  lemma {:induction false} CardinalityWithout(x: set<nat>, t: nat)
    ensures |x| == |x - {t}| + (if t in x then 1 else 0)
  {
    if t in x {
      assert x == (x - {t}) + {t};
    } else {
      assert x == x - {t};
    }
  }

  /** Waking turns sleepers into contenders one for one; if fewer than owed are woken, nobody sleeps any more. */
  lemma {:induction false} WakeFacts(s: State, t: nat, ws: set<nat>)
    requires t < |s.pcs| && s.pcs[t].Waking? && ws <= Sleepers(s)
    requires |ws| == (if s.pcs[t].n < |Sleepers(s)| then s.pcs[t].n else |Sleepers(s)|)
    ensures var s' := s.(pcs := WakeAll(s.pcs, ws)[t := Idle]);
      && Sleepers(s') == Sleepers(s) - ws
      && |Contenders(s')| == |Contenders(s)| + |ws|
      && Owed(s'.pcs) + s.pcs[t].n == Owed(s.pcs)
      && (Sleepers(s') != {} ==> |ws| == s.pcs[t].n)
  {
    var woken := WakeAll(s.pcs, ws);
    OwedSame(s.pcs, woken);
    OwedUpdate(woken, t, Idle);
    WokenSets(s, t, ws);
    if |ws| == |Sleepers(s)| {
      SubsetSameSize(ws, Sleepers(s));
    }
  }

  lemma {:induction false} WokenSets(s: State, t: nat, ws: set<nat>)
    requires t < |s.pcs| && s.pcs[t].Waking? && ws <= Sleepers(s)
    ensures var s' := s.(pcs := WakeAll(s.pcs, ws)[t := Idle]);
      && Sleepers(s') == Sleepers(s) - ws
      && |Contenders(s')| == |Contenders(s)| + |ws|
  {
    var s' := s.(pcs := WakeAll(s.pcs, ws)[t := Idle]);
    assert Contenders(s') == Contenders(s) + ws;
    assert Contenders(s) !! ws;
  }

  lemma {:induction false} SubsetSameSize(x: set<nat>, y: set<nat>)
    requires x <= y && |x| == |y|
    ensures x == y
  {
    assert y == x + (y - x);
    assert |y| == |x| + |y - x|;
    assert |y - x| == 0;
  }

  lemma {:induction false} StepKeepsInv(s: State, initial: nat, t: nat, a: Action)
    requires Inv(s, initial) && Apply(s, t, a).Some?
    ensures Inv(Apply(s, t, a).value, initial)
  {
    if a.Wake? {
      WakeFacts(s, t, a.sleepers);
      EmptyStays(Sleepers(s), Sleepers(Apply(s, t, a).value));
    } else {
      MoveKeepsInv(s, initial, t, a);
    }
  }

  /** Steps that move only the thread itself. */
  lemma {:induction false} MoveKeepsInv(s: State, initial: nat, t: nat, a: Action)
    requires Inv(s, initial) && Apply(s, t, a).Some? && !a.Wake?
    ensures Inv(Apply(s, t, a).value, initial)
  {
    hide Sleepers, Contenders, Owed, WakeAll;
    var s' := Apply(s, t, a).value;
    var pc := s'.pcs[t];
    AtFacts(s, t, pc);
    assert s'.pcs == At(s, t, pc).pcs;
    SameSets(At(s, t, pc), s');
    if Sleepers(s) == {} {
      NobodyAsleep(s, t, a);
    }
  }

  /** If nobody slept and somebody does now, the count is 0. */
  lemma {:induction false} NobodyAsleep(s: State, t: nat, a: Action)
    requires Apply(s, t, a).Some? && !a.Wake? && Sleepers(s) == {}
    ensures var s' := Apply(s, t, a).value; Sleepers(s') != {} ==> s'.count == 0
  {
    var s' := Apply(s, t, a).value;
    AtSleepers(s, t, s'.pcs[t]);
    SameSets(At(s, t, s'.pcs[t]), s');
  }

  lemma {:induction false} EmptyStays(x: set<nat>, y: set<nat>)
    requires y <= x
    ensures x == {} ==> y == {}
  {
  }

  lemma {:induction false} SameSets(s: State, s': State)
    requires s.pcs == s'.pcs
    ensures Sleepers(s) == Sleepers(s') && Contenders(s) == Contenders(s')
  {
  }

  lemma {:induction false} InitialInv(s: State, initial: nat)
    requires Initial(s, initial)
    ensures Inv(s, initial)
  {
    assert Sleepers(s) == {};
  }

  // --- runs ---

  datatype Event = Event(thread: nat, action: Action)

  function After(s: State, run: seq<Event>): Option<State>
    decreases |run|
  {
    if run == [] then Some(s)
    else
      var s1 :- Apply(s, run[0].thread, run[0].action);
      After(s1, run[1..])
  }

  lemma {:induction false} AfterInv(s: State, initial: nat, run: seq<Event>)
    requires Inv(s, initial) && After(s, run).Some?
    ensures Inv(After(s, run).value, initial)
    decreases |run|
  {
    if run != [] {
      StepKeepsInv(s, initial, run[0].thread, run[0].action);
      AfterInv(Apply(s, run[0].thread, run[0].action).value, initial, run[1..]);
    }
  }

  /** Conservation, in every reachable state: initial plus released equals taken plus available, plus 2^32 for every
      time the word overflowed; so nothing is taken that was not there as long as it never has. */
  lemma {:induction false} Conserved(s: State, initial: nat, run: seq<Event>)
    requires Initial(s, initial) && After(s, run).Some?
    ensures var s' := After(s, run).value;
      && initial + s'.released == s'.taken + s'.count + TWO_32 * s'.wraps
      && (s'.wraps == 0 <==> initial + s'.released == s'.taken + s'.count)
  {
    InitialInv(s, initial);
    AfterInv(s, initial, run);
  }

  /** No wake-up is lost, in every reachable state: while a unit is available and a thread sleeps, another thread is
      on its way to take it or a releaser still has wake-ups to deliver. */
  lemma {:induction false} NoLostWakeup(s: State, initial: nat, run: seq<Event>)
    requires Initial(s, initial) && After(s, run).Some?
    ensures var s' := After(s, run).value;
      && (Sleepers(s') != {} ==> s'.count <= |Contenders(s')| + Owed(s'.pcs))
      && (Sleepers(s') != {} && s'.count > 0 ==> exists t :: 0 <= t < |s'.pcs| && (Contends(s'.pcs[t]) || OwedBy(s'.pcs[t]) > 0))
  {
    InitialInv(s, initial);
    AfterInv(s, initial, run);
    var s' := After(s, run).value;
    if Sleepers(s') != {} && s'.count > 0 {
      if Contenders(s') != {} {
        var t :| t in Contenders(s');
        assert Contends(s'.pcs[t]);
      } else {
        SomeoneOwes(s'.pcs);
      }
    }
  }

  lemma {:induction false} SomeoneOwes(pcs: seq<Pc>)
    requires Owed(pcs) > 0
    ensures exists t :: 0 <= t < |pcs| && OwedBy(pcs[t]) > 0
    decreases |pcs|
  {
    if OwedBy(pcs[0]) == 0 {
      SomeoneOwes(pcs[1..]);
      var t :| 0 <= t < |pcs[1..]| && OwedBy(pcs[1..][t]) > 0;
      assert OwedBy(pcs[t + 1]) > 0;
    } else {
      assert OwedBy(pcs[0]) > 0;
    }
  }

  /** A wait succeeds only by taking a unit that is there. */
  lemma {:induction false} TakesWhatIsThere(s: State, t: nat, a: Action)
    requires Apply(s, t, a).Some?
    ensures var s' := Apply(s, t, a).value;
      s'.taken != s.taken ==> s.count > 0 && s'.count == s.count - 1 && s'.taken == s.taken + 1 && a == Take
  {
  }

  /** Releasing overflows exactly when the count does not fit 32 bits, and then loses 2^32 units. */
  lemma {:induction false} OverflowExact(s: State, t: nat, n: nat)
    requires t < |s.pcs| && s.pcs[t] == Idle && n < TWO_31 && s.count < TWO_32
    ensures Apply(s, t, Release(n)).Some?
    ensures Apply(s, t, Release(n)).value.count == s.count + n <==> s.count + n < TWO_32
    ensures s.count + n >= TWO_32 ==> Apply(s, t, Release(n)).value.count == s.count + n - TWO_32
  {
  }

  // --- whole operations ---

  lemma {:induction false} Cons(s: State, e: Event, rest: seq<Event>)
    requires Apply(s, e.thread, e.action).Some?
    ensures After(s, [e] + rest) == After(Apply(s, e.thread, e.action).value, rest)
  {
    assert ([e] + rest)[1..] == rest;
  }

  /** An available unit can be taken, and that is all a wait does then. */
  lemma {:induction false} WaitPasses(s: State, u: nat)
    requires s.count > 0 && u < |s.pcs| && s.pcs[u] == Idle
    ensures After(s, [Event(u, StartWait), Event(u, Load), Event(u, Take)])
         == Some(s.(count := s.count - 1, taken := s.taken + 1))
  {
    var s1 := Apply(s, u, StartWait).value;
    var s2 := Apply(s1, u, Load).value;
    assert Apply(s2, u, Take).value.pcs == s.pcs;
    Cons(s2, Event(u, Take), []);
    Cons(s1, Event(u, Load), [Event(u, Take)]);
    Cons(s, Event(u, StartWait), [Event(u, Load), Event(u, Take)]);
  }

  /** Without one a wait ends asleep in the queue, or gives up at the deadline and changes nothing. */
  lemma {:induction false} WaitBlocks(s: State, u: nat)
    requires s.count == 0 && u < |s.pcs| && s.pcs[u] == Idle
    ensures After(s, [Event(u, StartWait), Event(u, Load), Event(u, Sleep)]) == Some(At(s, u, Asleep))
    ensures After(s, [Event(u, StartWait), Event(u, Load), Event(u, TimeOut)]) == Some(s)
  {
    var s1 := Apply(s, u, StartWait).value;
    var s2 := Apply(s1, u, Load).value;
    assert Apply(s2, u, Sleep).value.pcs == s.pcs[u := Asleep] && Apply(s2, u, TimeOut).value.pcs == s.pcs;
    Cons(s2, Event(u, Sleep), []);
    Cons(s1, Event(u, Load), [Event(u, Sleep)]);
    Cons(s, Event(u, StartWait), [Event(u, Load), Event(u, Sleep)]);
    Cons(s2, Event(u, TimeOut), []);
    Cons(s1, Event(u, Load), [Event(u, TimeOut)]);
    Cons(s, Event(u, StartWait), [Event(u, Load), Event(u, TimeOut)]);
  }

  /** A thread that loaded a positive count takes a unit exactly when the count is still the same, and starts over
      otherwise. */
  lemma {:induction false} TakeExact(s: State, u: nat)
    requires u < |s.pcs| && s.pcs[u].Taking? && s.pcs[u].c > 0
    ensures Apply(s, u, Take).Some?
    ensures var s' := Apply(s, u, Take).value;
      if s.count == s.pcs[u].c then s'.pcs[u] == Idle && s'.count == s.count - 1 && s'.taken == s.taken + 1
      else s'.pcs[u] == Loading && s'.count == s.count && s'.taken == s.taken
  {
  }

  /** A release by a thread outside the operations goes through for every count, owing that many wake-ups. */
  lemma {:induction false} ReleaseOwes(s: State, t: nat, n: nat)
    requires t < |s.pcs| && s.pcs[t] == Idle && n < TWO_31
    ensures Apply(s, t, Release(n)).Some?
    ensures var s' := Apply(s, t, Release(n)).value;
      s'.pcs == s.pcs[t := Waking(n)] && s'.released == s.released + n && s'.count < TWO_32
      && s'.count + TWO_32 * (s'.wraps - s.wraps) == s.count + n
  {
  }

  /** A sleeper leaves the queue exactly when it wakes up spuriously or is among those a release wakes; a release wakes
      as many as it owes, or everyone if fewer sleep. */
  lemma {:induction false} WokenExact(s: State, t: nat, a: Action, u: nat)
    requires Apply(s, t, a).Some? && u < |s.pcs| && s.pcs[u] == Asleep
    ensures var s' := Apply(s, t, a).value;
      u < |s'.pcs| && (s'.pcs[u] == Loading <==> (a == SpuriousWake && t == u) || (a.Wake? && u in a.sleepers))
      && s'.pcs[u] in {Asleep, Loading}
    ensures a.Wake? ==>
      && s.pcs[t].Waking? && a.sleepers <= Sleepers(s) && Apply(s, t, a).value.pcs[t] == Idle
      && (|a.sleepers| == s.pcs[t].n || (a.sleepers == Sleepers(s) && |a.sleepers| < s.pcs[t].n))
  {
    if a.Wake? && |a.sleepers| != s.pcs[t].n {
      SubsetSameSize(a.sleepers, Sleepers(s));
    }
  }

  /** Inside a wait. */
  predicate InWait(pc: Pc) { pc.Loading? || pc.Taking? || pc.Waiting? || pc.Asleep? }

  /** A wait ends exactly by its own step, with a unit taken or at the deadline: whatever else the thread or another one
      does, and however the kernel wakes it, the waiter goes on waiting. */
  lemma {:induction false} WaitEndsExact(s: State, t: nat, a: Action, u: nat)
    requires Apply(s, t, a).Some? && u < |s.pcs| && InWait(s.pcs[u])
    ensures var s' := Apply(s, t, a).value;
      && u < |s'.pcs| && (s'.pcs[u] == Idle || InWait(s'.pcs[u]))
      && (s'.pcs[u] == Idle <==> t == u && (a == TimeOut || (a == Take && s.pcs[u] == Taking(s.count) && s.count > 0)))
      && (s'.taken == s.taken + 1 <==> a == Take && s.pcs[t] == Taking(s.count) && s.count > 0)
  {
  }

  /** A step changes where the thread itself is, and wakes sleepers; every other thread stays where it is. */
  lemma {:induction false} OthersStay(s: State, t: nat, a: Action, u: nat)
    requires Apply(s, t, a).Some? && u < |s.pcs| && u != t && s.pcs[u] != Asleep
    ensures u < |Apply(s, t, a).value.pcs| && Apply(s, t, a).value.pcs[u] == s.pcs[u]
  {
  }
}
