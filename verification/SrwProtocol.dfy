/** The slim reader/writer lock: one futex word, the writer flag in bit 31 and the number of readers below it. */
module SrwProtocol {
  import opened Wrappers

  const WRITER: int := 0x8000_0000
  const TWO_32: int := 0x1_0000_0000

  datatype Pc =
    | Idle
    | WantWrite                // about to load the word
    | TakeWrite                // saw 0; about to exchange it for the writer flag
    | WaitWrite(seen: nat)     // about to sleep while the word is `seen`
    | SleepWrite
    | Writing                  // holds the lock exclusively
    | WantRead
    | TakeRead(seen: nat)      // saw no writer; about to exchange `seen` for `seen + 1`
    | WaitRead(seen: nat)
    | SleepRead
    | Reading                  // holds the lock shared
    | WakeEveryone             // released exclusively; about to wake all sleepers
    | WakeOne                  // was the last reader; about to wake one sleeper

  datatype State = State(word: nat, pcs: seq<Pc>)

  datatype Action =
    | StartWrite | StartRead | Load | Take | Sleep | SpuriousReturn | SpuriousWake
    | ReleaseWrite | ReleaseRead | WakeAll | Wake(sleeper: nat) | WakeNobody

  predicate IsAsleep(pc: Pc) { pc in {SleepWrite, SleepRead} }

  function Awake(pc: Pc): Pc {
    match pc
    case SleepWrite => WantWrite
    case SleepRead => WantRead
    case _ => pc
  }

  predicate HasWriter(word: nat) { (word / WRITER) % 2 == 1 }

  function At(s: State, t: nat, pc: Pc): State
    requires t < |s.pcs|
  {
    s.(pcs := s.pcs[t := pc])
  }

  function AllAwake(pcs: seq<Pc>): (r: seq<Pc>)
    ensures |r| == |pcs|
  {
    seq(|pcs|, t requires 0 <= t < |pcs| => Awake(pcs[t]))
  }

  /** The state after thread `t` takes step `a`. Only holders release. */
  function Apply(s: State, t: nat, a: Action): Option<State> {
    if t >= |s.pcs| then None
    else
      var pc := s.pcs[t];
      match a
      case StartWrite => if pc != Idle then None else Some(At(s, t, WantWrite))
      case StartRead => if pc != Idle then None else Some(At(s, t, WantRead))
      case Load =>
        if pc == WantWrite then Some(At(s, t, if s.word == 0 then TakeWrite else WaitWrite(s.word)))
        else if pc == WantRead then Some(At(s, t, if HasWriter(s.word) then WaitRead(s.word) else TakeRead(s.word)))
        else None
      case Take =>
        if pc == TakeWrite then Some(if s.word == 0 then At(s, t, Writing).(word := WRITER) else At(s, t, WantWrite))
        else if pc.TakeRead? then
          Some(if s.word == pc.seen then At(s, t, Reading).(word := (s.word + 1) % TWO_32) else At(s, t, WantRead))
        else None
      case Sleep =>
        if pc.WaitWrite? then Some(At(s, t, if s.word == pc.seen then SleepWrite else WantWrite))
        else if pc.WaitRead? then Some(At(s, t, if s.word == pc.seen then SleepRead else WantRead))
        else None
      case SpuriousReturn =>
        if pc.WaitWrite? then Some(At(s, t, WantWrite))
        else if pc.WaitRead? then Some(At(s, t, WantRead))
        else None
      case SpuriousWake => if IsAsleep(pc) then Some(At(s, t, Awake(pc))) else None
      case ReleaseWrite => if pc != Writing then None else Some(At(s, t, WakeEveryone).(word := 0))
      case ReleaseRead =>
        if pc != Reading then None
        else Some(At(s, t, if s.word % WRITER == 1 then WakeOne else Idle).(word := (s.word - 1) % TWO_32))
      case WakeAll => if pc != WakeEveryone then None else Some(s.(pcs := AllAwake(s.pcs)[t := Idle]))
      case Wake(u) =>
        if pc != WakeOne || u >= |s.pcs| || !IsAsleep(s.pcs[u]) then None
        else Some(At(At(s, t, Idle), u, Awake(s.pcs[u])))
      case WakeNobody =>
        if pc != WakeOne || (exists u :: 0 <= u < |s.pcs| && IsAsleep(s.pcs[u])) then None
        else Some(At(s, t, Idle))
  }

  predicate Initial(s: State) {
    s.word == 0 && |s.pcs| < WRITER && forall t :: 0 <= t < |s.pcs| ==> s.pcs[t] == Idle
  }

  // --- invariant ---

  function Readers(s: State): set<nat> {
    set t: nat | t < |s.pcs| && s.pcs[t] == Reading
  }

  function Writers(s: State): set<nat> {
    set t: nat | t < |s.pcs| && s.pcs[t] == Writing
  }

  /** The word is the writer flag exactly when one thread writes and none reads; otherwise it counts the readers. */
  predicate WordOk(s: State) {
    if Writers(s) != {} then |Writers(s)| == 1 && Readers(s) == {} && s.word == WRITER
    else s.word == |Readers(s)|
  }

  /** Awake inside an acquire, or owing wake-ups. */
  predicate Stirring(pc: Pc) {
    pc in {WantWrite, TakeWrite, WantRead, WakeEveryone, WakeOne} || pc.WaitWrite? || pc.TakeRead? || pc.WaitRead?
  }

  ghost predicate SomeStirring(s: State) {
    exists t :: 0 <= t < |s.pcs| && Stirring(s.pcs[t])
  }

  ghost predicate SomeAsleep(s: State) {
    exists t :: 0 <= t < |s.pcs| && IsAsleep(s.pcs[t])
  }

  /** What a sleeping reader waits for: a writer, or a wake-all still to come. */
  ghost predicate ReaderCovered(s: State) {
    exists t :: 0 <= t < |s.pcs| && s.pcs[t] in {Writing, WakeEveryone}
  }

  ghost predicate SomeReaderAsleep(s: State) {
    exists t :: 0 <= t < |s.pcs| && s.pcs[t] == SleepRead
  }

  /** What threads remember: waiters saw a non-zero word, readers about to enter saw no writer flag. */
  predicate MemoryOk(pc: Pc) {
    && (pc.WaitWrite? ==> pc.seen != 0)
    && (pc.WaitRead? ==> HasWriter(pc.seen))
    && (pc.TakeRead? ==> pc.seen < WRITER)
  }

  ghost predicate Inv(s: State) {
    && |s.pcs| < WRITER && WordOk(s)
    && (forall t :: 0 <= t < |s.pcs| ==> MemoryOk(s.pcs[t]))
    && (s.word == 0 && SomeAsleep(s) ==> SomeStirring(s))
    && (SomeReaderAsleep(s) ==> ReaderCovered(s))
  }

  lemma {:induction false} InitialInv(s: State)
    requires Initial(s)
    ensures Inv(s)
  {
    assert Writers(s) == {} && Readers(s) == {};
  }

  lemma {:induction false} AtSets(s: State, t: nat, pc: Pc)
    requires t < |s.pcs|
    ensures Readers(At(s, t, pc)) == (if pc == Reading then Readers(s) + {t} else Readers(s) - {t})
    ensures Writers(At(s, t, pc)) == (if pc == Writing then Writers(s) + {t} else Writers(s) - {t})
  {
  }

  lemma {:induction false} SubsetSize(x: set<nat>, n: nat)
    requires forall t :: t in x ==> t < n
    ensures |x| <= n
    decreases n
  {
    if n == 0 {
      assert x == {};
    } else {
      SubsetSize(x - {n - 1}, n - 1);
      if n - 1 in x {
        assert x == (x - {n - 1}) + {n - 1};
      } else {
        assert x == x - {n - 1};
      }
    }
  }

  /** The word stays within 32 bits, and tells exactly what holders there are. */
  lemma {:induction false} WordFacts(s: State)
    requires Inv(s)
    ensures s.word <= WRITER && (HasWriter(s.word) <==> Writers(s) != {})
    ensures s.word < WRITER <==> Writers(s) == {}
    ensures s.word == 0 <==> Writers(s) == {} && Readers(s) == {}
    ensures Writers(s) == {} ==> s.word == |Readers(s)|
  {
    SubsetSize(Readers(s), |s.pcs|);
    if Readers(s) != {} {
      var t :| t in Readers(s);
      assert Readers(s) == (Readers(s) - {t}) + {t};
    }
  }

  /** Steps that leave holders and word alone. */
  predicate Neutral(s: State, t: nat, a: Action)
    requires t < |s.pcs|
  {
    a !in {ReleaseWrite, ReleaseRead} && !(a == Take && s.pcs[t] == TakeWrite && s.word == 0)
    && !(a == Take && s.pcs[t].TakeRead? && s.word == s.pcs[t].seen)
  }

  lemma {:induction false} NeutralKeepsHolders(s: State, t: nat, a: Action)
    requires Apply(s, t, a).Some? && Neutral(s, t, a)
    ensures var s' := Apply(s, t, a).value;
      s'.word == s.word && Readers(s') == Readers(s) && Writers(s') == Writers(s)
  {
  }

  lemma {:induction false} WithMember(x: set<nat>, t: nat)
    ensures t !in x ==> |x + {t}| == |x| + 1
    ensures t in x ==> |x - {t}| == |x| - 1
  {
    if t in x {
      assert x == (x - {t}) + {t};
    }
  }

  /** Holders come and go one at a time, and the word follows. */
  lemma {:induction false} StepKeepsWord(s: State, t: nat, a: Action)
    requires Inv(s) && Apply(s, t, a).Some?
    ensures WordOk(Apply(s, t, a).value)
  {
    if Neutral(s, t, a) {
      NeutralKeepsHolders(s, t, a);
    } else {
      SameHolders(At(s, t, Apply(s, t, a).value.pcs[t]), Apply(s, t, a).value);
      if a == Take {
        TakeKeepsWord(s, t);
      } else {
        ReleaseKeepsWord(s, t, a);
      }
    }
  }

  lemma {:induction false} TakeKeepsWord(s: State, t: nat)
    requires Inv(s) && Apply(s, t, Take).Some? && !Neutral(s, t, Take)
    ensures WordOk(Apply(s, t, Take).value)
  {
    hide Readers, Writers;
    WordFacts(s);
    WithMember(Readers(s), t);
    HolderMembers(s, t);
    assert MemoryOk(s.pcs[t]);
    var pc := if s.pcs[t] == TakeWrite then Writing else Reading;
    AtSets(s, t, pc);
    SameHolders(At(s, t, pc), Apply(s, t, Take).value);
    if pc == Writing {
      assert Writers(s) + {t} == {t};
      assert Readers(s) - {t} == {};
    } else {
      assert Writers(s) - {t} == {};
    }
  }

  lemma {:induction false} ReleaseKeepsWord(s: State, t: nat, a: Action)
    requires Inv(s) && Apply(s, t, a).Some? && a in {ReleaseWrite, ReleaseRead}
    ensures WordOk(Apply(s, t, a).value)
  {
    hide Readers, Writers;
    WordFacts(s);
    WithMember(Readers(s), t);
    HolderMembers(s, t);
    var pc := if a == ReleaseWrite then WakeEveryone else if s.word % WRITER == 1 then WakeOne else Idle;
    AtSets(s, t, pc);
    SameHolders(At(s, t, pc), Apply(s, t, a).value);
    if a == ReleaseWrite {
      ReleasedWriter(s, t);
      assert Readers(s) - {t} == {};
    } else {
      assert Writers(s) - {t} == {};
    }
  }

  lemma {:induction false} HolderMembers(s: State, t: nat)
    requires t < |s.pcs|
    ensures (t in Readers(s) <==> s.pcs[t] == Reading) && (t in Writers(s) <==> s.pcs[t] == Writing)
  {
  }

  lemma {:induction false} SameHolders(s: State, s': State)
    requires s.pcs == s'.pcs
    ensures Readers(s) == Readers(s') && Writers(s) == Writers(s')
  {
  }

  /** The only writer leaves nobody behind. */
  lemma {:induction false} ReleasedWriter(s: State, t: nat)
    requires WordOk(s) && t in Writers(s)
    ensures Writers(s) == {t}
  {
    var rest := Writers(s) - {t};
    assert Writers(s) == rest + {t};
    assert |Writers(s)| == |rest| + 1;
  }

  lemma {:induction false} StepKeepsMemory(s: State, t: nat, a: Action, u: nat)
    requires Inv(s) && Apply(s, t, a).Some? && u < |s.pcs|
    ensures |Apply(s, t, a).value.pcs| == |s.pcs| && MemoryOk(Apply(s, t, a).value.pcs[u])
  {
    WordFacts(s);
    assert MemoryOk(s.pcs[u]);
  }

  /** A thread leaves the acquire loops, or stops owing wake-ups, only when the word is not 0 or nobody sleeps;
      and it wakes somebody if it can. */
  lemma {:induction false} StepKeepsStirring(s: State, t: nat, a: Action)
    requires Inv(s) && Apply(s, t, a).Some?
    ensures var s' := Apply(s, t, a).value; s'.word == 0 && SomeAsleep(s') ==> SomeStirring(s')
  {
    var s' := Apply(s, t, a).value;
    assert MemoryOk(s.pcs[t]);
    WordFacts(s);
    assert t in Readers(s) <==> s.pcs[t] == Reading;
    assert t in Writers(s) <==> s.pcs[t] == Writing;
    assert Stirring(s'.pcs[t]) ==> SomeStirring(s');
    if a.Wake? {
      assert Stirring(s'.pcs[a.sleeper]);
    }
  }

  /** A reader falls asleep only under a writer, and a leaving writer owes everyone a wake-up. */
  lemma {:induction false} StepKeepsReaderCovered(s: State, t: nat, a: Action)
    requires Inv(s) && Apply(s, t, a).Some?
    ensures var s' := Apply(s, t, a).value; SomeReaderAsleep(s') ==> ReaderCovered(s')
  {
    var s' := Apply(s, t, a).value;
    WordFacts(s);
    assert MemoryOk(s.pcs[t]);
    if SomeReaderAsleep(s') {
      var z :| 0 <= z < |s'.pcs| && s'.pcs[z] == SleepRead;
      if s'.pcs[t] in {Writing, WakeEveryone} {
      } else if s'.pcs[t] == SleepRead {
        var w :| w in Writers(s);
        assert s'.pcs[w] == Writing;
      } else {
        assert s.pcs[z] == SleepRead;
        var c :| 0 <= c < |s.pcs| && s.pcs[c] in {Writing, WakeEveryone};
        assert s'.pcs[c] == s.pcs[c];
      }
    }
  }

  lemma {:induction false} StepKeepsInv(s: State, t: nat, a: Action)
    requires Inv(s) && Apply(s, t, a).Some?
    ensures Inv(Apply(s, t, a).value)
  {
    hide Apply;
    StepKeepsWord(s, t, a);
    StepKeepsStirring(s, t, a);
    StepKeepsReaderCovered(s, t, a);
    StepKeepsMemory(s, t, a, t) by { InRange(s, t, a); }
    var s' := Apply(s, t, a).value;
    forall u | 0 <= u < |s'.pcs| ensures MemoryOk(s'.pcs[u]) {
      StepKeepsMemory(s, t, a, u);
    }
  }

  lemma {:induction false} InRange(s: State, t: nat, a: Action)
    requires Apply(s, t, a).Some?
    ensures t < |s.pcs|
  {
  }

  // --- runs ---

  datatype Event = Event(thread: nat, action: Action)

  function After(s: State, run: seq<Event>): Option<State>
    decreases |run|
  {
    if run == [] then Some(s)
    else
      var s1 :- Apply(s, run[0].thread, run[0].action);
      After(s1, run[1..])
  }

  lemma {:induction false} AfterInv(s: State, run: seq<Event>)
    requires Inv(s) && After(s, run).Some?
    ensures Inv(After(s, run).value)
    decreases |run|
  {
    if run != [] {
      StepKeepsInv(s, run[0].thread, run[0].action);
      AfterInv(Apply(s, run[0].thread, run[0].action).value, run[1..]);
    }
  }

  /** Reachable states, with any interleaving of fewer than 2^31 threads: either one writer and no reader hold the
      lock and the word is the writer flag, or no writer does and the word is the number of readers. */
  lemma {:induction false} Exclusion(s: State, run: seq<Event>)
    requires Initial(s) && After(s, run).Some?
    ensures var s' := After(s, run).value;
      && (forall t, u :: t in Writers(s') && u in Writers(s') ==> t == u)
      && (Writers(s') != {} ==> Readers(s') == {})
      && (s'.word == WRITER <==> Writers(s') != {})
      && (s'.word != WRITER ==> s'.word == |Readers(s')|)
  {
    InitialInv(s);
    AfterInv(s, run);
    var s' := After(s, run).value;
    WordFacts(s');
    forall t, u | t in Writers(s') && u in Writers(s') ensures t == u {
      ReleasedWriter(s', t);
    }
  }

  /** Reachable states: while the word is 0 nobody sleeps unless another thread is trying or about to wake; and a
      sleeping reader has a writer, or a wake-all still to come. */
  lemma {:induction false} NobodyStranded(s: State, run: seq<Event>)
    requires Initial(s) && After(s, run).Some?
    ensures var s' := After(s, run).value;
      && (s'.word == 0 && SomeAsleep(s') ==> SomeStirring(s'))
      && (SomeReaderAsleep(s') ==> ReaderCovered(s'))
  {
    InitialInv(s);
    AfterInv(s, run);
  }

  /** Against the abstract lock: a step takes it exclusively only when it is free, takes it shared only when nobody
      writes, releases it only for the holder itself, or changes nothing. */
  lemma {:induction false} StepRefinesLock(s: State, t: nat, a: Action)
    requires Inv(s) && Apply(s, t, a).Some?
    ensures var s' := Apply(s, t, a).value;
      || (Readers(s') == Readers(s) && Writers(s') == Writers(s))
      || (Readers(s) == Writers(s) == Readers(s') == {} && Writers(s') == {t})
      || (Writers(s) == Writers(s') == {} && t !in Readers(s) && Readers(s') == Readers(s) + {t})
      || (Writers(s) == {t} && Writers(s') == {} && Readers(s') == Readers(s) == {})
      || (Writers(s) == Writers(s') == {} && t in Readers(s) && Readers(s') == Readers(s) - {t})
  {
    var s' := Apply(s, t, a).value;
    if Neutral(s, t, a) {
      NeutralKeepsHolders(s, t, a);
    } else {
      WordFacts(s);
      assert t in Readers(s) <==> s.pcs[t] == Reading;
      assert t in Writers(s) <==> s.pcs[t] == Writing;
      assert MemoryOk(s.pcs[t]);
      if t in Writers(s) {
        ReleasedWriter(s, t);
      }
      AtSets(s, t, s'.pcs[t]);
      SameHolders(At(s, t, s'.pcs[t]), s');
    }
  }

  // --- whole operations ---

  lemma {:induction false} RunThree(s: State, u: nat, a: Action, b: Action, c: Action, s1: State, s2: State, s3: State)
    requires Apply(s, u, a) == Some(s1) && Apply(s1, u, b) == Some(s2) && Apply(s2, u, c) == Some(s3)
    ensures After(s, [Event(u, a), Event(u, b), Event(u, c)]) == Some(s3)
  {
    hide Apply;
    var run := [Event(u, a), Event(u, b), Event(u, c)];
    assert run[1..][1..][1..] == [];
    assert After(s2, run[1..][1..]) == Some(s3);
    assert After(s1, run[1..]) == Some(s3);
  }

  /** A free lock can be taken exclusively. */
  lemma {:induction false} WritePasses(s: State, u: nat)
    requires Inv(s) && Writers(s) == Readers(s) == {} && u < |s.pcs| && s.pcs[u] == Idle
    ensures After(s, [Event(u, StartWrite), Event(u, Load), Event(u, Take)]).Some?
    ensures var s' := After(s, [Event(u, StartWrite), Event(u, Load), Event(u, Take)]).value;
      s' == At(s, u, Writing).(word := WRITER) && Writers(s') == {u} && Readers(s') == {}
  {
    hide Readers, Writers;
    WordFacts(s);
    var s1 := Apply(s, u, StartWrite).value;
    var s2 := Apply(s1, u, Load).value;
    var s3 := Apply(s2, u, Take).value;
    assert s3 == At(s, u, Writing).(word := WRITER);
    AtSets(s, u, Writing);
    SameHolders(At(s, u, Writing), s3);
    RunThree(s, u, StartWrite, Load, Take, s1, s2, s3);
  }

  /** One that nobody holds exclusively can be taken shared. */
  lemma {:induction false} ReadPasses(s: State, u: nat)
    requires Inv(s) && Writers(s) == {} && u < |s.pcs| && s.pcs[u] == Idle
    ensures After(s, [Event(u, StartRead), Event(u, Load), Event(u, Take)]).Some?
    ensures var s' := After(s, [Event(u, StartRead), Event(u, Load), Event(u, Take)]).value;
      s' == At(s, u, Reading).(word := s.word + 1) && Writers(s') == {} && Readers(s') == Readers(s) + {u}
  {
    hide Readers, Writers;
    WordFacts(s);
    var s1 := Apply(s, u, StartRead).value;
    var s2 := Apply(s1, u, Load).value;
    var s3 := Apply(s2, u, Take).value;
    assert s3 == At(s, u, Reading).(word := s.word + 1);
    AtSets(s, u, Reading);
    SameHolders(At(s, u, Reading), s3);
    RunThree(s, u, StartRead, Load, Take, s1, s2, s3);
  }

  /** A held lock puts a writer to sleep; an exclusively held one a reader. */
  lemma {:induction false} AcquireBlocks(s: State, u: nat)
    requires Inv(s) && u < |s.pcs| && s.pcs[u] == Idle
    ensures Writers(s) != {} || Readers(s) != {} ==>
      After(s, [Event(u, StartWrite), Event(u, Load), Event(u, Sleep)]) == Some(At(s, u, SleepWrite))
    ensures Writers(s) != {} ==>
      After(s, [Event(u, StartRead), Event(u, Load), Event(u, Sleep)]) == Some(At(s, u, SleepRead))
  {
    hide Readers, Writers;
    WordFacts(s);
    if s.word != 0 {
      var s1 := Apply(s, u, StartWrite).value;
      var s2 := Apply(s1, u, Load).value;
      var s3 := Apply(s2, u, Sleep).value;
      assert s3 == At(s, u, SleepWrite);
      RunThree(s, u, StartWrite, Load, Sleep, s1, s2, s3);
    }
    if HasWriter(s.word) {
      var s1 := Apply(s, u, StartRead).value;
      var s2 := Apply(s1, u, Load).value;
      var s3 := Apply(s2, u, Sleep).value;
      assert s3 == At(s, u, SleepRead);
      RunThree(s, u, StartRead, Load, Sleep, s1, s2, s3);
    }
  }

  /** A holder can release. A writer owes a wake-up to everyone, and so does the last reader to one sleeper; other
      readers owe none. */
  lemma {:induction false} ReleaseFrees(s: State, u: nat)
    requires Inv(s) && u < |s.pcs|
    ensures s.pcs[u] == Writing ==>
      Apply(s, u, ReleaseWrite).Some? && Apply(s, u, ReleaseWrite).value == At(s, u, WakeEveryone).(word := 0)
    ensures s.pcs[u] == Reading ==>
      Apply(s, u, ReleaseRead).Some?
      && Apply(s, u, ReleaseRead).value == At(s, u, if Readers(s) == {u} then WakeOne else Idle).(word := s.word - 1)
  {
    hide Inv, Readers;
    if s.pcs[u] == Reading {
      ReaderCounted(s, u);
    }
  }

  /** The word counts a reader, and is 1 exactly if there is no other. */
  lemma {:induction false} ReaderCounted(s: State, u: nat)
    requires Inv(s) && u < |s.pcs| && s.pcs[u] == Reading
    ensures 1 <= s.word < WRITER && (s.word == 1 <==> Readers(s) == {u})
  {
    WordFacts(s);
    HolderMembers(s, u);
    hide Inv, Readers, Writers;
    WithMember(Readers(s), u);
    OnlyOne(Readers(s), u);
  }

  lemma {:induction false} OnlyOne(x: set<nat>, u: nat)
    requires u in x
    ensures |x| == 1 <==> x == {u}
  {
    WithMember(x, u);
    if |x| == 1 {
      assert x - {u} == {};
      assert x == (x - {u}) + {u};
    }
  }

  /** A sleeper leaves the queue exactly when it wakes up spuriously, everyone is woken, or it is the one woken; and a
      wake-up owed is always possible. */
  lemma {:induction false} WokenExact(s: State, t: nat, a: Action, u: nat)
    requires Apply(s, t, a).Some? && u < |s.pcs| && IsAsleep(s.pcs[u])
    ensures var s' := Apply(s, t, a).value;
      u < |s'.pcs| && (s'.pcs[u] != s.pcs[u] <==> (a == SpuriousWake && t == u) || a in {WakeAll, Wake(u)})
      && (s'.pcs[u] != s.pcs[u] ==> s'.pcs[u] == if s.pcs[u] == SleepWrite then WantWrite else WantRead)
    ensures a == WakeAll ==> s.pcs[t] == WakeEveryone
    ensures a.Wake? ==> s.pcs[t] == WakeOne
    ensures a == WakeNobody ==> false
  {
  }

  lemma {:induction false} OwedCanBePaid(s: State, t: nat)
    requires t < |s.pcs| && s.pcs[t] in {WakeEveryone, WakeOne}
    ensures s.pcs[t] == WakeEveryone ==> Apply(s, t, WakeAll).Some?
    ensures s.pcs[t] == WakeOne ==> exists a :: Apply(s, t, a).Some? && Apply(s, t, a).value.pcs[t] == Idle
  {
    if s.pcs[t] == WakeOne {
      if u :| 0 <= u < |s.pcs| && IsAsleep(s.pcs[u]) {
        assert Apply(s, t, Wake(u)).Some? && Apply(s, t, Wake(u)).value.pcs[t] == Idle;
      } else {
        assert Apply(s, t, WakeNobody).Some? && Apply(s, t, WakeNobody).value.pcs[t] == Idle;
      }
    }
  }

  /** Inside an exclusive and inside a shared acquisition. */
  predicate WantsWrite(pc: Pc) { pc in {WantWrite, TakeWrite, SleepWrite} || pc.WaitWrite? }

  predicate WantsRead(pc: Pc) { pc in {WantRead, SleepRead} || pc.TakeRead? || pc.WaitRead? }

  /** An acquisition ends exactly when its own exchange succeeds: whatever else the thread or another one does, and
      however the kernel wakes it, the thread goes on acquiring, in the same mode. */
  lemma {:induction false} AcquireEndsExact(s: State, t: nat, a: Action, u: nat)
    requires Apply(s, t, a).Some? && u < |s.pcs| && (WantsWrite(s.pcs[u]) || WantsRead(s.pcs[u]))
    ensures var s' := Apply(s, t, a).value;
      && u < |s'.pcs| && (if WantsWrite(s.pcs[u]) then s'.pcs[u] == Writing || WantsWrite(s'.pcs[u])
                          else s'.pcs[u] == Reading || WantsRead(s'.pcs[u]))
      && (s'.pcs[u] in {Writing, Reading} <==>
            t == u && a == Take && s.word == if s.pcs[u] == TakeWrite then 0 else s.pcs[u].seen)
  {
  }

  /** A release ends with its wake-up. */
  lemma {:induction false} ReleaseEnds(s: State, t: nat, a: Action)
    requires Apply(s, t, a).Some? && s.pcs[t] in {WakeEveryone, WakeOne}
    ensures Apply(s, t, a).value.pcs[t] == Idle && Apply(s, t, a).value.word == s.word
    ensures if s.pcs[t] == WakeEveryone then a == WakeAll else a.Wake? || a == WakeNobody
  {
  }

  /** A step changes where the thread itself is, and wakes sleepers; every other thread stays where it is. */
  lemma {:induction false} OthersStay(s: State, t: nat, a: Action, u: nat)
    requires Apply(s, t, a).Some? && u < |s.pcs| && u != t && !IsAsleep(s.pcs[u])
    ensures u < |Apply(s, t, a).value.pcs| && Apply(s, t, a).value.pcs[u] == s.pcs[u]
  {
  }
}
