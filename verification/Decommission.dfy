/**
 * transport/h1pool/client.go: every shared client decides for itself when to leave. Scans, decisions, removals
 * and additions are separate steps, interleaved in any way; Range gives no snapshot.
 */
module Decommission {
  import opened Stream
  import opened Pool

  /** A Range in progress: the keys it has still to come by, the creation times it has met, and whose is least. */
  datatype Scan = Scan(todo: set<Id>, seen: map<Id, int>, oldest: Option<Id>)

  /**
   * What a shared client's goroutine is at: its loop, a scan of the pool begun when it had been idle for more than
   * 30 or 60 seconds or not, or on its way out.
   */
  datatype Phase = Running | Scanning(scan: Scan, idle: bool, idleTooLong: bool) | Leaving | Failing

  /** An addition in progress under the lock: the clock at its start, and its scan. */
  datatype Adding = Nobody | Looking(now: int, scan: Scan)

  /**
   * Creation times of the clients in the pool, what each of them is doing, when each last moved data (0: never), the
   * adder and the clock.
   */
  datatype State = State(pool: map<Id, int>, phase: map<Id, Phase>, data: map<Id, int>, adding: Adding, clock: int)

  datatype Step =
    | Tick(seconds: nat)
    | AddBegin
    | AddVisit(k: Id)
    | AddEnd(id: Id)
    | ScanBegin(id: Id)
    | ScanVisit(id: Id, k: Id)
    | ScanEnd(id: Id)
    | Moves(id: Id)
    | Fail(id: Id)
    | Remove(id: Id)

  predicate Start(s: State) {
    s.pool == map[] && s.phase == map[] && s.data == map[] && s.adding == Nobody && s.clock > 0
  }

  /** Range comes by a key once; it may also meet a key stored after it began, and misses one deleted since. */
  function Visit(scan: Scan, pool: map<Id, int>, k: Id): Scan {
    if k in scan.seen then scan
    else if k !in pool then scan.(todo := scan.todo - {k})
    else Scan(scan.todo - {k}, scan.seen[k := pool[k]],
              if scan.oldest.None? || (scan.oldest.value in scan.seen && scan.seen[scan.oldest.value] > pool[k])
              then Some(k) else scan.oldest)
  }

  function LastData(s: State, id: Id): int {
    if id in s.data then s.data[id] else 0
  }

  function Begun(pool: map<Id, int>): Scan {
    Scan(pool.Keys, map[], None)
  }

  predicate Healthy(scan: Scan, now: int) {
    exists k :: k in scan.seen && scan.seen[k] > now - HEALTHY
  }

  /** The oldest met so far has been met, and none met is older; there is one as soon as any was met. */
  predicate OldestMet(scan: Scan) {
    match scan.oldest
    case None => scan.seen == map[]
    case Some(id) => id in scan.seen && forall k :: k in scan.seen ==> scan.seen[id] <= scan.seen[k]
  }

  /** The decision to leave: the oldest it has met, and idle for long, or for a while and not alone. */
  predicate Decides(phase: Phase, id: Id) {
    && phase.Scanning? && phase.scan.oldest == Some(id)
    && ((|phase.scan.seen| > 1 && phase.idle) || phase.idleTooLong)
  }

  predicate Enabled(s: State, step: Step) {
    match step
    case Tick(_) => true
    case AddBegin => s.adding == Nobody
    case AddVisit(_) => s.adding.Looking?
    case AddEnd(id) => s.adding.Looking? && s.adding.scan.todo == {} && id !in s.phase
    case ScanBegin(id) => id in s.phase && s.phase[id] == Running && id in s.pool && s.pool[id] + 120 < s.clock
    case ScanVisit(id, _) => id in s.phase && s.phase[id].Scanning?
    case ScanEnd(id) => id in s.phase && s.phase[id].Scanning? && s.phase[id].scan.todo == {}
    case Moves(id) => id in s.phase
    case Fail(id) => id in s.phase && (s.phase[id] == Running || s.phase[id].Scanning?)
    case Remove(id) => id in s.phase && (s.phase[id] == Leaving || s.phase[id] == Failing)
  }

  function Do(s: State, step: Step): State
    requires Enabled(s, step)
  {
    match step
    case Tick(d) => s.(clock := s.clock + d)
    case AddBegin => s.(adding := Looking(s.clock, Begun(s.pool)))
    case AddVisit(k) => s.(adding := s.adding.(scan := Visit(s.adding.scan, s.pool, k)))
    case AddEnd(id) =>
      if |s.adding.scan.seen| < MAX_SHARED && !Healthy(s.adding.scan, s.adding.now) then
        s.(pool := s.pool[id := s.clock], phase := s.phase[id := Running], data := s.data[id := 0], adding := Nobody)
      else s.(adding := Nobody)
    case ScanBegin(id) =>
      var last := LastData(s, id);
      s.(phase := s.phase[id := Scanning(Begun(s.pool), last + 30 < s.clock, last + 60 < s.clock)])
    case ScanVisit(id, k) => s.(phase := s.phase[id := s.phase[id].(scan := Visit(s.phase[id].scan, s.pool, k))])
    case ScanEnd(id) => s.(phase := s.phase[id := if Decides(s.phase[id], id) then Leaving else Running])
    case Moves(id) => s.(data := s.data[id := s.clock])
    case Fail(id) => s.(phase := s.phase[id := Failing])
    case Remove(id) => s.(pool := s.pool - {id}, phase := s.phase - {id})
  }

  // ---------------------------------------------------------------- invariants

  predicate Apart(pool: map<Id, int>) {
    forall a, b :: a in pool && b in pool && a != b ==>
      pool[a] + HEALTHY <= pool[b] || pool[b] + HEALTHY <= pool[a]
  }

  predicate FirstOf(pool: map<Id, int>, id: Id) {
    id in pool && forall k :: k in pool ==> pool[id] <= pool[k]
  }

  /** An adder's scan has met or will meet everyone in the pool, since only it adds. */
  predicate AdderSees(s: State) {
    s.adding.Looking? ==>
      && s.adding.now <= s.clock
      && forall k :: k in s.pool ==>
           k in s.adding.scan.todo || (k in s.adding.scan.seen && s.adding.scan.seen[k] == s.pool[k])
  }

  /** A member's scan may miss only clients younger than the member itself. */
  predicate ScannerSees(pool: map<Id, int>, id: Id, phase: Phase) {
    phase.Scanning? ==>
      && id in pool && OldestMet(phase.scan)
      && (id in phase.scan.seen ==> phase.scan.seen[id] == pool[id])
      && forall k :: k in pool ==>
           || k in phase.scan.todo
           || (k in phase.scan.seen && phase.scan.seen[k] == pool[k])
           || pool[id] <= pool[k]
  }

  predicate PoolInv(s: State) {
    && s.clock > 0
    && (forall k :: k in s.pool ==> 0 < s.pool[k] <= s.clock)
    && s.pool.Keys == s.phase.Keys
    && Apart(s.pool)
    && |s.pool| <= MAX_SHARED
    && AdderSees(s)
  }

  predicate PhaseInv(pool: map<Id, int>, id: Id, phase: Phase) {
    ScannerSees(pool, id, phase) && (phase == Leaving ==> FirstOf(pool, id))
  }

  predicate Inv(s: State) {
    PoolInv(s) && forall id :: id in s.phase ==> PhaseInv(s.pool, id, s.phase[id])
  }

  // ---------------------------------------------------------------- steps keep the invariant

  lemma SubsetSize<T>(a: set<T>, b: set<T>)
    requires a <= b
    ensures |a| <= |b|
  {
    assert b == a + (b - a);
  }

  /** When an adder has found room and nobody young, everybody is old enough now. */
  lemma AddSpacing(s: State)
    requires PoolInv(s) && s.adding.Looking? && s.adding.scan.todo == {}
    requires |s.adding.scan.seen| < MAX_SHARED && !Healthy(s.adding.scan, s.adding.now)
    ensures |s.pool| < MAX_SHARED && forall k :: k in s.pool ==> s.pool[k] + HEALTHY <= s.clock
  {
    var seen := s.adding.scan.seen;
    forall k | k in s.pool ensures k in seen && s.pool[k] + HEALTHY <= s.clock {
      assert !(seen[k] > s.adding.now - HEALTHY);
    }
    SubsetSize(s.pool.Keys, seen.Keys);
  }

  lemma OneMoreApart(pool: map<Id, int>, id: Id, clock: int)
    requires Apart(pool) && |pool| < MAX_SHARED && forall k :: k in pool ==> pool[k] + HEALTHY <= clock
    ensures Apart(pool[id := clock]) && |pool[id := clock]| <= MAX_SHARED
  {
    assert pool[id := clock].Keys == pool.Keys + {id};
    assert |pool.Keys + {id}| <= |pool.Keys| + 1;
  }

  lemma KeysGrow<V>(m: map<Id, V>, id: Id, v: V)
    ensures m[id := v].Keys == m.Keys + {id}
  {
  }

  lemma NewMember(s: State, id: Id)
    requires PoolInv(s) && |s.pool| < MAX_SHARED && forall k :: k in s.pool ==> s.pool[k] + HEALTHY <= s.clock
    ensures PoolInv(State(s.pool[id := s.clock], s.phase[id := Running], s.data[id := 0], Nobody, s.clock))
  {
    OneMoreApart(s.pool, id, s.clock);
    KeysGrow(s.pool, id, s.clock);
    KeysGrow(s.phase, id, Running);
  }

  lemma AddKeepsPool(s: State, id: Id)
    requires PoolInv(s) && Enabled(s, AddEnd(id))
    ensures PoolInv(Do(s, AddEnd(id)))
  {
    if |s.adding.scan.seen| < MAX_SHARED && !Healthy(s.adding.scan, s.adding.now) {
      AddSpacing(s);
      NewMember(s, id);
    }
  }

  lemma RemoveKeepsPool(s: State, id: Id)
    requires PoolInv(s) && Enabled(s, Remove(id))
    ensures PoolInv(Do(s, Remove(id)))
  {
    assert (s.pool - {id}).Keys == s.pool.Keys - {id};
    SubsetSize((s.pool - {id}).Keys, s.pool.Keys);
  }

  lemma KeysStay(phase: map<Id, Phase>, id: Id, p: Phase)
    requires id in phase
    ensures phase[id := p].Keys == phase.Keys
  {
    assert phase[id := p].Keys == phase.Keys + {id};
  }

  lemma SamePool(s: State, phase: map<Id, Phase>)
    requires PoolInv(s) && phase.Keys == s.phase.Keys
    ensures PoolInv(s.(phase := phase))
  {
  }

  /** Steps by which one member's phase changes, and nothing in the pool. */
  lemma OwnStepKeepsPool(s: State, step: Step)
    requires PoolInv(s) && Enabled(s, step)
    requires step.ScanBegin? || step.ScanVisit? || step.ScanEnd? || step.Fail?
    ensures PoolInv(Do(s, step))
  {
    var phase := Do(s, step).phase;
    KeysStay(s.phase, step.id, phase[step.id]);
    SamePool(s, phase);
  }

  lemma StepKeepsPool(s: State, step: Step)
    requires PoolInv(s) && Enabled(s, step)
    ensures PoolInv(Do(s, step))
  {
    match step
    case AddEnd(id) => AddKeepsPool(s, id);
    case Remove(id) => RemoveKeepsPool(s, id);
    case Tick(_) =>
    case AddBegin =>
    case AddVisit(_) =>
    case Moves(_) =>
    case _ => OwnStepKeepsPool(s, step);
  }

  /** A younger client, or one client less, upsets nobody's scan or decision. */
  lemma PhaseSurvives(pool: map<Id, int>, id: Id, phase: Phase, k: Id, clock: int)
    requires PhaseInv(pool, id, phase) && id in pool && pool[id] <= clock
    ensures k !in pool ==> PhaseInv(pool[k := clock], id, phase)
    ensures k != id ==> PhaseInv(pool - {k}, id, phase)
  {
  }

  lemma VisitKeepsOldest(pool: map<Id, int>, scan: Scan, k: Id)
    requires OldestMet(scan)
    ensures OldestMet(Visit(scan, pool, k))
  {
  }

  lemma VisitKeeps(pool: map<Id, int>, id: Id, phase: Phase, k: Id)
    requires PhaseInv(pool, id, phase) && phase.Scanning?
    ensures PhaseInv(pool, id, phase.(scan := Visit(phase.scan, pool, k)))
  {
    VisitKeepsOldest(pool, phase.scan, k);
  }

  /** The verdict on a finished scan is right, though the scan saw no snapshot. */
  lemma VerdictIsRight(pool: map<Id, int>, id: Id, phase: Phase)
    requires PhaseInv(pool, id, phase) && phase.Scanning? && phase.scan.todo == {} && phase.scan.oldest == Some(id)
    ensures FirstOf(pool, id)
  {
  }

  lemma OwnStepKeepsPhase(s: State, step: Step)
    requires Inv(s) && Enabled(s, step)
    requires step.ScanBegin? || step.ScanVisit? || step.ScanEnd? || step.Fail?
    ensures PhaseInv(s.pool, step.id, Do(s, step).phase[step.id])
  {
    assert PhaseInv(s.pool, step.id, s.phase[step.id]);
    match step
    case ScanVisit(id, k) => VisitKeeps(s.pool, id, s.phase[id], k);
    case ScanEnd(id) =>
      if Decides(s.phase[id], id) {
        VerdictIsRight(s.pool, id, s.phase[id]);
      }
    case _ =>
  }

  lemma StepKeepsPhase(s: State, step: Step, id: Id)
    requires Inv(s) && Enabled(s, step) && id in Do(s, step).phase
    ensures PhaseInv(Do(s, step).pool, id, Do(s, step).phase[id])
  {
    if id in s.phase {
      assert PhaseInv(s.pool, id, s.phase[id]);
      match step
      case AddEnd(k) => PhaseSurvives(s.pool, id, s.phase[id], k, s.clock);
      case Remove(k) => PhaseSurvives(s.pool, id, s.phase[id], k, s.clock);
      case ScanBegin(k) => if k == id { OwnStepKeepsPhase(s, step); }
      case ScanVisit(k, _) => if k == id { OwnStepKeepsPhase(s, step); }
      case ScanEnd(k) => if k == id { OwnStepKeepsPhase(s, step); }
      case Fail(k) => if k == id { OwnStepKeepsPhase(s, step); }
      case _ =>
    }
  }

  lemma StepKeepsInv(s: State, step: Step)
    requires Inv(s) && Enabled(s, step)
    ensures Inv(Do(s, step))
  {
    StepKeepsPool(s, step);
    forall id | id in Do(s, step).phase ensures PhaseInv(Do(s, step).pool, id, Do(s, step).phase[id]) {
      StepKeepsPhase(s, step, id);
    }
  }

  // ---------------------------------------------------------------- runs

  /** States visited by some interleaving of enabled steps. */
  predicate IsRun(states: seq<State>, steps: seq<Step>) {
    |states| == |steps| + 1 && Start(states[0]) &&
    forall i :: 0 <= i < |steps| ==> Enabled(states[i], steps[i]) && states[i + 1] == Do(states[i], steps[i])
  }

  lemma {:induction false} RunKeepsInv(states: seq<State>, steps: seq<Step>, i: nat)
    requires IsRun(states, steps) && i <= |steps|
    ensures Inv(states[i])
  {
    if i > 0 {
      RunKeepsInv(states, steps, i - 1);
      assert Enabled(states[i - 1], steps[i - 1]);
      StepKeepsInv(states[i - 1], steps[i - 1]);
    }
  }

  /** Pool spacing: never more than five shared clients, and any two created at least 300 seconds apart. */
  lemma PoolSpacing(states: seq<State>, steps: seq<Step>, i: nat, a: Id, b: Id)
    requires IsRun(states, steps) && i <= |steps|
    ensures |states[i].pool| <= 5
    ensures a in states[i].pool && b in states[i].pool && a != b ==>
              states[i].pool[a] + 300 <= states[i].pool[b] || states[i].pool[b] + 300 <= states[i].pool[a]
  {
    RunKeepsInv(states, steps, i);
  }

  /**
   * At any time at most one shared client lies between its decision to leave and its removal, and it is the
   * oldest in the pool.
   */
  lemma OneLeavesAtATime(states: seq<State>, steps: seq<Step>, i: nat, a: Id, b: Id)
    requires IsRun(states, steps) && i <= |steps|
    requires a in states[i].phase && states[i].phase[a] == Leaving
    requires b in states[i].phase && states[i].phase[b] == Leaving
    ensures a == b && FirstOf(states[i].pool, a)
  {
    RunKeepsInv(states, steps, i);
    assert PhaseInv(states[i].pool, a, Leaving) && PhaseInv(states[i].pool, b, Leaving);
  }

  // ---------------------------------------------------------------- exactly who comes and who goes

  lemma AtStep(states: seq<State>, steps: seq<Step>, i: nat)
    requires IsRun(states, steps) && i < |steps|
    ensures Enabled(states[i], steps[i]) && states[i + 1] == Do(states[i], steps[i])
  {
  }

  /**
   * A client comes into the pool exactly when an adder that has met fewer than five, and none younger than 300
   * seconds, ends; it goes exactly when it is removed; and its creation time is the time it came.
   */
  lemma MembersExactly(states: seq<State>, steps: seq<Step>, i: nat, id: Id)
    requires IsRun(states, steps) && i < |steps|
    ensures var s := states[i]; var seen := if s.adding.Looking? then s.adding.scan.seen else map[];
            var young := exists k :: k in seen && seen[k] + 300 > s.adding.now;
            var comes := steps[i] == AddEnd(id) && |seen| < 5 && !young;
            && (id in states[i + 1].pool <==> comes || (id in s.pool && steps[i] != Remove(id)))
            && (id in states[i + 1].pool ==> states[i + 1].pool[id] == if comes then s.clock else s.pool[id])
  {
    AtStep(states, steps, i);
    RunKeepsInv(states, steps, i);
  }

  /**
   * A client decides to leave exactly when its scan ends, it is the oldest it has met, and it has been idle for more
   * than 60 seconds, or for more than 30 with another one met; otherwise it runs on.
   */
  lemma LeavesExactly(states: seq<State>, steps: seq<Step>, i: nat, id: Id)
    requires IsRun(states, steps) && i < |steps| && id in states[i].phase && states[i].phase[id] != Leaving
    ensures var phase := states[i].phase[id];
            (id in states[i + 1].phase && states[i + 1].phase[id] == Leaving) <==>
              && steps[i] == ScanEnd(id) && phase.scan.oldest == Some(id)
              && (phase.idleTooLong || (phase.idle && |phase.scan.seen| >= 2))
    ensures steps[i] == ScanEnd(id) ==> states[i + 1].phase[id] == Leaving || states[i + 1].phase[id] == Running
  {
    AtStep(states, steps, i);
  }

  /** The times clients and adders go by. */
  lemma TimesExactly(states: seq<State>, steps: seq<Step>, i: nat, id: Id)
    requires IsRun(states, steps) && i < |steps|
    ensures var s, s' := states[i], states[i + 1];
            var comes := id !in s.pool && id in s'.pool;
            && s'.clock == s.clock + (if steps[i].Tick? then steps[i].seconds else 0)
            && LastData(s', id) == (if steps[i] == Moves(id) then s.clock else if comes then 0 else LastData(s, id))
            && (steps[i] == AddBegin ==> s'.adding == Looking(s.clock, Begun(s.pool)))
  {
    AtStep(states, steps, i);
    RunKeepsInv(states, steps, i);
  }

  /** Whoever has decided to leave or has failed is gone by its own removal and by nothing else. */
  lemma GoingGoes(states: seq<State>, steps: seq<Step>, i: nat, id: Id)
    requires IsRun(states, steps) && i < |steps| && id in states[i].phase
    ensures steps[i] == Fail(id) ==> id in states[i + 1].phase && states[i + 1].phase[id] == Failing
    ensures states[i].phase[id] == Leaving || states[i].phase[id] == Failing ==>
              if steps[i] == Remove(id) then id !in states[i + 1].phase && id !in states[i + 1].pool
              else id in states[i + 1].phase && states[i + 1].phase[id] == states[i].phase[id]
  {
    AtStep(states, steps, i);
  }

  /** What a client knows of its idleness is what was so when its scan began, and then it was 120 seconds old. */
  predicate Informed(s: State, id: Id, phase: Phase, begun: State) {
    phase.Scanning? ==>
      && (phase.idle <==> LastData(begun, id) + 30 < begun.clock)
      && (phase.idleTooLong <==> LastData(begun, id) + 60 < begun.clock)
      && id in begun.pool && begun.pool[id] + 120 < begun.clock
  }

  lemma ScanGoesOn(s: State, step: Step, id: Id)
    requires Enabled(s, step) && id in Do(s, step).phase && Do(s, step).phase[id].Scanning?
    ensures var phase := Do(s, step).phase[id];
            if step == ScanBegin(id) then Informed(Do(s, step), id, phase, s)
            else id in s.phase && s.phase[id].Scanning?
                 && s.phase[id].idle == phase.idle && s.phase[id].idleTooLong == phase.idleTooLong
  {
  }

  /** The moment the scan a client is in began. */
  lemma {:induction false} ScanBegan(states: seq<State>, steps: seq<Step>, i: nat, id: Id) returns (j: nat)
    requires IsRun(states, steps) && i <= |steps| && id in states[i].phase && states[i].phase[id].Scanning?
    ensures j < i && steps[j] == ScanBegin(id)
    ensures Informed(states[i], id, states[i].phase[id], states[j])
  {
    if i == 0 {
      assert false;
    } else {
      AtStep(states, steps, i - 1);
      ScanGoesOn(states[i - 1], steps[i - 1], id);
      j := i - 1;
      if steps[i - 1] != ScanBegin(id) {
        j := ScanBegan(states, steps, i - 1, id);
      }
    }
  }

  /** A client that has moved data within the last 30 seconds whenever it looked never leaves. */
  lemma {:induction false} BusyNeverLeaves(states: seq<State>, steps: seq<Step>, i: nat, id: Id)
    requires IsRun(states, steps) && i <= |steps|
    requires forall j :: 0 <= j < i && steps[j] == ScanBegin(id) ==> states[j].clock <= LastData(states[j], id) + 30
    ensures id in states[i].phase ==> states[i].phase[id] != Leaving
  {
    if i > 0 && id in states[i].phase {
      BusyNeverLeaves(states, steps, i - 1, id);
      AtStep(states, steps, i - 1);
      if id in states[i - 1].phase && states[i - 1].phase[id].Scanning? {
        var j := ScanBegan(states, steps, i - 1, id);
        LeavesExactly(states, steps, i - 1, id);
      }
    }
  }
}
