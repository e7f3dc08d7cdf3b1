/** The single-slot rate gate in front of Ollama: a bounded semaphore taken without waiting, a
    clock reading, and a minimum interval checked and stamped under a lock; the slot is given
    back in a `finally`. Times and intervals are in one arbitrary unit. */
module OllamaGate {
  import opened Options

  /** The two settings the gate uses, after clamping. */
  datatype Setting = Setting(concurrency: nat, interval: nat)

  // ---------------------------------------------------------------------------------------
  // One call
  // ---------------------------------------------------------------------------------------

  datatype Reply = Busy | Raised | Answered

  class Gate {
    var slot: nat
    var lastRequestAt: int

    constructor ()
      ensures slot == 1 && lastRequestAt == 0
    {
      slot, lastRequestAt := 1, 0;
    }

    /** `_ollama_answer` around its HTTP work, which succeeds or raises. */
    method Answer(setting: Setting, now: int, succeeds: bool) returns (reply: Reply)
      modifies this
      ensures slot == old(slot)
      ensures reply == Busy <==>
                setting.concurrency < 1 || old(slot) == 0 || now - old(lastRequestAt) < setting.interval
      ensures lastRequestAt == if reply == Busy then old(lastRequestAt) else now
      ensures reply != Busy ==> (reply == Answered <==> succeeds)
    {
      if setting.concurrency < 1 || slot == 0 {
        return Busy;
      }
      slot := slot - 1;
      if now - lastRequestAt < setting.interval {
        reply := Busy;
      } else {
        lastRequestAt := now;
        reply := if succeeds then Answered else Raised;
      }
      slot := slot + 1;
    }
  }

  // ---------------------------------------------------------------------------------------
  // Interleaved calls
  // ---------------------------------------------------------------------------------------

  /** Where a caller stands. Every point after the acquisition may raise and then releases. */
  datatype Pc =
    | Arriving
    | Acquired
    | Timed(now: int)
    | Locked(now: int)
    | InFlight
    | Releasing

  datatype Caller = Caller(setting: Setting, pc: Pc)

  datatype Admission = Admission(stamp: int, interval: nat)

  /** `releaseErrors` counts releases beyond the semaphore's bound, which would raise. */
  datatype State = State(
    clock: int, slot: nat, last: int, lock: Option<nat>, callers: map<nat, Caller>,
    admitted: seq<Admission>, acquisitions: nat, releases: nat, releaseErrors: nat)

  predicate Holds(caller: Caller) {
    !caller.pc.Arriving?
  }

  datatype Step =
    | Tick(to: int)
    | Arrive(id: nat, setting: Setting)
    | Acquire(id: nat)
    | ReadClock(id: nat)
    | LockRate(id: nat)
    | Check(id: nat)
    | Finish(id: nat)
    | Fail(id: nat)
    | Release(id: nat)

  predicate At(s: State, id: nat) {
    id in s.callers
  }

  predicate Possible(s: State, step: Step) {
    match step
    case Tick(to) => s.clock <= to
    case Arrive(id, _) => id !in s.callers
    case Acquire(id) => At(s, id) && s.callers[id].pc.Arriving?
    case ReadClock(id) => At(s, id) && s.callers[id].pc.Acquired?
    case LockRate(id) => At(s, id) && s.callers[id].pc.Timed? && s.lock == None
    case Check(id) => At(s, id) && s.callers[id].pc.Locked?
    case Finish(id) => At(s, id) && s.callers[id].pc.InFlight?
    case Fail(id) => At(s, id) && (s.callers[id].pc.Acquired? || s.callers[id].pc.Timed? || s.callers[id].pc.InFlight?)
    case Release(id) => At(s, id) && s.callers[id].pc.Releasing?
  }

  function Moved(s: State, id: nat, pc: Pc): State
    requires At(s, id)
  {
    s.(callers := s.callers[id := s.callers[id].(pc := pc)])
  }

  function Next(s: State, step: Step): State
    requires Possible(s, step)
  {
    match step
    case Tick(to) => s.(clock := to)
    case Arrive(id, setting) => s.(callers := s.callers[id := Caller(setting, Arriving)])
    case Acquire(id) =>
      if s.callers[id].setting.concurrency < 1 || s.slot == 0 then s.(callers := s.callers - {id})
      else Moved(s, id, Acquired).(slot := s.slot - 1, acquisitions := s.acquisitions + 1)
    case ReadClock(id) => Moved(s, id, Timed(s.clock))
    case LockRate(id) => Moved(s, id, Locked(s.callers[id].pc.now)).(lock := Some(id))
    case Check(id) =>
      var now, interval := s.callers[id].pc.now, s.callers[id].setting.interval;
      if now - s.last < interval then Moved(s, id, Releasing).(lock := None)
      else Moved(s, id, InFlight).(lock := None, last := now, admitted := s.admitted + [Admission(now, interval)])
    case Finish(id) => Moved(s, id, Releasing)
    case Fail(id) => Moved(s, id, Releasing)
    case Release(id) =>
      var gone := s.(callers := s.callers - {id});
      if s.slot >= 1 then gone.(releaseErrors := s.releaseErrors + 1)
      else gone.(slot := s.slot + 1, releases := s.releases + 1)
  }

  predicate Initial(s: State) {
    && s.slot == 1 && s.last == 0 && s.lock == None && s.callers == map[] && s.admitted == []
    && s.acquisitions == s.releases == s.releaseErrors == 0
  }

  ghost predicate Leads(s: State, step: Step, s': State) {
    Possible(s, step) && s' == Next(s, step)
  }

  ghost predicate Successor(s: State, s': State) {
    exists step :: Leads(s, step, s')
  }

  ghost predicate IsRun(run: seq<State>) {
    run != [] && Initial(run[0]) && forall i | 0 < i < |run| :: Successor(run[i - 1], run[i])
  }

  predicate Inside(s: State, id: nat) {
    id in s.callers && Holds(s.callers[id])
  }

  /** The slot is either free, with nobody inside, or taken by exactly one caller. */
  ghost predicate OneHolder(s: State) {
    && s.slot <= 1
    && (s.slot == 0 <==> exists c :: Inside(s, c))
    && (forall c, d :: Inside(s, c) && Inside(s, d) ==> c == d)
    && s.acquisitions == s.releases + (1 - s.slot) && s.releaseErrors == 0
  }

  ghost predicate LockInside(s: State) {
    forall c <- s.callers :: s.callers[c].pc.Locked? <==> s.lock == Some(c)
  }

  ghost predicate LockKnown(s: State) {
    s.lock.Some? ==> s.lock.value in s.callers
  }

  /** The global stamp is the latest admission, and each admission kept its own distance. */
  ghost predicate Spaced(s: State) {
    && s.last == (if s.admitted == [] then 0 else s.admitted[|s.admitted| - 1].stamp)
    && forall i | 0 < i < |s.admitted| ::
         s.admitted[i - 1].stamp + s.admitted[i].interval <= s.admitted[i].stamp
  }

  ghost predicate Inv(s: State) {
    OneHolder(s) && LockInside(s) && LockKnown(s) && Spaced(s)
  }

  lemma OthersStayInside(s: State, step: Step, id: nat)
    requires Possible(s, step) && (step.Tick? || step.id != id)
    ensures Inside(Next(s, step), id) <==> Inside(s, id)
  {
  }

  lemma StepKeepsHolder(s: State, step: Step)
    requires Inv(s) && Possible(s, step)
    ensures OneHolder(Next(s, step))
  {
    var s' := Next(s, step);
    forall c | step.Tick? || c != step.id ensures Inside(s', c) <==> Inside(s, c) {
      OthersStayInside(s, step, c);
    }
    assert !step.Tick? ==> (Inside(s, step.id) ==> s.slot == 0);
    if s.slot == 0 {
      var c :| Inside(s, c);
      assert step.Tick? || c != step.id ==> Inside(s', c);
      assert !step.Tick? && c != step.id ==> !Inside(s, step.id);
    }
    assert !step.Tick? && Inside(s', step.id) ==> s'.slot == 0;
  }

  lemma StepKeepsInv(s: State, step: Step)
    requires Inv(s) && Possible(s, step)
    ensures Inv(Next(s, step))
  {
    StepKeepsHolder(s, step);
    assert forall c <- s.callers | s.callers[c].pc.Locked? :: Inside(s, c);
  }

  lemma {:induction false} RunInv(run: seq<State>, i: nat)
    requires IsRun(run) && i < |run|
    ensures Inv(run[i])
    decreases i
  {
    if i > 0 {
      RunInv(run, i - 1);
      assert Successor(run[i - 1], run[i]);
      var step :| Leads(run[i - 1], step, run[i]);
      StepKeepsInv(run[i - 1], step);
    }
  }

  /** At most one request is ever in flight, and every slot taken was or will be given back
      exactly once, on whatever path the call leaves. */
  lemma OneInFlight(run: seq<State>, i: nat, c: nat, d: nat)
    requires IsRun(run) && i < |run| && c in run[i].callers && d in run[i].callers
    requires run[i].callers[c].pc.InFlight? && run[i].callers[d].pc.InFlight?
    ensures c == d
  {
    RunInv(run, i);
    assert Inside(run[i], c) && Inside(run[i], d);
  }

  lemma SlotsAreReturned(run: seq<State>, i: nat)
    requires IsRun(run) && i < |run|
    ensures run[i].releaseErrors == 0
    ensures run[i].releases <= run[i].acquisitions <= run[i].releases + 1
    ensures run[i].acquisitions == run[i].releases <==> forall c :: !Inside(run[i], c)
    ensures (forall c :: !Inside(run[i], c)) ==> run[i].slot == 1
  {
    RunInv(run, i);
  }

  /** The rate lock is never contended, because its holder has the only slot. */
  lemma LockIsFree(run: seq<State>, i: nat, c: nat)
    requires IsRun(run) && i < |run| && c in run[i].callers && run[i].callers[c].pc.Timed?
    ensures Possible(run[i], LockRate(c))
  {
    RunInv(run, i);
    assert Inside(run[i], c);
    assert run[i].lock.Some? ==> Inside(run[i], run[i].lock.value);
  }

  /** The steps of a caller that nobody overtakes, from its arrival to the verdict. */
  predicate Attempts(s: State, id: nat, s1: State, s2: State, s3: State, s4: State) {
    && Possible(s, Acquire(id)) && s1 == Next(s, Acquire(id))
    && Possible(s1, ReadClock(id)) && s2 == Next(s1, ReadClock(id))
    && Possible(s2, LockRate(id)) && s3 == Next(s2, LockRate(id))
    && Possible(s3, Check(id)) && s4 == Next(s3, Check(id))
  }

  /** A free slot is given to any caller with concurrency, and the caller is admitted, at the
      time it read, exactly when its interval has passed since the last admission. */
  lemma FreeSlotDecides(run: seq<State>, i: nat, id: nat) returns (s1: State, s2: State, s3: State, s4: State)
    requires IsRun(run) && i < |run| && id in run[i].callers && run[i].callers[id].pc.Arriving?
    requires run[i].callers[id].setting.concurrency >= 1 && run[i].slot == 1
    ensures Attempts(run[i], id, s1, s2, s3, s4) && id in s4.callers
    ensures s4.callers[id].pc.InFlight? <==> run[i].clock >= run[i].last + run[i].callers[id].setting.interval
    ensures s4.callers[id].pc.InFlight? ==>
              && s4.last == run[i].clock
              && s4.admitted == run[i].admitted + [Admission(run[i].clock, run[i].callers[id].setting.interval)]
    ensures !s4.callers[id].pc.InFlight? ==>
              s4.callers[id].pc.Releasing? && s4.last == run[i].last && s4.admitted == run[i].admitted
  {
    RunInv(run, i);
    assert run[i].lock.Some? ==> Inside(run[i], run[i].lock.value);
    s1 := Next(run[i], Acquire(id));
    s2 := Next(s1, ReadClock(id));
    s3 := Next(s2, LockRate(id));
    s4 := Next(s3, Check(id));
  }

  /** Any two admissions are at least the later caller's interval apart. */
  lemma {:induction false} AdmissionsAreSpaced(run: seq<State>, i: nat, a: nat, b: nat)
    requires IsRun(run) && i < |run| && a < b < |run[i].admitted|
    ensures run[i].admitted[a].stamp + run[i].admitted[b].interval <= run[i].admitted[b].stamp
    decreases b
  {
    RunInv(run, i);
    if a < b - 1 {
      AdmissionsAreSpaced(run, i, a, b - 1);
    }
  }
}
