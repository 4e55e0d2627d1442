/** Any number of callers of one task table, interleaved at every point where the coroutines of
    the source can be interrupted. Each caller makes one call with its own key. */
module SingleFlight {
  import opened Wrappers
  import opened TaskTable

  type Pid = nat

  /** Where a caller stands. The comment names the next thing it does. */
  datatype Pc<V> =
    | Idle                                            // call getOrStartTask
    | Looking                                         // getPendingTask: test the table, no mutex
    | Peeking                                         // read the entry that was there, no mutex
    | Queued                                          // acquire the mutex in startTask
    | Locked                                          // test the table under the mutex
    | Missed                                          // insert a fresh flight, release the mutex
    | Leading(flight: Flight)                         // compute a value, or give up
    | Completing(flight: Flight, value: V)            // completeTask: test the table, no mutex
    | Found(flight: Flight, value: V)                 // read the promise back, no mutex
    | Publishing(flight: Flight, target: Flight, value: V)  // set the promise that was read
    | Retiring(flight: Flight, value: V)              // acquire the mutex
    | Erasing(flight: Flight, value: V)               // erase the key, release the mutex, return
    | Waiting(flight: Flight)                         // wait for the future
    | Done(flight: Flight, value: V)
    | Abandoned(flight: Flight)                       // the leader left without completeTask
    | Threw                                           // getOrStartTask met an empty entry and threw
    | Failed                                          // completeTask threw

  datatype Proc<V> = Proc(key: Key, pc: Pc<V>)

  datatype Owner = Owner(pid: Pid, key: Key)

  /** The history of a run. `owners` is history too: no step depends on either. */
  datatype Event<V> =
    | Called(pid: Pid, key: Key)
    | Started(pid: Pid, key: Key, flight: Flight)
    | Published(pid: Pid, flight: Flight, value: V)
    | Erased(pid: Pid, key: Key, flight: Flight)
    | Returned(pid: Pid, flight: Flight, value: V)
    | Torn(pid: Pid, key: Key)      // an entry was gone when it was read, and an empty one took its place

  datatype State<V> = State(
    table: Table<V>,
    mutex: Option<Pid>,
    procs: seq<Proc<V>>,
    owners: seq<Owner>,
    log: seq<Event<V>>)

  /** A leader chooses the value it computes, or to leave; all other steps are determined. */
  datatype Choice<V> = Proceed | Compute(value: V) | Abandon

  datatype Step<V> = Step(pid: Pid, choice: Choice<V>)

  predicate HoldsMutex<V>(pc: Pc<V>) {
    pc.Locked? || pc.Missed? || pc.Erasing?
  }

  predicate Unpublished<V>(pc: Pc<V>) {
    pc.Leading? || pc.Completing? || pc.Found? || pc.Publishing? || pc.Abandoned?
  }

  /** Between the insert and the erase of its own flight. */
  predicate Leads<V>(pc: Pc<V>) {
    Unpublished(pc) || pc.Retiring? || pc.Erasing?
  }

  ghost predicate Init<V>(s: State<V>) {
    && s.table == Table(map[], [])
    && s.mutex == None && s.owners == [] && s.log == []
    && forall p :: 0 <= p < |s.procs| ==> s.procs[p].pc.Idle?
  }

  predicate Enabled<V>(s: State<V>, step: Step<V>) {
    step.pid < |s.procs| &&
    match s.procs[step.pid].pc
    case Queued => s.mutex.None? && step.choice.Proceed?
    case Retiring(_, _) => s.mutex.None? && step.choice.Proceed?
    case Leading(_) => !step.choice.Proceed?
    case Waiting(flight) => flight < |s.table.slots| && s.table.slots[flight].Some? && step.choice.Proceed?
    case Done(_, _) => false
    case Abandoned(_) => false
    case Threw => false
    case Failed => false
    case _ => step.choice.Proceed?
  }

  function Move<V>(s: State<V>, p: Pid, pc: Pc<V>): State<V>
    requires p < |s.procs|
  {
    s.(procs := s.procs[p := s.procs[p].(pc := pc)])
  }

  function Apply<V>(s: State<V>, step: Step<V>): State<V>
    requires Enabled(s, step)
  {
    var p := step.pid;
    var key := s.procs[p].key;
    match s.procs[p].pc
    case Idle =>
      Move(s, p, Looking).(log := s.log + [Called(p, key)])
    case Looking =>
      Move(s, p, if key in s.table.entries then Peeking else Queued)
    case Peeking =>
      var pending := s.table.FlightOf(key);
      if pending.Some? then Move(s, p, Waiting(pending.value))
      else
        Move(s, p, Threw).(
          table := s.table.Touch(key),
          log := s.log + if key in s.table.entries then [] else [Torn(p, key)])
    case Queued =>
      Move(s, p, Locked).(mutex := Some(p))
    case Locked =>
      if key !in s.table.entries then Move(s, p, Missed)
      else
        var pending := s.table.FlightOf(key);
        Move(s, p, if pending.Some? then Waiting(pending.value) else Threw).(mutex := None)
    case Missed =>
      var flight := |s.table.slots|;
      Move(s, p, Leading(flight)).(
        mutex := None,
        table := s.table.Start(key),
        owners := s.owners + [Owner(p, key)],
        log := s.log + [Started(p, key, flight)])
    case Leading(flight) =>
      Move(s, p, if step.choice.Compute? then Completing(flight, step.choice.value) else Abandoned(flight))
    case Completing(flight, value) =>
      Move(s, p, if key in s.table.entries then Found(flight, value) else Failed)
    case Found(flight, value) =>
      var target := s.table.FlightOf(key);
      if target.Some? then Move(s, p, Publishing(flight, target.value, value))
      else Move(s, p, Failed).(table := s.table.Touch(key))
    case Publishing(flight, target, value) =>
      if s.table.CanFulfil(target) then
        Move(s, p, Retiring(flight, value)).(
          table := s.table.Fulfil(target, value),
          log := s.log + [Published(p, target, value)])
      else Move(s, p, Failed)
    case Retiring(flight, value) =>
      Move(s, p, Erasing(flight, value)).(mutex := Some(p))
    case Erasing(flight, value) =>
      var target := s.table.FlightOf(key);
      var erased := if target.Some? then [Erased(p, key, target.value)] else [];
      Move(s, p, Done(flight, value)).(
        mutex := None,
        table := s.table.Erase(key),
        log := s.log + erased + [Returned(p, flight, value)])
    case Waiting(flight) =>
      var value := s.table.slots[flight].value;
      Move(s, p, Done(flight, value)).(log := s.log + [Returned(p, flight, value)])
  }

  /** `steps` is a run from `s` to `t`. */
  ghost predicate Runs<V>(s: State<V>, steps: seq<Step<V>>, t: State<V>)
    decreases |steps|
  {
    if steps == [] then s == t
    else Enabled(s, steps[0]) && Runs(Apply(s, steps[0]), steps[1..], t)
  }

  // ---------- the invariant ----------

  ghost predicate ProcOk<V>(s: State<V>, p: Pid)
    requires p < |s.procs| && |s.owners| == |s.table.slots|
  {
    var key, pc := s.procs[p].key, s.procs[p].pc;
    && (HoldsMutex(pc) <==> s.mutex == Some(p))
    && (pc.Missed? ==> s.table.FlightOf(key) == None)
    && (Leads(pc) ==>
         && pc.flight < |s.owners| && s.owners[pc.flight] == Owner(p, key)
         && s.table.FlightOf(key) == Some(pc.flight))
    && (Unpublished(pc) ==> s.table.slots[pc.flight] == None)
    && (pc.Publishing? ==> pc.target == pc.flight)
    && (pc.Retiring? || pc.Erasing? || pc.Done? ==>
         pc.flight < |s.owners| && s.table.slots[pc.flight] == Some(pc.value))
    && (pc.Waiting? || pc.Done? ==> pc.flight < |s.owners| && s.owners[pc.flight].key == key)
    && !pc.Failed?
  }

  /** The owner of a flight still leads it. */
  ghost predicate Led<V>(s: State<V>, f: Flight)
    requires f < |s.owners|
  {
    var o := s.owners[f];
    && o.pid < |s.procs| && s.procs[o.pid].key == o.key
    && Leads(s.procs[o.pid].pc) && s.procs[o.pid].pc.flight == f
  }

  ghost predicate TableOk<V>(s: State<V>) {
    && |s.owners| == |s.table.slots|
    && (s.mutex.Some? ==> s.mutex.value < |s.procs|)
    && (forall k :: s.table.FlightOf(k).Some? ==>
          var f := s.table.FlightOf(k).value;
          f < |s.owners| && s.owners[f].key == k && Led(s, f))
    && (forall f :: 0 <= f < |s.owners| ==>
          s.owners[f].pid < |s.procs| && (s.table.slots[f].None? ==> Led(s, f)))
  }

  ghost predicate Inv<V>(s: State<V>) {
    && TableOk(s)
    && forall p :: 0 <= p < |s.procs| ==> ProcOk(s, p)
  }

  lemma InitInv<V>(s: State<V>)
    requires Init(s)
    ensures Inv(s)
  {
  }

  // The steps that change the table, and all the others.

  /** What each operation does to the flights of the table; an empty entry hides none. */
  lemma FlightsAfter<V>(table: Table<V>, key: Key)
    ensures forall k :: table.Start(key).FlightOf(k) == if k == key then Some(|table.slots|) else table.FlightOf(k)
    ensures forall k :: table.Erase(key).FlightOf(k) == if k == key then None else table.FlightOf(k)
    ensures forall k :: table.Touch(key).FlightOf(k) == table.FlightOf(k)
  {
  }

  lemma FlightsFulfilled<V>(table: Table<V>, f: Flight, v: V)
    requires table.CanFulfil(f)
    ensures forall k :: table.Fulfil(f, v).FlightOf(k) == table.FlightOf(k)
  {
  }

  lemma StartStep<V>(s: State<V>, step: Step<V>, q: Pid)
    requires Inv(s) && Enabled(s, step) && s.procs[step.pid].pc.Missed? && q < |s.procs|
    ensures TableOk(Apply(s, step)) && ProcOk(Apply(s, step), q)
  {
    FlightsAfter(s.table, s.procs[step.pid].key);
    hide Table.FlightOf;
    assert ProcOk(s, step.pid) && ProcOk(s, q);
  }

  lemma PublishStep<V>(s: State<V>, step: Step<V>, q: Pid)
    requires Inv(s) && Enabled(s, step) && s.procs[step.pid].pc.Publishing? && q < |s.procs|
    ensures TableOk(Apply(s, step)) && ProcOk(Apply(s, step), q)
  {
    assert ProcOk(s, step.pid) && ProcOk(s, q);
    FlightsFulfilled(s.table, s.procs[step.pid].pc.target, s.procs[step.pid].pc.value);
    hide Table.FlightOf;
  }

  lemma EraseStep<V>(s: State<V>, step: Step<V>, q: Pid)
    requires Inv(s) && Enabled(s, step) && s.procs[step.pid].pc.Erasing? && q < |s.procs|
    ensures TableOk(Apply(s, step)) && ProcOk(Apply(s, step), q)
  {
    FlightsAfter(s.table, s.procs[step.pid].key);
    hide Table.FlightOf;
    assert ProcOk(s, step.pid) && ProcOk(s, q);
  }

  predicate Quiet<V>(pc: Pc<V>) {
    !pc.Missed? && !pc.Publishing? && !pc.Erasing?
  }

  lemma QuietFlights<V>(s: State<V>, step: Step<V>)
    requires Enabled(s, step) && Quiet(s.procs[step.pid].pc)
    ensures forall k :: Apply(s, step).table.FlightOf(k) == s.table.FlightOf(k)
    ensures Apply(s, step).table.slots == s.table.slots && Apply(s, step).owners == s.owners
  {
    FlightsAfter(s.table, s.procs[step.pid].key);
    hide Table.FlightOf;
  }

  lemma QuietLed<V>(s: State<V>, step: Step<V>, f: Flight)
    requires Inv(s) && Enabled(s, step) && Quiet(s.procs[step.pid].pc)
    requires f < |s.owners| && Led(s, f)
    ensures Apply(s, step).owners == s.owners && Led(Apply(s, step), f)
  {
    assert ProcOk(s, step.pid);
  }

  lemma QuietTable<V>(s: State<V>, step: Step<V>)
    requires Inv(s) && Enabled(s, step) && Quiet(s.procs[step.pid].pc)
    ensures TableOk(Apply(s, step))
  {
    QuietFlights(s, step);
    QuietMutex(s, step);
    hide Led, ProcOk, Table.FlightOf;
    forall f | 0 <= f < |s.owners| && Led(s, f) ensures Led(Apply(s, step), f) {
      QuietLed(s, step, f);
    }
    hide Apply;
  }

  lemma QuietMutex<V>(s: State<V>, step: Step<V>)
    requires Inv(s) && Enabled(s, step)
    ensures var t := Apply(s, step); |t.procs| == |s.procs| && (t.mutex.Some? ==> t.mutex.value < |t.procs|)
  {
  }

  lemma QuietOther<V>(s: State<V>, step: Step<V>, q: Pid)
    requires Inv(s) && Enabled(s, step) && Quiet(s.procs[step.pid].pc) && q < |s.procs| && q != step.pid
    ensures |s.owners| == |Apply(s, step).table.slots| && ProcOk(Apply(s, step), q)
  {
    QuietFlights(s, step);
    hide Table.FlightOf;
    assert ProcOk(s, step.pid) && ProcOk(s, q);
  }

  lemma QuietSelf<V>(s: State<V>, step: Step<V>)
    requires Inv(s) && Enabled(s, step) && Quiet(s.procs[step.pid].pc)
    ensures |s.owners| == |Apply(s, step).table.slots| && ProcOk(Apply(s, step), step.pid)
  {
    QuietFlights(s, step);
    assert ProcOk(s, step.pid);
  }

  lemma StepProc<V>(s: State<V>, step: Step<V>, q: Pid)
    requires Inv(s) && Enabled(s, step) && q < |s.procs|
    ensures TableOk(Apply(s, step)) && ProcOk(Apply(s, step), q)
  {
    hide Apply, TableOk, ProcOk;
    var pc := s.procs[step.pid].pc;
    if pc.Missed? {
      StartStep(s, step, q);
    } else if pc.Publishing? {
      PublishStep(s, step, q);
    } else if pc.Erasing? {
      EraseStep(s, step, q);
    } else {
      QuietTable(s, step);
      if q == step.pid {
        QuietSelf(s, step);
      } else {
        QuietOther(s, step, q);
      }
    }
  }

  /** Every step keeps the invariant, the unlocked reads and the publish-before-erase window included. */
  lemma StepInv<V>(s: State<V>, step: Step<V>)
    requires Inv(s) && Enabled(s, step)
    ensures Inv(Apply(s, step))
  {
    var t := Apply(s, step);
    StepProc(s, step, step.pid);
    forall q | 0 <= q < |t.procs| ensures ProcOk(t, q) {
      StepProc(s, step, q);
    }
  }

  lemma {:induction false} RunInv<V>(s: State<V>, steps: seq<Step<V>>, t: State<V>)
    requires Inv(s) && Runs(s, steps, t)
    ensures Inv(t)
    decreases |steps|
  {
    if steps != [] {
      StepInv(s, steps[0]);
      RunInv(Apply(s, steps[0]), steps[1..], t);
    }
  }
}
