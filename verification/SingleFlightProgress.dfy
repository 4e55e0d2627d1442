/** Termination of every run, and exactly when a run leaves callers without an answer. */
module SingleFlightProgress {
  import opened Wrappers
  import opened TaskTable
  import opened SingleFlight
  import opened SingleFlightHistory

  /** How many steps a caller can still take. */
  function Rank<V>(pc: Pc<V>): nat {
    match pc
    case Idle => 12
    case Looking => 11
    case Queued => 10
    case Locked => 9
    case Missed => 8
    case Leading(_) => 7
    case Completing(_, _) => 6
    case Found(_, _) => 5
    case Publishing(_, _, _) => 4
    case Retiring(_, _) => 3
    case Erasing(_, _) => 2
    case Peeking => 2
    case Waiting(_) => 1
    case _ => 0
  }

  function Measure<V>(procs: seq<Proc<V>>): nat {
    if procs == [] then 0 else Measure(procs[..|procs| - 1]) + Rank(procs[|procs| - 1].pc)
  }

  lemma {:induction false} MeasureUpdate<V>(procs: seq<Proc<V>>, p: nat, proc: Proc<V>)
    requires p < |procs|
    ensures Measure(procs[p := proc]) == Measure(procs) - Rank(procs[p].pc) + Rank(proc.pc)
  {
    var front := procs[..|procs| - 1];
    if p < |front| {
      MeasureUpdate(front, p, proc);
      assert procs[p := proc][..|procs| - 1] == front[p := proc];
    } else {
      assert procs[p := proc][..|procs| - 1] == front;
    }
  }

  lemma OnlyOneMoves<V>(s: State<V>, step: Step<V>)
    requires Enabled(s, step)
    ensures |Apply(s, step).procs| == |s.procs|
    ensures Apply(s, step).procs == s.procs[step.pid := Apply(s, step).procs[step.pid]]
  {
  }

  lemma RankDrops<V>(s: State<V>, step: Step<V>)
    requires Enabled(s, step)
    ensures step.pid < |Apply(s, step).procs|
    ensures Rank(Apply(s, step).procs[step.pid].pc) < Rank(s.procs[step.pid].pc)
  {
  }

  lemma StepDecreases<V>(s: State<V>, step: Step<V>)
    requires Enabled(s, step)
    ensures Measure(Apply(s, step).procs) < Measure(s.procs)
  {
    OnlyOneMoves(s, step);
    RankDrops(s, step);
    hide Apply, Measure, Rank;
    MeasureUpdate(s.procs, step.pid, Apply(s, step).procs[step.pid]);
  }

  lemma {:induction false} MeasureBound<V>(procs: seq<Proc<V>>)
    ensures Measure(procs) <= 12 * |procs|
  {
    if procs != [] {
      MeasureBound(procs[..|procs| - 1]);
    }
  }

  /** No run is longer than twelve steps a caller, whatever the schedule. */
  lemma {:induction false} RunsEnd<V>(s: State<V>, steps: seq<Step<V>>, t: State<V>)
    requires Runs(s, steps, t)
    ensures |steps| + Measure(t.procs) <= Measure(s.procs) <= 12 * |s.procs|
    decreases |steps|
  {
    MeasureBound(s.procs);
    if steps != [] {
      StepDecreases(s, steps[0]);
      RunsEnd(Apply(s, steps[0]), steps[1..], t);
    }
  }

  // ---------- where a run can end ----------

  /** Nothing can happen any more, except that a leader leaves. */
  ghost predicate Terminal<V(!new)>(s: State<V>) {
    forall step :: Enabled(s, step) ==> step.choice.Abandon?
  }

  /** A caller that never gets an answer: it waits for a flight whose leader left. */
  ghost predicate Stranded<V>(s: State<V>, p: Pid)
    requires p < |s.procs|
  {
    var pc := s.procs[p].pc;
    pc.Waiting? && pc.flight < |s.owners| &&
    var leader := s.owners[pc.flight].pid;
    leader < |s.procs| && s.procs[leader].pc == Abandoned(pc.flight)
  }

  lemma HolderCanStep<V>(s: State<V>, p: Pid)
    requires Inv(s) && s.mutex == Some(p)
    ensures Enabled(s, Step(p, Proceed))
  {
    assert ProcOk(s, p);
  }

  /** A caller that has its answer, or will never do anything again. */
  predicate Settled<V>(pc: Pc<V>) {
    pc.Done? || pc.Abandoned? || pc.Threw?
  }

  /** Deadlock freedom: unless a caller is settled or stranded, somebody can step towards
      completion. A leader that computes may come up with any `value`. */
  lemma CanStep<V>(s: State<V>, p: Pid, value: V) returns (step: Step<V>)
    requires Inv(s) && p < |s.procs|
    requires !Settled(s.procs[p].pc) && !Stranded(s, p)
    ensures Enabled(s, step) && !step.choice.Abandon?
  {
    assert ProcOk(s, p);
    var pc := s.procs[p].pc;
    if s.mutex.Some? {
      step := Step(s.mutex.value, Proceed);
      HolderCanStep(s, s.mutex.value);
    } else if pc.Waiting? && s.table.slots[pc.flight].None? {
      var leader := s.owners[pc.flight].pid;
      assert ProcOk(s, leader);
      step := Step(leader, if s.procs[leader].pc.Leading? then Compute(value) else Proceed);
    } else {
      step := Step(p, if pc.Leading? then Compute(value) else Proceed);
    }
  }

  lemma TerminalCaller<V(!new)>(s: State<V>, p: Pid, value: V)
    requires Inv(s) && Terminal(s) && p < |s.procs|
    ensures Settled(s.procs[p].pc) || Stranded(s, p)
  {
    if !Settled(s.procs[p].pc) && !Stranded(s, p) {
      var _ := CanStep(s, p, value);
    }
  }

  // ---------- torn reads ----------

  /** Every empty entry, and every caller that threw on one, comes from a torn read of the key; and
      a torn read makes its own caller throw. */
  ghost predicate TornOk<V>(s: State<V>) {
    && (forall k :: k in s.table.entries && s.table.entries[k].Empty? ==> WasTorn(s.log, k))
    && (forall p :: 0 <= p < |s.procs| && s.procs[p].pc.Threw? ==> WasTorn(s.log, s.procs[p].key))
    && (forall k :: WasTorn(s.log, k) ==> SomeThrew(s, k))
  }

  ghost predicate SomeThrew<V>(s: State<V>, key: Key) {
    exists p :: 0 <= p < |s.procs| && s.procs[p].key == key && s.procs[p].pc.Threw?
  }

  lemma ThrewStays<V>(s: State<V>, step: Step<V>, key: Key)
    requires Enabled(s, step) && SomeThrew(s, key)
    ensures SomeThrew(Apply(s, step), key)
  {
    var p :| 0 <= p < |s.procs| && s.procs[p].key == key && s.procs[p].pc.Threw?;
    assert Apply(s, step).procs[p] == s.procs[p];
  }

  /** What a step can add to the torn reads. */
  lemma TornGrows<V>(s: State<V>, step: Step<V>, key: Key)
    requires Enabled(s, step)
    ensures var p := step.pid;
            WasTorn(Apply(s, step).log, key) <==>
              || WasTorn(s.log, key)
              || (&& s.procs[p].pc.Peeking? && s.procs[p].key == key
                  && key !in s.table.entries)
  {
    var t, p := Apply(s, step), step.pid;
    var pc, own := s.procs[p].pc, s.procs[p].key;
    match pc
    case Idle => Extend(s.log, Called(p, own));
    case Missed => Extend(s.log, Started(p, own, |s.table.slots|));
    case Publishing(_, target, value) => Extend(s.log, Published(p, target, value));
    case Erasing(flight, value) =>
      var target := s.table.FlightOf(own);
      if target.Some? {
        var e := Erased(p, own, target.value);
        Extend(s.log, e);
        Extend(s.log + [e], Returned(p, flight, value));
        assert t.log == s.log + [e] + [Returned(p, flight, value)];
      } else {
        Extend(s.log, Returned(p, flight, value));
        assert t.log == s.log + [Returned(p, flight, value)];
      }
    case Waiting(flight) => Extend(s.log, Returned(p, flight, s.table.slots[flight].value));
    case Peeking =>
      Extend(s.log, Torn(p, own));
      assert s.log + [] == s.log;
    case _ =>
  }

  lemma StepTorn<V>(s: State<V>, step: Step<V>)
    requires Inv(s) && TornOk(s) && Enabled(s, step)
    ensures TornOk(Apply(s, step))
  {
    var t, p := Apply(s, step), step.pid;
    assert ProcOk(s, p);
    forall k | k in t.table.entries && t.table.entries[k].Empty? ensures WasTorn(t.log, k) {
      TornGrows(s, step, k);
    }
    forall q | 0 <= q < |t.procs| && t.procs[q].pc.Threw? ensures WasTorn(t.log, t.procs[q].key) {
      TornGrows(s, step, t.procs[q].key);
    }
    forall k | WasTorn(t.log, k) ensures SomeThrew(t, k) {
      TornGrows(s, step, k);
      if WasTorn(s.log, k) { ThrewStays(s, step, k); } else { assert t.procs[p].pc.Threw?; }
    }
  }

  lemma {:induction false} RunTorn<V>(s: State<V>, steps: seq<Step<V>>, t: State<V>)
    requires Inv(s) && TornOk(s) && Runs(s, steps, t)
    ensures TornOk(t)
    decreases |steps|
  {
    if steps != [] {
      StepInv(s, steps[0]);
      StepTorn(s, steps[0]);
      RunTorn(Apply(s, steps[0]), steps[1..], t);
    }
  }

  // ---------- who is answered ----------

  ghost predicate AllAnswered<V>(s: State<V>, key: Key) {
    forall p :: 0 <= p < |s.procs| && s.procs[p].key == key ==> s.procs[p].pc.Done?
  }

  ghost predicate SomeLeaderLeft<V>(s: State<V>, key: Key) {
    exists p :: 0 <= p < |s.procs| && s.procs[p].key == key && s.procs[p].pc.Abandoned?
  }

  /** When a run has ended, every caller of a key has its answer if and only if no leader of that
      key left without calling `completeTask` and no erase of the key tore an unlocked read. */
  lemma AnsweredIff<V(!new)>(s: State<V>, steps: seq<Step<V>>, t: State<V>, key: Key, value: V)
    requires Init(s) && Runs(s, steps, t) && Terminal(t)
    ensures AllAnswered(t, key) <==> !SomeLeaderLeft(t, key) && !WasTorn(t.log, key)
  {
    InitInv(s);
    RunInv(s, steps, t);
    RunTorn(s, steps, t);
    if !AllAnswered(t, key) {
      var p :| 0 <= p < |t.procs| && t.procs[p].key == key && !t.procs[p].pc.Done?;
      TerminalCaller(t, p, value);
      if Stranded(t, p) {
        StrandedByLeader(t, p);
      }
    }
  }

  lemma StrandedByLeader<V>(s: State<V>, p: Pid)
    requires Inv(s) && p < |s.procs| && Stranded(s, p)
    ensures SomeLeaderLeft(s, s.procs[p].key)
  {
    var leader := s.owners[s.procs[p].pc.flight].pid;
    assert ProcOk(s, p) && ProcOk(s, leader);
    assert s.procs[leader].key == s.procs[p].key;
  }

  // ---------- what an abandoned flight does to its key ----------

  /** The callers an abandoned flight takes with it: those that have not yet joined another. */
  ghost predicate Hopeless<V>(s: State<V>, flight: Flight, q: Pid)
    requires q < |s.procs|
  {
    var pc := s.procs[q].pc;
    pc.Idle? || pc.Looking? || pc.Peeking? || pc.Queued? || pc.Locked? || pc == Waiting(flight)
  }

  lemma AbandonedStep<V>(s: State<V>, step: Step<V>, leader: Pid, q: Pid)
    requires Inv(s) && Enabled(s, step) && leader < |s.procs| && q < |s.procs|
    requires s.procs[leader].pc.Abandoned? && s.procs[q].key == s.procs[leader].key
    requires Hopeless(s, s.procs[leader].pc.flight, q)
    ensures var t := Apply(s, step);
            && |t.procs| == |s.procs| && t.procs[leader] == s.procs[leader]
            && t.procs[q].key == s.procs[q].key && Hopeless(t, s.procs[leader].pc.flight, q)
  {
    assert ProcOk(s, leader) && ProcOk(s, q);
  }

  /** Once a leader has left, its key stays pending for ever, and no caller of the key that
      begins afterwards ever returns. */
  lemma {:induction false} AbandonedForever<V>(
      s: State<V>, steps: seq<Step<V>>, t: State<V>, leader: Pid, q: Pid)
    requires Inv(s) && Runs(s, steps, t) && leader < |s.procs| && q < |s.procs|
    requires s.procs[leader].pc.Abandoned? && s.procs[q].key == s.procs[leader].key
    requires Hopeless(s, s.procs[leader].pc.flight, q)
    ensures q < |t.procs| && !t.procs[q].pc.Done?
    ensures t.table.FlightOf(s.procs[leader].key) == Some(s.procs[leader].pc.flight)
    decreases |steps|
  {
    if steps == [] {
      assert ProcOk(s, leader);
    } else {
      StepInv(s, steps[0]);
      AbandonedStep(s, steps[0], leader, q);
      AbandonedForever(Apply(s, steps[0]), steps[1..], t, leader, q);
    }
  }

  // ---------- what a torn read does to its key ----------

  /** The key has an empty entry, and nobody is about to overwrite it. */
  ghost predicate Poisoned<V>(s: State<V>, key: Key) {
    && key in s.table.entries && s.table.entries[key].Empty?
    && forall p :: 0 <= p < |s.procs| && s.procs[p].key == key ==> !s.procs[p].pc.Missed?
  }

  /** A caller that has not yet joined a flight, or has thrown. */
  predicate Unjoined<V>(pc: Pc<V>) {
    pc.Idle? || pc.Looking? || pc.Peeking? || pc.Queued? || pc.Locked? || pc.Threw?
  }

  lemma PoisonedStep<V>(s: State<V>, step: Step<V>, key: Key, q: Pid)
    requires Inv(s) && Enabled(s, step) && Poisoned(s, key)
    requires q < |s.procs| && s.procs[q].key == key && Unjoined(s.procs[q].pc)
    ensures var t := Apply(s, step);
            && Poisoned(t, key) && |t.procs| == |s.procs|
            && t.procs[q].key == key && Unjoined(t.procs[q].pc)
  {
    assert ProcOk(s, step.pid);
    assert s.table.FlightOf(key) == None;
  }

  /** Once a torn read has left an empty entry that nobody is about to overwrite, the key is lost:
      no caller that has not already joined a flight ever returns. */
  lemma {:induction false} PoisonedForever<V>(s: State<V>, steps: seq<Step<V>>, t: State<V>, key: Key, q: Pid)
    requires Inv(s) && Runs(s, steps, t) && Poisoned(s, key)
    requires q < |s.procs| && s.procs[q].key == key && Unjoined(s.procs[q].pc)
    ensures Poisoned(t, key) && q < |t.procs| && !t.procs[q].pc.Done?
    decreases |steps|
  {
    if steps != [] {
      StepInv(s, steps[0]);
      PoisonedStep(s, steps[0], key, q);
      PoisonedForever(Apply(s, steps[0]), steps[1..], t, key, q);
    }
  }

  // ---------- one caller alone ----------

  lemma {:induction false} RunOn<V>(s: State<V>, steps: seq<Step<V>>, t: State<V>, step: Step<V>)
    requires Runs(s, steps, t) && Enabled(t, step)
    ensures Runs(s, steps + [step], Apply(t, step))
    decreases |steps|
  {
    if steps == [] {
      assert Runs(Apply(t, step), [], Apply(t, step));
      assert [step][1..] == [];
    } else {
      RunOn(Apply(s, steps[0]), steps[1..], t, step);
      assert (steps + [step])[1..] == steps[1..] + [step];
    }
  }

  lemma NoSteps<V>(s: State<V>)
    ensures Runs(s, [], s)
  {
  }

  /** The run goes on with a step of `p` that is not a leader's choice. */
  lemma Forward<V>(s: State<V>, steps: seq<Step<V>>, t: State<V>, p: Pid)
      returns (steps': seq<Step<V>>, t': State<V>)
    requires Runs(s, steps, t) && Enabled(t, Step(p, Proceed))
    ensures Runs(s, steps', t') && t' == Apply(t, Step(p, Proceed))
  {
    RunOn(s, steps, t, Step(p, Proceed));
    steps', t' := steps + [Step(p, Proceed)], Apply(t, Step(p, Proceed));
  }

  /** A caller that nobody interrupts does to the table what the methods of `CacheableService` do. */
  lemma SoloGetOrStart<V>(s: State<V>, p: Pid) returns (steps: seq<Step<V>>, t: State<V>)
    requires Inv(s) && p < |s.procs| && s.procs[p].pc.Looking? && s.mutex == None
    ensures Runs(s, steps, t) && t.mutex == None && |t.procs| == |s.procs|
    ensures var (answer, table) := s.table.GetOrStart(s.procs[p].key);
            && t.table == table
            && t.procs[p].pc == match answer
                                case Thrown(_) => Threw
                                case Completed(None) => Leading(|s.table.slots|)
                                case Completed(Some(flight)) => Waiting(flight)
  {
    hide Runs;
    steps, t := [], s;
    NoSteps(s);
    steps, t := Forward(s, steps, t, p);
    if s.procs[p].key in s.table.entries {
      steps, t := Forward(s, steps, t, p);
    } else {
      steps, t := Forward(s, steps, t, p);
      steps, t := Forward(s, steps, t, p);
      steps, t := Forward(s, steps, t, p);
    }
  }

  lemma SoloPublish<V>(s: State<V>, p: Pid) returns (steps: seq<Step<V>>, t: State<V>)
    requires Inv(s) && p < |s.procs| && s.procs[p].pc.Completing? && s.mutex == None
    ensures Runs(s, steps, t) && t.mutex == None
    ensures var pc, flight := s.procs[p].pc, s.table.FlightOf(s.procs[p].key);
            && flight.Some? && s.table.CanFulfil(flight.value)
            && t.table == s.table.Fulfil(flight.value, pc.value)
            && t.procs == s.procs[p := s.procs[p].(pc := Retiring(pc.flight, pc.value))]
  {
    hide Runs;
    assert ProcOk(s, p);
    steps, t := [], s;
    NoSteps(s);
    steps, t := Forward(s, steps, t, p);
    steps, t := Forward(s, steps, t, p);
    steps, t := Forward(s, steps, t, p);
  }

  lemma SoloComplete<V>(s: State<V>, p: Pid) returns (steps: seq<Step<V>>, t: State<V>)
    requires Inv(s) && p < |s.procs| && s.procs[p].pc.Completing? && s.mutex == None
    ensures Runs(s, steps, t) && t.mutex == None && |t.procs| == |s.procs|
    ensures var pc, flight := s.procs[p].pc, s.table.FlightOf(s.procs[p].key);
            && flight.Some? && s.table.CanFulfil(flight.value)
            && t.table == s.table.Fulfil(flight.value, pc.value).Erase(s.procs[p].key)
            && t.procs[p].pc == Done(pc.flight, pc.value)
  {
    steps, t := SoloPublish(s, p);
    hide Runs, Inv;
    steps, t := Forward(s, steps, t, p);
    steps, t := Forward(s, steps, t, p);
  }
}
