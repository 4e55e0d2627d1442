/** Two runs of two callers in which somebody is never answered: one for each way this can happen. */
module SingleFlightExamples {
  import opened Wrappers
  import opened TaskTable
  import opened SingleFlight
  import opened SingleFlightHistory
  import opened SingleFlightProgress

  function TwoCallers<V>(key: Key): State<V> {
    State(Table(map[], []), None, [Proc(key, Idle), Proc(key, Idle)], [], [])
  }

  function Leader<V>(key: Key, second: Pc<V>, log: seq<Event<V>>): State<V> {
    State(Table(map[key := Pending(0)], [None]), None, [Proc(key, Leading(0)), Proc(key, second)], [Owner(0, key)], log)
  }

  /** The first caller becomes the leader of flight 0. */
  lemma FirstLeads<V>(key: Key) returns (steps: seq<Step<V>>)
    ensures Runs(TwoCallers<V>(key), steps, Leader(key, Idle, [Called(0, key), Started(0, key, 0)]))
  {
    hide Runs;
    var s, t := TwoCallers<V>(key), TwoCallers<V>(key);
    steps := [];
    NoSteps(s);
    steps, t := Forward(s, steps, t, 0);
    steps, t := Forward(s, steps, t, 0);
    steps, t := Forward(s, steps, t, 0);
    steps, t := Forward(s, steps, t, 0);
    steps, t := Forward(s, steps, t, 0);
    assert t == Leader(key, Idle, [Called(0, key), Started(0, key, 0)]);
  }

  /** The leader leaves without `completeTask`, and the second caller waits for ever. */
  lemma LeaderLeaves<V(!new)>(key: Key) returns (steps: seq<Step<V>>, t: State<V>)
    ensures Init(TwoCallers<V>(key)) && Runs(TwoCallers<V>(key), steps, t) && Terminal(t)
    ensures |t.procs| == 2 && t.procs[0] == Proc(key, Abandoned(0)) && t.procs[1] == Proc(key, Waiting(0))
    ensures !AllAnswered(t, key) && SomeLeaderLeft(t, key)
  {
    hide Runs;
    var s := TwoCallers<V>(key);
    steps := FirstLeads(key);
    t := Leader(key, Idle, [Called(0, key), Started(0, key, 0)]);
    steps, t := Forward(s, steps, t, 1);
    steps, t := Forward(s, steps, t, 1);
    steps, t := Forward(s, steps, t, 1);
    RunOn(s, steps, t, Step(0, Abandon));
    steps, t := steps + [Step(0, Abandon)], Apply(t, Step(0, Abandon));
    assert t.table.slots == [None] && t.procs == [Proc(key, Abandoned(0)), Proc(key, Waiting(0))];
    forall step ensures !Enabled(t, step) {}
    assert t.procs[0].pc.Abandoned?;
  }

  /** The second caller has seen the entry and has not read it yet. */
  lemma SecondSees<V>(key: Key) returns (steps: seq<Step<V>>, seen: State<V>)
    ensures Runs(TwoCallers<V>(key), steps, seen)
    ensures seen == Leader(key, Peeking, [Called(0, key), Started(0, key, 0), Called(1, key)])
  {
    hide Runs;
    var s := TwoCallers<V>(key);
    steps := FirstLeads(key);
    seen := Leader(key, Idle, [Called(0, key), Started(0, key, 0)]);
    steps, seen := Forward(s, steps, seen, 1);
    steps, seen := Forward(s, steps, seen, 1);
  }

  /** The leader computes, publishes and erases. */
  lemma LeaderCompletes<V>(key: Key, value: V) returns (steps: seq<Step<V>>, t: State<V>)
    ensures Runs(TwoCallers<V>(key), steps, t)
    ensures t.table == Table(map[], [Some(value)]) && t.mutex == None
    ensures t.procs == [Proc(key, Done(0, value)), Proc(key, Peeking)]
  {
    hide Runs;
    var s := TwoCallers<V>(key);
    steps, t := SecondSees(key);
    RunOn(s, steps, t, Step(0, Compute(value)));
    steps, t := steps + [Step(0, Compute(value))], Apply(t, Step(0, Compute(value)));
    assert t.procs == [Proc(key, Completing(0, value)), Proc(key, Peeking)];
    steps, t := Forward(s, steps, t, 0);
    assert t.procs == [Proc(key, Found(0, value)), Proc(key, Peeking)];
    steps, t := Forward(s, steps, t, 0);
    assert t.procs == [Proc(key, Publishing(0, 0, value)), Proc(key, Peeking)];
    steps, t := Forward(s, steps, t, 0);
    assert t.procs == [Proc(key, Retiring(0, value)), Proc(key, Peeking)];
    steps, t := Forward(s, steps, t, 0);
    assert t.procs == [Proc(key, Erasing(0, value)), Proc(key, Peeking)];
    steps, t := Forward(s, steps, t, 0);
  }

  /** The second caller sees the entry, the leader completes and erases it, and the second caller
      reads an entry that is gone: it throws, and no later caller of the key is ever answered. */
  lemma ReadIsTorn<V(!new)>(key: Key, value: V) returns (steps: seq<Step<V>>, t: State<V>)
    ensures Init(TwoCallers<V>(key)) && Runs(TwoCallers<V>(key), steps, t) && Terminal(t)
    ensures |t.procs| == 2 && t.procs[0] == Proc(key, Done(0, value)) && t.procs[1] == Proc(key, Threw)
    ensures Poisoned(t, key) && !AllAnswered(t, key) && !SomeLeaderLeft(t, key)
  {
    hide Runs;
    var s := TwoCallers<V>(key);
    steps, t := LeaderCompletes(key, value);
    steps, t := Forward(s, steps, t, 1);
    assert t.procs == [Proc(key, Done(0, value)), Proc(key, Threw)];
    forall step ensures !Enabled(t, step) {}
    assert t.procs[1].pc.Threw?;
  }
}
