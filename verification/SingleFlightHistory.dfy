/** What a history of a single-flight table may look like, said without the protocol, and the proof
    that every run of the protocol writes such a history. */
module SingleFlightHistory {
  import opened Wrappers
  import opened TaskTable
  import opened SingleFlight

  type History<V> = seq<Event<V>>

  // ---------- what a history says ----------

  /** The flight of `key` that was started and is not yet erased. */
  function Open<V>(h: History<V>, key: Key): Option<Flight> {
    if h == [] then None
    else match h[|h| - 1]
      case Started(_, k, f) => if k == key then Some(f) else Open(h[..|h| - 1], key)
      case Erased(_, k, _) => if k == key then None else Open(h[..|h| - 1], key)
      case _ => Open(h[..|h| - 1], key)
  }

  /** Who started the flight, and for which key. */
  function StartOf<V>(h: History<V>, flight: Flight): Option<Owner> {
    if h == [] then None
    else match h[|h| - 1]
      case Started(p, k, f) => if f == flight then Some(Owner(p, k)) else StartOf(h[..|h| - 1], flight)
      case _ => StartOf(h[..|h| - 1], flight)
  }

  function ValueOf<V>(h: History<V>, flight: Flight): Option<V> {
    if h == [] then None
    else match h[|h| - 1]
      case Published(_, f, v) => if f == flight then Some(v) else ValueOf(h[..|h| - 1], flight)
      case _ => ValueOf(h[..|h| - 1], flight)
  }

  function CallKey<V>(h: History<V>, pid: Pid): Option<Key> {
    if h == [] then None
    else match h[|h| - 1]
      case Called(p, k) => if p == pid then Some(k) else CallKey(h[..|h| - 1], pid)
      case _ => CallKey(h[..|h| - 1], pid)
  }

  predicate HasReturned<V>(h: History<V>, pid: Pid) {
    h != [] && (HasReturned(h[..|h| - 1], pid) || (h[|h| - 1].Returned? && h[|h| - 1].pid == pid))
  }

  predicate WasErased<V>(h: History<V>, flight: Flight) {
    h != [] && (WasErased(h[..|h| - 1], flight) || (h[|h| - 1].Erased? && h[|h| - 1].flight == flight))
  }

  /** The flight was erased before the call of `pid` began. */
  predicate Stale<V>(h: History<V>, pid: Pid, flight: Flight) {
    h != [] &&
    var front, last := h[..|h| - 1], h[|h| - 1];
    if last.Called? && last.pid == pid then WasErased(front, flight) else Stale(front, pid, flight)
  }

  /** A flight of `key` was erased after the call of `pid` began. */
  predicate ErasedSince<V>(h: History<V>, pid: Pid, key: Key) {
    h != [] &&
    var front, last := h[..|h| - 1], h[|h| - 1];
    !(last.Called? && last.pid == pid) && ((last.Erased? && last.key == key) || ErasedSince(front, pid, key))
  }

  predicate WasTorn<V>(h: History<V>, key: Key) {
    h != [] && (WasTorn(h[..|h| - 1], key) || (h[|h| - 1].Torn? && h[|h| - 1].key == key))
  }

  /** What may happen next to a single-flight table with history `h`. A read is torn only by an
      erase of its key that comes between its two halves. */
  ghost predicate Allowed<V>(h: History<V>, e: Event<V>) {
    match e
    case Called(p, _) => CallKey(h, p) == None
    case Started(p, k, f) => CallKey(h, p) == Some(k) && Open(h, k) == None && StartOf(h, f) == None
    case Published(p, f, _) =>
      var start := StartOf(h, f);
      ValueOf(h, f) == None && start.Some? && start.value.pid == p && Open(h, start.value.key) == Some(f)
    case Erased(p, k, f) => Open(h, k) == Some(f) && ValueOf(h, f).Some? && StartOf(h, f) == Some(Owner(p, k))
    case Returned(p, f, v) =>
      && CallKey(h, p).Some? && !HasReturned(h, p)
      && StartOf(h, f).Some? && StartOf(h, f).value.key == CallKey(h, p).value
      && ValueOf(h, f).Some? && ValueOf(h, f).value == v
      && !Stale(h, p, f)
    case Torn(p, k) =>
      CallKey(h, p) == Some(k) && !HasReturned(h, p) && Open(h, k) == None && ErasedSince(h, p, k)
  }

  ghost predicate Lawful<V>(h: History<V>) {
    h == [] || (Lawful(h[..|h| - 1]) && Allowed(h[..|h| - 1], h[|h| - 1]))
  }

  /** One more event. */
  lemma Extend<V>(h: History<V>, e: Event<V>)
    ensures Lawful(h + [e]) <==> Lawful(h) && Allowed(h, e)
    ensures forall k :: Open(h + [e], k) ==
              if e.Started? && e.key == k then Some(e.flight)
              else if e.Erased? && e.key == k then None else Open(h, k)
    ensures forall f :: StartOf(h + [e], f) ==
              if e.Started? && e.flight == f then Some(Owner(e.pid, e.key)) else StartOf(h, f)
    ensures forall f :: ValueOf(h + [e], f) ==
              if e.Published? && e.flight == f then Some(e.value) else ValueOf(h, f)
    ensures forall p :: CallKey(h + [e], p) ==
              if e.Called? && e.pid == p then Some(e.key) else CallKey(h, p)
    ensures forall p :: HasReturned(h + [e], p) <==> HasReturned(h, p) || (e.Returned? && e.pid == p)
    ensures forall f :: WasErased(h + [e], f) <==> WasErased(h, f) || (e.Erased? && e.flight == f)
    ensures forall p, f :: Stale(h + [e], p, f) <==>
              if e.Called? && e.pid == p then WasErased(h, f) else Stale(h, p, f)
    ensures forall p, k :: ErasedSince(h + [e], p, k) <==>
              !(e.Called? && e.pid == p) && ((e.Erased? && e.key == k) || ErasedSince(h, p, k))
    ensures forall k :: WasTorn(h + [e], k) <==> WasTorn(h, k) || (e.Torn? && e.key == k)
  {
    assert (h + [e])[..|h|] == h;
  }

  // ---------- every run writes a lawful history ----------

  /** The history says exactly what the state holds. */
  ghost predicate Recorded<V>(s: State<V>) {
    && Lawful(s.log)
    && (forall k :: Open(s.log, k) == s.table.FlightOf(k))
    && (forall f: Flight :: StartOf(s.log, f) == if f < |s.owners| then Some(s.owners[f]) else None)
    && (forall f: Flight :: ValueOf(s.log, f) == if f < |s.table.slots| then s.table.slots[f] else None)
    && (forall p: Pid :: |s.procs| <= p ==> CallKey(s.log, p) == None)
    && (forall f: Flight :: WasErased(s.log, f) ==>
          f < |s.owners| && forall k :: s.table.FlightOf(k) != Some(f))
  }

  /** The same for one caller: it never holds a flight erased before its call. */
  ghost predicate RecordedProc<V>(s: State<V>, p: Pid)
    requires p < |s.procs|
  {
    var key, pc := s.procs[p].key, s.procs[p].pc;
    && CallKey(s.log, p) == (if pc.Idle? then None else Some(key))
    && (HasReturned(s.log, p) <==> pc.Done?)
    && (Leads(pc) || pc.Waiting? || pc.Done? ==> !Stale(s.log, p, pc.flight))
    && (pc.Peeking? ==> key in s.table.entries || ErasedSince(s.log, p, key))
  }

  ghost predicate FullyRecorded<V>(s: State<V>) {
    Recorded(s) && forall p :: 0 <= p < |s.procs| ==> RecordedProc(s, p)
  }

  // One lemma for each step that adds events, and one for all the steps that add none.

  lemma CalledRecorded<V>(s: State<V>, step: Step<V>, q: Pid)
    requires Inv(s) && FullyRecorded(s) && Enabled(s, step) && s.procs[step.pid].pc.Idle? && q < |s.procs|
    ensures Recorded(Apply(s, step)) && RecordedProc(Apply(s, step), q)
  {
    assert RecordedProc(s, step.pid) && RecordedProc(s, q);
    Extend(s.log, Called(step.pid, s.procs[step.pid].key));
  }

  lemma StartedRecorded<V>(s: State<V>, step: Step<V>, q: Pid)
    requires Inv(s) && FullyRecorded(s) && Enabled(s, step) && s.procs[step.pid].pc.Missed? && q < |s.procs|
    ensures Recorded(Apply(s, step)) && RecordedProc(Apply(s, step), q)
  {
    assert ProcOk(s, step.pid) && RecordedProc(s, step.pid) && RecordedProc(s, q);
    var f := |s.table.slots|;
    Extend(s.log, Started(step.pid, s.procs[step.pid].key, f));
    NeverErased(s.log, step.pid, f);
  }

  lemma {:induction false} NeverErased<V>(h: History<V>, p: Pid, f: Flight)
    requires !WasErased(h, f)
    ensures !Stale(h, p, f)
  {
    if h != [] {
      NeverErased(h[..|h| - 1], p, f);
    }
  }

  lemma PublishedRecorded<V>(s: State<V>, step: Step<V>, q: Pid)
    requires Inv(s) && FullyRecorded(s) && Enabled(s, step) && s.procs[step.pid].pc.Publishing? && q < |s.procs|
    ensures Recorded(Apply(s, step)) && RecordedProc(Apply(s, step), q)
  {
    assert ProcOk(s, step.pid) && RecordedProc(s, step.pid) && RecordedProc(s, q);
    var pc := s.procs[step.pid].pc;
    assert Open(s.log, s.procs[step.pid].key) == Some(pc.flight);
    Extend(s.log, Published(step.pid, pc.target, pc.value));
  }

  lemma ErasedRecorded<V>(s: State<V>, step: Step<V>, q: Pid)
    requires Inv(s) && FullyRecorded(s) && Enabled(s, step) && s.procs[step.pid].pc.Erasing? && q < |s.procs|
    ensures Recorded(Apply(s, step)) && RecordedProc(Apply(s, step), q)
  {
    assert ProcOk(s, step.pid) && RecordedProc(s, step.pid) && RecordedProc(s, q);
    var key, pc := s.procs[step.pid].key, s.procs[step.pid].pc;
    var e := Erased(step.pid, key, pc.flight);
    Extend(s.log, e);
    Extend(s.log + [e], Returned(step.pid, pc.flight, pc.value));
    assert Apply(s, step).log == s.log + [e] + [Returned(step.pid, pc.flight, pc.value)];
  }

  lemma ReturnedRecorded<V>(s: State<V>, step: Step<V>, q: Pid)
    requires Inv(s) && FullyRecorded(s) && Enabled(s, step) && s.procs[step.pid].pc.Waiting? && q < |s.procs|
    ensures Recorded(Apply(s, step)) && RecordedProc(Apply(s, step), q)
  {
    assert ProcOk(s, step.pid) && RecordedProc(s, step.pid) && RecordedProc(s, q);
    var flight := s.procs[step.pid].pc.flight;
    Extend(s.log, Returned(step.pid, flight, s.table.slots[flight].value));
  }

  lemma PeekedRecorded<V>(s: State<V>, step: Step<V>, q: Pid)
    requires Inv(s) && FullyRecorded(s) && Enabled(s, step) && s.procs[step.pid].pc.Peeking? && q < |s.procs|
    ensures Recorded(Apply(s, step)) && RecordedProc(Apply(s, step), q)
  {
    assert ProcOk(s, step.pid) && RecordedProc(s, step.pid) && RecordedProc(s, q);
    var key := s.procs[step.pid].key;
    FlightsAfter(s.table, key);
    Extend(s.log, Torn(step.pid, key));
    if s.table.FlightOf(key).Some? {
      NotErasedWhilePending(s, step.pid, key);
    } else {
      assert s.log + [] == s.log;
    }
  }

  lemma SilentRecorded<V>(s: State<V>, step: Step<V>, q: Pid)
    requires Inv(s) && FullyRecorded(s) && Enabled(s, step) && q < |s.procs|
    requires var pc := s.procs[step.pid].pc;
             pc.Looking? || pc.Queued? || pc.Locked? || pc.Leading? || pc.Completing? || pc.Found? || pc.Retiring?
    ensures Recorded(Apply(s, step)) && RecordedProc(Apply(s, step), q)
  {
    assert ProcOk(s, step.pid) && RecordedProc(s, step.pid) && RecordedProc(s, q);
    var key := s.procs[step.pid].key;
    if s.table.FlightOf(key).Some? {
      NotErasedWhilePending(s, step.pid, key);
    }
  }

  lemma NotErasedWhilePending<V>(s: State<V>, p: Pid, key: Key)
    requires Recorded(s) && s.table.FlightOf(key).Some?
    ensures !Stale(s.log, p, s.table.FlightOf(key).value)
  {
    NeverErased(s.log, p, s.table.FlightOf(key).value);
  }

  lemma StepRecorded<V>(s: State<V>, step: Step<V>)
    requires Inv(s) && FullyRecorded(s) && Enabled(s, step)
    ensures FullyRecorded(Apply(s, step))
  {
    StepProcRecorded(s, step, step.pid);
    forall q | 0 <= q < |s.procs| ensures RecordedProc(Apply(s, step), q) {
      StepProcRecorded(s, step, q);
    }
  }

  lemma StepProcRecorded<V>(s: State<V>, step: Step<V>, q: Pid)
    requires Inv(s) && FullyRecorded(s) && Enabled(s, step) && q < |s.procs|
    ensures |Apply(s, step).procs| == |s.procs|
    ensures Recorded(Apply(s, step)) && RecordedProc(Apply(s, step), q)
  {
    hide Inv, FullyRecorded, Recorded, RecordedProc;
    match s.procs[step.pid].pc
    case Idle => CalledRecorded(s, step, q);
    case Missed => StartedRecorded(s, step, q);
    case Publishing(_, _, _) => PublishedRecorded(s, step, q);
    case Erasing(_, _) => ErasedRecorded(s, step, q);
    case Waiting(_) => ReturnedRecorded(s, step, q);
    case Peeking => PeekedRecorded(s, step, q);
    case _ => SilentRecorded(s, step, q);
  }

  /** Whatever the interleaving, the history of a run is one of a single-flight table. */
  lemma RunsAreLawful<V>(s: State<V>, steps: seq<Step<V>>, t: State<V>)
    requires Init(s) && Runs(s, steps, t)
    ensures Lawful(t.log) && Inv(t) && FullyRecorded(t)
  {
    InitInv(s);
    RunRecorded(s, steps, t);
  }

  lemma {:induction false} RunRecorded<V>(s: State<V>, steps: seq<Step<V>>, t: State<V>)
    requires Inv(s) && FullyRecorded(s) && Runs(s, steps, t)
    ensures Inv(t) && FullyRecorded(t)
    decreases |steps|
  {
    if steps != [] {
      StepInv(s, steps[0]);
      StepRecorded(s, steps[0]);
      RunRecorded(Apply(s, steps[0]), steps[1..], t);
    }
  }
}
