/** What callers can rely on: the consequences of a history being lawful. Every reachable state has
    a lawful history (`SingleFlightHistory.RunsAreLawful`), so each holds of every run. */
module SingleFlightSafety {
  import opened Wrappers
  import opened TaskTable
  import opened SingleFlight
  import opened SingleFlightHistory

  function Starts<V>(h: History<V>, key: Key): nat {
    if h == [] then 0
    else Starts(h[..|h| - 1], key) + if h[|h| - 1].Started? && h[|h| - 1].key == key then 1 else 0
  }

  function Erases<V>(h: History<V>, key: Key): nat {
    if h == [] then 0
    else Erases(h[..|h| - 1], key) + if h[|h| - 1].Erased? && h[|h| - 1].key == key then 1 else 0
  }

  /** Starts minus erases of a key is 1 while a flight of it is open, and 0 otherwise. */
  lemma {:induction false} StartsMinusErases<V>(h: History<V>, key: Key)
    requires Lawful(h)
    ensures Starts(h, key) == Erases(h, key) + if Open(h, key).Some? then 1 else 0
  {
    if h != [] {
      StartsMinusErases(h[..|h| - 1], key);
    }
  }

  lemma {:induction false} PrefixLawful<V>(h: History<V>, i: nat)
    requires Lawful(h) && i <= |h|
    ensures Lawful(h[..i])
  {
    if i == |h| {
      assert h[..i] == h;
    } else {
      PrefixLawful(h[..|h| - 1], i);
      assert h[..|h| - 1][..i] == h[..i];
    }
  }

  lemma EventAllowed<V>(h: History<V>, i: nat)
    requires Lawful(h) && i < |h|
    ensures Lawful(h[..i]) && Allowed(h[..i], h[i])
  {
    PrefixLawful(h, i + 1);
    PrefixLawful(h, i);
    assert h[..i + 1][..i] == h[..i];
  }

  /** Values are never replaced. */
  lemma {:induction false} ValueStays<V>(h: History<V>, i: nat, flight: Flight)
    requires Lawful(h) && i <= |h| && ValueOf(h[..i], flight).Some?
    ensures ValueOf(h, flight) == ValueOf(h[..i], flight)
  {
    if i == |h| {
      assert h[..i] == h;
    } else {
      assert h[..|h| - 1][..i] == h[..i];
      ValueStays(h[..|h| - 1], i, flight);
    }
  }

  /** A value comes from an event that published it, and the caller who started the flight did. */
  lemma {:induction false} PublisherOf<V>(h: History<V>, flight: Flight) returns (e: nat)
    requires Lawful(h) && ValueOf(h, flight).Some?
    ensures e < |h| && h[e].Published? && h[e].flight == flight && h[e].value == ValueOf(h, flight).value
    ensures StartOf(h[..e], flight).Some? && StartOf(h[..e], flight).value.pid == h[e].pid
  {
    var last, front := h[|h| - 1], h[..|h| - 1];
    if last.Published? && last.flight == flight {
      e := |h| - 1;
    } else {
      e := PublisherOf(front, flight);
      assert front[..e] == h[..e];
    }
  }

  /** A returned value was published before by the caller that started its flight, for the key the
      returning caller asked for; and all callers of one flight return the same. */
  lemma Agreement<V>(h: History<V>, i: nat, j: nat) returns (e: nat)
    requires Lawful(h) && i < |h| && j < |h| && h[i].Returned? && h[j].Returned?
    ensures e < i && h[e] == Published(h[e].pid, h[i].flight, h[i].value)
    ensures CallKey(h[..i], h[i].pid).Some?
    ensures StartOf(h[..e], h[i].flight) == Some(Owner(h[e].pid, CallKey(h[..i], h[i].pid).value))
    ensures h[i].flight == h[j].flight ==> h[i].value == h[j].value
  {
    EventAllowed(h, i);
    EventAllowed(h, j);
    ValueStays(h, i, h[i].flight);
    ValueStays(h, j, h[j].flight);
    e := PublisherOf(h[..i], h[i].flight);
    assert h[..i][..e] == h[..e];
    StartStays(h[..i], e, h[i].flight);
  }

  /** A flight is started once. */
  lemma {:induction false} StartStays<V>(h: History<V>, i: nat, flight: Flight)
    requires Lawful(h) && i <= |h| && StartOf(h[..i], flight).Some?
    ensures StartOf(h, flight) == StartOf(h[..i], flight)
  {
    if i == |h| {
      assert h[..i] == h;
    } else {
      assert h[..|h| - 1][..i] == h[..i];
      StartStays(h[..|h| - 1], i, flight);
    }
  }

  /** A published value is set once, by an event that the history contains. */
  lemma {:induction false} PublishedOnce<V>(h: History<V>, i: nat, j: nat)
    requires Lawful(h) && i <= j < |h| && h[i].Published? && h[j].Published?
    ensures h[i].flight == h[j].flight ==> i == j
  {
    EventAllowed(h, j);
    if i < j && h[i].flight == h[j].flight {
      PrefixLawful(h, j);
      assert h[..j][..i + 1] == h[..i + 1];
      assert h[..i + 1][..i] == h[..i];
      ValueStays(h[..j], i + 1, h[i].flight);
    }
  }

  lemma {:induction false} ErasedIsRemembered<V>(h: History<V>, j: nat)
    requires j < |h| && h[j].Erased?
    ensures WasErased(h, h[j].flight)
  {
    if j < |h| - 1 {
      ErasedIsRemembered(h[..|h| - 1], j);
    }
  }

  /** A flight erased before a call began is stale for that call. */
  lemma {:induction false} ErasedBeforeCall<V>(h: History<V>, j: nat, c: nat)
    requires Lawful(h) && j < c < |h| && h[j].Erased? && h[c].Called?
    ensures Stale(h, h[c].pid, h[j].flight) && CallKey(h, h[c].pid).Some?
  {
    var front := h[..|h| - 1];
    if c == |h| - 1 {
      ErasedIsRemembered(front, j);
    } else {
      ErasedBeforeCall(front, j, c);
    }
  }

  /** No caller ever gets the value of a flight that was erased before its call began. */
  lemma Freshness<V>(h: History<V>, j: nat, c: nat, i: nat)
    requires Lawful(h) && j < c < i < |h|
    requires h[j].Erased? && h[c].Called? && h[i].Returned? && h[c].pid == h[i].pid
    ensures h[i].flight != h[j].flight
  {
    EventAllowed(h, i);
    ErasedBeforeCall(h[..i], j, c);
  }

  /** An open flight of `key` is either still open at the end or has been erased since. */
  lemma {:induction false} OpenOrErased<V>(h: History<V>, i: nat, key: Key) returns (e: nat)
    requires Lawful(h) && i <= |h| && Open(h[..i], key).Some?
    ensures Open(h, key) == Open(h[..i], key)
         || (&& i <= e < |h| && h[e].Erased? && h[e].key == key && h[e].flight == Open(h[..i], key).value
             && ValueOf(h[..e], h[e].flight).Some? && StartOf(h[..e], h[e].flight) == Some(Owner(h[e].pid, key)))
  {
    e := 0;
    if i == |h| {
      assert h[..i] == h;
    } else {
      var front := h[..|h| - 1];
      assert front[..i] == h[..i];
      e := OpenOrErased(front, i, key);
      if Open(front, key) == Open(h[..i], key) {
        if h[|h| - 1].Erased? && h[|h| - 1].key == key {
          e := |h| - 1;
        }
      } else {
        assert front[..e] == h[..e];
      }
    }
  }

  /** Two flights of one key never overlap: before the second starts, the first has published its
      value and been erased. */
  lemma NoOverlap<V>(h: History<V>, i: nat, j: nat) returns (e: nat)
    requires Lawful(h) && i < j < |h|
    requires h[i].Started? && h[j].Started? && h[i].key == h[j].key
    ensures i < e < j && h[e] == Erased(h[i].pid, h[i].key, h[i].flight)
    ensures ValueOf(h[..e], h[i].flight).Some? && h[i].flight != h[j].flight
  {
    EventAllowed(h, j);
    var past := h[..j];
    assert past[..i + 1][..i] == h[..i];
    e := OpenOrErased(past, i + 1, h[i].key);
    assert past[..e] == h[..e];
    StartIsRemembered(past, i);
    assert past[..e][..i + 1] == past[..i + 1];
    PrefixLawful(past, e);
    StartStays(past[..e], i + 1, h[i].flight);
  }

  lemma {:induction false} StartIsRemembered<V>(h: History<V>, i: nat)
    requires i < |h| && h[i].Started?
    ensures StartOf(h, h[i].flight).Some?
  {
    if i < |h| - 1 {
      StartIsRemembered(h[..|h| - 1], i);
    }
  }

  // ---------- the same, about reachable states ----------

  /** The caller is the leader between its insert and its erase. */
  predicate IsLeader<V>(s: State<V>, p: Pid, key: Key) {
    p < |s.procs| && s.procs[p].key == key && Leads(s.procs[p].pc)
  }

  /** A key is pending exactly while some caller leads it, and at most one does; and starts minus
      erases counts the leaders. */
  lemma OneLeader<V>(s: State<V>, steps: seq<Step<V>>, t: State<V>, key: Key)
    requires Init(s) && Runs(s, steps, t)
    ensures t.table.FlightOf(key).Some? <==> exists p :: IsLeader(t, p, key)
    ensures forall p, q :: IsLeader(t, p, key) && IsLeader(t, q, key) ==> p == q
    ensures Starts(t.log, key) - Erases(t.log, key) == if t.table.FlightOf(key).Some? then 1 else 0
  {
    RunsAreLawful(s, steps, t);
    StartsMinusErases(t.log, key);
    if t.table.FlightOf(key).Some? {
      assert IsLeader(t, t.owners[t.table.FlightOf(key).value].pid, key);
    }
    forall p | IsLeader(t, p, key)
      ensures t.table.FlightOf(key).Some? && t.owners[t.table.FlightOf(key).value].pid == p
    {
      assert ProcOk(t, p);
    }
  }

  /** `completeTask` never reaches a throw, sets only the promise of its own leader, and erases
      only its own flight. */
  lemma CompletionIsOwn<V>(s: State<V>, steps: seq<Step<V>>, t: State<V>, p: Pid)
    requires Init(s) && Runs(s, steps, t) && p < |t.procs|
    ensures !t.procs[p].pc.Failed?
    ensures t.procs[p].pc.Publishing? ==>
              t.procs[p].pc.target == t.procs[p].pc.flight && t.table.CanFulfil(t.procs[p].pc.flight)
    ensures t.procs[p].pc.Erasing? ==>
              t.table.FlightOf(t.procs[p].key) == Some(t.procs[p].pc.flight)
  {
    RunsAreLawful(s, steps, t);
    assert ProcOk(t, p);
  }

  // ---------- the same, about the log of every run ----------

  /** Whatever the schedule: every returned value was published by the leader of its flight, which
      asked for the same key, and all callers of a flight return the same value. */
  lemma RunsAgree<V>(s: State<V>, steps: seq<Step<V>>, t: State<V>, i: nat, j: nat) returns (e: nat)
    requires Init(s) && Runs(s, steps, t)
    requires i < |t.log| && j < |t.log| && t.log[i].Returned? && t.log[j].Returned?
    ensures e < i && t.log[e] == Published(t.log[e].pid, t.log[i].flight, t.log[i].value)
    ensures t.log[i].flight < |t.owners| && t.log[i].pid < |t.procs|
    ensures t.owners[t.log[i].flight] == Owner(t.log[e].pid, t.procs[t.log[i].pid].key)
    ensures t.log[i].flight == t.log[j].flight ==> t.log[i].value == t.log[j].value
  {
    RunsAreLawful(s, steps, t);
    e := Agreement(t.log, i, j);
    StartStays(t.log, e, t.log[i].flight);
    CallStays(t.log, i, t.log[i].pid);
    assert RecordedProc(t, t.log[i].pid);
  }

  /** A caller calls once. */
  lemma {:induction false} CallStays<V>(h: History<V>, i: nat, pid: Pid)
    requires Lawful(h) && i <= |h| && CallKey(h[..i], pid).Some?
    ensures CallKey(h, pid) == CallKey(h[..i], pid)
  {
    if i == |h| {
      assert h[..i] == h;
    } else {
      assert h[..|h| - 1][..i] == h[..i];
      CallStays(h[..|h| - 1], i, pid);
    }
  }

  /** Whatever the schedule: no caller gets the value of a flight erased before its call. */
  lemma RunsAreFresh<V>(s: State<V>, steps: seq<Step<V>>, t: State<V>, j: nat, c: nat, i: nat)
    requires Init(s) && Runs(s, steps, t) && j < c < i < |t.log|
    requires t.log[j].Erased? && t.log[c].Called? && t.log[i].Returned? && t.log[c].pid == t.log[i].pid
    ensures t.log[i].flight != t.log[j].flight
  {
    RunsAreLawful(s, steps, t);
    Freshness(t.log, j, c, i);
  }

  /** Whatever the schedule: between two starts of one key, the first leader has published its
      value and erased its own flight. */
  lemma RunsNeverOverlap<V>(s: State<V>, steps: seq<Step<V>>, t: State<V>, i: nat, j: nat) returns (e: nat)
    requires Init(s) && Runs(s, steps, t) && i < j < |t.log|
    requires t.log[i].Started? && t.log[j].Started? && t.log[i].key == t.log[j].key
    ensures i < e < j && t.log[e] == Erased(t.log[i].pid, t.log[i].key, t.log[i].flight)
    ensures ValueOf(t.log[..e], t.log[i].flight).Some? && t.log[i].flight != t.log[j].flight
  {
    RunsAreLawful(s, steps, t);
    e := NoOverlap(t.log, i, j);
  }

  lemma {:induction false} EraseAfterCall<V>(h: History<V>, pid: Pid, key: Key) returns (c: nat, e: nat)
    requires Lawful(h) && CallKey(h, pid) == Some(key) && ErasedSince(h, pid, key)
    ensures c < e < |h| && h[c] == Called(pid, key) && h[e].Erased? && h[e].key == key
  {
    var front, last := h[..|h| - 1], h[|h| - 1];
    if last.Erased? && last.key == key {
      e := |h| - 1;
      c := CallOf(front, pid, key);
    } else {
      c, e := EraseAfterCall(front, pid, key);
    }
  }

  lemma {:induction false} CallOf<V>(h: History<V>, pid: Pid, key: Key) returns (c: nat)
    requires CallKey(h, pid) == Some(key)
    ensures c < |h| && h[c] == Called(pid, key)
  {
    if h[|h| - 1].Called? && h[|h| - 1].pid == pid {
      c := |h| - 1;
    } else {
      c := CallOf(h[..|h| - 1], pid, key);
    }
  }

  /** Whatever the schedule: a read is torn only by an erase of its key during the same call, after
      which nobody leads the key. */
  lemma RunsAreTornByErase<V>(s: State<V>, steps: seq<Step<V>>, t: State<V>, i: nat) returns (c: nat, e: nat)
    requires Init(s) && Runs(s, steps, t) && i < |t.log| && t.log[i].Torn?
    ensures c < e < i && t.log[c] == Called(t.log[i].pid, t.log[i].key)
    ensures t.log[e].Erased? && t.log[e].key == t.log[i].key && Open(t.log[..i], t.log[i].key) == None
  {
    RunsAreLawful(s, steps, t);
    EventAllowed(t.log, i);
    c, e := EraseAfterCall(t.log[..i], t.log[i].pid, t.log[i].key);
  }
}
