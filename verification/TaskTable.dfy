/** The table of pending tasks: its pure operations, and the class whose methods perform them. */
module TaskTable {
  import opened Wrappers

  type Key = string

  /** One computation of one key, from `startTask` on; the index of its promise. */
  type Flight = nat

  /** A value of `std::any`: the promise and future of a flight, or nothing. */
  datatype Entry = Empty | Pending(flight: Flight)

  datatype TaskError = NoTaskForKey | PromiseAlreadySatisfied | BadAnyCast

  datatype Outcome<+V> = Completed(value: V) | Thrown(error: TaskError)

  /** `pendingTasks_`, and the shared state of every promise ever made: empty until it is set. */
  datatype Table<V> = Table(entries: map<Key, Entry>, slots: seq<Option<V>>) {
    /** The flight pending under `key`. */
    function FlightOf(key: Key): Option<Flight> {
      if key in entries && entries[key].Pending? then Some(entries[key].flight) else None
    }

    /** Reading with `operator[]` puts an empty entry where there is none. */
    function Touch(key: Key): Table<V> {
      if key in entries then this else this.(entries := entries[key := Empty])
    }

    function Start(key: Key): Table<V> {
      Table(entries[key := Pending(|slots|)], slots + [None])
    }

    predicate CanFulfil(flight: Flight) {
      flight < |slots| && slots[flight].None?
    }

    function Fulfil(flight: Flight, value: V): Table<V>
      requires CanFulfil(flight)
    {
      this.(slots := slots[flight := Some(value)])
    }

    function Erase(key: Key): Table<V> {
      this.(entries := entries - {key})
    }

    /** What an uninterrupted `getOrStartTask` answers and leaves behind. */
    function GetOrStart(key: Key): (Outcome<Option<Flight>>, Table<V>) {
      if key !in entries then (Completed(None), Start(key))
      else if entries[key].Empty? then (Thrown(BadAnyCast), this)
      else (Completed(Some(entries[key].flight)), this)
    }
  }

  class CacheableService<V> {
    var pendingTasks: map<Key, Entry>
    var promises: seq<Option<V>>

    function Current(): Table<V>
      reads this
    {
      Table(pendingTasks, promises)
    }

    constructor ()
      ensures Current() == Table(map[], [])
    {
      pendingTasks, promises := map[], [];
    }

    method GetPendingTask(key: Key) returns (pending: Outcome<Option<Flight>>)
      ensures pending == if key in Current().entries && Current().entries[key].Empty? then Thrown(BadAnyCast)
                         else Completed(Current().FlightOf(key))
    {
      if key in pendingTasks {
        if pendingTasks[key].Empty? {
          return Thrown(BadAnyCast);
        }
        return Completed(Some(pendingTasks[key].flight));
      }
      return Completed(None);
    }

    /** The body of `startTask`, all of it under the mutex. */
    method StartTask(key: Key) returns (pending: Outcome<Option<Flight>>)
      modifies this
      ensures (pending, Current()) == old(Current()).GetOrStart(key)
    {
      if key in pendingTasks {
        if pendingTasks[key].Empty? {
          return Thrown(BadAnyCast);
        }
        return Completed(Some(pendingTasks[key].flight));
      }
      promises := promises + [None];
      pendingTasks := pendingTasks[key := Pending(|promises| - 1)];
      return Completed(None);
    }

    /** Without interference the unlocked read is the same test as the locked one. */
    method GetOrStartTask(key: Key) returns (pending: Outcome<Option<Flight>>)
      modifies this
      ensures (pending, Current()) == old(Current()).GetOrStart(key)
    {
      pending := GetPendingTask(key);
      if pending.Thrown? || pending.value.Some? {
        return pending;
      }
      pending := StartTask(key);
    }

    /** Sets the promise of whatever flight is pending under `key`, then erases the entry. */
    method CompleteTask(key: Key, value: V) returns (r: Outcome<V>)
      requires forall k :: k in pendingTasks && pendingTasks[k].Pending? ==> pendingTasks[k].flight < |promises|
      modifies this
      ensures var before := old(Current());
              if key !in before.entries then r == Thrown(NoTaskForKey) && Current() == before
              else if before.entries[key].Empty? then r == Thrown(BadAnyCast) && Current() == before
              else if !before.CanFulfil(before.entries[key].flight)
              then r == Thrown(PromiseAlreadySatisfied) && Current() == before
              else && r == Completed(value)
                   && Current() == before.Fulfil(before.entries[key].flight, value).Erase(key)
    {
      if key !in pendingTasks {
        return Thrown(NoTaskForKey);
      }
      if pendingTasks[key].Empty? {
        return Thrown(BadAnyCast);
      }
      var flight := pendingTasks[key].flight;
      if promises[flight].Some? {
        return Thrown(PromiseAlreadySatisfied);
      }
      promises := promises[flight := Some(value)];
      pendingTasks := pendingTasks - {key};
      return Completed(value);
    }
  }
}
