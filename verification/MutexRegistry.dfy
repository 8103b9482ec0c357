/** The registry of host mutexes behind guest mutexes, and its index cache
    (native/src/compat_runtime.c). */
module MutexRegistry {
  import opened Options

  const CACHE_SIZE: nat := 1024
  const FIRST_CAPACITY: nat := 1024

  datatype Entry = Entry(address: nat, mutex: nat)

  /** What the host grants: an address for a new mutex, memory for a larger table, and whether a
      mutex can be initialised. */
  datatype Host = Host(mutex: Option<nat>, table: bool, works: bool)

  /** The simple form: which mutex is bound to which guest address, and the ones to recycle. */
  datatype Registry = Registry(bindings: map<nat, nat>, free: seq<nat>, capacity: nat)

  datatype Event =
    | Resolve(address: nat, create: bool, host: Host)
    | Initialize(address: nat, host: Host)
    | Destroy(address: nat, status: int)

  function Capacity(r: Registry): nat {
    if |r.bindings| == r.capacity then (if r.capacity == 0 then FIRST_CAPACITY else 2 * r.capacity) else r.capacity
  }

  /** A mutex for a new binding: recycled if one is free, else from the host. */
  function Candidate(r: Registry, host: Host): Option<nat> {
    if r.free != [] then Some(r.free[0]) else host.mutex
  }

  function Rest(r: Registry): seq<nat> {
    if r.free != [] then r.free[1..] else []
  }

  predicate Creates(r: Registry, host: Host)
  {
    (|r.bindings| == r.capacity ==> host.table) && Candidate(r, host).Some? && host.works
  }

  /** host_mutex_for_guest for an address that has no mutex. A mutex that cannot be initialised
      is given back to the host. */
  function AddMutex(r: Registry, address: nat, host: Host): Registry
  {
    if |r.bindings| == r.capacity && !host.table then r
    else if !Creates(r, host) then r.(free := Rest(r), capacity := Capacity(r))
    else Registry(r.bindings[address := Candidate(r, host).value], Rest(r), Capacity(r))
  }

  function Step(r: Registry, e: Event): Registry
  {
    match e
    case Resolve(address, create, host) => if address in r.bindings || !create then r else AddMutex(r, address, host)
    case Initialize(address, host) => if address in r.bindings then r else AddMutex(r, address, host)
    case Destroy(address, status) =>
      if address !in r.bindings || status != 0 then r
      else r.(bindings := r.bindings - {address}, free := [r.bindings[address]] + r.free)
  }

  /** What asking for an address's mutex does: a binding that is there is the answer; else, when one is to
      be made and the host plays along, the mutex recycled last is bound, or a new one. */
  predicate Answers(r: Registry, address: nat, create: bool, host: Host, r': Registry, mutex: Option<nat>)
  {
    var full := |r.bindings| == r.capacity;
    if address in r.bindings then mutex == Some(r.bindings[address]) && r' == r
    else if !create then mutex == None && r' == r
    else if full && !host.table then mutex == None && r' == r
    else if !host.works || (r.free == [] && host.mutex == None) then
      mutex == None && r'.bindings == r.bindings && r'.free == (if r.free == [] then [] else r.free[1..])
    else
      && mutex == (if r.free == [] then host.mutex else Some(r.free[0]))
      && r'.bindings == r.bindings[address := mutex.value] && r'.free == (if r.free == [] then [] else r.free[1..])
      && r'.capacity == if !full then r.capacity else if r.capacity == 0 then 1024 else r.capacity + r.capacity
  }

  lemma ResolveAnswers(r: Registry, address: nat, create: bool, host: Host)
    ensures var r' := Step(r, Resolve(address, create, host));
            Answers(r, address, create, host, r', if address in r'.bindings then Some(r'.bindings[address]) else None)
    ensures Step(r, Initialize(address, host)) == Step(r, Resolve(address, true, host))
  {
  }

  /** What destroying does: a bound address is unbound if the host lets its mutex go, which is then the next to
      be recycled. */
  predicate Unbinds(r: Registry, address: nat, status: int, r': Registry)
  {
    if address in r.bindings && status == 0 then
      && address !in r'.bindings && r'.free == [r.bindings[address]] + r.free && r'.capacity == r.capacity
      && (forall a :: a in r'.bindings ==> a in r.bindings && r'.bindings[a] == r.bindings[a])
      && (forall a :: a in r.bindings && a != address ==> a in r'.bindings)
    else r' == r
  }

  lemma DestroyUnbinds(r: Registry, address: nat, status: int)
    ensures Unbinds(r, address, status, Step(r, Destroy(address, status)))
  {
  }

  /** A mutex let go is the one that the next address gets, whatever the host has to offer. */
  lemma DestroyedIsRecycled(r: Registry, address: nat, other: nat, host: Host)
    requires address in r.bindings && (other == address || other !in r.bindings) && host.works && host.table
    ensures var r' := Step(Step(r, Destroy(address, 0)), Resolve(other, true, host));
            other in r'.bindings && r'.bindings[other] == r.bindings[address] && r'.free == r.free
  {
    DestroyUnbinds(r, address, 0);
    ResolveAnswers(Step(r, Destroy(address, 0)), other, true, host);
    hide Step;
  }

  function Resolved(r: Registry, address: nat): Option<nat> {
    if address in r.bindings then Some(r.bindings[address]) else None
  }

  // ---------------------------------------------------------------- the table as a map

  predicate Distinct(entries: seq<Entry>) {
    forall i, j :: 0 <= i < j < |entries| ==> entries[i].address != entries[j].address
  }

  function Bindings(entries: seq<Entry>): (m: map<nat, nat>)
  {
    if entries == [] then map[]
    else Bindings(entries[..|entries| - 1])[entries[|entries| - 1].address := entries[|entries| - 1].mutex]
  }

  lemma {:induction false} BindingsMeans(entries: seq<Entry>)
    requires Distinct(entries)
    ensures |Bindings(entries)| == |entries|
    ensures forall i :: 0 <= i < |entries| ==>
            entries[i].address in Bindings(entries) && Bindings(entries)[entries[i].address] == entries[i].mutex
    ensures forall a :: a in Bindings(entries) ==> exists i :: 0 <= i < |entries| && entries[i].address == a
  {
    if entries != [] {
      var front, last := entries[..|entries| - 1], entries[|entries| - 1];
      BindingsMeans(front);
      assert forall i :: 0 <= i < |front| ==> entries[i] == front[i];
      assert entries[|entries| - 1].address == last.address;
    }
  }

  lemma Sized(entries: seq<Entry>)
    requires Distinct(entries)
    ensures |Bindings(entries)| == |entries|
  {
    BindingsMeans(entries);
  }

  lemma NotBound(entries: seq<Entry>, address: nat)
    requires Distinct(entries) && forall i :: 0 <= i < |entries| ==> entries[i].address != address
    ensures address !in Bindings(entries)
  {
    BindingsMeans(entries);
  }

  /** Entry `i` replaced by the last one. */
  function Removed(entries: seq<Entry>, i: nat): (r: seq<Entry>)
    requires i < |entries|
    ensures |r| == |entries| - 1
  {
    entries[i := entries[|entries| - 1]][..|entries| - 1]
  }

  lemma RemovedDistinct(entries: seq<Entry>, i: nat)
    requires Distinct(entries) && i < |entries|
    ensures Distinct(Removed(entries, i))
    ensures forall k :: 0 <= k < |entries| - 1 ==>
            Removed(entries, i)[k] == entries[if k == i then |entries| - 1 else k]
  {
  }

  lemma RemovedBindings(entries: seq<Entry>, i: nat)
    requires Distinct(entries) && i < |entries|
    ensures Distinct(Removed(entries, i)) && Bindings(Removed(entries, i)) == Bindings(entries) - {entries[i].address}
  {
    var r := Removed(entries, i);
    RemovedDistinct(entries, i);
    var m := Bindings(entries) - {entries[i].address};
    hide Bindings, Removed, Distinct;
    forall a | a in Bindings(r) ensures a in m && m[a] == Bindings(r)[a] {
      RemovedEntry(entries, r, i, a);
    }
    forall a | a in m ensures a in Bindings(r) {
      KeptEntry(entries, r, i, a);
    }
  }

  lemma KeptEntry(entries: seq<Entry>, r: seq<Entry>, i: nat, a: nat)
    requires Distinct(entries) && i < |entries| && |r| == |entries| - 1 && Distinct(r)
    requires forall k :: 0 <= k < |r| ==> r[k] == entries[if k == i then |entries| - 1 else k]
    requires a in Bindings(entries) && a != entries[i].address
    ensures a in Bindings(r)
  {
    BindingsMeans(entries);
    BindingsMeans(r);
    hide Bindings, Distinct;
    var k :| 0 <= k < |entries| && entries[k].address == a;
    assert r[if k == |entries| - 1 then i else k] == entries[k];
  }

  lemma RemovedEntry(entries: seq<Entry>, r: seq<Entry>, i: nat, a: nat)
    requires Distinct(entries) && i < |entries| && |r| == |entries| - 1
    requires forall k :: 0 <= k < |r| ==> r[k] == entries[if k == i then |entries| - 1 else k]
    requires Distinct(r) && a in Bindings(r)
    ensures a in Bindings(entries) && a != entries[i].address && Bindings(entries)[a] == Bindings(r)[a]
  {
    BindingsMeans(entries);
    BindingsMeans(r);
    hide Bindings;
    var k :| 0 <= k < |r| && r[k].address == a;
    var k' := if k == i then |entries| - 1 else k;
    assert r[k] == entries[k'] && k' != i;
  }

  lemma AddedBindings(entries: seq<Entry>, e: Entry)
    requires Distinct(entries) && forall i :: 0 <= i < |entries| ==> entries[i].address != e.address
    ensures Distinct(entries + [e]) && |Bindings(entries)| == |entries|
    ensures Bindings(entries + [e]) == Bindings(entries)[e.address := e.mutex]
  {
    BindingsMeans(entries);
    assert (entries + [e])[..|entries|] == entries;
  }

  class Mutexes {
    var entries: array<Entry>
    var count: nat
    const cache: array<nat>
    var free: seq<nat>
    var released: nat

    ghost predicate Valid()
      reads this, entries
    {
      count <= entries.Length && Distinct(entries[..count]) && cache.Length == CACHE_SIZE
    }

    ghost function Contents(): Registry
      reads this, entries
      requires Valid()
    {
      Registry(Bindings(entries[..count]), free, entries.Length)
    }

    constructor ()
      ensures Valid() && Contents() == Registry(map[], [], 0) && fresh(entries) && fresh(cache)
    {
      entries := new Entry[0];
      cache := new nat[CACHE_SIZE](_ => 0);
      count, free, released := 0, [], 0;
    }

    /** The linear scan. */
    method Scan(address: nat) returns (index: nat)
      requires Valid()
      ensures index <= count
      ensures index < count ==> entries[index].address == address
      ensures index == count ==> forall i :: 0 <= i < count ==> entries[i].address != address
    {
      index := 0;
      while index < count && entries[index].address != address
        invariant index <= count && forall i :: 0 <= i < index ==> entries[i].address != address
      {
        index := index + 1;
      }
    }

    /** create_host_mutex. */
    method CreateMutex(host: Host) returns (mutex: Option<nat>)
      requires Valid()
      modifies this`free
      ensures free == Rest(old(Contents()))
      ensures mutex == if host.works then Candidate(old(Contents()), host) else None
    {
      mutex := host.mutex;
      if free != [] {
        mutex := Some(free[0]);
        free := free[1..];
      }
      if !host.works {
        mutex := None;
      }
    }

    /** Twice the room, the same entries. */
    method Grow()
      requires Valid() && count == entries.Length
      modifies this`entries
      ensures Valid() && fresh(entries) && entries.Length == Capacity(old(Contents())) > count
      ensures entries[..count] == old(entries[..count])
    {
      Sized(entries[..count]);
      hide Distinct, Bindings;
      var grown := new Entry[if entries.Length == 0 then FIRST_CAPACITY else 2 * entries.Length](_ => Entry(0, 0));
      forall i | 0 <= i < count {
        grown[i] := entries[i];
      }
      entries := grown;
    }

    /** A new last entry, and the cache's guess for it. */
    method Put(address: nat, mutex: nat)
      requires Valid() && count < entries.Length && forall i :: 0 <= i < count ==> entries[i].address != address
      modifies this`count, entries, cache
      ensures Valid() && Contents() == old(Contents()).(bindings := old(Contents()).bindings[address := mutex])
    {
      AddedBindings(entries[..count], Entry(address, mutex));
      ghost var before := entries[..count];
      cache[address / 8 % CACHE_SIZE] := count;
      entries[count] := Entry(address, mutex);
      count := count + 1;
      assert entries[..count] == before + [Entry(address, mutex)];
    }

    method Add(address: nat, host: Host) returns (mutex: Option<nat>)
      requires Valid() && forall i :: 0 <= i < count ==> entries[i].address != address
      modifies this, entries, cache
      ensures Valid() && (entries == old(entries) || fresh(entries)) && released == old(released)
      ensures Contents() == AddMutex(old(Contents()), address, host)
      ensures mutex == if Creates(old(Contents()), host) then Candidate(old(Contents()), host) else None
    {
      ghost var r, before := Contents(), entries[..count];
      Sized(before);
      if count == entries.Length && !host.table {
        return None;
      }
      if count == entries.Length {
        Grow();
      }
      mutex := CreateMutex(host);
      if mutex.Some? {
        Put(address, mutex.value);
      }
    }

    /** host_mutex_for_guest. The cache may hold anything: what it says is checked. */
    method HostMutex(address: nat, create: bool, host: Host) returns (mutex: Option<nat>)
      requires Valid()
      modifies this, entries, cache
      ensures Valid() && (entries == old(entries) || fresh(entries)) && released == old(released)
      ensures Contents() == Step(old(Contents()), Resolve(address, create, host))
      ensures mutex == Resolved(Contents(), address)
      ensures Answers(old(Contents()), address, create, host, Contents(), mutex)
    {
      ResolveAnswers(Contents(), address, create, host);
      hide Answers;
      BindingsMeans(entries[..count]);
      var cached := cache[address / 8 % CACHE_SIZE];
      if cached < count && entries[cached].address == address {
        assert entries[..count][cached] == entries[cached];
        return Some(entries[cached].mutex);
      }
      var index := Scan(address);
      if index < count {
        cache[address / 8 % CACHE_SIZE] := index;
        assert entries[..count][index] == entries[index];
        return Some(entries[index].mutex);
      }
      NotBound(entries[..count], address);
      if !create {
        return None;
      }
      mutex := Add(address, host);
    }

    /** guest_mutex_initialize. The host object of a known address is kept, in either state. */
    method InitializeMutex(address: nat, host: Host) returns (ok: bool)
      requires Valid()
      modifies this, entries, cache
      ensures Valid() && (entries == old(entries) || fresh(entries)) && released == old(released)
      ensures Contents() == Step(old(Contents()), Initialize(address, host))
      ensures ok <==> address in Contents().bindings
    {
      BindingsMeans(entries[..count]);
      var index := Scan(address);
      if index < count {
        assert entries[..count][index] == entries[index];
        return true;
      }
      NotBound(entries[..count], address);
      var mutex := HostMutex(address, true, host);
      ok := mutex.Some?;
    }

    /** The last entry takes the place of entry `index`. */
    method Remove(index: nat)
      requires Valid() && index < count
      modifies this`count, entries
      ensures Valid()
      ensures Contents() == old(Contents()).(bindings := old(Contents()).bindings - {old(entries[index].address)})
    {
      ghost var before := entries[..count];
      RemovedBindings(before, index);
      count := count - 1;
      entries[index] := entries[count];
      assert entries[..count] == Removed(before, index);
    }

    /** guest_mutex_destroy; `status` is what the host says. */
    method DestroyMutex(address: nat, status: int) returns (answer: int)
      requires Valid()
      modifies this, entries
      ensures Valid() && entries == old(entries)
      ensures Contents() == Step(old(Contents()), Destroy(address, status))
      ensures Unbinds(old(Contents()), address, status, Contents())
      ensures answer == if address in old(Contents()).bindings then status else 0
      ensures released == old(released) + (if address in old(Contents()).bindings && status == 0 then 1 else 0)
    {
      DestroyUnbinds(Contents(), address, status);
      hide Unbinds;
      BindingsMeans(entries[..count]);
      var index := Scan(address);
      if index == count {
        NotBound(entries[..count], address);
        return 0;
      }
      assert entries[..count][index] == entries[index];
      hide Distinct, Bindings;
      if status == 0 {
        free := [entries[index].mutex] + free;
        Remove(index);
        released := released + 1;
      }
      answer := status;
    }
  }

  // ---------------------------------------------------------------- every mutex in one place

  /** No mutex is bound twice, on the free list twice, or both bound and free. */
  ghost predicate OnePlace(r: Registry)
  {
    && (forall a, b :: a in r.bindings && b in r.bindings && r.bindings[a] == r.bindings[b] ==> a == b)
    && (forall i, j :: 0 <= i < j < |r.free| ==> r.free[i] != r.free[j])
    && (forall a, i :: a in r.bindings && 0 <= i < |r.free| ==> r.bindings[a] != r.free[i])
  }

  /** The host hands out memory that is not in use. */
  ghost predicate Fresh(r: Registry, e: Event)
  {
    (e.Resolve? || e.Initialize?) && e.host.mutex.Some? ==>
      e.host.mutex.value !in r.bindings.Values && e.host.mutex.value !in r.free
  }

  lemma StepKeeps(r: Registry, e: Event)
    requires OnePlace(r) && Fresh(r, e)
    ensures OnePlace(Step(r, e))
  {
  }

  function Run(r: Registry, events: seq<Event>): Registry
    decreases |events|
  {
    if events == [] then r else Run(Step(r, events[0]), events[1..])
  }

  ghost predicate AllFresh(r: Registry, events: seq<Event>)
    decreases |events|
  {
    events == [] || (Fresh(r, events[0]) && AllFresh(Step(r, events[0]), events[1..]))
  }

  /** After any mix of lookups, creations and destructions. */
  lemma {:induction false} RunKeeps(r: Registry, events: seq<Event>)
    requires OnePlace(r) && AllFresh(r, events)
    ensures OnePlace(Run(r, events))
    decreases |events|
  {
    hide OnePlace, Fresh, Step;
    if events != [] {
      StepKeeps(r, events[0]);
      RunKeeps(Step(r, events[0]), events[1..]);
    }
  }

  /** A destroyed address stays unbound until somebody asks for its mutex again. */
  lemma {:induction false} StaysUnbound(r: Registry, events: seq<Event>, address: nat)
    requires address !in r.bindings
    requires forall k :: 0 <= k < |events| ==>
               !(events[k].Resolve? && events[k].address == address && events[k].create)
                 && !(events[k].Initialize? && events[k].address == address)
    ensures address !in Run(r, events).bindings
    decreases |events|
  {
    if events != [] {
      StaysUnbound(Step(r, events[0]), events[1..], address);
    }
  }

  /** A binding lasts until the address is destroyed: a guest never changes locks in between. */
  lemma {:induction false} BindingLasts(r: Registry, events: seq<Event>, address: nat)
    requires address in r.bindings
    requires forall k :: 0 <= k < |events| ==> events[k] != Destroy(address, 0)
    ensures address in Run(r, events).bindings && Run(r, events).bindings[address] == r.bindings[address]
    decreases |events|
  {
    if events != [] {
      assert events[0] != Destroy(address, 0);
      BindingLasts(Step(r, events[0]), events[1..], address);
    }
  }
}
