/** The adaptive storage object of src/static/quiz.js:232-296: a durable key/value store
    (the browser's localStorage) with an in-memory fallback map.

    Any call into the durable store may throw. The durable store's behaviour is an input
    of the model: `plan` lists, for each durable call in the order they happen, whether
    that call throws (true) or succeeds (false); once the plan is used up every call
    succeeds. A call that throws changes nothing in the durable store. */
module Storage {
  import opened Strings
  import opened Records

  datatype StoreState = StoreState(
    available: bool,
    data: map<string, Value>,
    durable: map<string, Value>,
    plan: seq<bool>)

  /** Whether the next durable call throws. */
  predicate NextThrows(s: StoreState) {
    |s.plan| > 0 && s.plan[0]
  }

  /** The plan after one durable call has been made. */
  function Consumed(s: StoreState): (r: StoreState)
    ensures r.available == s.available && r.data == s.data && r.durable == s.durable
    ensures |r.plan| == if |s.plan| > 0 then |s.plan| - 1 else 0
  {
    s.(plan := if |s.plan| > 0 then s.plan[1..] else [])
  }

  /** The key written and deleted by the availability probe: 'test_' + Date.now(). */
  function ProbeKey(now: nat): string {
    "test_" + NatToString(now)
  }

  /** `storage.init()` (quiz.js:236-249): write then delete a probe key. `available`
      ends true exactly when both durable calls succeed; memory is never touched. */
  function Probe(s: StoreState, now: nat): (r: (StoreState, bool))
    ensures r.1 == r.0.available
    ensures r.1 <==> !NextThrows(s) && !NextThrows(Consumed(s))
    ensures r.0.data == s.data
    ensures r.1 ==> r.0.durable == s.durable - {ProbeKey(now)}
    ensures NextThrows(s) ==> r.0.durable == s.durable
    ensures !NextThrows(s) && !r.1 ==> r.0.durable == s.durable[ProbeKey(now) := Raw(ProbeKey(now))]
  {
    var key := ProbeKey(now);
    if NextThrows(s) then (Consumed(s).(available := false), false)
    else
      var written := Consumed(s).(durable := s.durable[key := Raw(key)]);
      if NextThrows(written) then (Consumed(written).(available := false), false)
      else (Consumed(written).(available := true, durable := written.durable - {key}), true)
  }

  /** The durable write is attempted only while `available` holds. */
  predicate DurableWriteSucceeds(s: StoreState) {
    s.available && !NextThrows(s)
  }

  /** `storage.setItem(key, value)` (quiz.js:251-265): true after a durable write, which
      leaves memory alone; otherwise the value goes to memory, false is returned, and a
      durable call that threw turns `available` off. */
  function Set(s: StoreState, key: string, v: Value): (r: (StoreState, bool))
    ensures r.1 <==> DurableWriteSucceeds(s)
    ensures r.0.available == r.1
    ensures r.1 ==> r.0.data == s.data && r.0.durable == s.durable[key := v]
    ensures !r.1 ==> r.0.data == s.data[key := v] && r.0.durable == s.durable
  {
    if s.available then
      if NextThrows(s) then (Consumed(s).(available := false, data := s.data[key := v]), false)
      else (Consumed(s).(durable := s.durable[key := v]), true)
    else (s.(data := s.data[key := v]), false)
  }

  /** `this.data[key] || null`: a missing key and the empty string both give null. */
  function MemoryLookup(data: map<string, Value>, key: string): (r: Option<Value>)
    ensures r.Some? <==> key in data && Truthy(data[key])
    ensures r.Some? ==> r.value == data[key]
  {
    if key in data && Truthy(data[key]) then Some(data[key]) else None
  }

  /** Whether `getItem` answers from the durable store. */
  predicate ReadsDurable(s: StoreState, key: string) {
    s.available && !NextThrows(s) && key in s.durable
  }

  /** `storage.getItem(key)` (quiz.js:267-282): the durable value when the store is
      available, the call succeeds and the key is present (even an empty string);
      otherwise the memory copy, with a falsy one read as null. A throwing call turns
      `available` off. Neither map changes. */
  function Get(s: StoreState, key: string): (r: (StoreState, Option<Value>))
    ensures ReadsDurable(s, key) ==> r.1 == Some(s.durable[key])
    ensures !ReadsDurable(s, key) ==> r.1 == MemoryLookup(s.data, key)
    ensures r.0.available == (s.available && !NextThrows(s))
    ensures r.0.data == s.data && r.0.durable == s.durable
  {
    if s.available then
      if NextThrows(s) then (Consumed(s).(available := false), MemoryLookup(s.data, key))
      else if key in s.durable then (Consumed(s), Some(s.durable[key]))
      else (Consumed(s), MemoryLookup(s.data, key))
    else (s, MemoryLookup(s.data, key))
  }

  /** `storage.removeItem(key)` (quiz.js:284-295): the memory copy is always deleted;
      the durable copy only when the durable call succeeds. A throwing remove is only
      logged: `available` stays as it was. */
  function Remove(s: StoreState, key: string): (r: StoreState)
    ensures r.data == s.data - {key}
    ensures r.durable == if DurableWriteSucceeds(s) then s.durable - {key} else s.durable
    ensures r.available == s.available
  {
    if s.available then
      if NextThrows(s) then Consumed(s).(data := s.data - {key})
      else Consumed(s).(durable := s.durable - {key}, data := s.data - {key})
    else s.(data := s.data - {key})
  }

  /** Reading back what was just written gives the written value, as long as the read
      is not answered from a stale memory copy: a durable write leaves memory untouched,
      so a read whose durable call throws falls back to whatever memory held. */
  lemma SetThenGet(s: StoreState, key: string, v: Value)
    requires Truthy(v)
    ensures var (s1, ok) := Set(s, key, v);
            var (_, got) := Get(s1, key);
            (!ok || !NextThrows(s1)) ==> got == Some(v)
    ensures var (s1, ok) := Set(s, key, v);
            var (_, got) := Get(s1, key);
            (ok && NextThrows(s1)) ==> got == MemoryLookup(s.data, key)
  {
  }

  /** Once `available` is off, no call of the adapter turns it back on: only `init` can. */
  lemma FallbackIsPermanent(s: StoreState, key: string, v: Value)
    requires !s.available
    ensures !Set(s, key, v).0.available && !Get(s, key).0.available && !Remove(s, key).available
    ensures Set(s, key, v).0.durable == s.durable && Remove(s, key).durable == s.durable
    ensures Set(s, key, v).0.plan == s.plan && Get(s, key).0.plan == s.plan
  {
  }

  /** A store whose durable calls all throw: `init` turns it off, and from then on it
      behaves as the plain memory map. The durable store never changes. */
  lemma AlwaysThrowingStore(s: StoreState, now: nat, key: string, v: Value)
    requires |s.plan| >= 2 && s.plan[0] && s.plan[1]
    requires Truthy(v)
    ensures var (s1, ok) := Probe(s, now);
            && !ok && s1.durable == s.durable
            && Set(s1, key, v).0.durable == s.durable
            && Get(Set(s1, key, v).0, key).1 == Some(v)
            && Get(Remove(Set(s1, key, v).0, key), key).1 == None
  {
  }

  /** No durable call made from this state on throws. */
  predicate Reliable(s: StoreState) {
    forall j :: 0 <= j < |s.plan| ==> !s.plan[j]
  }

  /** Under a reliable durable store every call of the adapter succeeds, and the store
      stays reliable. */
  lemma ReliableStaysReliable(s: StoreState, key: string, v: Value)
    requires Reliable(s)
    ensures !NextThrows(s) && Reliable(Consumed(s))
    ensures Reliable(Set(s, key, v).0) && Reliable(Get(s, key).0) && Reliable(Remove(s, key))
  {
    assert forall j :: 0 <= j < |Consumed(s).plan| ==> Consumed(s).plan[j] == s.plan[j + 1];
  }

  /** The storage object. Its durable store is the browser's localStorage, shared with
      the cleanup pass (quiz.js:347-371) that talks to localStorage directly. */
  class Store {
    var available: bool
    var data: map<string, Value>
    var durable: map<string, Value>
    var plan: seq<bool>

    function State(): StoreState
      reads this
    {
      StoreState(available, data, durable, plan)
    }

    /** The object literal of quiz.js:232-234 over an existing localStorage. */
    constructor (existing: map<string, Value>, faults: seq<bool>)
      ensures State() == StoreState(false, map[], existing, faults)
    {
      available := false;
      data := map[];
      durable := existing;
      plan := faults;
    }

    /** One durable call is about to happen: reports whether it throws. */
    method CallThrows() returns (throws: bool)
      modifies this
      ensures throws == NextThrows(old(State()))
      ensures State() == Consumed(old(State()))
    {
      throws := |plan| > 0 && plan[0];
      plan := if |plan| > 0 then plan[1..] else [];
    }

    method Init(now: nat) returns (ok: bool)
      modifies this
      ensures (State(), ok) == Probe(old(State()), now)
    {
      var key := ProbeKey(now);
      var throws := CallThrows();
      if throws {
        available := false;
        return false;
      }
      durable := durable[key := Raw(key)];
      throws := CallThrows();
      if throws {
        available := false;
        return false;
      }
      durable := durable - {key};
      available := true;
      return true;
    }

    method SetItem(key: string, value: Value) returns (ok: bool)
      modifies this
      ensures (State(), ok) == Set(old(State()), key, value)
    {
      if available {
        var throws := CallThrows();
        if !throws {
          durable := durable[key := value];
          return true;
        }
        available := false;
      }
      data := data[key := value];
      return false;
    }

    method GetItem(key: string) returns (value: Option<Value>)
      modifies this
      ensures (State(), value) == Get(old(State()), key)
    {
      if available {
        var throws := CallThrows();
        if !throws {
          if key in durable {
            return Some(durable[key]);
          }
        } else {
          available := false;
        }
      }
      value := MemoryLookup(data, key);
    }

    method RemoveItem(key: string)
      modifies this
      ensures State() == Remove(old(State()), key)
    {
      if available {
        var throws := CallThrows();
        if !throws {
          durable := durable - {key};
        }
      }
      data := data - {key};
    }
  }
}
