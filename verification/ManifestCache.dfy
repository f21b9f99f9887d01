/**
 The resolver's in-memory cache of positive and negative answers. Every call is
 one critical section, so a run is any interleaving of calls, at clock readings
 that never go back.
 */
module ManifestCache {
  import opened Outcome

  datatype Item<V> = Item(value: V, expires: int)

  datatype State<V> = State(items: map<string, Item<V>>, negated: map<string, int>)

  datatype Lifetimes = Lifetimes(ttl: int, negTtl: int)

  datatype Call<V> =
    | Get(key: string, now: int)
    | Negative(key: string, now: int)
    | Put(key: string, value: V, now: int)
    | PutNegative(key: string, now: int)

  function Fresh<V>(s: State<V>, key: string, now: int): Option<V> {
    if key in s.items && now <= s.items[key].expires then Some(s.items[key].value) else None
  }

  predicate IsNegative<V>(s: State<V>, key: string, now: int) { key in s.negated && now <= s.negated[key] }

  /** The state after one call. */
  function After<V>(s: State<V>, lt: Lifetimes, call: Call<V>): State<V> {
    match call
    case Get(key, now) => if Fresh(s, key, now).Some? then s else s.(items := s.items - {key})
    case Negative(key, now) => s
    case Put(key, value, now) => State(s.items[key := Item(value, now + lt.ttl)], s.negated - {key})
    case PutNegative(key, now) => State(s.items - {key}, s.negated[key := now + lt.negTtl])
  }

  function Run<V>(lt: Lifetimes, calls: seq<Call<V>>): State<V> {
    if calls == [] then State(map[], map[])
    else After(Run(lt, calls[..|calls| - 1]), lt, calls[|calls| - 1])
  }

  predicate Monotone<V>(calls: seq<Call<V>>) {
    forall i, j :: 0 <= i < j < |calls| ==> calls[i].now <= calls[j].now
  }

  /** The last call that stored an answer under `key`: its position, or -1. */
  function LastStore<V>(calls: seq<Call<V>>, key: string): (i: int)
    ensures -1 <= i < |calls|
    ensures i >= 0 ==> (calls[i].Put? || calls[i].PutNegative?) && calls[i].key == key
    ensures forall j :: i < j < |calls| && (calls[j].Put? || calls[j].PutNegative?) ==> calls[j].key != key
  {
    if calls == [] then -1
    else
      var last := |calls| - 1;
      if (calls[last].Put? || calls[last].PutNegative?) && calls[last].key == key then last
      else LastStore(calls[..last], key)
  }

  /** What the history of calls says of one key. */
  ghost predicate Explained<V>(s: State<V>, lt: Lifetimes, calls: seq<Call<V>>, key: string) {
    var i := LastStore(calls, key);
    && (key in s.items ==> i >= 0 && calls[i].Put? && s.items[key] == Item(calls[i].value, calls[i].now + lt.ttl))
    && (key in s.negated <==> i >= 0 && calls[i].PutNegative?)
    && (key in s.negated ==> s.negated[key] == calls[i].now + lt.negTtl)
    && (i >= 0 && calls[i].Put? && key !in s.items ==>
          exists j :: i < j < |calls| && calls[j].Get? && calls[j].now > calls[i].now + lt.ttl)
  }

  /** In every run the maps say of each key what its last store said, or nothing once that has expired. */
  lemma {:induction false} RunIsExplained<V>(lt: Lifetimes, calls: seq<Call<V>>, key: string)
    ensures Explained(Run(lt, calls), lt, calls, key)
  {
    if calls != [] {
      var before, last := calls[..|calls| - 1], |calls| - 1;
      RunIsExplained(lt, before, key);
      var i := LastStore(before, key);
      var s := Run(lt, before);
      var call := calls[last];
      if call.key == key && call.Get? && i >= 0 && before[i].Put? && key in s.items && Fresh(s, key, call.now).None? {
      } else if i >= 0 && before[i].Put? && key !in s.items {
        var j :| i < j < |before| && before[j].Get? && before[j].now > before[i].now + lt.ttl;
        assert calls[j] == before[j];
      }
    }
  }

  /** No key is ever held both ways. */
  lemma {:induction false} NeverBoth<V>(lt: Lifetimes, calls: seq<Call<V>>)
    ensures Run(lt, calls).items.Keys !! Run(lt, calls).negated.Keys
  {
    forall key
      ensures !(key in Run(lt, calls).items && key in Run(lt, calls).negated)
    {
      RunIsExplained(lt, calls, key);
    }
  }

  /**
   Bounded staleness, exactly: a key answers at time `now` what its last store said,
   as long as that store is no older than its lifetime, and otherwise nothing.
   */
  lemma {:induction false} AnswersAreTheLastStore<V>(lt: Lifetimes, calls: seq<Call<V>>, key: string, now: int)
    requires Monotone(calls) && forall i :: 0 <= i < |calls| ==> calls[i].now <= now
    ensures var s, i := Run(lt, calls), LastStore(calls, key);
            && Fresh(s, key, now)
               == (if i >= 0 && calls[i].Put? && now <= calls[i].now + lt.ttl then Some(calls[i].value) else None)
            && (IsNegative(s, key, now) <==> i >= 0 && calls[i].PutNegative? && now <= calls[i].now + lt.negTtl)
            && (i >= 0 ==> calls[i].now <= now)
  {
    RunIsExplained(lt, calls, key);
  }

  /** Whatever holds of every value when it is stored holds of every answer. */
  lemma {:induction false} AnswersWereStored<V>(lt: Lifetimes, calls: seq<Call<V>>, key: string, now: int, sound: (string, V) -> bool)
    requires forall i :: 0 <= i < |calls| && calls[i].Put? ==> sound(calls[i].key, calls[i].value)
    requires Fresh(Run(lt, calls), key, now).Some?
    ensures sound(key, Fresh(Run(lt, calls), key, now).value)
  {
    RunIsExplained(lt, calls, key);
  }

  class Cache<V> {
    const lt: Lifetimes
    var items: map<string, Item<V>>
    var negated: map<string, int>

    function View(): State<V>
      reads this
    {
      State(items, negated)
    }

    constructor (ttl: int, negTtl: int)
      ensures lt == Lifetimes(ttl, negTtl) && View() == Run(lt, [])
    {
      lt, items, negated := Lifetimes(ttl, negTtl), map[], map[];
    }

    method Get(key: string, now: int) returns (r: Option<V>)
      modifies this`items
      ensures r == Fresh(old(View()), key, now)
      ensures View() == After(old(View()), lt, Call.Get(key, now))
    {
      if key !in items || now > items[key].expires {
        items := items - {key};
        return None;
      }
      return Some(items[key].value);
    }

    method Negative(key: string, now: int) returns (r: bool)
      ensures r == IsNegative(View(), key, now)
    {
      if key !in negated || now > negated[key] { return false; }
      return true;
    }

    method Put(key: string, value: V, now: int)
      modifies this`items, this`negated
      ensures View() == After(old(View()), lt, Call.Put(key, value, now))
    {
      items := items[key := Item(value, now + lt.ttl)];
      negated := negated - {key};
    }

    method PutNegative(key: string, now: int)
      modifies this`items, this`negated
      ensures View() == After(old(View()), lt, Call.PutNegative(key, now))
    {
      negated := negated[key := now + lt.negTtl];
      items := items - {key};
    }
  }
}
