/** Newest-wins selection from a stream of deliveries, any of which may be empty. */
module Arrivals {
  import opened Outcome
  import opened Nostr

  type Hits = seq<Option<Event>>

  /** The selection both resolvers make: an event replaces the best so far only when it is strictly newer. */
  function Newest(hits: Hits): Option<Event> {
    if hits == [] then None
    else
      var best, hit := Newest(hits[..|hits| - 1]), hits[|hits| - 1];
      if hit.None? || (best.Some? && hit.value.createdAt <= best.value.createdAt) then best else hit
  }

  ghost predicate IsFirstNewest(hits: Hits, i: int) {
    && 0 <= i < |hits| && hits[i].Some?
    && (forall j :: 0 <= j < |hits| && hits[j].Some? ==> hits[j].value.createdAt <= hits[i].value.createdAt)
    && (forall j :: 0 <= j < i && hits[j].Some? ==> hits[j].value.createdAt < hits[i].value.createdAt)
  }

  /** Where the selected event arrived, or -1. */
  function NewestAt(hits: Hits): (i: int)
    ensures -1 <= i < |hits|
    ensures Newest(hits) == if i < 0 then None else hits[i]
    ensures i >= 0 ==> hits[i].Some?
  {
    if hits == [] then -1
    else
      var last := |hits| - 1;
      var i := NewestAt(hits[..last]);
      if hits[last].None? || (i >= 0 && hits[last].value.createdAt <= hits[i].value.createdAt) then i else last
  }

  lemma {:induction false} NewestAtIsFirst(hits: Hits)
    ensures NewestAt(hits) >= 0 ==> IsFirstNewest(hits, NewestAt(hits))
    ensures NewestAt(hits) < 0 ==> forall j :: 0 <= j < |hits| ==> hits[j].None?
  {
    if hits != [] {
      var init := hits[..|hits| - 1];
      NewestAtIsFirst(init);
      assert forall j :: 0 <= j < |init| ==> hits[j] == init[j];
    }
  }

  /** The result is the first arrival among the newest, and there is none only when nothing arrived. */
  lemma NewestIsFirstNewest(hits: Hits)
    ensures Newest(hits).None? <==> forall j :: 0 <= j < |hits| ==> hits[j].None?
    ensures forall i :: IsFirstNewest(hits, i) ==> hits[i] == Newest(hits)
    ensures Newest(hits).Some? ==> exists i :: IsFirstNewest(hits, i)
  {
    NewestAtIsFirst(hits);
  }

  /** The selection seen as a maximum of what arrived. */
  lemma {:induction false} NewestIsMaximal(hits: Hits)
    ensures Newest(hits).None? <==> forall h :: h in hits ==> h.None?
    ensures Newest(hits).Some? ==> Newest(hits) in hits
    ensures Newest(hits).Some? ==>
              forall h :: h in hits && h.Some? ==> h.value.createdAt <= Newest(hits).value.createdAt
  {
    if hits != [] {
      NewestIsMaximal(hits[..|hits| - 1]);
      assert hits == hits[..|hits| - 1] + [hits[|hits| - 1]];
    }
  }

  // ---- The newest valid arrival ----

  /** A valid arrival that no valid arrival is newer than. */
  ghost predicate IsNewestValid(hits: Hits, valid: Event -> bool, ev: Event) {
    && Some(ev) in hits && valid(ev)
    && forall h :: h in hits && h.Some? && valid(h.value) ==> h.value.createdAt <= ev.createdAt
  }

  /** The selection looks at no rule: among arrivals it is a newest valid one exactly when it is valid itself. */
  lemma NewestValidExactly(hits: Hits, valid: Event -> bool)
    requires exists h :: h in hits && h.Some? && valid(h.value)
    ensures Newest(hits).Some?
    ensures IsNewestValid(hits, valid, Newest(hits).value) <==> valid(Newest(hits).value)
  {
    NewestIsMaximal(hits);
  }

  // ---- Skipping repeated ids ----

  function Ids(hits: Hits): set<string> { set h | h in hits && h.Some? :: h.value.id }

  /** The selection with repeated ids skipped. */
  function NewestOnce(hits: Hits): Option<Event> {
    if hits == [] then None
    else
      var before, hit := hits[..|hits| - 1], hits[|hits| - 1];
      var best := NewestOnce(before);
      if hit.None? || hit.value.id in Ids(before)
         || (best.Some? && hit.value.createdAt <= best.value.createdAt) then best else hit
  }

  /** An id commits to its timestamp. */
  ghost predicate IdsFixTimes(hits: Hits) {
    forall a, b :: a in hits && b in hits && a.Some? && b.Some? && a.value.id == b.value.id ==>
      a.value.createdAt == b.value.createdAt
  }

  /** Skipping repeats never changes the result when an id fixes its timestamp. */
  lemma {:induction false} SkippingRepeatsChangesNothing(hits: Hits)
    requires IdsFixTimes(hits)
    ensures NewestOnce(hits) == Newest(hits)
  {
    if hits != [] {
      var before, hit := hits[..|hits| - 1], hits[|hits| - 1];
      SkippingRepeatsChangesNothing(before);
      if hit.Some? && hit.value.id in Ids(before) {
        var h :| h in before && h.Some? && h.value.id == hit.value.id;
        NewestIsMaximal(before);
        assert h in hits && hit in hits;
      }
    }
  }

  /** Without that, a repeat with a later timestamp is lost. */
  lemma RepeatsCanMatter(e: Event, t: int)
    requires e.createdAt < t
    ensures NewestOnce([Some(e), Some(e.(createdAt := t))]) == Some(e)
    ensures Newest([Some(e), Some(e.(createdAt := t))]) == Some(e.(createdAt := t))
  {
    var first, later := Some(e), Some(e.(createdAt := t));
    assert [first, later][..1] == [first] && [first][..0] == [];
    assert Newest([first]) == first && NewestOnce([first]) == first;
  }

  /** An arrival whose id has arrived before, with whatever event. */
  ghost predicate IsRepeat(hits: Hits, i: int) {
    && 0 <= i < |hits| && hits[i].Some?
    && exists j :: 0 <= j < i && hits[j].Some? && hits[j].value.id == hits[i].value.id
  }

  /** The arrivals that are no repeats. */
  function FirstDeliveries(hits: Hits): (first: Hits)
    ensures |first| == |hits|
  {
    if hits == [] then []
    else
      var before, hit := hits[..|hits| - 1], hits[|hits| - 1];
      FirstDeliveries(before) + [if hit.Some? && hit.value.id in Ids(before) then None else hit]
  }

  lemma {:induction false} FirstDeliveriesAre(hits: Hits, i: nat)
    requires i < |hits|
    ensures FirstDeliveries(hits)[i] == if IsRepeat(hits, i) then None else hits[i]
  {
    var before := hits[..|hits| - 1];
    if i < |before| {
      FirstDeliveriesAre(before, i);
      assert IsRepeat(before, i) <==> IsRepeat(hits, i);
    } else if hits[i].Some? {
      assert hits[i].value.id in Ids(before) <==> IsRepeat(hits, i);
    }
  }

  /** Skipping repeats selects among the first deliveries. */
  lemma {:induction false} OnceIsNewestOfFirsts(hits: Hits)
    ensures NewestOnce(hits) == Newest(FirstDeliveries(hits))
  {
    if hits != [] {
      var first := FirstDeliveries(hits);
      OnceIsNewestOfFirsts(hits[..|hits| - 1]);
      assert first[..|first| - 1] == FirstDeliveries(hits[..|hits| - 1]);
    }
  }

  lemma OnceIsFirstNewest(hits: Hits) returns (i: int)
    requires exists h :: h in hits && h.Some?
    ensures 0 <= i < |hits| && hits[i].Some? && !IsRepeat(hits, i) && NewestOnce(hits) == hits[i]
    ensures forall j :: 0 <= j < |hits| && hits[j].Some? && !IsRepeat(hits, j) ==>
              hits[j].value.createdAt <= hits[i].value.createdAt
  {
    var first := FirstDeliveries(hits);
    OnceIsNewestOfFirsts(hits);
    NewestIsFirstNewest(first);
    forall j | 0 <= j < |hits|
      ensures first[j] == if IsRepeat(hits, j) then None else hits[j]
    {
      FirstDeliveriesAre(hits, j);
    }
    var k := FirstArrival(hits);
    assert first[k].Some?;
    i :| IsFirstNewest(first, i);
  }

  /** The first arrival of all is no repeat. */
  lemma FirstArrival(hits: Hits) returns (k: nat)
    requires exists h :: h in hits && h.Some?
    ensures k < |hits| && hits[k].Some? && !IsRepeat(hits, k)
  {
    k := 0;
    while hits[k].None?
      invariant k < |hits| && (forall j :: 0 <= j < k ==> hits[j].None?)
      invariant exists h :: h in hits[k..] && h.Some?
      decreases |hits| - k
    {
      assert hits[k..] == [hits[k]] + hits[k + 1..];
      k := k + 1;
    }
  }

  /**
   With repeats skipped, the selection is a newest valid arrival exactly when it is
   valid and no valid repeat is newer.
   */
  lemma NewestValidOnceExactly(hits: Hits, valid: Event -> bool)
    requires exists h :: h in hits && h.Some? && valid(h.value)
    ensures NewestOnce(hits).Some?
    ensures IsNewestValid(hits, valid, NewestOnce(hits).value) <==>
              && valid(NewestOnce(hits).value)
              && forall i :: IsRepeat(hits, i) && valid(hits[i].value) ==>
                   hits[i].value.createdAt <= NewestOnce(hits).value.createdAt
  {
    var k := OnceIsFirstNewest(hits);
    var best := NewestOnce(hits).value;
    assert hits[k] in hits;
    if valid(best) && forall i :: IsRepeat(hits, i) && valid(hits[i].value) ==> hits[i].value.createdAt <= best.createdAt {
      forall h | h in hits && h.Some? && valid(h.value)
        ensures h.value.createdAt <= best.createdAt
      {
        var i :| 0 <= i < |hits| && hits[i] == h;
        assert IsRepeat(hits, i) || !IsRepeat(hits, i);
      }
    }
  }

  /** A newest arrival is lost exactly when its id has arrived before, on any event. */
  lemma RepeatedIdHidesExactly(hits: Hits, i: int)
    requires IsFirstNewest(hits, i)
    ensures NewestOnce(hits) == hits[i] <==> !IsRepeat(hits, i)
  {
    assert hits[i] in hits;
    var k := OnceIsFirstNewest(hits);
  }

  // ---- Arrival order ----

  ghost predicate TimesTellEventsApart(hits: Hits) {
    forall a, b :: a in hits && b in hits && a.Some? && b.Some? && a.value.createdAt == b.value.createdAt ==> a == b
  }

  /** With distinct timestamps the order of arrival does not matter. */
  lemma ArrivalOrderDoesNotMatter(a: Hits, b: Hits)
    requires multiset(a) == multiset(b) && TimesTellEventsApart(a)
    ensures Newest(a) == Newest(b)
  {
    NewestIsMaximal(a);
    NewestIsMaximal(b);
    assert forall h :: h in a <==> h in multiset(a);
    assert forall h :: h in b <==> h in multiset(b);
  }

  /** newestEvent's loop. */
  method NewestEvent(hits: Hits, dedupeById: bool) returns (best: Option<Event>)
    ensures best == if dedupeById then NewestOnce(hits) else Newest(hits)
  {
    var seen: set<string> := {};
    best := None;
    for i := 0 to |hits|
      invariant best == if dedupeById then NewestOnce(hits[..i]) else Newest(hits[..i])
      invariant dedupeById ==> seen == Ids(hits[..i])
    {
      assert hits[..i + 1][..i] == hits[..i];
      if hits[i].None? { continue; }
      var ev := hits[i].value;
      if dedupeById {
        if ev.id in seen { continue; }
        seen := seen + {ev.id};
      }
      if best.Some? && ev.createdAt <= best.value.createdAt { continue; }
      best := Some(ev);
    }
    assert hits[..|hits|] == hits;
  }
}
