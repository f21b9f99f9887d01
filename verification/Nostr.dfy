/** Nostr events and their tags, as far as the gateway reads them. */
module Nostr {
  import opened Outcome

  type Tag = seq<string>

  datatype Event = Event(id: string, pubkey: string, createdAt: int, kind: int, tags: seq<Tag>, content: string, sig: string)

  function TagName(t: Tag): string { if t == [] then "" else t[0] }

  function Named(name: string): Tag -> bool { t => TagName(t) == name }

  function Valued(name: string): Tag -> bool { t => TagName(t) == name && |t| > 1 }

  function Select<T>(tags: seq<T>, p: T -> bool): seq<T> {
    if tags == [] then []
    else
      var last := |tags| - 1;
      Select(tags[..last], p) + if p(tags[last]) then [tags[last]] else []
  }

  function FilterTags(tags: seq<Tag>, name: string): seq<Tag> { Select(tags, Named(name)) }

  function Seconds(tags: seq<Tag>): seq<string> {
    seq(|tags|, i requires 0 <= i < |tags| => if |tags[i]| > 1 then tags[i][1] else "")
  }

  function TagValues(tags: seq<Tag>, name: string): seq<string> { Seconds(Select(tags, Valued(name))) }

  /** What a relay filter asks for; an empty list asks for nothing in particular. */
  datatype Filter = Filter(ids: seq<string>, kinds: seq<int>, authors: seq<string>, d: seq<string>)

  /** NIP-01's matching rule, for the filters the gateway sends. */
  predicate Matches(f: Filter, ev: Event) {
    && (f.ids == [] || ev.id in f.ids)
    && (f.kinds == [] || ev.kind in f.kinds)
    && (f.authors == [] || ev.pubkey in f.authors)
    && (f.d == [] || exists i :: 0 <= i < |ev.tags| && |ev.tags[i]| >= 2 && ev.tags[i][0] == "d" && ev.tags[i][1] in f.d)
  }

  ghost predicate One<T>(tags: seq<T>, p: T -> bool) { exists i :: 0 <= i < |tags| && p(tags[i]) }

  ghost predicate Two<T>(tags: seq<T>, p: T -> bool) {
    exists i, j :: 0 <= i < j < |tags| && p(tags[i]) && p(tags[j])
  }

  lemma {:induction false} SelectPicks<T>(tags: seq<T>, p: T -> bool)
    ensures forall t :: t in Select(tags, p) <==> t in tags && p(t)
    ensures Select(tags, p) != [] <==> One(tags, p)
  {
    if tags != [] {
      var last := |tags| - 1;
      SelectPicks(tags[..last], p);
      assert tags == tags[..last] + [tags[last]];
      assert One(tags[..last], p) ==> One(tags, p) by {
        if i :| 0 <= i < last && p(tags[..last][i]) { assert tags[i] == tags[..last][i]; }
      }
    }
  }

  lemma TwoSnoc<T>(init: seq<T>, last: T, p: T -> bool)
    ensures Two(init + [last], p) <==> Two(init, p) || (One(init, p) && p(last))
  {
    var all := init + [last];
    if Two(init, p) {
      var i, j :| 0 <= i < j < |init| && p(init[i]) && p(init[j]);
      assert p(all[i]) && p(all[j]);
    }
    if One(init, p) && p(last) {
      var i :| 0 <= i < |init| && p(init[i]);
      assert p(all[i]) && p(all[|init|]);
    }
    if Two(all, p) {
      var i, j :| 0 <= i < j < |all| && p(all[i]) && p(all[j]);
    }
  }

  lemma {:induction false} SelectTwo<T>(tags: seq<T>, p: T -> bool)
    ensures |Select(tags, p)| > 1 <==> Two(tags, p)
  {
    if tags != [] {
      var last := |tags| - 1;
      SelectTwo(tags[..last], p);
      SelectPicks(tags[..last], p);
      TwoSnoc(tags[..last], tags[last], p);
    }
  }

  method FilterTagsLoop(tags: seq<Tag>, name: string) returns (picked: seq<Tag>)
    ensures picked == FilterTags(tags, name)
  {
    picked := [];
    for i := 0 to |tags|
      invariant picked == FilterTags(tags[..i], name)
    {
      assert tags[..i + 1][..i] == tags[..i];
      if TagName(tags[i]) == name { picked := picked + [tags[i]]; }
    }
    assert tags[..|tags|] == tags;
  }

  method TagValuesLoop(tags: seq<Tag>, name: string) returns (values: seq<string>)
    ensures values == TagValues(tags, name)
  {
    values := [];
    for i := 0 to |tags|
      invariant values == TagValues(tags[..i], name)
    {
      assert tags[..i + 1][..i] == tags[..i];
      if TagName(tags[i]) == name && |tags[i]| > 1 { values := values + [tags[i][1]]; }
    }
    assert tags[..|tags|] == tags;
  }
}
