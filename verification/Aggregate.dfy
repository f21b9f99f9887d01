/**
 The NIP-5A aggregate hash: one line per path, sorted bytewise, joined and hashed.
 The sorted, joined text is a canonical form of the multiset of entries.
 */
module Aggregate {
  import opened Text

  /** One path of a manifest and the hash of its blob. */
  datatype Path = Path(path: string, hash: string)

  const NEWLINE: char := '\n'

  function Line(p: Path): string { p.hash + " " + p.path + "\n" }

  function Lines(paths: seq<Path>): seq<string> { seq(|paths|, i requires 0 <= i < |paths| => Line(paths[i])) }

  function Concat(parts: seq<string>): string {
    if parts == [] then "" else parts[0] + Concat(parts[1..])
  }

  // ---- The bytewise order ----

  predicate AtMost(a: string, b: string) {
    a == "" || (b != "" && (a[0] < b[0] || (a[0] == b[0] && AtMost(a[1..], b[1..]))))
  }

  lemma {:induction false} AtMostTotal(a: string, b: string)
    ensures AtMost(a, b) || AtMost(b, a)
  {
    if a != "" && b != "" && a[0] == b[0] { AtMostTotal(a[1..], b[1..]); }
  }

  lemma {:induction false} AtMostAntisymmetric(a: string, b: string)
    requires AtMost(a, b) && AtMost(b, a)
    ensures a == b
  {
    if a != "" {
      AtMostAntisymmetric(a[1..], b[1..]);
    }
  }

  lemma {:induction false} AtMostTransitive(a: string, b: string, c: string)
    requires AtMost(a, b) && AtMost(b, c)
    ensures AtMost(a, c)
  {
    if a != "" && a[0] == b[0] == c[0] { AtMostTransitive(a[1..], b[1..], c[1..]); }
  }

  ghost predicate Sorted(s: seq<string>) {
    s == [] || ((forall x :: x in s ==> AtMost(s[0], x)) && Sorted(s[1..]))
  }

  /** sort.Strings, by insertion. */
  function Insert(x: string, s: seq<string>): seq<string> {
    if s == [] then [x] else if AtMost(x, s[0]) then [x] + s else [s[0]] + Insert(x, s[1..])
  }

  function Sort(s: seq<string>): seq<string> { if s == [] then [] else Insert(s[0], Sort(s[1..])) }

  lemma {:induction false} InsertSorts(x: string, s: seq<string>)
    requires Sorted(s)
    ensures Sorted(Insert(x, s)) && multiset(Insert(x, s)) == multiset(s) + multiset{x}
  {
    if s == [] {
      AtMostTotal(x, x);
    } else {
      assert s == [s[0]] + s[1..];
      if AtMost(x, s[0]) {
        forall y | y in [x] + s
          ensures AtMost(x, y)
        {
          AtMostTotal(x, x);
          if y in s { AtMostTransitive(x, s[0], y); }
        }
        assert ([x] + s)[1..] == s;
      } else {
        InsertSorts(x, s[1..]);
        var rest := Insert(x, s[1..]);
        forall y | y in [s[0]] + rest
          ensures AtMost(s[0], y)
        {
          AtMostTotal(x, s[0]);
          AtMostTotal(s[0], s[0]);
          if y in rest { assert y in multiset(s[1..]) + multiset{x}; }
        }
        assert ([s[0]] + rest)[1..] == rest;
      }
    }
  }

  lemma {:induction false} SortSorts(s: seq<string>)
    ensures Sorted(Sort(s)) && multiset(Sort(s)) == multiset(s)
  {
    if s != [] {
      SortSorts(s[1..]);
      InsertSorts(s[0], Sort(s[1..]));
      assert s == [s[0]] + s[1..];
    }
  }

  /** A multiset of strings has one sorted listing. */
  lemma TailOf(a: seq<string>)
    requires a != []
    ensures multiset(a[1..]) == multiset(a) - multiset{a[0]}
  {
    assert a == [a[0]] + a[1..];
  }

  lemma SameHead(a: seq<string>, b: seq<string>)
    requires Sorted(a) && Sorted(b) && multiset(a) == multiset(b) && a != []
    ensures b != [] && a[0] == b[0]
  {
    assert a[0] in multiset(a) && a[0] in b;
    assert b[0] in multiset(b) && b[0] in a;
    AtMostAntisymmetric(a[0], b[0]);
  }

  lemma {:induction false} SortedIsUnique(a: seq<string>, b: seq<string>)
    requires Sorted(a) && Sorted(b) && multiset(a) == multiset(b)
    ensures a == b
  {
    assert |a| == |multiset(a)| == |b|;
    if a != [] {
      SameHead(a, b);
      TailOf(a);
      TailOf(b);
      SortedIsUnique(a[1..], b[1..]);
      assert a == [a[0]] + a[1..] && b == [b[0]] + b[1..];
    }
  }

  // ---- Decoding ----

  /** A path entry as Validate lets it through, as far as decoding needs. */
  predicate IsEntry(p: Path) { |p.hash| == 64 && NEWLINE !in p.hash && NEWLINE !in p.path }

  predicate AllEntries(paths: seq<Path>) { forall i :: 0 <= i < |paths| ==> IsEntry(paths[i]) }

  predicate IsLine(s: string) { s != "" && s[|s| - 1] == NEWLINE && NEWLINE !in s[..|s| - 1] }

  ghost predicate AreLines(parts: seq<string>) { forall x :: x in parts ==> IsLine(x) }

  function Entry(line: string): Path {
    if |line| < 66 then Path("", "") else Path(line[65..|line| - 1], line[..64])
  }

  lemma LineDecodes(p: Path)
    requires IsEntry(p)
    ensures IsLine(Line(p)) && Entry(Line(p)) == p
  {}

  lemma FirstLineAgrees(a: string, b: string, restA: string, restB: string)
    requires IsLine(a) && IsLine(b) && a + restA == b + restB
    ensures a == b && restA == restB
  {
    var whole := a + restA;
    assert a == whole[..|a|] && b == whole[..|b|];
  }

  /** Newline-terminated lines are read back from their concatenation. */
  lemma {:induction false} ConcatDecodes(a: seq<string>, b: seq<string>)
    requires AreLines(a) && AreLines(b) && Concat(a) == Concat(b)
    ensures a == b
  {
    if a == [] || b == [] {
      assert a != [] ==> IsLine(a[0]) && |Concat(a)| > 0;
      assert b != [] ==> IsLine(b[0]) && |Concat(b)| > 0;
    } else {
      FirstLineAgrees(a[0], b[0], Concat(a[1..]), Concat(b[1..]));
      ConcatDecodes(a[1..], b[1..]);
    }
  }

  /** Mapping two listings of one multiset lists one multiset. */
  function Map<A, B>(f: A -> B, s: seq<A>): seq<B> { seq(|s|, i requires 0 <= i < |s| => f(s[i])) }

  lemma WithoutAt<A>(s: seq<A>, i: nat)
    requires i < |s|
    ensures multiset(s) == multiset(s[..i] + s[i + 1..]) + multiset{s[i]}
  {
    assert s == s[..i] + [s[i]] + s[i + 1..];
  }

  lemma MapWithoutAt<A, B>(f: A -> B, s: seq<A>, i: nat)
    requires i < |s|
    ensures multiset(Map(f, s)) == multiset(Map(f, s[..i] + s[i + 1..])) + multiset{f(s[i])}
  {
    WithoutAt(Map(f, s), i);
    assert Map(f, s)[..i] + Map(f, s)[i + 1..] == Map(f, s[..i] + s[i + 1..]);
  }

  lemma TailPermutes<A>(a: seq<A>, b: seq<A>) returns (i: nat)
    requires multiset(a) == multiset(b) && a != []
    ensures i < |b| && b[i] == a[0] && multiset(a[1..]) == multiset(b[..i] + b[i + 1..])
  {
    assert a[0] in multiset(a) && a[0] in b;
    i :| 0 <= i < |b| && b[i] == a[0];
    WithoutAt(a, 0);
    WithoutAt(b, i);
    assert multiset(a[1..]) == multiset(a) - multiset{a[0]};
  }

  lemma MapCons<A, B>(f: A -> B, a: seq<A>)
    requires a != []
    ensures multiset(Map(f, a)) == multiset(Map(f, a[1..])) + multiset{f(a[0])}
  {
    assert Map(f, a) == [f(a[0])] + Map(f, a[1..]);
  }

  lemma {:induction false} MapPermutes<A, B>(f: A -> B, a: seq<A>, b: seq<A>)
    requires multiset(a) == multiset(b)
    ensures multiset(Map(f, a)) == multiset(Map(f, b))
    decreases |a|
  {
    if a == [] {
      assert |b| == |multiset(b)| == 0;
    } else {
      var i := TailPermutes(a, b);
      MapPermutes(f, a[1..], b[..i] + b[i + 1..]);
      MapCons(f, a);
      MapWithoutAt(f, b, i);
    }
  }

  // ---- The preimage ----

  /** What AggregateHash hashes. */
  function Preimage(paths: seq<Path>): string { Concat(Sort(Lines(paths))) }

  lemma LinesDecode(paths: seq<Path>)
    requires AllEntries(paths)
    ensures Map(Entry, Lines(paths)) == paths && AreLines(Lines(paths))
    ensures Lines(paths) == Map(Line, paths)
  {
    forall i | 0 <= i < |paths|
      ensures Entry(Lines(paths)[i]) == paths[i] && IsLine(Lines(paths)[i])
    {
      LineDecodes(paths[i]);
    }
  }

  /** Two manifests have the same preimage exactly when their entries are permutations of one another. */
  lemma PreimageIsCanonical(a: seq<Path>, b: seq<Path>)
    requires AllEntries(a) && AllEntries(b)
    ensures Preimage(a) == Preimage(b) <==> multiset(a) == multiset(b)
  {
    LinesDecode(a);
    LinesDecode(b);
    SortSorts(Lines(a));
    SortSorts(Lines(b));
    if multiset(a) == multiset(b) {
      MapPermutes(Line, a, b);
      SortedIsUnique(Sort(Lines(a)), Sort(Lines(b)));
    }
    if Preimage(a) == Preimage(b) {
      assert forall x :: x in Sort(Lines(a)) ==> x in multiset(Lines(a));
      assert forall x :: x in Sort(Lines(b)) ==> x in multiset(Lines(b));
      ConcatDecodes(Sort(Lines(a)), Sort(Lines(b)));
      MapPermutes(Entry, Lines(a), Lines(b));
    }
  }

  /** The hash tells manifests apart up to the order of their entries, unless sha256 collides on the two texts. */
  lemma HashIsCanonical(a: seq<Path>, b: seq<Path>, sha256Hex: string -> string)
    requires AllEntries(a) && AllEntries(b)
    requires Preimage(a) != Preimage(b) ==> sha256Hex(Preimage(a)) != sha256Hex(Preimage(b))
    ensures sha256Hex(Preimage(a)) == sha256Hex(Preimage(b)) <==> multiset(a) == multiset(b)
  {
    PreimageIsCanonical(a, b);
  }

  /** AggregateHash, building the lines one by one and sorting them. */
  method AggregateHash(paths: seq<Path>, sha256Hex: string -> string) returns (hash: string)
    ensures hash == sha256Hex(Preimage(paths))
  {
    var lines: seq<string> := [];
    for i := 0 to |paths|
      invariant lines == Lines(paths[..i])
    {
      lines := lines + [paths[i].hash + " " + paths[i].path + "\n"];
    }
    assert paths[..|paths|] == paths;
    return sha256Hex(Concat(Sort(lines)));
  }
}
