/**
 Go strings, as Dafny strings whose characters each stand for one byte.
 Only the ASCII part of Go's case mapping and space trimming is modelled.
 */
module Text {
  predicate IsDigit(c: char) { '0' <= c <= '9' }
  predicate IsLowerHex(c: char) { IsDigit(c) || 'a' <= c <= 'f' }
  predicate IsHex(c: char) { IsLowerHex(c) || 'A' <= c <= 'F' }
  predicate IsBase36(c: char) { IsDigit(c) || 'a' <= c <= 'z' }

  /** Every character of `s` satisfies `p`. */
  predicate All(s: string, p: char -> bool) { forall i :: 0 <= i < |s| ==> p(s[i]) }

  predicate HasPrefix(s: string, prefix: string) { prefix <= s }

  predicate HasSuffix(s: string, suffix: string) {
    |suffix| <= |s| && s[|s| - |suffix|..] == suffix
  }

  function TrimSuffix(s: string, suffix: string): string {
    if HasSuffix(s, suffix) then s[..|s| - |suffix|] else s
  }

  function LowerChar(c: char): char {
    if 'A' <= c <= 'Z' then (c as int + 32) as char else c
  }

  function Lower(s: string): string {
    seq(|s|, i requires 0 <= i < |s| => LowerChar(s[i]))
  }

  /** `n` copies of `c`. */
  function Repeat(c: char, n: nat): string { seq(n, _ => c) }

  /** No string occurs twice. */
  predicate Distinct(names: seq<string>) {
    names == [] || (names[0] !in names[1..] && Distinct(names[1..]))
  }

  /** The first position of `c`, or the length of `s`. */
  function IndexOf(s: string, c: char): (i: nat)
    ensures i <= |s| && c !in s[..i] && (i < |s| ==> s[i] == c)
  {
    if s == "" || s[0] == c then 0
    else
      var i := IndexOf(s[1..], c);
      assert s[..i + 1] == [s[0]] + s[1..][..i];
      i + 1
  }

  /** strings.Split on a one-byte separator. */
  function Split(s: string, c: char): seq<string>
    decreases |s|
  {
    var i := IndexOf(s, c);
    if i == |s| then [s] else [s[..i]] + Split(s[i + 1..], c)
  }

  /** strings.Join with a one-byte separator. */
  function Join(parts: seq<string>, c: char): string {
    if parts == [] then ""
    else if |parts| == 1 then parts[0]
    else parts[0] + [c] + Join(parts[1..], c)
  }

  /** What follows the last `c`, or all of `s`. */
  function AfterLast(s: string, c: char): string {
    if s == "" then "" else if s[|s| - 1] == c then "" else AfterLast(s[..|s| - 1], c) + [s[|s| - 1]]
  }

  /** The segments of a string hold no separator, and joined they give it back. */
  lemma {:induction false} SplitJoin(s: string, c: char)
    ensures Split(s, c) != []
    ensures forall i :: 0 <= i < |Split(s, c)| ==> c !in Split(s, c)[i]
    ensures Join(Split(s, c), c) == s
    decreases |s|
  {
    var i := IndexOf(s, c);
    if i < |s| {
      SplitJoin(s[i + 1..], c);
      assert s == s[..i] + [c] + s[i + 1..];
    }
  }

  lemma SplitHead(head: string, c: char, rest: string)
    requires c !in head
    ensures Split(head + [c] + rest, c) == [head] + Split(rest, c)
  {
    var s := head + [c] + rest;
    var i := IndexOf(s, c);
    assert s[|head|] == c;
    assert s[..i] == head && s[i + 1..] == rest;
  }

  lemma SplitNone(s: string, c: char)
    requires c !in s
    ensures Split(s, c) == [s]
  {}

  /** Segments without separators are what splitting their join gives. */
  lemma {:induction false} JoinSplit(parts: seq<string>, c: char)
    requires parts != [] && forall i :: 0 <= i < |parts| ==> c !in parts[i]
    ensures Split(Join(parts, c), c) == parts
  {
    if |parts| == 1 {
    } else {
      JoinSplit(parts[1..], c);
      SplitHead(parts[0], c, Join(parts[1..], c));
    }
  }

  /** The last segment, read off the end or off the split. */
  lemma {:induction false} AfterLastIsLastSegment(s: string, c: char)
    ensures c !in AfterLast(s, c)
    ensures |AfterLast(s, c)| <= |s| && s[|s| - |AfterLast(s, c)|..] == AfterLast(s, c)
    ensures |AfterLast(s, c)| < |s| ==> s[|s| - |AfterLast(s, c)| - 1] == c
  {
    if s != "" && s[|s| - 1] != c {
      var init, last := s[..|s| - 1], s[|s| - 1];
      var k := |init| - |AfterLast(init, c)|;
      AfterLastIsLastSegment(init, c);
      assert s[k..] == init[k..] + [last];
    } else {
      assert s[|s|..] == "";
    }
  }

  lemma {:induction false} AfterLastOf(s: string, c: char, tail: string)
    requires c !in tail
    ensures AfterLast(s + [c] + tail, c) == tail
  {
    var t := s + [c] + tail;
    if tail != "" {
      var init := tail[..|tail| - 1];
      AfterLastOf(s, c, init);
      assert t[..|t| - 1] == s + [c] + init;
    }
  }
}
