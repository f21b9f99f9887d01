/** From the path of a request to the manifest path it asks for. */
module RequestPath {
  import opened Outcome
  import opened Text

  // ---- Decoding ----

  function HexDigit(c: char): nat
    requires IsHex(c)
    ensures HexDigit(c) < 16
  {
    if IsDigit(c) then c as nat - '0' as nat
    else if 'a' <= c <= 'f' then c as nat - 'a' as nat + 10
    else c as nat - 'A' as nat + 10
  }

  /** url.PathUnescape: one pass of percent-decoding. */
  function Unescape(p: string): Option<string> {
    if p == "" then Some("")
    else if p[0] == '%' then
      if |p| >= 3 && IsHex(p[1]) && IsHex(p[2]) then
        match Unescape(p[3..])
        case None => None
        case Some(rest) => Some([(HexDigit(p[1]) * 16 + HexDigit(p[2])) as char] + rest)
      else None
    else
      match Unescape(p[1..])
      case None => None
      case Some(rest) => Some([p[0]] + rest)
  }

  function HexChar(n: nat): char
    requires n < 16
    ensures IsHex(HexChar(n)) && HexDigit(HexChar(n)) == n
  {
    if n < 10 then '0' + n as char else 'A' + (n - 10) as char
  }

  predicate IsByte(c: char) { c as nat < 256 }

  /** A spelling of `s`: the characters that satisfy `raw` as they are, all others percent-encoded. */
  function Spelled(s: string, raw: char -> bool): string
    requires All(s, IsByte)
  {
    if s == "" then ""
    else
      assert All(s[1..], IsByte);
      (if raw(s[0]) && s[0] != '%' then [s[0]]
       else ['%', HexChar(s[0] as nat / 16), HexChar(s[0] as nat % 16)]) + Spelled(s[1..], raw)
  }

  lemma {:induction false} UnescapeSpelled(s: string, raw: char -> bool)
    requires All(s, IsByte)
    ensures Unescape(Spelled(s, raw)) == Some(s)
  {
    if s != "" {
      var rest := s[1..];
      UnescapeSpelled(rest, raw);
      var p := Spelled(s, raw);
      assert s == [s[0]] + rest;
      if raw(s[0]) && s[0] != '%' {
        assert p[1..] == Spelled(rest, raw);
      } else {
        assert p[3..] == Spelled(rest, raw);
      }
    }
  }

  // ---- Collapsing slashes ----

  /** The first position of two slashes in a row, or the length of `s`. */
  function IndexDouble(s: string): (i: nat)
    ensures i <= |s| && (i < |s| ==> i + 1 < |s| && s[i] == s[i + 1] == '/')
  {
    if |s| < 2 then |s| else if s[0] == s[1] == '/' then 0 else 1 + IndexDouble(s[1..])
  }

  /** strings.Split on two slashes. */
  function SplitDouble(s: string): (parts: seq<string>)
    ensures parts != []
    decreases |s|
  {
    var i := IndexDouble(s);
    if i == |s| then [s] else [s[..i]] + SplitDouble(s[i + 2..])
  }

  function Squeeze(s: string): string { Join(SplitDouble(s), '/') }

  /** The same, one character at a time: each pair of slashes becomes one. */
  function Halve(s: string): string {
    if s == "" then ""
    else if |s| >= 2 && s[0] == s[1] == '/' then "/" + Halve(s[2..])
    else [s[0]] + Halve(s[1..])
  }

  lemma SqueezeAtDouble(s: string, i: nat)
    requires i == IndexDouble(s) < |s|
    ensures Squeeze(s) == s[..i] + "/" + Squeeze(s[i + 2..])
  {}

  lemma SqueezeStep(c: char, rest: string)
    requires c == '/' ==> rest == "" || rest[0] != '/'
    ensures Squeeze([c] + rest) == [c] + Squeeze(rest)
  {}

  lemma HalveStep(c: char, rest: string)
    requires c == '/' ==> rest == "" || rest[0] != '/'
    ensures Halve([c] + rest) == [c] + Halve(rest)
  {}

  lemma HalvePair(rest: string)
    ensures Halve("//" + rest) == "/" + Halve(rest)
  {}

  /** The code's split and join on pairs of slashes is halving. */
  lemma {:induction false} SqueezeIsHalve(s: string)
    ensures Squeeze(s) == Halve(s)
    decreases |s|
  {
    if s == "" {
    } else if |s| >= 2 && s[0] == s[1] == '/' {
      SqueezeIsHalve(s[2..]);
      SqueezeAtDouble(s, 0);
      assert s[..0] + "/" == "/";
    } else {
      SqueezeIsHalve(s[1..]);
      assert s == [s[0]] + s[1..];
      SqueezeStep(s[0], s[1..]);
    }
  }

  function Slashes(k: nat): string { Repeat('/', k) }

  lemma MoreSlashes(n: nat, m: nat)
    ensures Slashes(n + m) == Slashes(n) + Slashes(m)
  {}

  lemma {:induction false} LeadingPairs(m: nat, b: string)
    ensures Halve(Slashes(2 * m) + b) == Slashes(m) + Halve(b)
  {
    if m == 0 {
      assert Slashes(0) + b == b && Slashes(0) + Halve(b) == Halve(b);
    } else {
      var n := m - 1;
      LeadingPairs(n, b);
      MoreSlashes(2, 2 * n);
      MoreSlashes(1, n);
      assert Slashes(2) == "//" && Slashes(1) == "/";
      HalvePair(Slashes(2 * n) + b);
      Associate("//", Slashes(2 * n), b);
      Associate("/", Slashes(n), Halve(b));
    }
  }

  lemma LeadingOdd(m: nat, b: string)
    requires b != "" ==> b[0] != '/'
    ensures Halve(Slashes(2 * m + 1) + b) == Slashes(m + 1) + Halve(b)
  {
    LeadingPairs(m, ['/'] + b);
    HalveStep('/', b);
    MoreSlashes(2 * m, 1);
    MoreSlashes(m, 1);
    assert Slashes(1) == ['/'];
    Associate(Slashes(2 * m), ['/'], b);
    Associate(Slashes(m), ['/'], Halve(b));
  }

  /** A run of `m` pairs, with or without one slash more, where `half` counts what is left. */
  lemma LeadingRun(k: nat, m: nat, half: nat, b: string)
    requires b != "" ==> b[0] != '/'
    requires (k == 2 * m && half == m) || (k == 2 * m + 1 && half == m + 1)
    ensures Halve(Slashes(k) + b) == Slashes(half) + Halve(b)
  {
    if k == 2 * m { LeadingPairs(m, b); } else { LeadingOdd(m, b); }
  }

  lemma Halves(k: nat) returns (m: nat, half: nat)
    ensures half == (k + 1) / 2 && ((k == 2 * m && half == m) || (k == 2 * m + 1 && half == m + 1))
  {
    m, half := k / 2, (k + 1) / 2;
  }

  /** Halving works on either side of a character that is no slash. */
  lemma {:induction false} HalveConcat(a: string, t: string)
    requires a != "" ==> a[|a| - 1] != '/'
    ensures Halve(a + t) == Halve(a) + Halve(t)
    decreases |a|
  {
    if a == "" {
      assert a + t == t;
    } else if |a| >= 2 && a[0] == a[1] == '/' {
      var rest := a[2..];
      HalveConcat(rest, t);
      HalvePair(rest + t);
      assert a == "//" + rest;
      Associate("//", rest, t);
      Associate("/", Halve(rest), Halve(t));
    } else {
      var rest := a[1..];
      HalveConcat(rest, t);
      HalveStep(a[0], rest + t);
      assert a == [a[0]] + rest;
      Associate([a[0]], rest, t);
      Associate([a[0]], Halve(rest), Halve(t));
    }
  }

  lemma Associate(a: string, b: string, c: string)
    ensures a + b + c == a + (b + c)
  {}

  lemma RunIsHalved(a: string, k: nat, half: nat, b: string)
    requires a != "" ==> a[|a| - 1] != '/'
    requires Halve(Slashes(k) + b) == Slashes(half) + Halve(b)
    ensures Halve(a + Slashes(k) + b) == Halve(a) + Slashes(half) + Halve(b)
  {
    HalveConcat(a, Slashes(k) + b);
    Associate(a, Slashes(k), b);
    Associate(Halve(a), Slashes(half), Halve(b));
  }

  /** A run of k slashes becomes one of ceil(k/2), and nothing else changes. */
  lemma RunsAreHalved(a: string, k: nat, b: string)
    requires a != "" ==> a[|a| - 1] != '/'
    requires b != "" ==> b[0] != '/'
    ensures Halve(a + Slashes(k) + b) == Halve(a) + Slashes((k + 1) / 2) + Halve(b)
  {
    var m, half := Halves(k);
    LeadingRun(k, m, half, b);
    RunIsHalved(a, k, half, b);
  }

  lemma {:induction false} SlashFree(b: string)
    ensures '/' !in b ==> Halve(b) == b
  {
    if b != "" { SlashFree(b[1..]); }
  }

  // ---- normalisePath ----

  predicate HasDots(s: string) { exists i :: 0 <= i < |s| - 1 && s[i] == '.' && s[i + 1] == '.' }

  predicate IsControl(c: char) { c < ' ' || c == 0x7F as char }

  predicate IsPlain(s: string) { forall i :: 0 <= i < |s| ==> s[i] != '\\' && !IsControl(s[i]) }

  predicate IsSafeSegment(seg: string) { !HasDots(seg) && IsPlain(seg) }

  predicate AllSafe(segs: seq<string>) { forall i :: 0 <= i < |segs| ==> IsSafeSegment(segs[i]) }

  predicate SegmentsAreSafe(s: string) { AllSafe(Split(s, '/')) }

  /** Directories ask for their index page. */
  function WithIndex(s: string): string {
    if HasSuffix(s, "/") || '.' !in AfterLast(s, '/') then TrimSuffix(s, "/") + "/index.html" else s
  }

  function Normalise(p: string): Option<string> {
    match Unescape(p)
    case None => None
    case Some(decoded) =>
      if '%' in decoded || !HasPrefix(decoded, "/") then None
      else
        var squeezed := Squeeze(decoded);
        if !SegmentsAreSafe(squeezed) then None else Some(WithIndex(squeezed))
  }

  lemma DotsSplit(head: string, rest: string)
    ensures HasDots(head + ['/'] + rest) <==> HasDots(head) || HasDots(rest)
  {
    var s, i := head + ['/'] + rest, |head|;
    if j :| 0 <= j < |head| - 1 && head[j] == '.' && head[j + 1] == '.' { assert s[j] == '.' && s[j + 1] == '.'; }
    if j :| 0 <= j < |rest| - 1 && rest[j] == '.' && rest[j + 1] == '.' {
      assert s[j + i + 1] == '.' && s[j + i + 2] == '.';
    }
  }

  lemma PlainSplit(head: string, rest: string)
    ensures IsPlain(head + ['/'] + rest) <==> IsPlain(head) && IsPlain(rest)
  {
    var s := head + ['/'] + rest;
    assert forall i :: 0 <= i < |head| ==> s[i] == head[i];
    assert forall i :: 0 <= i < |rest| ==> s[i + |head| + 1] == rest[i];
  }

  lemma AllSafeCons(head: string, more: seq<string>)
    ensures AllSafe([head] + more) <==> IsSafeSegment(head) && AllSafe(more)
  {
    var segs := [head] + more;
    assert segs[0] == head && forall k :: 0 <= k < |more| ==> segs[k + 1] == more[k];
  }

  /** The check segment by segment is a check of the whole path. */
  lemma {:induction false} SafeSegments(s: string)
    ensures SegmentsAreSafe(s) <==> !HasDots(s) && IsPlain(s)
    decreases |s|
  {
    var i := IndexOf(s, '/');
    if i < |s| {
      var head, rest := s[..i], s[i + 1..];
      SafeSegments(rest);
      assert s == head + ['/'] + rest;
      DotsSplit(head, rest);
      PlainSplit(head, rest);
      AllSafeCons(head, Split(rest, '/'));
    } else {
      AllSafeCons(s, []);
      assert [s] + [] == [s];
    }
  }

  // ---- What an accepted path looks like ----

  /** An accepted path, as it will be looked up. */
  ghost predicate IsLookupPath(q: string) {
    && HasPrefix(q, "/") && '.' in AfterLast(q, '/')
    && !HasDots(q) && IsPlain(q) && '%' !in q
  }

  lemma Appended(t: string, page: string)
    requires !HasDots(t) && IsPlain(t) && '%' !in t && (t == "" || HasPrefix(t, "/"))
    requires !HasDots(page) && IsPlain(page) && '%' !in page && '/' !in page && '.' in page
    ensures IsLookupPath(t + ['/'] + page)
  {
    AfterLastOf(t, '/', page);
    DotsSplit(t, page);
    PlainSplit(t, page);
  }

  lemma IndexPage(t: string)
    requires !HasDots(t) && IsPlain(t) && '%' !in t && (t == "" || HasPrefix(t, "/"))
    ensures IsLookupPath(t + "/index.html")
  {
    var page := "index.html";
    assert page[5] == '.';
    Appended(t, page);
    assert t + "/index.html" == t + ['/'] + page;
  }

  lemma TrimKeepsClean(s: string)
    requires !HasDots(s) && IsPlain(s) && '%' !in s && HasPrefix(s, "/")
    ensures var t := TrimSuffix(s, "/");
            !HasDots(t) && IsPlain(t) && '%' !in t && (t == "" || HasPrefix(t, "/"))
  {}

  lemma WithIndexIsLookupPath(s: string)
    requires HasPrefix(s, "/") && SegmentsAreSafe(s) && '%' !in s
    ensures IsLookupPath(WithIndex(s))
  {
    SafeSegments(s);
    TrimKeepsClean(s);
    IndexPage(TrimSuffix(s, "/"));
  }

  lemma {:induction false} HalveKeepsChars(s: string)
    ensures forall c :: c in Halve(s) <==> c in s
    ensures HasPrefix(s, "/") ==> HasPrefix(Halve(s), "/")
    decreases |s|
  {
    if s != "" {
      if |s| >= 2 && s[0] == s[1] == '/' {
        HalveKeepsChars(s[2..]);
        assert s == "//" + s[2..];
      } else {
        HalveKeepsChars(s[1..]);
        assert s == [s[0]] + s[1..];
      }
    }
  }

  /** Every accepted path is absolute, ends in a segment with a dot, and is free of "..", backslash, percent and control characters. */
  lemma AcceptedIsLookupPath(p: string)
    requires Normalise(p).Some?
    ensures IsLookupPath(Normalise(p).value)
  {
    var decoded := Unescape(p).value;
    SqueezeIsHalve(decoded);
    HalveKeepsChars(decoded);
    WithIndexIsLookupPath(Squeeze(decoded));
  }

  /** What is asked of a decoded path. */
  predicate IsCleanPath(s: string) { HasPrefix(s, "/") && !HasDots(s) && IsPlain(s) && '%' !in s }

  lemma HalveHead(s: string)
    requires s != ""
    ensures Halve(s) != "" && Halve(s)[0] == s[0]
  {}

  lemma DotsCons(c: char, rest: string)
    ensures HasDots([c] + rest) <==> HasDots(rest) || (c == '.' && rest != "" && rest[0] == '.')
  {
    var s := [c] + rest;
    if i :| 0 <= i < |rest| - 1 && rest[i] == '.' && rest[i + 1] == '.' {
      assert s[i + 1] == '.' && s[i + 2] == '.';
    }
    if c == '.' && rest != "" && rest[0] == '.' { assert s[0] == '.' && s[1] == '.'; }
  }

  lemma {:induction false} HalveKeepsDots(s: string)
    ensures HasDots(Halve(s)) <==> HasDots(s)
    decreases |s|
  {
    if s == "" {
    } else if |s| >= 2 && s[0] == s[1] == '/' {
      HalveKeepsDots(s[2..]);
      DotsCons('/', s[1..]);
      DotsCons('/', s[2..]);
      DotsCons('/', Halve(s[2..]));
      assert s == ['/'] + s[1..] && s[1..] == ['/'] + s[2..];
    } else {
      HalveKeepsDots(s[1..]);
      DotsCons(s[0], s[1..]);
      DotsCons(s[0], Halve(s[1..]));
      if s[1..] != "" { HalveHead(s[1..]); }
      assert s == [s[0]] + s[1..];
    }
  }

  lemma PlainIsMembers(s: string)
    ensures IsPlain(s) <==> forall c :: c in s ==> c != '\\' && !IsControl(c)
  {
    assert forall i :: 0 <= i < |s| ==> s[i] in s;
  }

  /** Exactly which requests are accepted: the decoded path must be clean. */
  lemma AcceptedExactly(p: string)
    ensures Normalise(p).Some? <==> Unescape(p).Some? && IsCleanPath(Unescape(p).value)
  {
    if Unescape(p).Some? {
      var decoded := Unescape(p).value;
      SqueezeIsHalve(decoded);
      SafeSegments(Halve(decoded));
      HalveKeepsDots(decoded);
      HalveKeepsChars(decoded);
      PlainIsMembers(decoded);
      PlainIsMembers(Halve(decoded));
    }
  }

  // ---- When normalising again changes nothing ----

  predicate HasDouble(s: string) { exists i :: 0 <= i < |s| - 1 && s[i] == '/' && s[i + 1] == '/' }

  predicate HasTriple(s: string) { exists i :: 0 <= i < |s| - 2 && s[i] == '/' && s[i + 1] == '/' && s[i + 2] == '/' }

  predicate StartsSlash(s: string) { s != "" && s[0] == '/' }

  lemma DoubleCons(c: char, rest: string)
    ensures HasDouble([c] + rest) <==> HasDouble(rest) || (c == '/' && StartsSlash(rest))
  {
    var s := [c] + rest;
    if i :| 0 <= i < |rest| - 1 && rest[i] == '/' && rest[i + 1] == '/' {
      assert s[i + 1] == '/' && s[i + 2] == '/';
    }
    if c == '/' && StartsSlash(rest) { assert s[0] == '/' && s[1] == '/'; }
  }

  lemma TripleCons(c: char, rest: string)
    ensures HasTriple([c] + rest) <==> HasTriple(rest) || (c == '/' && StartsSlash(rest) && StartsSlash(rest[1..]))
  {
    var s := [c] + rest;
    if i :| 0 <= i < |s| - 2 && s[i] == '/' && s[i + 1] == '/' && s[i + 2] == '/' {
      if i > 0 {
        assert rest[i - 1] == '/' && rest[i] == '/' && rest[i + 1] == '/';
      }
    }
    if i :| 0 <= i < |rest| - 2 && rest[i] == '/' && rest[i + 1] == '/' && rest[i + 2] == '/' {
      assert s[i + 1] == '/' && s[i + 2] == '/' && s[i + 3] == '/';
    }
    if c == '/' && StartsSlash(rest) && StartsSlash(rest[1..]) { assert s[0] == '/' && s[1] == '/' && s[2] == '/'; }
  }

  lemma {:induction false} HalvedHasDouble(s: string)
    ensures HasDouble(Halve(s)) <==> HasTriple(s)
    decreases |s|
  {
    if s == "" {
    } else if |s| >= 2 && s[0] == s[1] == '/' {
      var rest := s[2..];
      HalvedHasDouble(rest);
      assert s == ['/'] + s[1..] && s[1..] == ['/'] + rest;
      TripleCons('/', s[1..]);
      TripleCons('/', rest);
      DoubleCons('/', Halve(rest));
      if rest != "" { HalveHead(rest); }
    } else {
      var rest := s[1..];
      HalvedHasDouble(rest);
      assert s == [s[0]] + rest;
      TripleCons(s[0], rest);
      DoubleCons(s[0], Halve(rest));
      if rest != "" { HalveHead(rest); }
    }
  }

  lemma {:induction false} HalveFixes(s: string)
    ensures Halve(s) == s <==> !HasDouble(s)
    ensures |Halve(s)| <= |s|
    decreases |s|
  {
    if s == "" {
    } else if |s| >= 2 && s[0] == s[1] == '/' {
      HalveFixes(s[2..]);
    } else {
      var rest := s[1..];
      HalveFixes(rest);
      assert s == [s[0]] + rest;
      DoubleCons(s[0], rest);
    }
  }

  lemma IndexKeepsDoubles(s: string)
    requires HasPrefix(s, "/")
    ensures HasDouble(WithIndex(s)) <==> HasDouble(s)
  {
    var q := WithIndex(s);
    if q != s {
      var t, page := TrimSuffix(s, "/"), "/index.html";
      assert forall i :: 1 <= i < |page| ==> page[i] != '/';
      assert forall i :: 0 <= i < |t| ==> q[i] == t[i] == s[i];
      assert q[|t|] == '/';
      if HasSuffix(s, "/") {
        assert s[|s| - 1] == '/' && |t| == |s| - 1;
      }
    }
  }

  lemma {:induction false} NothingToUnescape(q: string)
    requires '%' !in q
    ensures Unescape(q) == Some(q)
  {
    if q != "" {
      assert q == [q[0]] + q[1..];
      NothingToUnescape(q[1..]);
    }
  }

  /** How a path is spelled does not matter: every percent-encoding of it is treated as the path itself. */
  lemma SpellingDoesNotMatter(s: string, raw: char -> bool)
    requires All(s, IsByte) && '%' !in s
    ensures Normalise(Spelled(s, raw)) == Normalise(s)
  {
    UnescapeSpelled(s, raw);
    NothingToUnescape(s);
  }

  lemma LookupPathNeedsNoIndex(q: string)
    requires IsLookupPath(q)
    ensures WithIndex(q) == q
  {}

  /** Normalising a lookup path only halves its slash runs. */
  lemma NormaliseLookupPath(q: string)
    requires IsLookupPath(q)
    ensures Normalise(q) == Some(WithIndex(Halve(q)))
    ensures Normalise(q) == Some(q) <==> !HasDouble(q)
  {
    NothingToUnescape(q);
    AcceptedExactly(q);
    SqueezeIsHalve(q);
    HalveFixes(q);
    if !HasDouble(q) {
    } else {
      HalveKeepsChars(q);
      HalveKeepsLast(q);
    }
  }

  lemma AfterLastWhole(s: string)
    requires '/' !in s
    ensures AfterLast(s, '/') == s
  {
    AfterLastIsLastSegment(s, '/');
  }

  lemma BeforeLast(s: string) returns (init: string)
    requires '/' in s
    ensures '/' !in AfterLast(s, '/') && s == init + ['/'] + AfterLast(s, '/')
  {
    var tail := AfterLast(s, '/');
    AfterLastIsLastSegment(s, '/');
    var k := |s| - |tail| - 1;
    assert s[0..] == s;
    init := s[..k];
    assert s == s[..k] + [s[k]] + s[k + 1..];
  }

  lemma AfterLastCons(c: char, rest: string)
    ensures '/' in rest ==> AfterLast([c] + rest, '/') == AfterLast(rest, '/')
    ensures '/' !in rest ==> AfterLast(rest, '/') == rest
    ensures '/' !in rest ==> AfterLast([c] + rest, '/') == if c == '/' then rest else [c] + rest
  {
    if '/' in rest {
      var init := BeforeLast(rest);
      var tail := AfterLast(rest, '/');
      AfterLastOf([c] + init, '/', tail);
      Associate([c], init, ['/']);
      Associate([c], init + ['/'], tail);
    } else {
      AfterLastWhole(rest);
      if c == '/' {
        AfterLastOf("", '/', rest);
        assert "" + ['/'] == ['/'];
      } else {
        AfterLastWhole([c] + rest);
      }
    }
  }

  lemma {:induction false} HalveKeepsLast(s: string)
    ensures AfterLast(Halve(s), '/') == AfterLast(s, '/')
    decreases |s|
  {
    if s == "" {
    } else if |s| >= 2 && s[0] == s[1] == '/' {
      var rest := s[2..];
      HalveKeepsLast(rest);
      AfterLastCons('/', s[1..]);
      AfterLastCons('/', rest);
      AfterLastCons('/', Halve(rest));
      assert s == ['/'] + s[1..] && s[1..] == ['/'] + rest;
    } else {
      var rest := s[1..];
      HalveKeepsLast(rest);
      HalveKeepsChars(rest);
      SlashFree(rest);
      AfterLastCons(s[0], rest);
      AfterLastCons(s[0], Halve(rest));
      assert s == [s[0]] + rest;
    }
  }

  /** The result is a fixed point exactly when the decoded request had no run of three slashes or more. */
  lemma FixedPointExactly(p: string)
    requires Normalise(p).Some?
    ensures Normalise(Normalise(p).value) == Normalise(p) <==> !HasTriple(Unescape(p).value)
  {
    var decoded, q := Unescape(p).value, Normalise(p).value;
    AcceptedIsLookupPath(p);
    NormaliseLookupPath(q);
    SqueezeIsHalve(decoded);
    HalveKeepsChars(decoded);
    IndexKeepsDoubles(Halve(decoded));
    HalvedHasDouble(decoded);
  }

  // ---- Which paths can be asked for ----

  function DoubleSlashes(s: string): string {
    if s == "" then "" else (if s[0] == '/' then "//" else [s[0]]) + DoubleSlashes(s[1..])
  }

  lemma {:induction false} HalveUndoesDoubling(s: string)
    ensures Halve(DoubleSlashes(s)) == s
    ensures DoubleSlashes(s) != "" && s[0] != '/' ==> DoubleSlashes(s)[0] != '/'
    ensures HasPrefix(s, "/") ==> HasPrefix(DoubleSlashes(s), "/")
  {
    if s != "" {
      var rest := s[1..];
      HalveUndoesDoubling(rest);
      assert s == [s[0]] + rest;
      if s[0] == '/' {
        HalvePair(DoubleSlashes(rest));
      } else {
        HalveStep(s[0], DoubleSlashes(rest));
      }
    }
  }

  /** The paths that some request is normalised to are the lookup paths, all of them. */
  lemma RequestableExactly(x: string)
    ensures (exists p :: Normalise(p) == Some(x)) <==> IsLookupPath(x)
    ensures IsLookupPath(x) ==> Normalise(DoubleSlashes(x)) == Some(x) && HasPrefix(DoubleSlashes(x), "//")
  {
    if p :| Normalise(p) == Some(x) {
      AcceptedIsLookupPath(p);
    }
    if IsLookupPath(x) {
      var p := DoubleSlashes(x);
      HalveUndoesDoubling(x);
      SqueezeIsHalve(p);
      HalveKeepsChars(p);
      HalveKeepsDots(p);
      PlainIsMembers(p);
      NothingToUnescape(p);
      AcceptedExactly(p);
      LookupPathNeedsNoIndex(x);
    }
  }
}
