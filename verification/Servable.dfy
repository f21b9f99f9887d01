/** Which paths of a valid manifest a visitor can reach. */
module Servable {
  import opened Outcome
  import opened Text
  import opened Nostr
  import R = RequestPath
  import M = Manifest
  import V = Validation

  /** Some request that the public handler does not keep for itself is normalised to the path. */
  ghost predicate IsReachable(x: string) { exists p :: R.Normalise(p) == Some(x) && !HasPrefix(p, "/internal/") }

  lemma GoodPathIsPlain(t: Tag)
    requires M.PathFault(t).None?
    ensures HasPrefix(t[1], "/") && '.' in AfterLast(t[1], '/') && R.IsPlain(t[1])
  {
    assert forall i :: 0 <= i < |t[1]| ==> !M.IsBadChar(t[1][i]);
  }

  /**
   Validate and normalisePath do not accept the same paths: a path of a valid
   manifest can be asked for exactly when it has no percent sign and nowhere two
   dots in a row. That the handler turns away what starts with /internal/ hides
   nothing, since a request may double its slashes.
   */
  lemma ManifestPathIsReachableExactly(t: Tag)
    requires M.PathFault(t).None?
    ensures IsReachable(t[1]) <==> '%' !in t[1] && !R.HasDots(t[1])
  {
    var x := t[1];
    R.RequestableExactly(x);
    GoodPathIsPlain(t);
    if R.IsLookupPath(x) {
      var p := R.DoubleSlashes(x);
      assert p[..2] == "//" && "/internal/"[1] == 'i';
      assert R.Normalise(p) == Some(x) && !HasPrefix(p, "/internal/");
    }
  }

  lemma DottedNameIsGood(digest: string)
    requires M.IsSHA256Hex(digest)
    ensures M.PathFault(["path", "/a..b", digest]).None?
  {
    var name := "a..b";
    assert "/" + name == "/a..b" && name[1] == '.' && name[0] == 'a';
    V.TopFileIsGood(name, digest);
  }

  /** Such paths exist: a valid manifest may list a file that no request reaches. */
  lemma SomeManifestPathsAreUnreachable(digest: string)
    requires M.IsSHA256Hex(digest)
    ensures M.PathFault(["path", "/a..b", digest]).None?
    ensures !IsReachable("/a..b")
  {
    var x := "/a..b";
    DottedNameIsGood(digest);
    assert x[2] == '.' && x[3] == '.';
    ManifestPathIsReachableExactly(["path", x, digest]);
  }
}
