/** bytes.Index and what the incremental readers of http/ need to know about it. */
module Search {
  import opened Bytes
  import opened Stream

  predicate MatchAt(s: Bytes, sep: Bytes, p: nat) {
    p + |sep| <= |s| && s[p..p + |sep|] == sep
  }

  /** The first occurrence of sep in s. */
  function Index(s: Bytes, sep: Bytes): Option<nat>
    requires sep != []
  {
    if |s| < |sep| then None
    else if s[..|sep|] == sep then Some(0)
    else match Index(s[1..], sep)
      case None => None
      case Some(p) => Some(p + 1)
  }

  lemma {:induction false} IndexIsFirst(s: Bytes, sep: Bytes)
    requires sep != []
    ensures match Index(s, sep)
            case None => forall q: nat :: !MatchAt(s, sep, q)
            case Some(p) => MatchAt(s, sep, p) && forall q: nat :: q < p ==> !MatchAt(s, sep, q)
  {
    if |s| >= |sep| && s[..|sep|] != sep {
      IndexIsFirst(s[1..], sep);
      forall q: nat ensures q == 0 || (MatchAt(s, sep, q) <==> MatchAt(s[1..], sep, q - 1)) {
        if q > 0 && q + |sep| <= |s| {
          SliceOfDrop(s, 1, q - 1, q - 1 + |sep|);
        }
      }
      assert s[0..|sep|] == s[..|sep|];
    }
  }

  lemma IndexIs(s: Bytes, sep: Bytes, p: nat)
    requires sep != [] && MatchAt(s, sep, p) && forall q: nat :: q < p ==> !MatchAt(s, sep, q)
    ensures Index(s, sep) == Some(p)
  {
    IndexIsFirst(s, sep);
  }

  lemma MatchExtends(s: Bytes, more: Bytes, sep: Bytes, p: nat)
    requires p + |sep| <= |s|
    ensures MatchAt(s + more, sep, p) <==> MatchAt(s, sep, p)
  {
    assert (s + more)[p..p + |sep|] == s[p..p + |sep|];
  }

  /** An occurrence found in what has arrived stays the first one whatever arrives later. */
  lemma IndexExtends(s: Bytes, more: Bytes, sep: Bytes)
    requires sep != [] && Index(s, sep).Some?
    ensures Index(s + more, sep) == Index(s, sep)
  {
    IndexIsFirst(s, sep);
    var p := Index(s, sep).value;
    MatchExtends(s, more, sep, p);
    forall q: nat | q < p ensures !MatchAt(s + more, sep, q) {
      MatchExtends(s, more, sep, q);
    }
    IndexIs(s + more, sep, p);
  }

  /** If nothing is found in s, the first occurrence in s + more ends behind s. */
  lemma IndexBehind(s: Bytes, more: Bytes, sep: Bytes)
    requires sep != [] && Index(s, sep) == None && Index(s + more, sep).Some?
    ensures Index(s + more, sep).value + |sep| > |s|
  {
    IndexIsFirst(s, sep);
    IndexIsFirst(s + more, sep);
    var p := Index(s + more, sep).value;
    if p + |sep| <= |s| {
      MatchExtends(s, more, sep, p);
    }
  }
}
