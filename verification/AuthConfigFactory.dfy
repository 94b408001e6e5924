/** The Basic credentials of `src/AuthConfigFactory.cc` and the lookup by protection space of
    section 2.2 of RFC 7617. The ordered set is a sequence in its order. */
module AuthConfigFactories {
  import opened Wrappers

  datatype BasicCred = BasicCred(user: string, password: string, host: string, port: nat, path: string, activated: bool)

  /** The constructor gives every path a final slash. */
  function Normalized(path: string): (r: string)
    ensures r != "" && r[|r| - 1] == '/'
    ensures r == path || (r == path + "/" && (path == "" || path[|path| - 1] != '/'))
  {
    if path == "" || path[|path| - 1] != '/' then path + "/" else path
  }

  function NewBasicCred(user: string, password: string, host: string, port: nat, path: string, activated: bool)
    : (c: BasicCred)
    ensures c.user == user && c.password == password && c.activated == activated
    ensures c.host == host && c.port == port && c.path == Normalized(path)
  {
    BasicCred(user, password, host, port, Normalized(path), activated)
  }

  // ---------- the order ----------

  /** The lexicographic order of `std::string`. */
  predicate StringLess(a: string, b: string) {
    b != "" && (a == "" || a[0] < b[0] || (a[0] == b[0] && StringLess(a[1..], b[1..])))
  }

  /** `operator<`: by host, then by port, then by descending path. */
  predicate Less(c: BasicCred, d: BasicCred) {
    || StringLess(c.host, d.host)
    || (&& !StringLess(d.host, c.host)
        && (|| c.port < d.port
            || (!(d.port < c.port) && StringLess(d.path, c.path))))
  }

  /** `operator==`. */
  predicate SameKey(c: BasicCred, d: BasicCred) {
    c.host == d.host && c.port == d.port && c.path == d.path
  }

  lemma {:induction false} StringLessTotal(a: string, b: string)
    ensures a == b <==> !StringLess(a, b) && !StringLess(b, a)
    ensures !(StringLess(a, b) && StringLess(b, a))
  {
    if a != "" && b != "" {
      StringLessTotal(a[1..], b[1..]);
      assert a == [a[0]] + a[1..] && b == [b[0]] + b[1..];
    }
  }

  lemma {:induction false} StringLessTransitive(a: string, b: string, c: string)
    requires StringLess(a, b) && StringLess(b, c)
    ensures StringLess(a, c)
  {
    if a != "" && a[0] == b[0] && b[0] == c[0] {
      StringLessTransitive(a[1..], b[1..], c[1..]);
    }
  }

  /** A proper prefix comes before the string. */
  lemma {:induction false} PrefixLess(a: string, b: string)
    requires a < b
    ensures StringLess(a, b)
  {
    if a != "" {
      PrefixLess(a[1..], b[1..]);
    }
  }

  /** `operator<` is a strict total order on keys. */
  lemma LessTotal(c: BasicCred, d: BasicCred)
    ensures SameKey(c, d) <==> !Less(c, d) && !Less(d, c)
    ensures !(Less(c, d) && Less(d, c))
  {
    StringLessTotal(c.host, d.host);
    StringLessTotal(c.path, d.path);
  }

  lemma LessTransitive(c: BasicCred, d: BasicCred, e: BasicCred)
    requires Less(c, d) && Less(d, e)
    ensures Less(c, e)
  {
    StringLessTotal(c.host, d.host);
    StringLessTotal(d.host, e.host);
    StringLessTotal(c.host, e.host);
    if StringLess(c.host, d.host) && StringLess(d.host, e.host) {
      StringLessTransitive(c.host, d.host, e.host);
    }
    if StringLess(e.path, d.path) && StringLess(d.path, c.path) {
      StringLessTransitive(e.path, d.path, c.path);
    }
  }

  // ---------- the set ----------

  predicate Sorted(s: seq<BasicCred>) {
    forall i, j :: 0 <= i < j < |s| ==> Less(s[i], s[j])
  }

  /** `lower_bound`: the first credential that is not before `c`. */
  function LowerBound(s: seq<BasicCred>, c: BasicCred): (k: nat)
    ensures k <= |s| && (k < |s| ==> !Less(s[k], c))
    ensures forall j :: 0 <= j < k ==> Less(s[j], c)
  {
    if s == [] || !Less(s[0], c) then 0 else 1 + LowerBound(s[1..], c)
  }

  /** `insert`: an equal key already in the set is left as it is. */
  function Insert(s: seq<BasicCred>, c: BasicCred): seq<BasicCred> {
    var k := LowerBound(s, c);
    if k < |s| && !Less(c, s[k]) then s else s[..k] + [c] + s[k..]
  }

  lemma InsertSorted(s: seq<BasicCred>, c: BasicCred)
    requires Sorted(s)
    ensures Sorted(Insert(s, c))
  {
    var k := LowerBound(s, c);
    if k == |s| || Less(c, s[k]) {
      forall j | k < j < |s|
        ensures Less(c, s[j])
      {
        LessTransitive(c, s[k], s[j]);
      }
    }
  }

  lemma LessChain(c: BasicCred, d: BasicCred, e: BasicCred)
    ensures Less(c, d) && Less(d, e) ==> Less(c, e)
  {
    if Less(c, d) && Less(d, e) {
      LessTransitive(c, d, e);
    }
  }

  /** An insertion adds the credential unless its key is there, and changes nothing else. */
  lemma InsertContents(s: seq<BasicCred>, c: BasicCred, d: BasicCred)
    requires Sorted(s)
    ensures d in Insert(s, c) <==>
      d in s || (d == c && forall e :: e in s ==> !(e.host == c.host && e.port == c.port && e.path == c.path))
  {
    var k := LowerBound(s, c);
    if e :| e in s && SameKey(e, c) {
      KeyFound(s, c, e);
    }
    if k < |s| {
      LessTotal(s[k], c);
    }
    InsertedMembers(s, k, c, d);
  }

  lemma InsertedMembers(s: seq<BasicCred>, k: nat, c: BasicCred, d: BasicCred)
    requires k <= |s|
    ensures d in s[..k] + [c] + s[k..] <==> d in s || d == c
  {
    assert s == s[..k] + s[k..];
  }

  lemma KeyFound(s: seq<BasicCred>, c: BasicCred, e: BasicCred)
    requires Sorted(s) && e in s && SameKey(e, c)
    ensures var k := LowerBound(s, c); k < |s| && !Less(c, s[k])
  {
    var j :| 0 <= j < |s| && s[j] == e;
    LessTotal(e, c);
    LessChain(c, s[LowerBound(s, c)], e);
  }

  // ---------- the promise of updateBasicCred ----------

  /** `updateBasicCred` is documented to replace a credential with the same key, but compares
      pointers to find one, so it only inserts. It does what is promised exactly if no other
      credential has the key. */
  lemma UpdateStoresExactly(s: seq<BasicCred>, c: BasicCred)
    requires Sorted(s)
    ensures c in Insert(s, c)
       <==> forall d :: d in s && d.host == c.host && d.port == c.port && d.path == c.path ==> d == c
  {
    InsertContents(s, c, c);
    if c in s {
      forall d | d in s && SameKey(d, c)
        ensures d == c
      {
        KeyIsUnique(s, d, c);
      }
    }
  }

  lemma KeyIsUnique(s: seq<BasicCred>, c: BasicCred, d: BasicCred)
    requires Sorted(s) && c in s && d in s && SameKey(c, d)
    ensures c == d
  {
    var i :| 0 <= i < |s| && s[i] == c;
    var j :| 0 <= j < |s| && s[j] == d;
    LessTotal(c, d);
  }

  /** A new password for a known place is dropped. */
  lemma UpdateKeepsOldPassword()
    ensures var old_, new_ := NewBasicCred("u", "old", "h", 80, "", true), NewBasicCred("u", "new", "h", 80, "/", true);
            Insert(Insert([], old_), new_) == [old_]
  {
    var old_, new_ := NewBasicCred("u", "old", "h", 80, "", true), NewBasicCred("u", "new", "h", 80, "/", true);
    assert Normalized("") == "/" == Normalized("/");
    assert Insert([], old_) == [old_];
    LessTotal(old_, new_);
  }

  // ---------- the lookup ----------

  /** The credential is for the place that the request asks for. */
  predicate Covers(c: BasicCred, host: string, port: nat, path: string) {
    c.host == host && c.port == port && c.path <= Normalized(path)
  }

  /** The index of the credential that a lookup finds, or the length. */
  predicate Finds(s: seq<BasicCred>, host: string, port: nat, path: string, i: nat) {
    if i < |s| then
      && Covers(s[i], host, port, path)
      && forall c :: c in s && Covers(c, host, port, path) && c != s[i] ==> |c.path| < |s[i].path|
    else
      i == |s| && forall c :: c in s ==> !Covers(c, host, port, path)
  }

  /** At most one index is found. */
  lemma FindsOne(s: seq<BasicCred>, host: string, port: nat, path: string, i: nat, j: nat)
    requires Sorted(s) && Finds(s, host, port, path, i) && Finds(s, host, port, path, j)
    ensures i == j
  {
    if i < |s| && j < |s| && i != j {
      assert s[i] in s && s[j] in s;
      LessTotal(s[i], s[i]);
    }
  }

  /** Every covering credential stands at or behind the lower bound. */
  lemma CoversBehind(s: seq<BasicCred>, bc: BasicCred, path: string, j: nat)
    requires j < LowerBound(s, bc) && bc.path == Normalized(path)
    ensures !Covers(s[j], bc.host, bc.port, path)
  {
    var c := s[j];
    assert Less(c, bc);
    StringLessTotal(c.host, c.host);
    if c.path < bc.path {
      PrefixLess(c.path, bc.path);
    }
    StringLessTotal(c.path, bc.path);
  }

  lemma NoneAhead(s: seq<BasicCred>, bc: BasicCred, path: string)
    requires bc.path == Normalized(path)
    ensures forall j :: 0 <= j < LowerBound(s, bc) ==> !Covers(s[j], bc.host, bc.port, path)
  {
    forall j | 0 <= j < LowerBound(s, bc)
      ensures !Covers(s[j], bc.host, bc.port, path)
    {
      CoversBehind(s, bc, path, j);
    }
  }

  /** The entries for the same host and port follow each other. */
  lemma SameServerTogether(s: seq<BasicCred>, bc: BasicCred, i: nat, j: nat)
    requires Sorted(s) && LowerBound(s, bc) <= i < j < |s|
    requires s[j].host == bc.host && s[j].port == bc.port
    ensures s[i].host == bc.host && s[i].port == bc.port
  {
    var k := LowerBound(s, bc);
    if k < i {
      LessTotal(s[k], bc);
      LessTransitiveWeak(bc, s[k], s[i]);
    }
    assert !Less(s[i], bc) && Less(s[i], s[j]);
    StringLessTotal(s[i].host, bc.host);
  }

  lemma LessTransitiveWeak(c: BasicCred, d: BasicCred, e: BasicCred)
    requires !Less(d, c) && Less(d, e)
    ensures !Less(e, c)
  {
    if Less(e, c) {
      LessTransitive(d, e, c);
    }
  }

  /** Of two prefixes of the path the one further ahead is the longer one. */
  lemma LongerFirst(s: seq<BasicCred>, i: nat, j: nat, host: string, port: nat, path: string)
    requires Sorted(s) && i < j < |s|
    requires Covers(s[i], host, port, path) && Covers(s[j], host, port, path)
    ensures |s[j].path| < |s[i].path|
  {
    var p, q := s[i].path, s[j].path;
    assert Less(s[i], s[j]);
    StringLessTotal(host, host);
    StringLessTotal(p, q);
    if |p| <= |q| {
      assert p == Normalized(path)[..|p|] && q == Normalized(path)[..|q|];
      assert p <= q;
      if p != q {
        PrefixLess(p, q);
      }
    }
  }

  lemma FirstIsLongest(s: seq<BasicCred>, i: nat, host: string, port: nat, path: string)
    requires Sorted(s) && i < |s| && Covers(s[i], host, port, path)
    requires forall j :: 0 <= j < i ==> !Covers(s[j], host, port, path)
    ensures Finds(s, host, port, path, i)
  {
    forall j | i < j < |s| && Covers(s[j], host, port, path)
      ensures |s[j].path| < |s[i].path|
    {
      LongerFirst(s, i, j, host, port, path);
    }
  }

  lemma NoneBehind(s: seq<BasicCred>, bc: BasicCred, i: nat, path: string)
    requires Sorted(s) && LowerBound(s, bc) <= i <= |s|
    requires forall j :: 0 <= j < i ==> !Covers(s[j], bc.host, bc.port, path)
    requires i < |s| ==> s[i].host != bc.host || s[i].port != bc.port
    ensures Finds(s, bc.host, bc.port, path, |s|)
  {
    forall j | 0 <= j < |s|
      ensures !Covers(s[j], bc.host, bc.port, path)
    {
      if i <= j {
        NotBehind(s, bc, i, j, path);
      }
    }
    NoneFound(s, bc.host, bc.port, path);
  }

  lemma NotBehind(s: seq<BasicCred>, bc: BasicCred, i: nat, j: nat, path: string)
    requires Sorted(s) && LowerBound(s, bc) <= i <= j < |s|
    requires s[i].host != bc.host || s[i].port != bc.port
    ensures !Covers(s[j], bc.host, bc.port, path)
  {
    if i < j && Covers(s[j], bc.host, bc.port, path) {
      SameServerTogether(s, bc, i, j);
    }
  }

  lemma NoneFound(s: seq<BasicCred>, host: string, port: nat, path: string)
    requires forall j :: 0 <= j < |s| ==> !Covers(s[j], host, port, path)
    ensures Finds(s, host, port, path, |s|)
  {
  }

  class AuthConfigFactory {
    var basicCreds: seq<BasicCred>

    ghost predicate Valid()
      reads this
    {
      Sorted(basicCreds) && forall c :: c in basicCreds ==> c.path == Normalized(c.path)
    }

    constructor ()
      ensures Valid() && basicCreds == []
    {
      basicCreds := [];
    }

    /** Scans from the lower bound while host and port agree; what it finds is the credential
        with the longest path that is a prefix of the path asked for. */
    method FindBasicCred(host: string, port: nat, path: string) returns (i: nat)
      requires Valid()
      ensures Finds(basicCreds, host, port, path, i)
      ensures i < |basicCreds| ==>
        var c := basicCreds[i]; c.host == host && c.port == port && c.path <= Normalized(path)
      ensures forall c :: c in basicCreds && c.host == host && c.port == port && c.path <= Normalized(path) ==>
        i < |basicCreds| && |c.path| <= |basicCreds[i].path|
    {
      var bc := NewBasicCred("", "", host, port, path, false);
      ghost var start := LowerBound(basicCreds, bc);
      i := LowerBound(basicCreds, bc);
      NoneAhead(basicCreds, bc, path);
      while i < |basicCreds| && basicCreds[i].host == host && basicCreds[i].port == port
        invariant start <= i <= |basicCreds|
        invariant forall j :: 0 <= j < i ==> !Covers(basicCreds[j], host, port, path)
      {
        if basicCreds[i].path <= bc.path {
          FirstIsLongest(basicCreds, i, host, port, path);
          return;
        }
        i := i + 1;
      }
      NoneBehind(basicCreds, bc, i, path);
      i := |basicCreds|;
    }

    /** Inserts the credential. The comparison of the owning pointers for a replacement is never
        true, because the new credential is not in the set yet. */
    method UpdateBasicCred(c: BasicCred)
      requires Valid() && c.path == Normalized(c.path)
      modifies `basicCreds
      ensures Valid()
      ensures basicCreds == Insert(old(basicCreds), c)
    {
      InsertSorted(basicCreds, c);
      forall d | d in Insert(basicCreds, c)
        ensures d.path == Normalized(d.path)
      {
        InsertContents(basicCreds, c, d);
      }
      basicCreds := Insert(basicCreds, c);
    }

    /** Activates the credential found, or adds the one that the resolver knows; `resolved` is
        the user and password it gives. If it succeeds, the next lookup finds an active one. */
    method ActivateBasicCred(host: string, port: nat, path: string, resolved: Option<(string, string)>)
      returns (ok: bool)
      requires Valid()
      modifies `basicCreds
      ensures Valid()
      ensures ok <==> resolved.Some? || exists c :: c in old(basicCreds) && Covers(c, host, port, path)
      ensures !ok ==> basicCreds == old(basicCreds)
      ensures ok ==>
        exists i: nat :: Finds(basicCreds, host, port, path, i) && i < |basicCreds| && basicCreds[i].activated
      ensures forall i: nat :: Finds(old(basicCreds), host, port, path, i) ==>
        if i < old(|basicCreds|) then
          basicCreds == old(basicCreds)[i := old(basicCreds)[i].(activated := true)]
        else
          resolved.Some? ==>
            var (user, password) := resolved.value;
            basicCreds == Insert(old(basicCreds), NewBasicCred(user, password, host, port, path, true))
    {
      var i := FindBasicCred(host, port, path);
      forall j: nat | Finds(basicCreds, host, port, path, j)
        ensures j == i
      {
        FindsOne(basicCreds, host, port, path, i, j);
      }
      if i == |basicCreds| {
        if resolved.None? {
          return false;
        }
        AddFound(resolved.value.0, resolved.value.1, host, port, path);
        return true;
      }
      Activated(basicCreds, i, host, port, path);
      basicCreds := basicCreds[i := basicCreds[i].(activated := true)];
      return true;
    }

    method AddFound(user: string, password: string, host: string, port: nat, path: string)
      requires Valid() && Finds(basicCreds, host, port, path, |basicCreds|)
      modifies `basicCreds
      ensures Valid()
      ensures basicCreds == Insert(old(basicCreds), NewBasicCred(user, password, host, port, path, true))
      ensures exists i: nat :: Finds(basicCreds, host, port, path, i) && i < |basicCreds| && basicCreds[i].activated
    {
      var c := NewBasicCred(user, password, host, port, path, true);
      assert Covers(c, host, port, path);
      UpdateBasicCred(c);
      forall d
        ensures d in basicCreds <==> d in old(basicCreds) || d == c
      {
        InsertContents(old(basicCreds), c, d);
      }
      ghost var i :| 0 <= i < |basicCreds| && basicCreds[i] == c;
      assert Finds(basicCreds, host, port, path, i);
    }
  }

  /** Activation changes no key, so the same index is found afterwards. */
  lemma Activated(s: seq<BasicCred>, i: nat, host: string, port: nat, path: string)
    requires Sorted(s) && i < |s| && Finds(s, host, port, path, i)
    ensures var r := s[i := s[i].(activated := true)]; Sorted(r) && Finds(r, host, port, path, i)
    ensures forall c :: c in s[i := s[i].(activated := true)] ==> exists d :: d in s && d.path == c.path
  {
    var r := s[i := s[i].(activated := true)];
    forall c | c in r && Covers(c, host, port, path) && c != r[i]
      ensures |c.path| < |r[i].path|
    {
      var j :| 0 <= j < |r| && r[j] == c;
      assert s[j] in s;
      LessTotal(s[i], s[j]);
    }
    forall c | c in r
      ensures exists d :: d in s && d.path == c.path
    {
      var j :| 0 <= j < |r| && r[j] == c;
      assert s[j] in s;
    }
  }
}
