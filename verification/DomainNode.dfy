/** One node of the cookie tree: `DomainNode` of `src/CookieStorage.cc`. Its place in the tree is
    the path of labels under which `CookieStorage` keeps it. */
module DomainNodes {
  import opened Cookies
  import opened Wrappers

  const MAX_COOKIE_PER_DOMAIN: nat := 50

  datatype Node = Node(lastAccessTime: int, lruAccessTime: int, inLru: bool, cookies: Option<seq<Cookie>>)

  const NEW_NODE: Node := Node(0, 0, false, None)

  function CookiesOf(n: Node): seq<Cookie> {
    if n.cookies.Some? then n.cookies.value else []
  }

  predicate Distinct(s: seq<Cookie>) {
    forall i, j :: 0 <= i < j < |s| ==> !Same(s[i], s[j])
  }

  // ---------- adding a cookie ----------

  /** The index of the cookie with the key of `c`, or the length. */
  function FindSame(s: seq<Cookie>, c: Cookie): (i: nat)
    ensures i <= |s| && (i < |s| ==> Same(s[i], c))
    ensures forall j :: 0 <= j < i ==> !Same(s[j], c)
  {
    if s == [] || Same(s[0], c) then 0 else 1 + FindSame(s[1..], c)
  }

  function RemoveExpired(s: seq<Cookie>, now: int): (r: seq<Cookie>)
    ensures |r| <= |s| && (|r| == |s| ==> r == s)
    ensures forall d :: d in r <==> d in s && !IsExpired(d, now)
  {
    if s == [] then []
    else if IsExpired(s[0], now) then RemoveExpired(s[1..], now)
    else [s[0]] + RemoveExpired(s[1..], now)
  }

  /** The first cookie with the least access time. */
  function Oldest(s: seq<Cookie>): (m: nat)
    requires s != []
    ensures m < |s|
    ensures forall j :: 0 <= j < |s| ==> s[m].lastAccessTime <= s[j].lastAccessTime
    ensures forall j :: 0 <= j < m ==> s[m].lastAccessTime < s[j].lastAccessTime
  {
    if |s| == 1 then 0
    else
      var m := Oldest(s[..|s| - 1]);
      if s[|s| - 1].lastAccessTime < s[m].lastAccessTime then |s| - 1 else m
  }

  /** A new cookie joins the list; a full list first loses its expired cookies, and if it has
      none, its oldest one. */
  function Pushed(s: seq<Cookie>, c: Cookie, now: int): seq<Cookie> {
    if |s| < MAX_COOKIE_PER_DOMAIN then s + [c]
    else
      var left := RemoveExpired(s, now);
      if |left| >= MAX_COOKIE_PER_DOMAIN then left[Oldest(left) := c] else left + [c]
  }

  function AddCookie(n: Node, c: Cookie, now: int): (Node, bool) {
    var m := n.(lastAccessTime := now);
    if m.cookies.None? then
      if IsExpired(c, now) then (m, false) else (m.(cookies := Some([c])), true)
    else
      var s := m.cookies.value;
      var i := FindSame(s, c);
      if i == |s| then
        if IsExpired(c, now) then (m, false) else (m.(cookies := Some(Pushed(s, c, now))), true)
      else if IsExpired(c, now) then
        (m.(cookies := Some(s[..i] + s[i + 1..])), false)
      else
        (m.(cookies := Some(s[i := c.(creationTime := s[i].creationTime)])), true)
  }

  /** The cookie as the list holds it afterwards: it inherits the creation time of the cookie
      it replaces. */
  function AsStored(s: seq<Cookie>, c: Cookie): Cookie {
    var i := FindSame(s, c);
    if i < |s| then c.(creationTime := s[i].creationTime) else c
  }

  /** The cookies that have to go when `c` arrives: the one with its key, or else, if a new
      cookie finds the list full, the expired ones, or else the oldest one. */
  predicate Displaces(s: seq<Cookie>, c: Cookie, now: int, d: Cookie) {
    if FindSame(s, c) < |s| then Same(d, c)
    else
      && !IsExpired(c, now)
      && |s| >= MAX_COOKIE_PER_DOMAIN
      && if exists e :: e in s && IsExpired(e, now) then IsExpired(d, now) else d == s[Oldest(s)]
  }

  lemma PrependDistinct(c: Cookie, s: seq<Cookie>)
    requires Distinct(s) && forall d :: d in s ==> !Same(c, d)
    ensures Distinct([c] + s)
  {
  }

  lemma RemoveExpiredDistinct(s: seq<Cookie>, now: int)
    requires Distinct(s)
    ensures Distinct(RemoveExpired(s, now))
  {
    if s != [] {
      RemoveExpiredDistinct(s[1..], now);
      PrependDistinct(s[0], RemoveExpired(s[1..], now));
    }
  }

  /** A list without the key stays distinct when the cookie is appended. */
  lemma AppendDistinct(s: seq<Cookie>, c: Cookie)
    requires Distinct(s) && forall d :: d in s ==> !Same(d, c)
    ensures Distinct(s + [c])
  {
  }

  /** A replaced entry keeps the list distinct if no other entry has the key. */
  lemma ReplaceDistinct(s: seq<Cookie>, i: nat, c: Cookie)
    requires Distinct(s) && i < |s| && forall j :: 0 <= j < |s| && j != i ==> !Same(s[j], c)
    ensures Distinct(s[i := c])
    ensures forall d :: d in s[i := c] <==> d == c || (d in s && d != s[i])
  {
    var r := s[i := c];
    forall d | d in s && d != s[i]
      ensures d in r
    {
      var j :| 0 <= j < |s| && s[j] == d;
      assert r[j] == d;
    }
    assert r[i] == c;
  }

  lemma RemoveDistinct(s: seq<Cookie>, i: nat)
    requires Distinct(s) && i < |s|
    ensures Distinct(s[..i] + s[i + 1..])
    ensures forall d :: d in s[..i] + s[i + 1..] <==> d in s && d != s[i]
  {
    var r := s[..i] + s[i + 1..];
    forall d | d in s && d != s[i]
      ensures d in r
    {
      var j :| 0 <= j < |s| && s[j] == d;
      assert r[if j < i then j else j - 1] == d;
    }
  }

  lemma PushedContents(s: seq<Cookie>, c: Cookie, now: int)
    requires Distinct(s) && |s| <= MAX_COOKIE_PER_DOMAIN && FindSame(s, c) == |s| && !IsExpired(c, now)
    ensures Distinct(Pushed(s, c, now)) && |Pushed(s, c, now)| <= MAX_COOKIE_PER_DOMAIN
    ensures forall d :: d in Pushed(s, c, now) <==> d == c || (d in s && !Displaces(s, c, now, d))
  {
    if |s| < MAX_COOKIE_PER_DOMAIN {
      AppendDistinct(s, c);
    } else {
      var left := RemoveExpired(s, now);
      RemoveExpiredDistinct(s, now);
      if |left| >= MAX_COOKIE_PER_DOMAIN {
        assert left == s;
        ReplaceDistinct(s, Oldest(s), c);
      } else {
        if forall e :: e in s ==> !IsExpired(e, now) {
          NoneExpired(s, now);
        }
        AppendDistinct(left, c);
      }
    }
  }

  lemma NoneExpired(s: seq<Cookie>, now: int)
    requires forall e :: e in s ==> !IsExpired(e, now)
    ensures RemoveExpired(s, now) == s
  {
  }

  /** What `addCookie` does to the list: it stores exactly the cookies that have not expired,
      loses exactly those displaced, and keeps the list distinct and short. */
  lemma AddedContents(n: Node, c: Cookie, now: int)
    requires Distinct(CookiesOf(n)) && |CookiesOf(n)| <= MAX_COOKIE_PER_DOMAIN
    ensures var (m, ok) := AddCookie(n, c, now);
      && ok == !IsExpired(c, now)
      && Distinct(CookiesOf(m)) && |CookiesOf(m)| <= MAX_COOKIE_PER_DOMAIN
      && (forall d :: d in CookiesOf(m) <==>
           || (ok && d == AsStored(CookiesOf(n), c))
           || (d in CookiesOf(n) && !Displaces(CookiesOf(n), c, now, d)))
  {
    if n.cookies.Some? {
      var s := n.cookies.value;
      var i := FindSame(s, c);
      if i == |s| {
        if !IsExpired(c, now) {
          PushedContents(s, c, now);
        }
      } else {
        forall d | d in s && Same(d, c)
          ensures d == s[i]
        {
        }
        if IsExpired(c, now) {
          RemoveDistinct(s, i);
        } else {
          ReplaceDistinct(s, i, c.(creationTime := s[i].creationTime));
        }
      }
    }
  }

  // ---------- what an addition means ----------

  /** The list holds `d` after the addition, as `AddedContents` says. */
  predicate Keeps(s: seq<Cookie>, c: Cookie, now: int, d: Cookie) {
    (!IsExpired(c, now) && d == AsStored(s, c)) || (d in s && !Displaces(s, c, now, d))
  }

  /** Section 5.3 of RFC 6265: a cookie is identified by its name, domain and path. */
  predicate OneKey(c: Cookie, d: Cookie) {
    c.domain == d.domain && c.path == d.path && c.name == d.name
  }

  /** The expiry time of a persistent cookie has passed. */
  predicate Gone(c: Cookie, now: int) {
    c.persistent && now > c.expiryTime
  }

  /** Of the cookies with the key of `c` only `c` is held afterwards, unless it has expired; it has
      the creation time of the one it replaces. */
  lemma KeptWithKey(s: seq<Cookie>, c: Cookie, now: int, d: Cookie)
    requires Distinct(s) && OneKey(c, d)
    ensures Keeps(s, c, now, d) <==>
      && !Gone(c, now)
      && d == c.(creationTime := d.creationTime)
      && (forall e :: e in s && OneKey(c, e) ==> d.creationTime == e.creationTime)
      && ((forall e :: e in s ==> !OneKey(c, e)) ==> d.creationTime == c.creationTime)
  {
    var i := FindSame(s, c);
    if i < |s| {
      KeptInPlace(s, c, now, d, i);
    }
  }

  lemma KeptInPlace(s: seq<Cookie>, c: Cookie, now: int, d: Cookie, i: nat)
    requires Distinct(s) && OneKey(c, d) && i == FindSame(s, c) < |s|
    ensures Keeps(s, c, now, d) <==> !Gone(c, now) && d == c.(creationTime := s[i].creationTime)
    ensures forall e :: e in s && OneKey(c, e) ==> e == s[i]
    ensures s[i] in s && OneKey(c, s[i])
  {
    OnlyWithKey(s, c, i);
  }

  lemma OnlyWithKey(s: seq<Cookie>, c: Cookie, i: nat)
    requires Distinct(s) && i < |s| && OneKey(c, s[i])
    ensures forall e :: e in s && OneKey(c, e) ==> e == s[i]
  {
    forall e | e in s && OneKey(c, e)
      ensures e == s[i]
    {
      var j :| 0 <= j < |s| && s[j] == e;
    }
  }

  /** Other cookies are lost only if `c` is new and finds fifty others: then those that have
      expired, or if there are none, the one that has not been used for longest. */
  lemma KeptOthers(s: seq<Cookie>, c: Cookie, now: int, d: Cookie)
    requires Distinct(s) && |s| <= MAX_COOKIE_PER_DOMAIN && !OneKey(c, d)
    ensures Keeps(s, c, now, d) ==> d in s
    ensures d in s && !Keeps(s, c, now, d) ==>
      && !Gone(c, now) && |s| == 50 && (forall e :: e in s ==> !OneKey(c, e))
      && (|| Gone(d, now)
          || (&& (forall e :: e in s ==> !Gone(e, now) && d.lastAccessTime <= e.lastAccessTime)
              && forall e :: e in s && !OneKey(c, e) && e != d ==> Keeps(s, c, now, e)))
  {
    var i := FindSame(s, c);
    if d in s && !Keeps(s, c, now, d) {
      var j :| 0 <= j < |s| && s[j] == d;
      assert i == |s|;
    }
  }

  /** The two lemmas above say what `addCookie` leaves. */
  lemma AddedKeeps(n: Node, c: Cookie, now: int, d: Cookie)
    requires Distinct(CookiesOf(n)) && |CookiesOf(n)| <= MAX_COOKIE_PER_DOMAIN
    ensures d in CookiesOf(AddCookie(n, c, now).0) <==> Keeps(CookiesOf(n), c, now, d)
  {
    AddedContents(n, c, now);
  }

  // ---------- finding cookies ----------

  /** A request: what `findCookie` and `match` look at. */
  datatype Request = Request(host: string, path: string, now: int, secure: bool)

  predicate Hit(numeric: string -> bool, q: Request, c: Cookie) {
    Match(numeric, c, q.host, q.path, q.now, q.secure)
  }

  function Refreshed(q: Request, c: Cookie): Cookie {
    c.(lastAccessTime := q.now)
  }

  /** The list after a search: the hits have been accessed. */
  function Visited(numeric: string -> bool, q: Request, s: seq<Cookie>): (r: seq<Cookie>)
    ensures |r| == |s|
    ensures forall i :: 0 <= i < |s| ==> r[i] == if Hit(numeric, q, s[i]) then Refreshed(q, s[i]) else s[i]
  {
    if s == [] then []
    else [if Hit(numeric, q, s[0]) then Refreshed(q, s[0]) else s[0]] + Visited(numeric, q, s[1..])
  }

  /** The hits of the list, in its order, as they are after the search. */
  function Hits(numeric: string -> bool, q: Request, s: seq<Cookie>): seq<Cookie> {
    if s == [] then []
    else
      var init, last := s[..|s| - 1], s[|s| - 1];
      Hits(numeric, q, init) + if Hit(numeric, q, last) then [Refreshed(q, last)] else []
  }

  /** `findCookie`: collects the hits and marks them as accessed. */
  method FindCookie(numeric: string -> bool, q: Request, s: seq<Cookie>)
    returns (hits: seq<Cookie>, visited: seq<Cookie>)
    ensures hits == Hits(numeric, q, s)
    ensures visited == Visited(numeric, q, s)
  {
    hits, visited := [], s;
    for i := 0 to |s|
      invariant |visited| == |s|
      invariant hits == Hits(numeric, q, s[..i])
      invariant visited[i..] == s[i..]
      invariant forall j :: 0 <= j < i ==> visited[j] == if Hit(numeric, q, s[j]) then Refreshed(q, s[j]) else s[j]
    {
      assert s[..i + 1][..i] == s[..i];
      assert visited[i] == visited[i..][0] == s[i..][0];
      if Hit(numeric, q, visited[i]) {
        visited := visited[i := Refreshed(q, visited[i])];
        hits := hits + [visited[i]];
      }
    }
    assert s[..|s|] == s;
  }

  /** The set of the hits among some cookies. */
  function HitSet(numeric: string -> bool, q: Request, s: set<Cookie>): set<Cookie> {
    set c | c in s && Hit(numeric, q, c) :: Refreshed(q, c)
  }

  function SetOf(s: seq<Cookie>): set<Cookie> {
    set c | c in s
  }

  lemma HitSetNew(numeric: string -> bool, q: Request, c: Cookie, s: set<Cookie>)
    requires forall d :: d in s ==> !Same(d, c)
    ensures Refreshed(q, c) !in HitSet(numeric, q, s)
  {
  }

  /** A list of distinct cookies gives each of its hits once. */
  lemma {:induction false} HitsOnce(numeric: string -> bool, q: Request, s: seq<Cookie>)
    requires Distinct(s)
    ensures multiset(Hits(numeric, q, s)) == multiset(HitSet(numeric, q, SetOf(s)))
  {
    if s == [] {
      assert HitSet(numeric, q, SetOf(s)) == {};
    } else {
      var init, last := s[..|s| - 1], s[|s| - 1];
      HitsOnce(numeric, q, init);
      assert s == init + [last];
      if Hit(numeric, q, last) {
        HitSetNew(numeric, q, last, SetOf(init));
      }
    }
  }

  lemma {:induction false} DistinctCount(s: seq<Cookie>)
    requires Distinct(s)
    ensures |SetOf(s)| == |s|
  {
    if s != [] {
      DistinctCount(s[1..]);
      assert SetOf(s) == SetOf(s[1..]) + {s[0]};
    }
  }

}
