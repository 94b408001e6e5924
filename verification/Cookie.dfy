/** Cookies and how they match a request: `src/Cookie.cc`, `src/cookie_helper.cc` and the
    domain labels of `src/CookieStorage.cc`. Whether a host name is numeric is a parameter. */
module Cookies {

  datatype Cookie = Cookie(
    name: string,
    value: string,
    expiryTime: int,
    persistent: bool,
    domain: string,
    hostOnly: bool,
    path: string,
    secure: bool,
    httpOnly: bool,
    creationTime: int,
    lastAccessTime: int)

  /** `operator==`: the key of a cookie. */
  predicate Same(c: Cookie, d: Cookie) {
    c.domain == d.domain && c.path == d.path && c.name == d.name
  }

  predicate IsExpired(c: Cookie, base: int) {
    c.persistent && base > c.expiryTime
  }

  predicate EndsWith(s: string, t: string) {
    |t| <= |s| && s[|s| - |t|..] == t
  }

  predicate DomainMatch(numeric: string -> bool, requestHost: string, domain: string) {
    || requestHost == domain
    || (&& EndsWith(requestHost, domain)
        && |domain| < |requestHost|
        && requestHost[|requestHost| - |domain| - 1] == '.'
        && !numeric(requestHost))
  }

  predicate PathMatch(requestPath: string, path: string) {
    || requestPath == path
    || (&& path < requestPath
        && ((path != "" && path[|path| - 1] == '/') || requestPath[|path|] == '/'))
  }

  predicate Match(numeric: string -> bool, c: Cookie, requestHost: string, requestPath: string, date: int,
                  secure: bool)
  {
    && !(c.secure && !secure)
    && !IsExpired(c, date)
    && PathMatch(requestPath, c.path)
    && (if c.hostOnly then requestHost == c.domain else DomainMatch(numeric, requestHost, c.domain))
  }

  // ---------- what a match is ----------

  /** The conditions of sections 5.1.3, 5.1.4 and 5.4 of RFC 6265 under which a cookie goes with a
      request, and that it has not expired. */
  ghost predicate Due(numeric: string -> bool, c: Cookie, host: string, path: string, now: int, secure: bool) {
    && (c.secure ==> secure)
    && (c.persistent ==> now <= c.expiryTime)
    && (host == c.domain || (!c.hostOnly && !numeric(host) && exists x: string :: host == x + "." + c.domain))
    && exists rest: string :: path == c.path + rest
         && (rest == "" || (c.path != "" && c.path[|c.path| - 1] == '/') || rest[0] == '/')
  }

  lemma DomainMatchMeans(numeric: string -> bool, host: string, domain: string)
    ensures DomainMatch(numeric, host, domain)
       <==> host == domain || (!numeric(host) && exists x: string :: host == x + "." + domain)
  {
    if EndsWith(host, domain) && |domain| < |host| && host[|host| - |domain| - 1] == '.' {
      assert host == host[..|host| - |domain| - 1] + "." + domain;
    }
  }

  lemma PathMatchMeans(requestPath: string, path: string)
    ensures PathMatch(requestPath, path)
       <==> exists rest: string :: requestPath == path + rest
              && (rest == "" || (path != "" && path[|path| - 1] == '/') || rest[0] == '/')
  {
    if path <= requestPath {
      var rest := requestPath[|path|..];
      assert requestPath == path + rest;
      assert path < requestPath ==> rest[0] == requestPath[|path|];
    }
  }

  /** `match` accepts a cookie exactly when it is due. */
  lemma MatchMeans(numeric: string -> bool, c: Cookie, host: string, path: string, now: int, secure: bool)
    ensures Match(numeric, c, host, path, now, secure) <==> Due(numeric, c, host, path, now, secure)
  {
    DomainMatchMeans(numeric, host, c.domain);
    PathMatchMeans(path, c.path);
  }

  // ---------- labels ----------

  /** The non-empty parts between separators; `cur` is the part begun before `s`. */
  function Split(s: string, sep: char, cur: string): seq<string>
    decreases |s|
  {
    var done := if cur == "" then [] else [cur];
    if s == "" then done
    else if s[0] == sep then done + Split(s[1..], sep, "")
    else Split(s[1..], sep, cur + [s[0]])
  }

  function Reverse(s: seq<string>): (r: seq<string>)
    ensures |r| == |s| && forall i :: 0 <= i < |s| ==> r[i] == s[|s| - 1 - i]
  {
    if s == [] then [] else Reverse(s[1..]) + [s[0]]
  }

  function Labels(numeric: string -> bool, domain: string): seq<string> {
    if numeric(domain) then [domain] else Split(domain, '.', "")
  }

  /** The node of the tree that holds the cookies of a domain: its labels from the top. */
  function PathOf(numeric: string -> bool, domain: string): seq<string> {
    Reverse(Labels(numeric, domain))
  }

  /** A separator separates the parts before it from those behind it. */
  lemma {:induction false} SplitAtSeparator(x: string, sep: char, d: string, cur: string)
    ensures Split(x + [sep] + d, sep, cur) == Split(x, sep, cur) + Split(d, sep, "")
    decreases |x|
  {
    var s := x + [sep] + d;
    if x == "" {
      assert s[1..] == d;
    } else {
      assert s[1..] == x[1..] + [sep] + d;
      SplitAtSeparator(x[1..], sep, d, if x[0] == sep then "" else cur + [x[0]]);
    }
  }

  lemma {:induction false} PartsHaveNoSeparator(s: string, sep: char, cur: string, l: string)
    requires sep !in cur && l in Split(s, sep, cur)
    ensures sep !in l
    decreases |s|
  {
    if s != "" {
      if s[0] == sep {
        if l in Split(s[1..], sep, "") {
          PartsHaveNoSeparator(s[1..], sep, "", l);
        }
      } else {
        PartsHaveNoSeparator(s[1..], sep, cur + [s[0]], l);
      }
    }
  }

  lemma {:induction false} OnePart(s: string, sep: char, cur: string)
    requires sep !in s && cur + s != ""
    ensures Split(s, sep, cur) == [cur + s]
    decreases |s|
  {
    if s == "" {
      assert cur + s == cur;
    } else {
      assert forall c :: c in s[1..] ==> c in s;
      assert s[0] in s;
      OnePart(s[1..], sep, cur + [s[0]]);
      assert cur + [s[0]] + s[1..] == cur + s;
    }
  }

  /** Which matching domains lie on the path of the request host: all but numeric names with
      a dot, which are one label of their own and match longer names only as strings. */
  lemma MatchingDomainOnPath(numeric: string -> bool, host: string, domain: string)
    requires DomainMatch(numeric, host, domain) && domain != ""
    ensures PathOf(numeric, domain) <= PathOf(numeric, host)
       <==> host == domain || !numeric(domain) || '.' !in domain
  {
    if host != domain {
      var x := host[..|host| - |domain| - 1];
      assert host == x + "." + domain;
      SplitAtSeparator(x, '.', domain, "");
      assert PathOf(numeric, host) == Reverse(Split(domain, '.', "")) + Reverse(Split(x, '.', ""));
      if numeric(domain) {
        assert PathOf(numeric, domain) == [domain];
        if '.' in domain {
          if PathOf(numeric, domain) <= PathOf(numeric, host) {
            assert PathOf(numeric, host)[0] == domain;
            assert domain in Split(host, '.', "");
            PartsHaveNoSeparator(host, '.', "", domain);
          }
        } else {
          OnePart(domain, '.', "");
          assert "" + domain == domain;
        }
      }
    }
  }

  /** A numeric domain with a dot can match a longer host and still lie off its path: the walk
      for the host begins at the label "4". */
  lemma NumericDomainOffPath()
    ensures var numeric := (s: string) => s == "1.2.3.4";
            var c := Cookie("n", "v", 0, false, "1.2.3.4", false, "/", false, false, 0, 0);
            && Match(numeric, c, "a.1.2.3.4", "/", 0, false)
            && !(PathOf(numeric, c.domain) <= PathOf(numeric, "a.1.2.3.4"))
  {
    var numeric := (s: string) => s == "1.2.3.4";
    var host, domain := "a.1.2.3.4", "1.2.3.4";
    assert host[2..] == domain && '.' in domain;
    MatchingDomainOnPath(numeric, host, domain);
  }

  // ---------- path depth ----------

  /** `pathDepth_`: slashes behind another character, and one more without a final slash. */
  function SlashesBelow(path: string, k: nat): nat
    requires k <= |path|
  {
    if k <= 1 then 0
    else SlashesBelow(path, k - 1) + if path[k - 1] == '/' && path[k - 2] != '/' then 1 else 0
  }

  function PathDepth(path: string): nat {
    if path == "" then 0
    else SlashesBelow(path, |path|) + if path[|path| - 1] != '/' then 1 else 0
  }

  /** The non-empty parts of a path between slashes. */
  function Segments(path: string): seq<string> {
    Split(path, '/', "")
  }

  lemma {:induction false} SegmentsBehind(path: string, k: nat, cur: string)
    requires k <= |path| && (cur == "" <==> k == 0 || path[k - 1] == '/')
    ensures SlashesBelow(path, k) + |Split(path[k..], '/', cur)| == PathDepth(path)
    decreases |path| - k
  {
    if k < |path| {
      assert path[k..][1..] == path[k + 1..];
      SegmentsBehind(path, k + 1, if path[k] == '/' then "" else cur + [path[k]]);
    }
  }

  /** The depth of a path is the number of its segments. */
  lemma DepthCountsSegments(path: string)
    ensures PathDepth(path) == |Segments(path)|
  {
    SegmentsBehind(path, 0, "");
    assert path[0..] == path;
  }

  /** Deeper paths first, then earlier creation. */
  predicate Before(c: Cookie, d: Cookie) {
    || PathDepth(c.path) > PathDepth(d.path)
    || (!(PathDepth(d.path) > PathDepth(c.path)) && c.creationTime < d.creationTime)
  }

  /** No cookie of the list belongs before an earlier one. */
  predicate Ordered(s: seq<Cookie>) {
    forall i, j :: 0 <= i < j < |s| ==> !Before(s[j], s[i])
  }

  /** In an ordered list no path has more segments than one ahead of it, and of two with equally
      many the cookie created earlier comes first. */
  lemma OrderedMeans(s: seq<Cookie>, i: nat, j: nat)
    requires Ordered(s) && i < j < |s|
    ensures |Segments(s[i].path)| >= |Segments(s[j].path)|
    ensures |Segments(s[i].path)| == |Segments(s[j].path)| ==> s[i].creationTime <= s[j].creationTime
  {
    DepthCountsSegments(s[i].path);
    DepthCountsSegments(s[j].path);
  }

  /** A sort by `Before`: any ordered arrangement is what `std::sort` may return. */
  method Sort(s: seq<Cookie>) returns (r: seq<Cookie>)
    ensures multiset(r) == multiset(s) && Ordered(r)
  {
    r := [];
    for i := 0 to |s|
      invariant multiset(r) == multiset(s[..i]) && Ordered(r)
    {
      Inserted(r, s[i]);
      r := Insert(r, s[i]);
      assert s[..i + 1] == s[..i] + [s[i]];
    }
    assert s[..|s|] == s;
  }

  function Insert(r: seq<Cookie>, c: Cookie): seq<Cookie> {
    if r == [] then [c]
    else if Before(c, r[|r| - 1]) then Insert(r[..|r| - 1], c) + [r[|r| - 1]]
    else r + [c]
  }

  lemma {:induction false} InsertPermutes(r: seq<Cookie>, c: Cookie)
    ensures multiset(Insert(r, c)) == multiset(r) + multiset{c}
  {
    if r != [] {
      assert r == r[..|r| - 1] + [r[|r| - 1]];
      if Before(c, r[|r| - 1]) {
        InsertPermutes(r[..|r| - 1], c);
      }
    }
  }

  /** `Before` is a strict weak order. */
  lemma BeforeIsWeakOrder(c: Cookie, d: Cookie, e: Cookie)
    ensures !(Before(c, d) && Before(d, c))
    ensures Before(c, d) && Before(d, e) ==> Before(c, e)
    ensures !Before(c, d) && !Before(d, e) ==> !Before(c, e)
  {
  }

  lemma {:induction false} Inserted(r: seq<Cookie>, c: Cookie)
    requires Ordered(r)
    ensures multiset(Insert(r, c)) == multiset(r) + multiset{c} && Ordered(Insert(r, c))
  {
    InsertPermutes(r, c);
    if r != [] {
      var init, last := r[..|r| - 1], r[|r| - 1];
      assert r == init + [last];
      if Before(c, last) {
        Inserted(init, c);
        forall x | x in Insert(init, c)
          ensures !Before(last, x)
        {
          assert x in multiset(Insert(init, c));
          BeforeIsWeakOrder(c, last, c);
        }
      } else {
        forall x | x in r
          ensures !Before(c, x)
        {
          BeforeIsWeakOrder(c, last, x);
        }
      }
    }
  }
}
