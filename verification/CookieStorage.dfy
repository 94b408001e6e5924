/** `CookieStorage` of `src/CookieStorage.cc`: the tree, its tracker and the operations on them. */
module CookieStorages {
  import opened CookieTrees
  import opened Cookies
  import opened DomainNodes
  import opened Wrappers

  const DOMAIN_EVICTION_TRIGGER: nat := 2000

  /** A tenth of the tracker. */
  function EvictionSize(tracked: nat): nat {
    tracked / 10
  }

  class CookieStorage {
    const numeric: string -> bool
    var nodes: Tree
    var lru: set<Entry>

    ghost predicate Valid()
      reads this
    {
      Sound(numeric, Here()) && |lru| <= DOMAIN_EVICTION_TRIGGER
    }

    ghost function Here(): Forest
      reads this
    {
      Forest(nodes, lru)
    }

    constructor (numeric: string -> bool)
      ensures Valid() && Stored(nodes) == {} && this.numeric == numeric
    {
      this.numeric := numeric;
      nodes := map[[] := NEW_NODE];
      lru := {};
    }

    // ---------- the tracker ----------

    /** Gives the node the time `now` in the tracker. */
    method UpdateLru(p: Path, now: int)
      requires p in nodes
      modifies `nodes, `lru
      ensures Here() == Moved(old(Here()), p, now)
      ensures nodes[p].inLru && nodes[p].lruAccessTime == now && Entry(now, p) in lru
    {
      if nodes[p].inLru {
        lru := lru - {Entry(nodes[p].lruAccessTime, p)};
      }
      nodes := nodes[p := Accessed(nodes[p], now)];
      lru := lru + {Entry(now, p)};
    }

    /** The first entry of the tracker. Nodes of the same time are ordered by address in the
        source, so any of them may come first. */
    method First() returns (e: Entry)
      requires lru != {}
      ensures e in lru && forall f :: f in lru ==> e.time <= f.time
    {
      e :| e in lru;
      var rest := lru - {e};
      while rest != {}
        invariant e in lru && rest <= lru
        invariant forall f :: f in lru && f !in rest ==> e.time <= f.time
      {
        var f :| f in rest;
        rest := rest - {f};
        if f.time < e.time {
          e := f;
        }
      }
    }

    /** Removes the node while it is bare, and then its ancestors as far as they become bare. */
    method Prune(start: Path)
      requires start in nodes && start != []
      requires forall p :: p in nodes && p != [] ==> Parent(p) in nodes
      modifies `nodes, `lru
      ensures Here() == PruneFrom(old(Here()), start)
    {
      var node := start;
      while CookiesOf(nodes[node]) == [] && !HasNext(nodes, node)
        invariant node in nodes && node != []
        invariant forall p :: p in nodes && p != [] ==> Parent(p) in nodes
        invariant PruneFrom(Here(), node) == PruneFrom(old(Here()), start)
        decreases |node|
      {
        var parent := Parent(node);
        nodes := nodes - {node};
        if CookiesOf(nodes[parent]) != [] || HasNext(nodes, parent) || parent == [] {
          return;
        }
        node := parent;
        if nodes[node].inLru {
          lru := lru - {Entry(nodes[node].lruAccessTime, node)};
          nodes := nodes[node := nodes[node].(inLru := false)];
        }
      }
    }

    /** Evicts up to `delnum` nodes, the least recent one first. */
    method EvictNode(delnum: nat) returns (ghost picks: seq<Path>)
      requires Valid()
      modifies `nodes, `lru
      ensures Valid()
      ensures Picks(old(Here()), picks) && Here() == EvictAll(old(Here()), picks)
      ensures |picks| <= delnum && (|picks| < delnum ==> lru == {})
      ensures |lru| + |picks| <= old(|lru|)
    {
      picks := [];
      var left := delnum;
      while left > 0 && lru != {}
        invariant Picks(old(Here()), picks)
        invariant Here() == EvictAll(old(Here()), picks)
        invariant |picks| + left == delnum
      {
        EvictAllSound(numeric, old(Here()), picks);
        var first := First();
        var node := first.path;
        assert LeastRecent(Here(), node);
        lru := lru - {first};
        nodes := nodes[node := Cleared(nodes[node])];
        Prune(node);
        picks := picks + [node];
        left := left - 1;
      }
      EvictAllSound(numeric, old(Here()), picks);
      EvictAllShrinks(numeric, old(Here()), picks);
    }

    // ---------- storing ----------

    /** Stores the cookie under the path of its domain, after an eviction if the tracker is full.
        A domain without labels would put it on the root, which eviction cannot remove. */
    method Store(c: Cookie, now: int) returns (ok: bool, ghost picks: seq<Path>)
      requires Valid() && PathOf(numeric, c.domain) != []
      modifies `nodes, `lru
      ensures Valid()
      ensures ok == !IsExpired(c, now)
      ensures Picks(old(Here()), picks)
      ensures if old(|lru|) < DOMAIN_EVICTION_TRIGGER then picks == [] else |picks| <= EvictionSize(old(|lru|))
      ensures Here() == StoredForest(EvictAll(old(Here()), picks), PathOf(numeric, c.domain), c, now)
      ensures old(|lru|) < 2000 ==> picks == []
      ensures old(|lru|) >= 2000 ==> 10 * |picks| <= old(|lru|) && (|picks| == old(|lru|) / 10 || |lru| <= 1)
      ensures ok == !Gone(c, now) && (ok ==> Entry(now, PathOf(numeric, c.domain)) in lru)
      ensures TakesPlace(c, now, Spared(numeric, old(nodes), picks), Stored(nodes))
    {
      ok, picks := StoreNode(c, now);
      StoreTakesPlace(numeric, old(Here()), picks, c, now, Stored(nodes));
    }

    method StoreNode(c: Cookie, now: int) returns (ok: bool, ghost picks: seq<Path>)
      requires Valid() && PathOf(numeric, c.domain) != []
      modifies `nodes, `lru
      ensures Valid()
      ensures ok == !IsExpired(c, now)
      ensures Picks(old(Here()), picks)
      ensures if old(|lru|) < DOMAIN_EVICTION_TRIGGER then picks == [] else |picks| <= EvictionSize(old(|lru|))
      ensures |picks| == (if old(|lru|) < 2000 then 0 else old(|lru|) / 10) || |lru| <= 1
      ensures ok ==> Entry(now, PathOf(numeric, c.domain)) in lru
      ensures Here() == StoredForest(EvictAll(old(Here()), picks), PathOf(numeric, c.domain), c, now)
    {
      picks := MakeRoom();
      StoreSound(numeric, Here(), c, now);
      ok := AddTo(PathOf(numeric, c.domain), c, now);
    }

    method MakeRoom() returns (ghost picks: seq<Path>)
      requires Valid()
      modifies `nodes, `lru
      ensures Valid() && |lru| < DOMAIN_EVICTION_TRIGGER
      ensures Picks(old(Here()), picks) && Here() == EvictAll(old(Here()), picks)
      ensures if old(|lru|) < DOMAIN_EVICTION_TRIGGER then picks == [] else |picks| <= EvictionSize(old(|lru|))
      ensures |picks| == (if old(|lru|) < 2000 then 0 else old(|lru|) / 10) || lru == {}
    {
      picks := [];
      if |lru| >= DOMAIN_EVICTION_TRIGGER {
        picks := EvictNode(EvictionSize(|lru|));
      }
    }

    method AddTo(path: Path, c: Cookie, now: int) returns (ok: bool)
      requires Valid() && path != [] && path == PathOf(numeric, c.domain)
      modifies `nodes, `lru
      ensures Here() == StoredForest(old(Here()), path, c, now)
      ensures ok == !IsExpired(c, now)
      ensures ok ==> Entry(now, path) in lru
    {
      StoredUnlessExpired(numeric, Here(), c, now);
      AddPath(path);
      var (n, added) := AddCookie(nodes[path], c, now);
      nodes := nodes[path := n];
      ok := added;
      if ok {
        UpdateLru(path, now);
      }
    }

    /** Adds the missing nodes of the path. */
    method AddPath(path: Path)
      modifies `nodes
      ensures nodes == Grown(old(nodes), path)
    {
      assert path[..0] == [];
      for i := 0 to |path|
        invariant nodes == Grown(old(nodes), path[..i])
      {
        var p := path[..i + 1];
        assert Parent(p) == path[..i];
        if p !in nodes {
          nodes := nodes[p := NEW_NODE];
        }
      }
      assert path[..|path|] == path;
    }

    // ---------- searching ----------

    method Contains(c: Cookie) returns (found: bool)
      requires Valid()
      ensures found <==> exists d :: d in Stored(nodes) && Same(d, c)
      ensures found <==> exists d :: d in Stored(nodes) && OneKey(c, d)
    {
      var p := PathOf(numeric, c.domain);
      var s := CookiesOf(NodeAt(nodes, p));
      found := FindSame(s, c) < |s|;
      forall d | d in Stored(nodes) && Same(d, c)
        ensures d in s
      {
        StoredAtPath(numeric, nodes, d);
      }
      if found {
        var d := s[FindSame(s, c)];
        assert p in nodes && d in CookiesOf(nodes[p]);
        assert d in Stored(nodes);
      }
    }

    /** Finds the cookies for a request: every hit on the way to the host exactly once, deeper
        paths first and then earlier creation. The hits on the way are those of a flat filter. */
    method CriteriaFind(q: Request) returns (res: seq<Cookie>)
      requires Valid()
      modifies `nodes, `lru
      ensures Valid()
      ensures q.path == "" ==> res == [] && Here() == old(Here())
      ensures q.path != "" ==> nodes == LookedAlong(numeric, q, old(nodes), PathOf(numeric, q.host))
      ensures q.path != "" ==>
        multiset(res) == multiset(HitSet(numeric, q, OnTheWay(numeric, old(nodes), PathOf(numeric, q.host))))
      ensures q.path != "" && !numeric("") ==>
        multiset(res) == multiset(HitSet(numeric, q, Reachable(numeric, old(nodes), q.host)))
      ensures Ordered(res)
      ensures forall i, j :: 0 <= i < j < |res| ==>
        && |Segments(res[i].path)| >= |Segments(res[j].path)|
        && (|Segments(res[i].path)| == |Segments(res[j].path)| ==> res[i].creationTime <= res[j].creationTime)
      ensures q.path != "" && !numeric("") ==> SetOf(res) == Answer(numeric, q, old(Stored(nodes)))
    {
      res := FindSorted(q);
      forall i, j | 0 <= i < j < |res|
        ensures |Segments(res[i].path)| >= |Segments(res[j].path)|
        ensures |Segments(res[i].path)| == |Segments(res[j].path)| ==> res[i].creationTime <= res[j].creationTime
      {
        OrderedMeans(res, i, j);
      }
      if q.path != "" && !numeric("") {
        AnswerIsHits(numeric, q, old(nodes));
        SameMembers(res, HitSet(numeric, q, Reachable(numeric, old(nodes), q.host)));
      }
    }

    method FindSorted(q: Request) returns (res: seq<Cookie>)
      requires Valid()
      modifies `nodes, `lru
      ensures Valid()
      ensures q.path == "" ==> res == [] && Here() == old(Here())
      ensures q.path != "" ==> nodes == LookedAlong(numeric, q, old(nodes), PathOf(numeric, q.host))
      ensures q.path != "" ==>
        multiset(res) == multiset(HitSet(numeric, q, OnTheWay(numeric, old(nodes), PathOf(numeric, q.host))))
      ensures q.path != "" && !numeric("") ==>
        multiset(res) == multiset(HitSet(numeric, q, Reachable(numeric, old(nodes), q.host)))
      ensures Ordered(res)
    {
      if q.path == "" {
        return [];
      }
      var path := PathOf(numeric, q.host);
      var found := Walk(q, path);
      VisitAlongSound(numeric, q, old(Here()), path);
      GatheredOnce(numeric, q, old(nodes), path);
      if !numeric("") {
        WayIsFlatFilter(numeric, q, old(nodes));
      }
      res := Sort(found);
    }

    /** The walk of `criteriaFind` from the root towards the node of the host. */
    method Walk(q: Request, path: Path) returns (res: seq<Cookie>)
      requires TreeWf(numeric, nodes)
      modifies `nodes, `lru
      ensures Here() == VisitAlong(numeric, q, old(Here()), path)
      ensures res == Gathered(numeric, q, old(nodes), path)
    {
      res := [];
      var i := 0;
      assert path[..0] == [];
      while i < |path|
        invariant i <= |path|
        invariant Here() == VisitAlong(numeric, q, old(Here()), path[..i])
        invariant res == Gathered(numeric, q, old(nodes), path[..i])
      {
        var p := path[..i + 1];
        if p !in nodes {
          NothingFurther(numeric, q, old(Here()), path, i);
          return;
        }
        OneFurther(numeric, q, old(Here()), path, i, p);
        var hits := Visit(q, p);
        res := res + hits;
        i := i + 1;
      }
      assert path[..|path|] == path;
    }

    /** One node of the walk. */
    method Visit(q: Request, p: Path) returns (hits: seq<Cookie>)
      requires p in nodes
      modifies `nodes, `lru
      ensures Here() == VisitOne(numeric, q, old(Here()), p)
      ensures hits == Hits(numeric, q, CookiesOf(old(nodes)[p]))
    {
      nodes := nodes[p := nodes[p].(lastAccessTime := q.now)];
      if nodes[p].inLru {
        UpdateLru(p, q.now);
      }
      hits := [];
      if nodes[p].cookies.Some? {
        var visited;
        hits, visited := FindCookie(numeric, q, nodes[p].cookies.value);
        nodes := nodes[p := nodes[p].(cookies := Some(visited))];
      }
    }

    /** The number of cookies of the tracked nodes, which are all there are. */
    method Size() returns (n: nat)
      requires Valid()
      ensures n == |Stored(nodes)|
    {
      n := 0;
      var rest := lru;
      ghost var seen: set<Cookie> := {};
      while rest != {}
        invariant rest <= lru
        invariant n == |seen|
        invariant seen == set e, c | e in lru - rest && c in CookiesOf(nodes[e.path]) :: c
      {
        var e :| e in rest;
        var s := CookiesOf(nodes[e.path]);
        assert NodeWf(numeric, e.path, nodes[e.path]);
        DistinctCount(s);
        SeenApart(e, rest, seen);
        n := n + |s|;
        seen := seen + SetOf(s);
        rest := rest - {e};
      }
      assert seen == Stored(nodes);
    }

    lemma SeenApart(e: Entry, rest: set<Entry>, seen: set<Cookie>)
      requires Valid() && rest <= lru && e in rest
      requires seen == set f, c | f in lru - rest && c in CookiesOf(nodes[f.path]) :: c
      ensures seen !! SetOf(CookiesOf(nodes[e.path]))
      ensures seen + SetOf(CookiesOf(nodes[e.path]))
           == set f, c | f in lru - (rest - {e}) && c in CookiesOf(nodes[f.path]) :: c
    {
    }
  }
}
