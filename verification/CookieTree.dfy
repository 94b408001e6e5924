/** The tree of domain labels behind `CookieStorage` in `src/CookieStorage.cc`, as a map from the
    path of labels below the root to the node, and the tracker of the nodes by access time. */
module CookieTrees {
  import opened Cookies
  import opened DomainNodes
  import opened Sets
  import opened Wrappers

  type Path = seq<string>

  type Tree = map<Path, Node>

  /** An entry of `lruTracker_`. */
  datatype Entry = Entry(time: int, path: Path)

  function Parent(p: Path): Path
    requires p != []
  {
    p[..|p| - 1]
  }

  predicate HasNext(nodes: Tree, p: Path) {
    exists q :: q in nodes && q != [] && Parent(q) == p
  }

  predicate NodeWf(numeric: string -> bool, p: Path, n: Node) {
    && (n.inLru ==> n.cookies.Some? && p != [])
    && (CookiesOf(n) != [] ==> n.inLru)
    && Distinct(CookiesOf(n))
    && |CookiesOf(n)| <= MAX_COOKIE_PER_DOMAIN
    && forall c :: c in CookiesOf(n) ==> PathOf(numeric, c.domain) == p
  }

  predicate TreeWf(numeric: string -> bool, nodes: Tree) {
    && [] in nodes
    && (forall p :: p in nodes ==> NodeWf(numeric, p, nodes[p]))
    && (forall p :: p in nodes && p != [] ==> Parent(p) in nodes)
  }

  /** The tracker holds exactly the flagged nodes, each under its own time. */
  predicate Tracks(nodes: Tree, lru: set<Entry>) {
    && (forall e :: e in lru ==> e.path in nodes && nodes[e.path].inLru && nodes[e.path].lruAccessTime == e.time)
    && (forall p :: p in nodes && nodes[p].inLru ==> Entry(nodes[p].lruAccessTime, p) in lru)
  }

  /** The tree together with its tracker. */
  datatype Forest = Forest(nodes: Tree, lru: set<Entry>)

  predicate Sound(numeric: string -> bool, f: Forest) {
    TreeWf(numeric, f.nodes) && Tracks(f.nodes, f.lru)
  }

  /** The cookies of the tree as a flat set. */
  function Stored(nodes: Tree): set<Cookie> {
    set p, c | p in nodes && c in CookiesOf(nodes[p]) :: c
  }

  lemma StoredAtPath(numeric: string -> bool, nodes: Tree, c: Cookie)
    requires TreeWf(numeric, nodes)
    ensures c in Stored(nodes) <==>
         PathOf(numeric, c.domain) in nodes && c in CookiesOf(nodes[PathOf(numeric, c.domain)])
  {
  }

  // ---------- eviction ----------

  function Cleared(n: Node): Node {
    n.(inLru := false, cookies := Some([]))
  }

  /** A node without cookies, without children and below the root. */
  predicate Bare(nodes: Tree, p: Path) {
    p in nodes && p != [] && CookiesOf(nodes[p]) == [] && !HasNext(nodes, p)
  }

  /** Only nodes without cookies have gone. */
  predicate Pruned(before: Tree, after: Tree) {
    && (forall p :: p in after ==> p in before && after[p] == before[p])
    && (forall p :: p in before && p !in after ==> CookiesOf(before[p]) == [])
  }

  /** Nodes have lost cookies only where they were picked, and no picked node had been accessed
      later than any node that is still tracked. */
  predicate Evicted(before: Tree, after: Tree, picked: set<Path>) {
    && (forall p :: p in after ==> p in before && after[p] == if p in picked then Cleared(before[p]) else before[p])
    && (forall p :: p in before && p !in after ==> p in picked || CookiesOf(before[p]) == [])
    && (forall p :: p in picked ==> p in before && before[p].inLru)
    && (forall p, q :: p in picked && q in after && after[q].inLru ==>
          before[p].lruAccessTime <= before[q].lruAccessTime)
  }

  function Unflagged(f: Forest, p: Path): Forest
    requires p in f.nodes
  {
    if f.nodes[p].inLru then
      Forest(f.nodes[p := f.nodes[p].(inLru := false)], f.lru - {Entry(f.nodes[p].lruAccessTime, p)})
    else
      f
  }

  /** The removal of a bare node and of the ancestors that it leaves bare. */
  function PruneFrom(f: Forest, p: Path): Forest
    decreases |p|
  {
    if !Bare(f.nodes, p) then f
    else
      var g := Forest(f.nodes - {p}, f.lru);
      if !Bare(g.nodes, Parent(p)) then g else PruneFrom(Unflagged(g, Parent(p)), Parent(p))
  }

  /** The eviction of the tracked node `p`. */
  function EvictOne(f: Forest, p: Path): Forest {
    if p in f.nodes then
      PruneFrom(Forest(f.nodes[p := Cleared(f.nodes[p])], f.lru - {Entry(f.nodes[p].lruAccessTime, p)}), p)
    else
      f
  }

  function EvictAll(f: Forest, picks: seq<Path>): Forest {
    if picks == [] then f
    else EvictOne(EvictAll(f, picks[..|picks| - 1]), picks[|picks| - 1])
  }

  /** The node may come first in the tracker. */
  predicate LeastRecent(f: Forest, p: Path) {
    p in f.nodes && f.nodes[p].inLru && forall e :: e in f.lru ==> f.nodes[p].lruAccessTime <= e.time
  }

  /** Each pick was least recent when its turn came. */
  predicate Picks(f: Forest, picks: seq<Path>) {
    picks == [] ||
    (Picks(f, picks[..|picks| - 1]) && LeastRecent(EvictAll(f, picks[..|picks| - 1]), picks[|picks| - 1]))
  }

  lemma RemoveLeaf(numeric: string -> bool, f: Forest, p: Path)
    requires Sound(numeric, f) && Bare(f.nodes, p) && !f.nodes[p].inLru
    ensures Sound(numeric, Forest(f.nodes - {p}, f.lru))
  {
  }

  lemma {:induction false} PruneSound(numeric: string -> bool, f: Forest, p: Path)
    requires Sound(numeric, f) && p in f.nodes && !f.nodes[p].inLru
    ensures Sound(numeric, PruneFrom(f, p))
    decreases |p|
  {
    if Bare(f.nodes, p) {
      RemoveLeaf(numeric, f, p);
      var g := Forest(f.nodes - {p}, f.lru);
      if Bare(g.nodes, Parent(p)) {
        PruneSound(numeric, Unflagged(g, Parent(p)), Parent(p));
      }
    }
  }

  /** Pruning loses only nodes without cookies, and only `p` if `p` still has some. */
  lemma {:induction false} PruneLoss(f: Forest, p: Path)
    requires p in f.nodes
    ensures PruneFrom(f, p).lru <= f.lru
    ensures Pruned(f.nodes, PruneFrom(f, p).nodes)
    decreases |p|
  {
    if Bare(f.nodes, p) {
      var g := Forest(f.nodes - {p}, f.lru);
      var parent := Parent(p);
      if Bare(g.nodes, parent) {
        PruneLoss(Unflagged(g, parent), parent);
        PruneTakes(Unflagged(g, parent), parent);
      }
    }
  }

  lemma {:induction false} PruneTakes(f: Forest, p: Path)
    requires Bare(f.nodes, p)
    ensures p !in PruneFrom(f, p).nodes
    decreases |p|
  {
    var g := Forest(f.nodes - {p}, f.lru);
    if Bare(g.nodes, Parent(p)) {
      PruneLoss(Unflagged(g, Parent(p)), Parent(p));
    }
  }

  /** Pruning leaves no bare node behind that was not bare before. */
  lemma {:induction false} PruneTidy(f: Forest, p: Path, q: Path)
    requires p in f.nodes && Bare(PruneFrom(f, p).nodes, q)
    ensures Bare(f.nodes, q) && q != p
    decreases |p|
  {
    if Bare(f.nodes, p) {
      PruneTakes(f, p);
      var g := Forest(f.nodes - {p}, f.lru);
      var parent := Parent(p);
      if Bare(g.nodes, parent) {
        PruneTidy(Unflagged(g, parent), parent, q);
      }
    }
  }

  lemma EvictOneSound(numeric: string -> bool, f: Forest, p: Path)
    requires Sound(numeric, f) && p in f.nodes
    ensures Sound(numeric, EvictOne(f, p))
  {
    PruneSound(numeric, Forest(f.nodes[p := Cleared(f.nodes[p])], f.lru - {Entry(f.nodes[p].lruAccessTime, p)}), p);
  }

  lemma {:induction false} EvictAllSound(numeric: string -> bool, f: Forest, picks: seq<Path>)
    requires Sound(numeric, f) && Picks(f, picks)
    ensures Sound(numeric, EvictAll(f, picks))
  {
    if picks != [] {
      EvictAllSound(numeric, f, picks[..|picks| - 1]);
      EvictOneSound(numeric, EvictAll(f, picks[..|picks| - 1]), picks[|picks| - 1]);
    }
  }

  /** The tracker loses an entry for each pick. */
  lemma {:induction false} EvictAllShrinks(numeric: string -> bool, f: Forest, picks: seq<Path>)
    requires Sound(numeric, f) && Picks(f, picks)
    ensures |EvictAll(f, picks).lru| + |picks| <= |f.lru|
  {
    if picks != [] {
      var init, p := picks[..|picks| - 1], picks[|picks| - 1];
      EvictAllShrinks(numeric, f, init);
      EvictAllSound(numeric, f, init);
      var g := EvictAll(f, init);
      var e := Entry(g.nodes[p].lruAccessTime, p);
      PruneLoss(Forest(g.nodes[p := Cleared(g.nodes[p])], g.lru - {e}), p);
      Fewer(EvictOne(g, p).lru, g.lru - {e});
    }
  }

  function Picked(picks: seq<Path>): set<Path> {
    set p | p in picks
  }

  lemma PickedLast(init: seq<Path>, p: Path)
    ensures Picked(init + [p]) == Picked(init) + {p}
  {
  }

  lemma OneLoss(g: Forest, p: Path)
    requires p in g.nodes
    ensures Pruned(g.nodes[p := Cleared(g.nodes[p])], EvictOne(g, p).nodes)
  {
    PruneLoss(Forest(g.nodes[p := Cleared(g.nodes[p])], g.lru - {Entry(g.nodes[p].lruAccessTime, p)}), p);
  }

  /** What an eviction loses: exactly the cookies of the picked nodes, each of which had been
      accessed no later than any node that is still tracked. */
  lemma {:induction false} EvictAllLoss(numeric: string -> bool, f: Forest, picks: seq<Path>)
    requires Sound(numeric, f) && Picks(f, picks)
    ensures Evicted(f.nodes, EvictAll(f, picks).nodes, Picked(picks))
  {
    if picks != [] {
      var init, p := picks[..|picks| - 1], picks[|picks| - 1];
      EvictAllLoss(numeric, f, init);
      EvictAllSound(numeric, f, init);
      var g := EvictAll(f, init);
      OneLoss(g, p);
      PickedOnce(f.nodes, g.nodes, EvictOne(g, p).nodes, Picked(init), p);
      PickedLast(init, p);
      assert picks == init + [p];
    }
  }

  /** An eviction leaves no new bare node behind, and none where it picked. */
  lemma {:induction false} EvictAllTidy(f: Forest, picks: seq<Path>, q: Path)
    requires Picks(f, picks) && Bare(EvictAll(f, picks).nodes, q)
    ensures q !in picks && Bare(f.nodes, q)
  {
    if picks != [] {
      var init, p := picks[..|picks| - 1], picks[|picks| - 1];
      var g := EvictAll(f, init);
      var h := Forest(g.nodes[p := Cleared(g.nodes[p])], g.lru - {Entry(g.nodes[p].lruAccessTime, p)});
      PruneTidy(h, p, q);
      assert h.nodes.Keys == g.nodes.Keys;
      EvictAllTidy(f, init, q);
    }
  }

  lemma PickedOnce(before: Tree, mid: Tree, after: Tree, picked: set<Path>, p: Path)
    requires Evicted(before, mid, picked) && p in mid && mid[p].inLru
    requires forall q :: q in mid && mid[q].inLru ==> mid[p].lruAccessTime <= mid[q].lruAccessTime
    requires Pruned(mid[p := Cleared(mid[p])], after)
    ensures p !in picked && Evicted(before, after, picked + {p})
  {
  }

  /** Eviction on the flat set: the cookies of the picked domains, and no others, are lost. */
  lemma EvictedCookies(numeric: string -> bool, before: Tree, after: Tree, picked: set<Path>, c: Cookie)
    requires TreeWf(numeric, before) && TreeWf(numeric, after) && Evicted(before, after, picked)
    ensures c in Stored(after) <==> c in Stored(before) && PathOf(numeric, c.domain) !in picked
  {
    StoredAtPath(numeric, before, c);
    StoredAtPath(numeric, after, c);
  }

  // ---------- storing ----------

  function Accessed(n: Node, now: int): Node {
    n.(inLru := true, lruAccessTime := now)
  }

  function NodeAt(nodes: Tree, p: Path): Node {
    if p in nodes then nodes[p] else NEW_NODE
  }

  /** The tree has gained the missing nodes of the path, and its last node the cookie. */
  ghost predicate StoredInto(before: Tree, after: Tree, path: Path, c: Cookie, now: int) {
    && (forall p :: p in after <==> p in before || p <= path)
    && (forall p :: p in after && p != path ==> after[p] == NodeAt(before, p))
    && path in after && after[path] == NodeAdded(NodeAt(before, path), c, now)
  }

  /** Storing on the flat set: a cookie that has not expired is there afterwards, and the cookies
      of its domain that it displaces are gone. */
  lemma StoredCookies(numeric: string -> bool, before: Tree, after: Tree, c: Cookie, now: int, d: Cookie)
    requires TreeWf(numeric, before) && TreeWf(numeric, after)
    requires StoredInto(before, after, PathOf(numeric, c.domain), c, now)
    ensures var s := CookiesOf(NodeAt(before, PathOf(numeric, c.domain)));
         d in Stored(after) <==>
      || (!IsExpired(c, now) && d == AsStored(s, c))
      || (d in Stored(before) && !(PathOf(numeric, d.domain) == PathOf(numeric, c.domain) && Displaces(s, c, now, d)))
  {
    var path := PathOf(numeric, c.domain);
    StoredAtPath(numeric, before, d);
    StoredAtPath(numeric, after, d);
    AddedContents(NodeAt(before, path), c, now);
    assert AsStored(CookiesOf(NodeAt(before, path)), c).domain == c.domain;
  }

  function Grown(nodes: Tree, path: Path): (r: Tree)
    ensures path != [] ==> path in r
    decreases |path|
  {
    if path == [] then nodes
    else
      var m := Grown(nodes, Parent(path));
      if path in m then m else m[path := NEW_NODE]
  }

  lemma {:induction false} GrownNodes(nodes: Tree, path: Path, p: Path)
    requires [] in nodes
    ensures p in Grown(nodes, path) <==> p in nodes || p <= path
    ensures p in Grown(nodes, path) ==> Grown(nodes, path)[p] == NodeAt(nodes, p)
    decreases |path|
  {
    if path != [] {
      GrownNodes(nodes, Parent(path), p);
      PrefixStep(p, path);
    }
  }

  lemma {:induction false} GrownSound(numeric: string -> bool, f: Forest, path: Path)
    requires Sound(numeric, f)
    ensures Sound(numeric, Forest(Grown(f.nodes, path), f.lru))
    decreases |path|
  {
    if path != [] {
      GrownSound(numeric, f, Parent(path));
      GrownNodes(f.nodes, Parent(path), Parent(path));
    }
  }

  /** `updateLru`: the node gets the time `now` in the tracker. */
  function Moved(f: Forest, p: Path, now: int): Forest
    requires p in f.nodes
  {
    Forest(f.nodes[p := Accessed(f.nodes[p], now)],
           (if f.nodes[p].inLru then f.lru - {Entry(f.nodes[p].lruAccessTime, p)} else f.lru) + {Entry(now, p)})
  }

  lemma MovedTracks(f: Forest, p: Path, now: int)
    requires Tracks(f.nodes, f.lru) && p in f.nodes
    ensures Tracks(Moved(f, p, now).nodes, Moved(f, p, now).lru)
    ensures |Moved(f, p, now).lru| == |f.lru| + if f.nodes[p].inLru then 0 else 1
  {
    var others := if f.nodes[p].inLru then f.lru - {Entry(f.nodes[p].lruAccessTime, p)} else f.lru;
    assert Entry(now, p) !in others;
  }

  /** The forest after a cookie has been stored without an eviction. */
  function StoredForest(f: Forest, path: Path, c: Cookie, now: int): Forest
    requires path != []
  {
    PutCookie(Forest(Grown(f.nodes, path), f.lru), path, c, now)
  }

  function PutCookie(f: Forest, p: Path, c: Cookie, now: int): Forest
    requires p in f.nodes
  {
    var (n, ok) := AddCookie(f.nodes[p], c, now);
    var h := Forest(f.nodes[p := n], f.lru);
    if ok then Moved(h, p, now) else h
  }

  function NodeAdded(n: Node, c: Cookie, now: int): Node {
    var (m, ok) := AddCookie(n, c, now);
    if ok then Accessed(m, now) else m
  }

  /** The node of the domain after an addition, tracked if the cookie was stored. */
  lemma AddedWf(numeric: string -> bool, p: Path, n: Node, c: Cookie, now: int)
    requires NodeWf(numeric, p, n) && PathOf(numeric, c.domain) == p && p != []
    ensures NodeWf(numeric, p, NodeAdded(n, c, now))
  {
    AddedContents(n, c, now);
    forall d | d in CookiesOf(AddCookie(n, c, now).0)
      ensures PathOf(numeric, d.domain) == p
    {
    }
  }

  /** The tracker without the entry of a node, if it had one. */
  function Without(f: Forest, p: Path): set<Entry>
    requires p in f.nodes
  {
    if f.nodes[p].inLru then f.lru - {Entry(f.nodes[p].lruAccessTime, p)} else f.lru
  }

  /** The forest with another node in place, tracked as its flag says. */
  function Replaced(f: Forest, p: Path, n: Node): Forest
    requires p in f.nodes
  {
    Forest(f.nodes[p := n], Without(f, p) + if n.inLru then {Entry(n.lruAccessTime, p)} else {})
  }

  lemma ReplacedSound(numeric: string -> bool, f: Forest, p: Path, n: Node)
    requires Sound(numeric, f) && p in f.nodes && NodeWf(numeric, p, n)
    ensures Sound(numeric, Replaced(f, p, n))
  {
  }

  lemma ReplacedSize(numeric: string -> bool, f: Forest, p: Path, n: Node)
    requires Sound(numeric, f) && p in f.nodes
    ensures |Replaced(f, p, n).lru| == |f.lru| - (if f.nodes[p].inLru then 1 else 0) + if n.inLru then 1 else 0
  {
    assert Entry(n.lruAccessTime, p) !in Without(f, p);
  }

  lemma StoreSound(numeric: string -> bool, f: Forest, c: Cookie, now: int)
    requires Sound(numeric, f) && PathOf(numeric, c.domain) != []
    ensures var path := PathOf(numeric, c.domain);
      && Sound(numeric, StoredForest(f, path, c, now))
      && |StoredForest(f, path, c, now).lru| <= |f.lru| + 1
  {
    var path := PathOf(numeric, c.domain);
    var g := Forest(Grown(f.nodes, path), f.lru);
    GrownSound(numeric, f, path);
    AddedWf(numeric, path, g.nodes[path], c, now);
    PutCookieReplaces(g, path, c, now);
    ReplacedSound(numeric, g, path, NodeAdded(g.nodes[path], c, now));
    ReplacedSize(numeric, g, path, NodeAdded(g.nodes[path], c, now));
  }

  lemma PutCookieReplaces(f: Forest, p: Path, c: Cookie, now: int)
    requires Tracks(f.nodes, f.lru) && p in f.nodes
    ensures PutCookie(f, p, c, now) == Replaced(f, p, NodeAdded(f.nodes[p], c, now))
  {
    var r := AddCookie(f.nodes[p], c, now);
  }

  lemma StoredUnlessExpired(numeric: string -> bool, f: Forest, c: Cookie, now: int)
    requires Sound(numeric, f) && PathOf(numeric, c.domain) != []
    ensures var path := PathOf(numeric, c.domain); AddCookie(Grown(f.nodes, path)[path], c, now).1 == !IsExpired(c, now)
  {
    var path := PathOf(numeric, c.domain);
    GrownSound(numeric, f, path);
    var n := Grown(f.nodes, path)[path];
    assert NodeWf(numeric, path, n);
    AddedContents(n, c, now);
  }

  lemma StoreInto(numeric: string -> bool, f: Forest, c: Cookie, now: int)
    requires [] in f.nodes && PathOf(numeric, c.domain) != []
    ensures var path := PathOf(numeric, c.domain);
      StoredInto(f.nodes, StoredForest(f, path, c, now).nodes, path, c, now)
  {
    var path := PathOf(numeric, c.domain);
    forall p
      ensures p in Grown(f.nodes, path) <==> p in f.nodes || p <= path
      ensures p in Grown(f.nodes, path) ==> Grown(f.nodes, path)[p] == NodeAt(f.nodes, p)
    {
      GrownNodes(f.nodes, path, p);
    }
  }

  /** A whole call of `store` on the flat set: an eviction loses the cookies of the picked
      domains, and then the new cookie displaces some of its own domain. */
  lemma StoreFlat(numeric: string -> bool, f: Forest, picks: seq<Path>, c: Cookie, now: int, d: Cookie)
    requires Sound(numeric, f) && Picks(f, picks) && PathOf(numeric, c.domain) != []
    ensures var path := PathOf(numeric, c.domain);
            var s := CookiesOf(NodeAt(EvictAll(f, picks).nodes, path));
      d in Stored(StoredForest(EvictAll(f, picks), path, c, now).nodes) <==>
        || (!IsExpired(c, now) && d == AsStored(s, c))
        || (&& d in Stored(f.nodes)
            && PathOf(numeric, d.domain) !in picks
            && !(PathOf(numeric, d.domain) == path && Displaces(s, c, now, d)))
  {
    var kept := EvictAll(f, picks);
    EvictAllSound(numeric, f, picks);
    EvictAllLoss(numeric, f, picks);
    StoreSound(numeric, kept, c, now);
    StoreInto(numeric, kept, c, now);
    EvictedCookies(numeric, f.nodes, kept.nodes, Picked(picks), d);
    StoredCookies(numeric, kept.nodes, StoredForest(kept, PathOf(numeric, c.domain), c, now).nodes, c, now, d);
  }

  /** The stored cookies of the domains that are not picked. */
  function Spared(numeric: string -> bool, nodes: Tree, picks: seq<Path>): set<Cookie> {
    set c | c in Stored(nodes) && PathOf(numeric, c.domain) !in picks
  }

  lemma SparedAtPath(numeric: string -> bool, f: Forest, picks: seq<Path>, path: Path, d: Cookie)
    requires Sound(numeric, f) && Picks(f, picks)
    ensures d in CookiesOf(NodeAt(EvictAll(f, picks).nodes, path))
       <==> d in Spared(numeric, f.nodes, picks) && PathOf(numeric, d.domain) == path
  {
    var kept := EvictAll(f, picks);
    EvictAllSound(numeric, f, picks);
    EvictAllLoss(numeric, f, picks);
    EvictedCookies(numeric, f.nodes, kept.nodes, Picked(picks), d);
    StoredAtPath(numeric, kept.nodes, d);
  }

  /** A whole call of `store`, in terms of the keys of the cookies: the new cookie is the only one
      with its key, if it has not expired, and keeps the creation time of the one it replaces. */
  lemma StoreByKey(numeric: string -> bool, f: Forest, picks: seq<Path>, c: Cookie, now: int, d: Cookie)
    requires Sound(numeric, f) && Picks(f, picks) && PathOf(numeric, c.domain) != [] && OneKey(c, d)
    ensures var spared := Spared(numeric, f.nodes, picks);
      d in Stored(StoredForest(EvictAll(f, picks), PathOf(numeric, c.domain), c, now).nodes) <==>
        && !Gone(c, now)
        && d == c.(creationTime := d.creationTime)
        && (forall e :: e in spared && OneKey(c, e) ==> d.creationTime == e.creationTime)
        && ((forall e :: e in spared ==> !OneKey(c, e)) ==> d.creationTime == c.creationTime)
  {
    var path, spared := PathOf(numeric, c.domain), Spared(numeric, f.nodes, picks);
    var s := NodeCookies(numeric, f, picks, path);
    StoreFlat(numeric, f, picks, c, now, d);
    KeptWithKey(s, c, now, d);
    forall e | OneKey(c, e)
      ensures e in s <==> e in spared
    {
      SparedAtPath(numeric, f, picks, path, e);
    }
    SparedAtPath(numeric, f, picks, path, d);
  }

  lemma NodeCookies(numeric: string -> bool, f: Forest, picks: seq<Path>, path: Path) returns (s: seq<Cookie>)
    requires Sound(numeric, f) && Picks(f, picks)
    ensures s == CookiesOf(NodeAt(EvictAll(f, picks).nodes, path))
    ensures Distinct(s) && |s| <= MAX_COOKIE_PER_DOMAIN
  {
    EvictAllSound(numeric, f, picks);
    s := CookiesOf(NodeAt(EvictAll(f, picks).nodes, path));
  }

  /** Among the cookies `after` the new cookie is the only one with its key, if it has not expired;
      it has the creation time of the one among `spared` that it replaces. */
  predicate TakesPlace(c: Cookie, now: int, spared: set<Cookie>, after: set<Cookie>) {
    && (forall d :: d in after && OneKey(c, d) ==> !Gone(c, now) && d == c.(creationTime := d.creationTime))
    && (!Gone(c, now) ==> forall d :: d in spared && OneKey(c, d) ==> c.(creationTime := d.creationTime) in after)
    && (!Gone(c, now) && (forall d :: d in spared ==> !OneKey(c, d)) ==> c in after)
  }

  lemma StoreTakesPlace(numeric: string -> bool, f: Forest, picks: seq<Path>, c: Cookie, now: int, after: set<Cookie>)
    requires Sound(numeric, f) && Picks(f, picks) && PathOf(numeric, c.domain) != []
    requires after == Stored(StoredForest(EvictAll(f, picks), PathOf(numeric, c.domain), c, now).nodes)
    ensures TakesPlace(c, now, Spared(numeric, f.nodes, picks), after)
  {
    var spared := Spared(numeric, f.nodes, picks);
    forall d | d in after && OneKey(c, d)
      ensures !Gone(c, now) && d == c.(creationTime := d.creationTime)
    {
      StoreByKey(numeric, f, picks, c, now, d);
    }
    StoreByKey(numeric, f, picks, c, now, c);
    forall d | !Gone(c, now) && d in spared && OneKey(c, d)
      ensures c.(creationTime := d.creationTime) in after
    {
      StoreByKey(numeric, f, picks, c, now, c.(creationTime := d.creationTime));
      OneSpared(numeric, f, picks, c, d);
    }
  }

  /** No two stored cookies have one key. */
  lemma OneSpared(numeric: string -> bool, f: Forest, picks: seq<Path>, c: Cookie, d: Cookie)
    requires Sound(numeric, f) && d in Spared(numeric, f.nodes, picks) && OneKey(c, d)
    ensures forall e :: e in Spared(numeric, f.nodes, picks) && OneKey(c, e) ==> e == d
  {
    var p := PathOf(numeric, c.domain);
    StoredAtPath(numeric, f.nodes, d);
    var s := CookiesOf(f.nodes[p]);
    var i :| 0 <= i < |s| && s[i] == d;
    OnlyWithKey(s, c, i);
    forall e | e in Spared(numeric, f.nodes, picks) && OneKey(c, e)
      ensures e == d
    {
      StoredAtPath(numeric, f.nodes, e);
    }
  }

  /** Those of the cookies under one path. */
  function SparedAt(numeric: string -> bool, nodes: Tree, picks: seq<Path>, path: Path): set<Cookie> {
    set c | c in Spared(numeric, nodes, picks) && PathOf(numeric, c.domain) == path
  }

  lemma NodeHoldsSpared(numeric: string -> bool, f: Forest, picks: seq<Path>, path: Path, s: seq<Cookie>)
    requires Sound(numeric, f) && Picks(f, picks) && s == CookiesOf(NodeAt(EvictAll(f, picks).nodes, path))
    requires Distinct(s)
    ensures SetOf(s) == SparedAt(numeric, f.nodes, picks, path)
    ensures |SparedAt(numeric, f.nodes, picks, path)| == |s|
  {
    forall e
      ensures e in s <==> e in SparedAt(numeric, f.nodes, picks, path)
    {
      SparedAtPath(numeric, f, picks, path, e);
    }
    assert SetOf(s) == SparedAt(numeric, f.nodes, picks, path);
    DistinctCount(s);
  }

  /** The other cookies stay, but for those of the picked domains, and for the expired or the least
      used one of the fifty cookies among which a new one finds no room. */
  lemma StoreOthers(numeric: string -> bool, f: Forest, picks: seq<Path>, c: Cookie, now: int, d: Cookie)
    requires Sound(numeric, f) && Picks(f, picks) && PathOf(numeric, c.domain) != [] && !OneKey(c, d)
    ensures var path, spared := PathOf(numeric, c.domain), Spared(numeric, f.nodes, picks);
            var after := Stored(StoredForest(EvictAll(f, picks), path, c, now).nodes);
            var all := SparedAt(numeric, f.nodes, picks, path);
      && (d in after ==> d in spared)
      && (d in spared && d !in after ==>
            && d in all && |all| == 50 && !Gone(c, now) && (forall e :: e in all ==> !OneKey(c, e))
            && (Gone(d, now) || forall e :: e in all ==> !Gone(e, now) && d.lastAccessTime <= e.lastAccessTime))
  {
    var path := PathOf(numeric, c.domain);
    var s := NodeCookies(numeric, f, picks, path);
    NodeHoldsSpared(numeric, f, picks, path, s);
    KeptOthers(s, c, now, d);
    InSet(s);
    StoreFlat(numeric, f, picks, c, now, d);
  }

  lemma InSet(s: seq<Cookie>)
    ensures forall e :: e in s <==> e in SetOf(s)
  {
  }

  // ---------- searching ----------

  /** A node on the way after a search. */
  function Looked(numeric: string -> bool, q: Request, n: Node): Node {
    var visited := if n.cookies.Some? then Some(Visited(numeric, q, n.cookies.value)) else None;
    var m := n.(lastAccessTime := q.now, cookies := visited);
    if n.inLru then Accessed(m, q.now) else m
  }

  /** The search of one node. */
  function VisitOne(numeric: string -> bool, q: Request, f: Forest, p: Path): Forest
    requires p in f.nodes
  {
    var h := Forest(f.nodes[p := f.nodes[p].(lastAccessTime := q.now)], f.lru);
    var g := if f.nodes[p].inLru then Moved(h, p, q.now) else h;
    if g.nodes[p].cookies.Some? then
      Forest(g.nodes[p := g.nodes[p].(cookies := Some(Visited(numeric, q, g.nodes[p].cookies.value)))], g.lru)
    else
      g
  }

  /** The search of the nodes on the way to `path`. */
  function VisitAlong(numeric: string -> bool, q: Request, f: Forest, path: Path): (r: Forest)
    ensures r.nodes.Keys == f.nodes.Keys
    decreases |path|
  {
    if path == [] then f
    else
      var g := VisitAlong(numeric, q, f, Parent(path));
      if path in g.nodes then VisitOne(numeric, q, g, path) else g
  }

  /** The tree after the nodes on the way to `path` have been searched. */
  function LookedAlong(numeric: string -> bool, q: Request, nodes: Tree, path: Path): Tree {
    map p | p in nodes :: if p != [] && p <= path then Looked(numeric, q, nodes[p]) else nodes[p]
  }

  /** The hits of the nodes on the way, in the order they are found. */
  function Gathered(numeric: string -> bool, q: Request, nodes: Tree, path: Path): seq<Cookie>
    decreases |path|
  {
    if path == [] then []
    else Gathered(numeric, q, nodes, Parent(path)) + Hits(numeric, q, CookiesOf(NodeAt(nodes, path)))
  }

  /** The stored cookies whose domain lies on the way to the request host. */
  function OnTheWay(numeric: string -> bool, nodes: Tree, path: Path): set<Cookie> {
    set c | c in Stored(nodes) && PathOf(numeric, c.domain) <= path
  }

  lemma LookedFurther(numeric: string -> bool, q: Request, nodes: Tree, path: Path)
    requires path != [] && path in nodes
    ensures var near := LookedAlong(numeric, q, nodes, Parent(path));
      && path in near && near[path] == nodes[path]
      && near[path := Looked(numeric, q, nodes[path])] == LookedAlong(numeric, q, nodes, path)
  {
    var near := LookedAlong(numeric, q, nodes, Parent(path));
    forall p | p in nodes && p != path
      ensures p <= path <==> p <= Parent(path)
    {
    }
    assert near[path := Looked(numeric, q, nodes[path])].Keys == nodes.Keys;
  }

  lemma VisitOneSound(numeric: string -> bool, q: Request, f: Forest, p: Path)
    requires Sound(numeric, f) && p in f.nodes
    ensures var g := VisitOne(numeric, q, f, p);
      && Sound(numeric, g) && |g.lru| == |f.lru|
      && g.nodes == f.nodes[p := Looked(numeric, q, f.nodes[p])]
  {
    VisitReplaces(numeric, q, f, p);
    ReplacedSound(numeric, f, p, Looked(numeric, q, f.nodes[p]));
    ReplacedSize(numeric, f, p, Looked(numeric, q, f.nodes[p]));
  }

  lemma VisitReplaces(numeric: string -> bool, q: Request, f: Forest, p: Path)
    requires p in f.nodes
    ensures VisitOne(numeric, q, f, p) == Replaced(f, p, Looked(numeric, q, f.nodes[p]))
  {
    var n := f.nodes[p];
    var m := n.(lastAccessTime := q.now);
    var h := f.nodes[p := m];
    var k := if n.inLru then Accessed(m, q.now) else m;
  }

  lemma {:induction false} VisitAlongSound(numeric: string -> bool, q: Request, f: Forest, path: Path)
    requires Sound(numeric, f)
    ensures var g := VisitAlong(numeric, q, f, path);
      && Sound(numeric, g) && |g.lru| == |f.lru|
      && g.nodes == LookedAlong(numeric, q, f.nodes, path)
    decreases |path|
  {
    if path == [] {
      assert LookedAlong(numeric, q, f.nodes, path) == f.nodes;
    } else {
      VisitAlongSound(numeric, q, f, Parent(path));
      if path in f.nodes {
        LookedFurther(numeric, q, f.nodes, path);
        VisitOneSound(numeric, q, VisitAlong(numeric, q, f, Parent(path)), path);
      } else {
        LookedNoFurther(numeric, q, f.nodes, path);
      }
    }
  }

  lemma LookedNoFurther(numeric: string -> bool, q: Request, nodes: Tree, path: Path)
    requires path != [] && path !in nodes
    ensures LookedAlong(numeric, q, nodes, Parent(path)) == LookedAlong(numeric, q, nodes, path)
  {
    forall p | p in nodes
      ensures p <= path <==> p <= Parent(path)
    {
      PrefixStep(p, path);
    }
  }

  /** A search of the nodes above leaves the node as it is. */
  lemma {:induction false} VisitLeavesRest(numeric: string -> bool, q: Request, f: Forest, path: Path, p: Path)
    requires p in f.nodes && |path| < |p|
    ensures VisitAlong(numeric, q, f, path).nodes[p] == f.nodes[p]
    decreases |path|
  {
    if path != [] {
      VisitLeavesRest(numeric, q, f, Parent(path), p);
    }
  }

  /** The next node on the way, as the walk finds it. */
  lemma OneFurther(numeric: string -> bool, q: Request, f: Forest, path: Path, i: nat, p: Path)
    requires i < |path| && p == path[..i + 1] && p in f.nodes
    ensures var g := VisitAlong(numeric, q, f, path[..i]);
      && g.nodes[p] == f.nodes[p] && VisitAlong(numeric, q, f, p) == VisitOne(numeric, q, g, p)
    ensures Gathered(numeric, q, f.nodes, p)
         == Gathered(numeric, q, f.nodes, path[..i]) + Hits(numeric, q, CookiesOf(f.nodes[p]))
  {
    assert Parent(p) == path[..i];
    VisitLeavesRest(numeric, q, f, path[..i], p);
  }

  /** Nothing lies behind a missing node. */
  lemma {:induction false} NothingFurther(numeric: string -> bool, q: Request, f: Forest, path: Path, k: nat)
    requires TreeWf(numeric, f.nodes) && k < |path| && path[..k + 1] !in f.nodes
    ensures path !in f.nodes
    ensures VisitAlong(numeric, q, f, path[..k]) == VisitAlong(numeric, q, f, path)
    ensures Gathered(numeric, q, f.nodes, path[..k]) == Gathered(numeric, q, f.nodes, path)
    decreases |path|
  {
    if |path| == k + 1 {
      assert path[..k + 1] == path;
    } else {
      assert Parent(path)[..k + 1] == path[..k + 1];
      assert Parent(path)[..k] == path[..k];
      NothingFurther(numeric, q, f, Parent(path), k);
    }
  }

  lemma OnTheWayStep(numeric: string -> bool, nodes: Tree, path: Path)
    requires TreeWf(numeric, nodes) && path != []
    ensures OnTheWay(numeric, nodes, path)
         == OnTheWay(numeric, nodes, Parent(path)) + SetOf(CookiesOf(NodeAt(nodes, path)))
  {
    forall c
      ensures c in OnTheWay(numeric, nodes, path)
         <==> c in OnTheWay(numeric, nodes, Parent(path)) || c in CookiesOf(NodeAt(nodes, path))
    {
      StoredAtPath(numeric, nodes, c);
      PrefixStep(PathOf(numeric, c.domain), path);
      if c in CookiesOf(NodeAt(nodes, path)) {
        assert NodeWf(numeric, path, nodes[path]);
      }
    }
  }

  lemma PrefixStep(p: Path, path: Path)
    requires path != []
    ensures p <= path <==> p <= Parent(path) || p == path
  {
    if p <= path && p != path {
      assert |p| < |path|;
    }
  }

  /** The nodes on the way hold every hit on the way, and give each of them once. */
  lemma {:induction false} GatheredOnce(numeric: string -> bool, q: Request, nodes: Tree, path: Path)
    requires TreeWf(numeric, nodes)
    ensures multiset(Gathered(numeric, q, nodes, path)) == multiset(HitSet(numeric, q, OnTheWay(numeric, nodes, path)))
    decreases |path|
  {
    if path == [] {
      forall c | c in Stored(nodes) && PathOf(numeric, c.domain) <= []
        ensures false
      {
        StoredAtPath(numeric, nodes, c);
      }
      assert HitSet(numeric, q, OnTheWay(numeric, nodes, path)) == {};
    } else {
      GatheredOnce(numeric, q, nodes, Parent(path));
      OnTheWayStep(numeric, nodes, path);
      var s := CookiesOf(NodeAt(nodes, path));
      assert path in nodes ==> NodeWf(numeric, path, nodes[path]);
      HitsOnce(numeric, q, s);
    }
  }

  /** The lookup by labels against a flat filter of all cookies: of the cookies that match, it
      misses exactly those whose domain is numeric, has a dot and differs from the host. */
  lemma WayHoldsMatches(numeric: string -> bool, q: Request, nodes: Tree, c: Cookie)
    requires TreeWf(numeric, nodes) && !numeric("") && c in Stored(nodes) && Hit(numeric, q, c)
    ensures c in OnTheWay(numeric, nodes, PathOf(numeric, q.host))
       <==> q.host == c.domain || !numeric(c.domain) || '.' !in c.domain
  {
    StoredAtPath(numeric, nodes, c);
    assert NodeWf(numeric, PathOf(numeric, c.domain), nodes[PathOf(numeric, c.domain)]);
    if q.host != c.domain {
      MatchingDomainOnPath(numeric, q.host, c.domain);
    }
  }

  /** The stored cookies that a lookup can reach: all but those of the domains that it misses. */
  function Reachable(numeric: string -> bool, nodes: Tree, host: string): set<Cookie> {
    set c | c in Stored(nodes) && (host == c.domain || !numeric(c.domain) || '.' !in c.domain)
  }

  /** The hits on the way are the hits of a flat filter of the reachable cookies. */
  lemma WayIsFlatFilter(numeric: string -> bool, q: Request, nodes: Tree)
    requires TreeWf(numeric, nodes) && !numeric("")
    ensures HitSet(numeric, q, OnTheWay(numeric, nodes, PathOf(numeric, q.host)))
         == HitSet(numeric, q, Reachable(numeric, nodes, q.host))
  {
    var way, flat := OnTheWay(numeric, nodes, PathOf(numeric, q.host)), Reachable(numeric, nodes, q.host);
    forall c | c in Stored(nodes) && Hit(numeric, q, c)
      ensures c in way <==> c in flat
    {
      WayHoldsMatches(numeric, q, nodes, c);
    }
  }

  /** The answer to a request, from the flat set of all cookies: those that are due and whose
      domain the lookup does not miss, as accessed now. */
  ghost function Answer(numeric: string -> bool, q: Request, stored: set<Cookie>): set<Cookie> {
    set c | c in stored && Due(numeric, c, q.host, q.path, q.now, q.secure)
         && (q.host == c.domain || !numeric(c.domain) || '.' !in c.domain)
         :: c.(lastAccessTime := q.now)
  }

  lemma AnswerIsHits(numeric: string -> bool, q: Request, nodes: Tree)
    ensures HitSet(numeric, q, Reachable(numeric, nodes, q.host)) == Answer(numeric, q, Stored(nodes))
  {
    var stored := Stored(nodes);
    forall c | c in stored
      ensures Hit(numeric, q, c) <==> Due(numeric, c, q.host, q.path, q.now, q.secure)
    {
      MatchMeans(numeric, c, q.host, q.path, q.now, q.secure);
    }
  }

  lemma SameMembers(s: seq<Cookie>, t: set<Cookie>)
    requires multiset(s) == multiset(t)
    ensures SetOf(s) == t
  {
    forall c
      ensures c in s <==> c in t
    {
      assert c in s <==> c in multiset(s);
      assert c in t <==> c in multiset(t);
    }
  }

  /** When the nodes were last accessed, after a search. */
  lemma LookedTimes(numeric: string -> bool, q: Request, nodes: Tree, path: Path, p: Path)
    requires p in nodes
    ensures var n := LookedAlong(numeric, q, nodes, path)[p];
      && n.inLru == nodes[p].inLru
      && n.lruAccessTime == if nodes[p].inLru && p != [] && p <= path then q.now else nodes[p].lruAccessTime
  {
  }

  /** A search changes access times only: the flat set afterwards. */
  lemma LookedCookies(numeric: string -> bool, q: Request, nodes: Tree, path: Path, c: Cookie)
    requires TreeWf(numeric, nodes) && TreeWf(numeric, LookedAlong(numeric, q, nodes, path))
    ensures var hits := set d | d in OnTheWay(numeric, nodes, path) && Hit(numeric, q, d);
         c in Stored(LookedAlong(numeric, q, nodes, path)) <==>
         c in Stored(nodes) - hits || exists d :: d in hits && c == Refreshed(q, d)
  {
    var after := LookedAlong(numeric, q, nodes, path);
    var p := PathOf(numeric, c.domain);
    StoredAtPath(numeric, nodes, c);
    StoredAtPath(numeric, after, c);
    if p in nodes && p <= path {
      var s := CookiesOf(nodes[p]);
      assert p == [] ==> s == [];
      assert p != [] ==> CookiesOf(after[p]) == Visited(numeric, q, s);
      VisitedMembers(numeric, q, s, c);
    }
  }

  lemma VisitedMembers(numeric: string -> bool, q: Request, s: seq<Cookie>, c: Cookie)
    ensures c in Visited(numeric, q, s) <==>
      (c in s && !Hit(numeric, q, c)) || exists d :: d in s && Hit(numeric, q, d) && c == Refreshed(q, d)
  {
    var r := Visited(numeric, q, s);
    forall i | 0 <= i < |s|
      ensures s[i] in s && r[i] in r
    {
    }
  }
}
