/** What the choke rounds of `src/BtSeederStateChoke.cc` and `src/BtLeecherStateChoke.cc` share:
    the peers, their flags, and the rearrangements of the peer entries. A peer is known by its
    place in the sequence of peers. */
module ChokeRounds {

  datatype Peer = Peer(
    active: bool,
    interested: bool,
    snubbing: bool,
    amChoking: bool,
    outstandingUpload: nat,
    lastAmUnchoking: int,
    uploadSpeed: int,
    lastDownloadUpdate: int,
    downloadSpeed: int,
    chokingRequired: bool,
    optUnchoking: bool)

  /** `shouldBeChoking` of `src/PeerSessionResource.cc`. */
  predicate ShouldBeChoking(p: Peer) {
    !p.optUnchoking && p.chokingRequired
  }

  /** The time from one point to another, not below zero. */
  function Difference(from: int, to: int): int {
    if to < from then 0 else to - from
  }

  // ---------- flags ----------

  function WithFlags(p: Peer, chokingRequired: bool, optUnchoking: bool): Peer {
    if p.active then p.(chokingRequired := chokingRequired, optUnchoking := optUnchoking) else p
  }

  /** The peers after a round: of the active ones exactly those released need not be choked, and
      exactly those in `opt` are unchoked optimistically. */
  function Flagged(ps: seq<Peer>, released: set<nat>, opt: set<nat>): (r: seq<Peer>)
    ensures |r| == |ps|
    ensures forall i :: 0 <= i < |ps| ==> r[i] == WithFlags(ps[i], i !in released, i in opt)
  {
    seq(|ps|, i requires 0 <= i < |ps| => WithFlags(ps[i], i !in released, i in opt))
  }

  function Optimistic(ps: seq<Peer>): set<nat> {
    set i | 0 <= i < |ps| && ps[i].active && ps[i].optUnchoking
  }

  lemma Release(ps: seq<Peer>, released: set<nat>, opt: set<nat>, i: nat)
    requires i < |ps| && ps[i].active
    ensures var r := Flagged(ps, released, opt);
      r[i := r[i].(chokingRequired := false)] == Flagged(ps, released + {i}, opt)
  {
  }

  lemma Grant(ps: seq<Peer>, released: set<nat>, opt: set<nat>, i: nat)
    requires i < |ps| && ps[i].active
    ensures var r := Flagged(ps, released, opt);
      r[i := r[i].(optUnchoking := true)] == Flagged(ps, released, opt + {i})
  {
  }

  lemma Withdraw(ps: seq<Peer>, released: set<nat>, opt: set<nat>, i: nat)
    requires i < |ps| && ps[i].active
    ensures var r := Flagged(ps, released, opt);
      r[i := r[i].(optUnchoking := false)] == Flagged(ps, released, opt - {i})
  {
  }

  lemma OptimisticFlagged(ps: seq<Peer>, released: set<nat>, opt: set<nat>)
    requires forall i :: i in opt ==> i < |ps| && ps[i].active
    ensures Optimistic(Flagged(ps, released, opt)) == opt
  {
  }

  // ---------- entries ----------

  /** An entry of the vector that a round works on: a peer with what was noted of it. */
  datatype PeerEntry<D> = PeerEntry(peer: nat, noted: D)

  predicate NoDup<D>(s: seq<PeerEntry<D>>) {
    forall i, j :: 0 <= i < j < |s| ==> s[i].peer != s[j].peer
  }

  function Ids<D>(s: seq<PeerEntry<D>>): set<nat> {
    set i | 0 <= i < |s| :: s[i].peer
  }

  /** The same entries in another order. */
  predicate Permuted<D(==)>(s: seq<PeerEntry<D>>, r: seq<PeerEntry<D>>) {
    && |r| == |s|
    && NoDup(r)
    && (forall e :: e in r ==> e in s)
    && Ids(r) == Ids(s)
  }

  lemma {:induction false} IdsCount<D>(s: seq<PeerEntry<D>>)
    requires NoDup(s)
    ensures |Ids(s)| == |s|
  {
    if s != [] {
      var n := |s| - 1;
      IdsCount(s[..n]);
      assert Ids(s) == Ids(s[..n]) + {s[n].peer};
    }
  }

  lemma IdsAppend<D>(s: seq<PeerEntry<D>>, e: PeerEntry<D>)
    ensures Ids(s + [e]) == Ids(s) + {e.peer}
  {
    var r := s + [e];
    assert r[|s|] == e && forall i :: 0 <= i < |s| ==> r[i] == s[i];
  }

  lemma IdsMore<D>(init: seq<PeerEntry<D>>, e: PeerEntry<D>)
    requires NoDup(init) && forall i :: 0 <= i < |init| ==> init[i].peer < e.peer
    ensures NoDup(init + [e]) && Ids(init + [e]) == Ids(init) + {e.peer}
  {
    IdsAppend(init, e);
  }

  lemma IdsSplit<D>(s: seq<PeerEntry<D>>, k: nat)
    requires k <= |s|
    ensures Ids(s) == Ids(s[..k]) + Ids(s[k..])
    ensures NoDup(s) ==> Ids(s[..k]) !! Ids(s[k..])
  {
    forall i | 0 <= i < |s|
      ensures s[i].peer in Ids(s[..k]) + Ids(s[k..])
    {
      if i < k {
        assert s[..k][i] == s[i];
      } else {
        assert s[k..][i - k] == s[i];
      }
    }
  }

  /** A set of peers with the peers of some entries added one by one. */
  function Joined<D>(a: set<nat>, s: seq<PeerEntry<D>>): set<nat> {
    if s == [] then a else Joined(a, s[..|s| - 1]) + {s[|s| - 1].peer}
  }

  lemma {:induction false} JoinedIds<D>(a: set<nat>, s: seq<PeerEntry<D>>)
    ensures Joined(a, s) == a + Ids(s)
  {
    if s == [] {
      assert Ids(s) == {};
    } else {
      var n := |s| - 1;
      JoinedIds(a, s[..n]);
      IdsAppend(s[..n], s[n]);
      assert s == s[..n] + [s[n]];
    }
  }

  /** A set of peers without those of some entries. */
  function Parted<D>(a: set<nat>, s: seq<PeerEntry<D>>): set<nat> {
    if s == [] then a else Parted(a, s[..|s| - 1]) - {s[|s| - 1].peer}
  }

  lemma {:induction false} PartedIds<D>(a: set<nat>, s: seq<PeerEntry<D>>)
    ensures Parted(a, s) == a - Ids(s)
  {
    if s == [] {
      assert Ids(s) == {};
    } else {
      var n := |s| - 1;
      PartedIds(a, s[..n]);
      IdsAppend(s[..n], s[n]);
      assert s == s[..n] + [s[n]];
    }
  }

  /** The entries are for active peers. */
  predicate ForActive<D>(ps: seq<Peer>, s: seq<PeerEntry<D>>) {
    forall i :: 0 <= i < |s| ==> s[i].peer < |ps| && ps[s[i].peer].active
  }

  method ReleaseAll<D>(ghost ps: seq<Peer>, ghost released: set<nat>, ghost opt: set<nat>, marked: seq<Peer>,
    s: seq<PeerEntry<D>>)
    returns (r: seq<Peer>)
    requires ForActive(ps, s) && marked == Flagged(ps, released, opt)
    ensures r == Flagged(ps, Joined(released, s), opt)
  {
    r := marked;
    for j := 0 to |s|
      invariant r == Flagged(ps, Joined(released, s[..j]), opt)
    {
      Release(ps, Joined(released, s[..j]), opt, s[j].peer);
      assert s[..j + 1][..j] == s[..j];
      r := r[s[j].peer := r[s[j].peer].(chokingRequired := false)];
    }
    assert s[..|s|] == s;
  }

  method WithdrawAll<D>(ghost ps: seq<Peer>, ghost released: set<nat>, ghost opt: set<nat>, marked: seq<Peer>,
    s: seq<PeerEntry<D>>)
    returns (r: seq<Peer>)
    requires ForActive(ps, s) && marked == Flagged(ps, released, opt)
    ensures r == Flagged(ps, released, Parted(opt, s))
  {
    r := marked;
    for j := 0 to |s|
      invariant r == Flagged(ps, released, Parted(opt, s[..j]))
    {
      Withdraw(ps, released, Parted(opt, s[..j]), s[j].peer);
      assert s[..j + 1][..j] == s[..j];
      r := r[s[j].peer := r[s[j].peer].(optUnchoking := false)];
    }
    assert s[..|s|] == s;
  }

  // ---------- rearrangements ----------

  /** What a comparison has to be for `std::sort`. */
  ghost predicate StrictWeak<D(!new)>(less: (D, D) -> bool, s: seq<PeerEntry<D>>) {
    && (forall a, b :: a in s && b in s ==> !(less(a.noted, b.noted) && less(b.noted, a.noted)))
    && (forall a, b, c :: a in s && b in s && c in s && !less(a.noted, b.noted) && !less(b.noted, c.noted)
          ==> !less(a.noted, c.noted))
  }

  predicate Ordered<D>(less: (D, D) -> bool, s: seq<PeerEntry<D>>) {
    forall i, j :: 0 <= i < j < |s| ==> !less(s[j].noted, s[i].noted)
  }

  /** A sort: its callers may rely on no more than that the result is in order. */
  method Sort<D(==, !new)>(s: seq<PeerEntry<D>>, less: (D, D) -> bool) returns (r: seq<PeerEntry<D>>)
    requires NoDup(s) && StrictWeak(less, s)
    ensures Permuted(s, r) && Ordered(less, r)
  {
    r := [];
    for i := 0 to |s|
      invariant Permuted(s[..i], r) && Ordered(less, r)
    {
      assert s[..i + 1] == s[..i] + [s[i]];
      r := Insert(s, s[..i], r, s[i], less);
    }
    assert s[..|s|] == s;
  }

  method Insert<D(==, !new)>(ghost all: seq<PeerEntry<D>>, ghost s: seq<PeerEntry<D>>, r: seq<PeerEntry<D>>,
                             e: PeerEntry<D>, less: (D, D) -> bool)
    returns (t: seq<PeerEntry<D>>)
    requires StrictWeak(less, all) && s + [e] <= all
    requires NoDup(s + [e]) && Permuted(s, r) && Ordered(less, r)
    ensures Permuted(s + [e], t) && Ordered(less, t)
  {
    var k: nat := |r|;
    while k > 0 && less(e.noted, r[k - 1].noted)
      invariant k <= |r| && forall j :: k <= j < |r| ==> less(e.noted, r[j].noted)
    {
      k := k - 1;
    }
    t := r[..k] + [e] + r[k..];
    InsertedPermutes(s, r, e, k);
    PrefixMembers(s, e, all);
    InsertedOrdered(all, r, e, less, k, t);
  }

  lemma InsertedOrdered<D(!new)>(all: seq<PeerEntry<D>>, r: seq<PeerEntry<D>>, e: PeerEntry<D>,
                                 less: (D, D) -> bool, k: nat, t: seq<PeerEntry<D>>)
    requires StrictWeak(less, all) && e in all && (forall x :: x in r ==> x in all) && Ordered(less, r)
    requires k <= |r| && (forall j :: k <= j < |r| ==> less(e.noted, r[j].noted))
    requires k > 0 ==> !less(e.noted, r[k - 1].noted)
    requires t == r[..k] + [e] + r[k..]
    ensures Ordered(less, t)
  {
    forall i, j | 0 <= i < j < |t|
      ensures !less(t[j].noted, t[i].noted)
    {
      if j == k && i < k - 1 {
        assert !less(r[k - 1].noted, r[i].noted);
      }
    }
  }

  lemma PrefixMembers<D>(s: seq<PeerEntry<D>>, e: PeerEntry<D>, all: seq<PeerEntry<D>>)
    requires s + [e] <= all
    ensures e in all && forall x :: x in s ==> x in all
  {
    assert all[|s|] == e;
    forall i | 0 <= i < |s|
      ensures s[i] in all
    {
      assert all[i] == s[i];
    }
  }

  lemma InsertedPermutes<D>(s: seq<PeerEntry<D>>, r: seq<PeerEntry<D>>, e: PeerEntry<D>, k: nat)
    requires NoDup(s + [e]) && Permuted(s, r) && k <= |r|
    ensures Permuted(s + [e], r[..k] + [e] + r[k..])
  {
    var t := r[..k] + [e] + r[k..];
    IdsAppend(s, e);
    assert e.peer !in Ids(s) by {
      forall i | 0 <= i < |s|
        ensures s[i].peer != e.peer
      {
        assert (s + [e])[i] == s[i] && (s + [e])[|s|] == e;
      }
    }
    forall i | 0 <= i < |r|
      ensures r[i].peer in Ids(s) && t[if i < k then i else i + 1] == r[i]
    {
      assert r[i].peer in Ids(r);
    }
    assert t[k] == e;
    assert Ids(t) == Ids(r) + {e.peer};
  }

  /** A shuffle: any order may come out. */
  method Shuffle<D(==)>(s: seq<PeerEntry<D>>) returns (r: seq<PeerEntry<D>>)
    requires NoDup(s)
    ensures Permuted(s, r)
  {
    r := s;
    var i := |s|;
    while i > 1
      invariant i <= |r| && Permuted(s, r)
    {
      i := i - 1;
      var j: nat :| j <= i;
      Swapped(s, r, i, j);
      r := r[i := r[j]][j := r[i]];
    }
  }

  lemma Swapped<D>(s: seq<PeerEntry<D>>, r: seq<PeerEntry<D>>, i: nat, j: nat)
    requires Permuted(s, r) && i < |r| && j < |r|
    ensures Permuted(s, r[i := r[j]][j := r[i]])
  {
    var t := r[i := r[j]][j := r[i]];
    forall k | 0 <= k < |r|
      ensures t[if k == i then j else if k == j then i else k] == r[k]
    {
    }
    assert Ids(t) == Ids(r);
  }

  /** A partition: the entries that pass come first, in any order. */
  method Partition<D(==)>(s: seq<PeerEntry<D>>, pass: PeerEntry<D> -> bool) returns (r: seq<PeerEntry<D>>, k: nat)
    requires NoDup(s)
    ensures Permuted(s, r) && k <= |r|
    ensures forall i :: 0 <= i < |r| ==> (pass(r[i]) <==> i < k)
  {
    r, k := [], 0;
    for i := 0 to |s|
      invariant Permuted(s[..i], r) && k <= |r|
      invariant forall j :: 0 <= j < |r| ==> (pass(r[j]) <==> j < k)
    {
      assert s[..i + 1] == s[..i] + [s[i]];
      if pass(s[i]) {
        InsertedPermutes(s[..i], r, s[i], k);
        r := r[..k] + [s[i]] + r[k..];
        k := k + 1;
      } else {
        InsertedPermutes(s[..i], r, s[i], |r|);
        assert r[..|r|] + [s[i]] + r[|r|..] == r + [s[i]];
        r := r + [s[i]];
      }
    }
    assert s[..|s|] == s;
  }
}
