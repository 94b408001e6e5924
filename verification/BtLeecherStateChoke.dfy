/** The choke rounds of a leecher: `src/BtLeecherStateChoke.cc`. */
module BtLeecherStateChokes {
  import opened ChokeRounds
  import opened Sets

  /** What an entry notes of its peer. */
  datatype Noted = Noted(downloadSpeed: int, regularUnchoker: bool)

  /** A regular unchoker is interested and sent a block in the last 30 seconds. */
  function Note(p: Peer, now: int): Noted {
    Noted(p.downloadSpeed, p.interested && Difference(p.lastDownloadUpdate, now) < 30)
  }

  /** `PeerEntry::operator<`. */
  predicate Before(a: Noted, b: Noted) {
    a.downloadSpeed > b.downloadSpeed
  }

  // ---------- the entries ----------

  predicate Entered(p: Peer) {
    p.active && !p.snubbing
  }

  function AllEntered(ps: seq<Peer>): set<nat> {
    set i | 0 <= i < |ps| && Entered(ps[i])
  }

  function Regulars(ps: seq<Peer>, now: int): set<nat> {
    set i | 0 <= i < |ps| && Entered(ps[i]) && Note(ps[i], now).regularUnchoker
  }

  /** The peers that wait for an unchoke. */
  function Waiting(ps: seq<Peer>): set<nat> {
    set i | 0 <= i < |ps| && Entered(ps[i]) && ps[i].amChoking && ps[i].interested
  }

  function Entries(ps: seq<Peer>, now: int): seq<PeerEntry<Noted>> {
    if ps == [] then []
    else
      var n := |ps| - 1;
      Entries(ps[..n], now) + if Entered(ps[n]) then [PeerEntry(n, Note(ps[n], now))] else []
  }

  lemma {:induction false} EntryNotes(ps: seq<Peer>, now: int, e: PeerEntry<Noted>)
    requires e in Entries(ps, now)
    ensures e.peer < |ps| && Entered(ps[e.peer]) && e.noted == Note(ps[e.peer], now)
  {
    var n := |ps| - 1;
    if e in Entries(ps[..n], now) {
      EntryNotes(ps[..n], now, e);
    }
  }

  lemma {:induction false} EntriesAreEntered(ps: seq<Peer>, now: int)
    ensures NoDup(Entries(ps, now)) && Ids(Entries(ps, now)) == AllEntered(ps)
  {
    if ps != [] {
      var n := |ps| - 1;
      var init := Entries(ps[..n], now);
      EntriesAreEntered(ps[..n], now);
      EnteredMore(ps);
      if Entered(ps[n]) {
        forall i | 0 <= i < |init|
          ensures init[i].peer < n
        {
          EntryNotes(ps[..n], now, init[i]);
        }
        IdsMore(init, PeerEntry(n, Note(ps[n], now)));
      } else {
        assert init + [] == init;
      }
    }
  }

  lemma EnteredMore(ps: seq<Peer>)
    requires ps != []
    ensures AllEntered(ps) == AllEntered(ps[..|ps| - 1]) + if Entered(ps[|ps| - 1]) then {|ps| - 1} else {}
  {
  }

  /** The vectors that hold the entries in some order. */
  ghost function Orders(ps: seq<Peer>, now: int): iset<seq<PeerEntry<Noted>>> {
    iset s | Permuted(Entries(ps, now), s)
  }

  lemma OrderFacts(ps: seq<Peer>, now: int, s: seq<PeerEntry<Noted>>)
    requires s in Orders(ps, now)
    ensures NoDup(s) && ForActive(ps, s) && Ids(s) == AllEntered(ps)
    ensures forall i :: 0 <= i < |s| ==> Entered(ps[s[i].peer]) && s[i].noted == Note(ps[s[i].peer], now)
  {
    EntriesAreEntered(ps, now);
    forall i | 0 <= i < |s|
      ensures s[i].peer < |ps| && Entered(ps[s[i].peer]) && s[i].noted == Note(ps[s[i].peer], now)
    {
      assert s[i] in s;
      EntryNotes(ps, now, s[i]);
    }
  }

  lemma OrderAgain(ps: seq<Peer>, now: int, s: seq<PeerEntry<Noted>>, r: seq<PeerEntry<Noted>>)
    requires s in Orders(ps, now) && Permuted(s, r)
    ensures r in Orders(ps, now)
  {
  }

  /** Two parts can be rearranged on their own. */
  lemma PartsPermuted(s: seq<PeerEntry<Noted>>, k: nat, a: seq<PeerEntry<Noted>>, b: seq<PeerEntry<Noted>>)
    requires NoDup(s) && k <= |s| && Permuted(s[..k], a) && Permuted(s[k..], b)
    ensures Permuted(s, a + b)
  {
    IdsSplit(s, k);
    IdsSplit(a + b, k);
    assert (a + b)[..k] == a && (a + b)[k..] == b;
    assert Ids(a + b) == Ids(s);
    PartsNoDup(a, b);
  }

  lemma PartsNoDup(a: seq<PeerEntry<Noted>>, b: seq<PeerEntry<Noted>>)
    requires NoDup(a) && NoDup(b) && Ids(a) !! Ids(b)
    ensures NoDup(a + b)
  {
    forall i, j | 0 <= i < |a| && 0 <= j < |b|
      ensures a[i].peer != b[j].peer
    {
      assert a[i].peer in Ids(a) && b[j].peer in Ids(b);
    }
  }

  // ---------- the outcome of a round ----------

  /** The three peers that a round releases if they are interested: a regular unchoker is left out
      only for three regular unchokers none of which is slower. */
  predicate Front(ps: seq<Peer>, now: int, front: set<nat>) {
    && front <= AllEntered(ps)
    && |front| == (if |AllEntered(ps)| < 3 then |AllEntered(ps)| else 3)
    && forall i, j :: i in Regulars(ps, now) - front && j in front ==>
         j in Regulars(ps, now) && ps[i].downloadSpeed <= ps[j].downloadSpeed
  }

  function InterestedIn(ps: seq<Peer>, front: set<nat>): set<nat> {
    set i | i in front && i < |ps| && ps[i].interested
  }

  ghost predicate Freed(ps: seq<Peer>, now: int, released: set<nat>) {
    exists front :: Front(ps, now, front) && released == InterestedIn(ps, front)
  }

  /** The optimistic unchokes ahead of the regular ones: those of before, without the snubbed
      peers, or in the first round a new one among those that wait. */
  predicate Planned(ps: seq<Peer>, round: nat, planned: set<nat>) {
    if round == 0 then
      planned <= Waiting(ps) && |planned| == if Waiting(ps) == {} then 0 else 1
    else
      planned == Optimistic(ps) * AllEntered(ps)
  }

  /** An optimistic unchoke of a released peer passes to the fastest regular unchoker released, or
      to any released peer if there is none. */
  predicate Passed(ps: seq<Peer>, now: int, planned: set<nat>, released: set<nat>, opt: set<nat>) {
    if planned !! released then opt == planned
    else exists f :: f in released && opt == planned - released + {f}
           && forall j :: j in Regulars(ps, now) * released ==>
                f in Regulars(ps, now) && ps[j].downloadSpeed <= ps[f].downloadSpeed
  }

  /** What a round may come to: the planned optimistic unchokes, the released peers and the
      optimistic unchokes at the end. */
  ghost function Outcomes(ps: seq<Peer>, now: int, round: nat): iset<(set<nat>, set<nat>, set<nat>)> {
    iset o: (set<nat>, set<nat>, set<nat>) |
      Planned(ps, round, o.0) && Freed(ps, now, o.1) && Passed(ps, now, o.0, o.1, o.2)
  }

  /** The optimistic unchokes that may be planned. */
  ghost function Plans(ps: seq<Peer>, round: nat): iset<set<nat>> {
    iset planned | Planned(ps, round, planned)
  }

  /** The released peers and the optimistic unchokes that may come of a plan. */
  ghost function Releases(ps: seq<Peer>, now: int, planned: set<nat>): iset<(set<nat>, set<nat>)> {
    iset o: (set<nat>, set<nat>) | Freed(ps, now, o.0) && Passed(ps, now, planned, o.0, o.1)
  }

  lemma OutcomeOf(ps: seq<Peer>, now: int, round: nat, planned: set<nat>, released: set<nat>, opt: set<nat>)
    requires planned in Plans(ps, round) && (released, opt) in Releases(ps, now, planned)
    ensures (planned, released, opt) in Outcomes(ps, now, round)
  {
  }

  // ---------- the first pass ----------

  function Marked(p: Peer): Peer {
    WithFlags(p, true, !p.snubbing && p.optUnchoking)
  }

  lemma MarkedIsFlagged(ps: seq<Peer>, r: seq<Peer>)
    requires |r| == |ps| && forall i :: 0 <= i < |ps| ==> r[i] == Marked(ps[i])
    ensures r == Flagged(ps, {}, Optimistic(ps) * AllEntered(ps))
  {
  }

  method Mark(ps: seq<Peer>, now: int) returns (r: seq<Peer>, peerEntries: seq<PeerEntry<Noted>>)
    ensures r == Flagged(ps, {}, Optimistic(ps) * AllEntered(ps))
    ensures peerEntries == Entries(ps, now)
  {
    r, peerEntries := ps, [];
    for i := 0 to |ps|
      invariant |r| == |ps| && peerEntries == Entries(ps[..i], now)
      invariant forall j :: 0 <= j < i ==> r[j] == Marked(ps[j])
      invariant forall j :: i <= j < |ps| ==> r[j] == ps[j]
    {
      assert ps[..i + 1][..i] == ps[..i];
      if r[i].active {
        r := r[i := r[i].(chokingRequired := true)];
        if r[i].snubbing {
          r := r[i := r[i].(optUnchoking := false)];
        } else {
          peerEntries := peerEntries + [PeerEntry(i, Note(ps[i], now))];
        }
      }
    }
    assert ps[..|ps|] == ps;
    MarkedIsFlagged(ps, r);
  }

  // ---------- the planned optimistic unchoke ----------

  method PlannedOptimisticUnchoke(ps: seq<Peer>, ghost now: int, marked: seq<Peer>, peerEntries: seq<PeerEntry<Noted>>)
    returns (r: seq<Peer>, v: seq<PeerEntry<Noted>>, ghost planned: set<nat>)
    requires peerEntries in Orders(ps, now)
    requires marked == Flagged(ps, {}, Optimistic(ps) * AllEntered(ps))
    ensures v in Orders(ps, now) && r == Flagged(ps, {}, planned)
    ensures planned <= Waiting(ps) && |planned| == if Waiting(ps) == {} then 0 else 1
  {
    OrderFacts(ps, now, peerEntries);
    r := WithdrawAll(ps, {}, Optimistic(ps) * AllEntered(ps), marked, peerEntries);
    PartedIds(Optimistic(ps) * AllEntered(ps), peerEntries);
    planned := {};
    var k;
    v, k := WaitingToFront(ps, now, peerEntries);
    if k != 0 {
      Grant(ps, {}, planned, v[0].peer);
      r := r[v[0].peer := r[v[0].peer].(optUnchoking := true)];
      planned := planned + {v[0].peer};
    }
  }

  /** Partitions the entries and shuffles those of the waiting peers, which come first. */
  method WaitingToFront(ps: seq<Peer>, ghost now: int, peerEntries: seq<PeerEntry<Noted>>)
    returns (v: seq<PeerEntry<Noted>>, k: nat)
    requires peerEntries in Orders(ps, now)
    ensures v in Orders(ps, now) && k <= |v|
    ensures if k == 0 then Waiting(ps) == {} else v[0].peer in Waiting(ps)
  {
    OrderFacts(ps, now, peerEntries);
    var filter := (e: PeerEntry<Noted>) => e.peer < |ps| && ps[e.peer].amChoking && ps[e.peer].interested;
    v, k := Partition(peerEntries, filter);
    OrderAgain(ps, now, peerEntries, v);
    WaitingFirst(ps, now, v, k);
    if k != 0 {
      v := ShuffleFront(ps, now, v, k);
    }
  }

  method ShuffleFront(ghost ps: seq<Peer>, ghost now: int, s: seq<PeerEntry<Noted>>, k: nat)
    returns (v: seq<PeerEntry<Noted>>)
    requires s in Orders(ps, now) && 0 < k <= |s|
    ensures v in Orders(ps, now) && k <= |v| && v[0].peer in Ids(s[..k])
  {
    OrderFacts(ps, now, s);
    var front := Shuffle(s[..k]);
    var back := s[k..];
    assert Permuted(back, back);
    PartsPermuted(s, k, front, back);
    v := front + back;
    OrderAgain(ps, now, s, v);
    assert v[0] == front[0];
    assert front[0].peer in Ids(front);
  }

  /** A partition by the filter puts the waiting peers first. */
  lemma WaitingFirst(ps: seq<Peer>, now: int, v: seq<PeerEntry<Noted>>, k: nat)
    requires v in Orders(ps, now) && k <= |v|
    requires forall i :: 0 <= i < |v| ==>
      (v[i].peer < |ps| && ps[v[i].peer].amChoking && ps[v[i].peer].interested <==> i < k)
    ensures Ids(v[..k]) == Waiting(ps)
    ensures Waiting(ps) == {} <==> k == 0
  {
    OrderFacts(ps, now, v);
    forall i | i in Waiting(ps)
      ensures i in Ids(v[..k])
    {
      assert i in Ids(v);
      var x :| 0 <= x < |v| && v[x].peer == i;
      assert v[..k][x] == v[x];
    }
    if k > 0 {
      assert v[..k][0] == v[0];
      assert v[0].peer in Ids(v[..k]);
    }
  }

  // ---------- the regular unchokes ----------

  /** The interested ones of some entries. */
  function Interested(ps: seq<Peer>, s: seq<PeerEntry<Noted>>): set<nat>
    requires ForActive(ps, s)
  {
    set i | 0 <= i < |s| && ps[s[i].peer].interested :: s[i].peer
  }

  lemma InterestedLast(ps: seq<Peer>, s: seq<PeerEntry<Noted>>, j: nat)
    requires ForActive(ps, s) && j < |s|
    ensures Interested(ps, s[..j + 1]) == Interested(ps, s[..j]) + if ps[s[j].peer].interested then {s[j].peer} else {}
  {
    var t := s[..j + 1];
    assert t[..j] == s[..j];
    forall i | 0 <= i < j
      ensures t[i] == s[..j][i]
    {
    }
    assert t[j] == s[j];
  }

  /** The regular unchokers by speed, and then the others at random. */
  predicate Ranked(v: seq<PeerEntry<Noted>>) {
    forall i, j :: 0 <= i < j < |v| && v[j].noted.regularUnchoker ==>
      v[i].noted.regularUnchoker && v[i].noted.downloadSpeed >= v[j].noted.downloadSpeed
  }

  ghost function Rankings(ps: seq<Peer>, now: int): iset<seq<PeerEntry<Noted>>> {
    iset v | v in Orders(ps, now) && Ranked(v)
  }

  method Rank(ghost ps: seq<Peer>, ghost now: int, peerEntries: seq<PeerEntry<Noted>>)
    returns (v: seq<PeerEntry<Noted>>)
    requires peerEntries in Orders(ps, now)
    ensures v in Rankings(ps, now)
  {
    OrderFacts(ps, now, peerEntries);
    var rest;
    v, rest := Partition(peerEntries, (e: PeerEntry<Noted>) => e.noted.regularUnchoker);
    OrderAgain(ps, now, peerEntries, v);
    var front := Sort(v[..rest], Before);
    var back := Shuffle(v[rest..]);
    PartsPermuted(v, rest, front, back);
    OrderAgain(ps, now, v, front + back);
    RankedParts(v, rest, front, back);
    v := front + back;
  }

  lemma RankedParts(v: seq<PeerEntry<Noted>>, k: nat, front: seq<PeerEntry<Noted>>, back: seq<PeerEntry<Noted>>)
    requires k <= |v| && Permuted(v[..k], front) && Ordered(Before, front) && Permuted(v[k..], back)
    requires forall i :: 0 <= i < |v| ==> (v[i].noted.regularUnchoker <==> i < k)
    ensures Ranked(front + back)
  {
    forall i | 0 <= i < |front|
      ensures front[i].noted.regularUnchoker
    {
      assert front[i] in front;
    }
    forall i | 0 <= i < |back|
      ensures !back[i].noted.regularUnchoker
    {
      assert back[i] in back;
    }
  }

  /** The first three of a ranking are freed rightly. */
  lemma FirstAreFreed(ps: seq<Peer>, now: int, v: seq<PeerEntry<Noted>>, m: nat)
    requires v in Rankings(ps, now) && m == (if |v| < 3 then |v| else 3) && ForActive(ps, v)
    ensures Freed(ps, now, Interested(ps, v[..m]))
  {
    FirstAreFront(ps, now, v, m);
    InterestedAre(ps, v[..m]);
  }

  lemma InterestedAre(ps: seq<Peer>, s: seq<PeerEntry<Noted>>)
    requires ForActive(ps, s)
    ensures Interested(ps, s) == InterestedIn(ps, Ids(s))
  {
  }

  lemma FirstAreFront(ps: seq<Peer>, now: int, v: seq<PeerEntry<Noted>>, m: nat)
    requires v in Rankings(ps, now) && m == if |v| < 3 then |v| else 3
    ensures Front(ps, now, Ids(v[..m]))
  {
    var front := Ids(v[..m]);
    OrderFacts(ps, now, v);
    IdsCount(v);
    IdsCount(v[..m]);
    IdsSplit(v, m);
    forall i, j | i in Regulars(ps, now) - front && j in front
      ensures j in Regulars(ps, now) && ps[i].downloadSpeed <= ps[j].downloadSpeed
    {
      var x := PlaceOf(ps, now, v, i);
      var y :| 0 <= y < m && v[..m][y].peer == j;
      BehindFront(v, m, x);
      RankedPair(ps, now, v, y, x);
    }
  }

  lemma BehindFront(v: seq<PeerEntry<Noted>>, m: nat, x: nat)
    requires m <= |v| && x < |v|
    ensures v[x].peer in Ids(v[..m]) || m <= x
  {
    if x < m {
      assert v[..m][x] == v[x];
    }
  }

  /** Ahead of a regular unchoker in a ranking stand regular unchokers that are not slower. */
  lemma RankedPair(ps: seq<Peer>, now: int, v: seq<PeerEntry<Noted>>, y: nat, x: nat)
    requires v in Rankings(ps, now) && y <= x < |v| && v[x].peer in Regulars(ps, now)
    ensures v[y].peer in Regulars(ps, now) && ps[v[x].peer].downloadSpeed <= ps[v[y].peer].downloadSpeed
  {
    OrderFacts(ps, now, v);
  }

  lemma PlaceOf(ps: seq<Peer>, now: int, v: seq<PeerEntry<Noted>>, i: nat) returns (x: nat)
    requires v in Orders(ps, now) && i in AllEntered(ps)
    ensures x < |v| && v[x].peer == i
  {
    OrderFacts(ps, now, v);
    assert i in Ids(v);
    x :| 0 <= x < |v| && v[x].peer == i;
  }

  /** Goes over the first `m` entries; an entry that is not interested uses up its turn. */
  method Unchoke(ps: seq<Peer>, marked: seq<Peer>, v: seq<PeerEntry<Noted>>, m: nat, ghost planned: set<nat>)
    returns (r: seq<Peer>, fastOptUnchoker: bool)
    requires ForActive(ps, v) && m <= |v| && marked == Flagged(ps, {}, planned)
    ensures r == Flagged(ps, Interested(ps, v[..m]), planned - Interested(ps, v[..m]))
    ensures fastOptUnchoker <==> !(planned !! Interested(ps, v[..m]))
  {
    r, fastOptUnchoker := marked, false;
    assert Interested(ps, v[..0]) == {};
    assert planned - {} == planned;
    for j := 0 to m
      invariant r == Flagged(ps, Interested(ps, v[..j]), planned - Interested(ps, v[..j]))
      invariant fastOptUnchoker <==> !(planned !! Interested(ps, v[..j]))
    {
      ghost var released := Interested(ps, v[..j]);
      var i := v[j].peer;
      InterestedLast(ps, v, j);
      if r[i].interested {
        var optimistic;
        r, optimistic := UnchokeOne(ps, r, i, released, planned);
        fastOptUnchoker := fastOptUnchoker || optimistic;
        OneLess(planned, released, i);
      } else {
        assert released + {} == released;
      }
    }
  }

  method UnchokeOne(ps: seq<Peer>, before: seq<Peer>, i: nat, ghost released: set<nat>, ghost planned: set<nat>)
    returns (r: seq<Peer>, optimistic: bool)
    requires i < |ps| && ps[i].active && before == Flagged(ps, released, planned - released)
    ensures r == Flagged(ps, released + {i}, planned - (released + {i}))
    ensures optimistic <==> i in planned - released
  {
    Release(ps, released, planned - released, i);
    r := before[i := before[i].(chokingRequired := false)];
    optimistic := r[i].optUnchoking;
    if optimistic {
      Withdraw(ps, released + {i}, planned - released, i);
      r := r[i := r[i].(optUnchoking := false)];
    }
    OneLess(planned, released, i);
  }

  lemma OneLess(planned: set<nat>, released: set<nat>, i: nat)
    ensures planned - (released + {i}) == planned - released - {i}
    ensures i !in planned - released ==> planned - (released + {i}) == planned - released
    ensures planned !! released + {i} <==> planned !! released && i !in planned
  {
  }

  /** The place of the first interested entry. */
  method FirstInterested(ps: seq<Peer>, v: seq<PeerEntry<Noted>>) returns (x: nat)
    requires ForActive(ps, v)
    ensures x <= |v| && (x < |v| ==> ps[v[x].peer].interested)
    ensures forall y :: 0 <= y < x ==> !ps[v[y].peer].interested
  {
    x := 0;
    while x < |v| && !ps[v[x].peer].interested
      invariant x <= |v| && forall y :: 0 <= y < x ==> !ps[v[y].peer].interested
    {
      x := x + 1;
    }
  }

  method RegularUnchoke(ps: seq<Peer>, ghost now: int, marked: seq<Peer>, peerEntries: seq<PeerEntry<Noted>>,
                        ghost planned: set<nat>)
    returns (r: seq<Peer>, ghost released: set<nat>, ghost opt: set<nat>)
    requires peerEntries in Orders(ps, now) && marked == Flagged(ps, {}, planned)
    ensures r == Flagged(ps, released, opt)
    ensures (released, opt) in Releases(ps, now, planned)
  {
    var v := Rank(ps, now, peerEntries);
    OrderFacts(ps, now, v);
    var m := if |v| < 3 then |v| else 3;
    var fastOptUnchoker;
    r, fastOptUnchoker := Unchoke(ps, marked, v, m, planned);
    released := Interested(ps, v[..m]);
    opt := planned - released;
    if fastOptUnchoker {
      var x := FirstInterested(ps, v);
      FirstIsReleased(ps, now, v, m, x, planned);
      ReleaseOf(ps, now, v, m, planned, opt + {v[x].peer});
      Grant(ps, released, opt, v[x].peer);
      r := r[v[x].peer := r[v[x].peer].(optUnchoking := true)];
      opt := opt + {v[x].peer};
    } else {
      assert opt == planned;
      ReleaseOf(ps, now, v, m, planned, planned);
    }
  }

  lemma ReleaseOf(ps: seq<Peer>, now: int, v: seq<PeerEntry<Noted>>, m: nat, planned: set<nat>, opt: set<nat>)
    requires v in Rankings(ps, now) && m == (if |v| < 3 then |v| else 3) && ForActive(ps, v)
    requires Passed(ps, now, planned, Interested(ps, v[..m]), opt)
    ensures (Interested(ps, v[..m]), opt) in Releases(ps, now, planned)
  {
    FirstAreFreed(ps, now, v, m);
  }

  lemma FirstIsReleased(ps: seq<Peer>, now: int, v: seq<PeerEntry<Noted>>, m: nat, x: nat, planned: set<nat>)
    requires v in Rankings(ps, now) && ForActive(ps, v)
    requires m <= |v| && !(planned !! Interested(ps, v[..m]))
    requires x <= |v| && (x < |v| ==> ps[v[x].peer].interested)
    requires forall y :: 0 <= y < x ==> !ps[v[y].peer].interested
    ensures x < m && v[x].peer in Interested(ps, v[..m])
    ensures Passed(ps, now, planned, Interested(ps, v[..m]), planned - Interested(ps, v[..m]) + {v[x].peer})
  {
    var i :| i in planned && i in Interested(ps, v[..m]);
    var z :| 0 <= z < m && ps[v[..m][z].peer].interested && v[..m][z].peer == i;
    assert v[z] == v[..m][z];
    assert v[..m][x] == v[x];
    forall j | j in Regulars(ps, now) * Interested(ps, v[..m])
      ensures v[x].peer in Regulars(ps, now) && ps[j].downloadSpeed <= ps[v[x].peer].downloadSpeed
    {
      var y :| 0 <= y < m && ps[v[..m][y].peer].interested && v[..m][y].peer == j;
      assert v[y] == v[..m][y];
      RankedPair(ps, now, v, x, y);
    }
  }

  class BtLeecherStateChoke {
    var round: nat

    constructor ()
      ensures round == 0
    {
      round := 0;
    }

    /** One choke round over the peers at the time `now`. */
    method ExecuteChoke(ps: seq<Peer>, now: int)
      returns (r: seq<Peer>, ghost planned: set<nat>, ghost released: set<nat>, ghost opt: set<nat>)
      requires round < 3
      modifies `round
      ensures round == (old(round) + 1) % 3
      ensures r == Flagged(ps, released, opt)
      ensures |r| == |ps| && forall i :: 0 <= i < |ps| ==>
                r[i] == if ps[i].active then ps[i].(chokingRequired := i !in released, optUnchoking := i in opt)
                        else ps[i]
      ensures (planned, released, opt) in Outcomes(ps, now, old(round))
    {
      var peerEntries;
      r, peerEntries := Mark(ps, now);
      r, peerEntries, planned := Plan(ps, now, round, r, peerEntries);
      r, released, opt := RegularUnchoke(ps, now, r, peerEntries, planned);
      OutcomeOf(ps, now, round, planned, released, opt);
      round := if round + 1 == 3 then 0 else round + 1;
    }
  }

  /** In the first of three rounds the optimistic unchoke is planned anew. */
  method Plan(ps: seq<Peer>, ghost now: int, round: nat, marked: seq<Peer>, peerEntries: seq<PeerEntry<Noted>>)
    returns (r: seq<Peer>, v: seq<PeerEntry<Noted>>, ghost planned: set<nat>)
    requires peerEntries == Entries(ps, now)
    requires marked == Flagged(ps, {}, Optimistic(ps) * AllEntered(ps))
    ensures v in Orders(ps, now) && r == Flagged(ps, {}, planned)
    ensures planned in Plans(ps, round)
  {
    AsEntered(ps, now);
    r, v, planned := marked, peerEntries, Optimistic(ps) * AllEntered(ps);
    if round == 0 {
      r, v, planned := PlannedOptimisticUnchoke(ps, now, r, peerEntries);
    }
  }

  lemma AsEntered(ps: seq<Peer>, now: int)
    ensures Entries(ps, now) in Orders(ps, now)
  {
    EntriesAreEntered(ps, now);
  }

  // ---------- what a round comes to ----------

  /** What the outcome of a round means for the peers themselves. Of the active peers that are not
      snubbed the front is three, or all if there are fewer: a peer that is interested and sent a
      block less than 30 seconds ago is left out only for three such peers that are not slower.
      Those of the front that are interested are released. In the first of three rounds one of the
      interested peers that are being choked, neither snubbed nor inactive, is unchoked
      optimistically, otherwise those stay who were; if a released peer is among them, a fastest
      one of the released takes its place. */
  lemma OutcomeMeans(ps: seq<Peer>, now: int, round: nat, planned: set<nat>, released: set<nat>, opt: set<nat>)
    returns (front: set<nat>)
    requires (planned, released, opt) in Outcomes(ps, now, round)
    ensures forall i :: i in front ==> i < |ps| && ps[i].active && !ps[i].snubbing
    ensures var n := |set i | 0 <= i < |ps| && ps[i].active && !ps[i].snubbing|; |front| == if n < 3 then n else 3
    ensures forall i, j ::
      (0 <= i < |ps| && i !in front && j in front
       && ps[i].active && !ps[i].snubbing && ps[i].interested && now - ps[i].lastDownloadUpdate < 30
       ==> ps[j].interested && now - ps[j].lastDownloadUpdate < 30 && ps[i].downloadSpeed <= ps[j].downloadSpeed)
    ensures forall i :: i in released <==> i in front && ps[i].interested
    ensures var waiting := set i | 0 <= i < |ps|
                               && ps[i].active && !ps[i].snubbing && ps[i].amChoking && ps[i].interested;
      round == 0 ==> planned <= waiting && |planned| == if waiting == {} then 0 else 1
    ensures round != 0 ==> planned == set i | 0 <= i < |ps| && ps[i].active && !ps[i].snubbing && ps[i].optUnchoking
    ensures planned !! released ==> opt == planned
    ensures !(planned !! released) ==> exists f ::
      (f in released && opt == planned - released + {f}
       && forall j :: j in released && now - ps[j].lastDownloadUpdate < 30
            ==> now - ps[f].lastDownloadUpdate < 30 && ps[j].downloadSpeed <= ps[f].downloadSpeed)
  {
    front :| Front(ps, now, front) && released == InterestedIn(ps, front);
    assert AllEntered(ps) == set i | 0 <= i < |ps| && ps[i].active && !ps[i].snubbing;
    assert Waiting(ps) == set i | 0 <= i < |ps|
                              && ps[i].active && !ps[i].snubbing && ps[i].amChoking && ps[i].interested;
  }

  lemma FreedAre(ps: seq<Peer>, now: int, released: set<nat>)
    requires Freed(ps, now, released)
    ensures |released| <= 3
    ensures forall i :: i in released ==> i < |ps| && ps[i].active && !ps[i].snubbing && ps[i].interested
  {
    var front :| Front(ps, now, front) && released == InterestedIn(ps, front);
    Fewer(released, front);
  }

  // ---------- over the rounds ----------

  /** A round keeps the number of optimistic unchokes at one or below. */
  lemma RoundKeepsOneOptimistic(ps: seq<Peer>, now: int, round: nat, planned: set<nat>, released: set<nat>,
                                opt: set<nat>)
    requires |Optimistic(ps)| <= 1
    requires (planned, released, opt) in Outcomes(ps, now, round)
    ensures |Optimistic(Flagged(ps, released, opt))| <= 1
  {
    if round != 0 {
      Fewer(planned, Optimistic(ps));
    }
    assert |planned| <= 1;
    FreedAre(ps, now, released);
    OptimisticFlagged(ps, released, opt);
    if !(planned !! released) {
      var i :| i in planned && i in released;
      Only(planned, i);
      assert planned - released == {};
    }
  }

  lemma Only(s: set<nat>, i: nat)
    requires |s| <= 1 && i in s
    ensures s == {i}
  {
    assert s == {i} + (s - {i});
  }
}
