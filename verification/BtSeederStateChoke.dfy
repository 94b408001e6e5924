/** The choke rounds of a seeder: `src/BtSeederStateChoke.cc`. */
module BtSeederStateChokes {
  import opened ChokeRounds
  import opened Integers
  import opened Sets

  const TIME_FRAME: int := 20

  /** What an entry notes of its peer. */
  datatype Noted = Noted(outstandingUpload: nat, lastAmUnchoking: int, recentUnchoking: bool, uploadSpeed: int)

  function Note(p: Peer, now: int): Noted {
    Noted(p.outstandingUpload, p.lastAmUnchoking, Difference(p.lastAmUnchoking, now) < TIME_FRAME, p.uploadSpeed)
  }

  /** `PeerEntry::operator<`. */
  predicate Before(a: Noted, b: Noted) {
    if a.outstandingUpload != 0 && b.outstandingUpload == 0 then true
    else if a.outstandingUpload == 0 && b.outstandingUpload != 0 then false
    else if a.recentUnchoking && a.lastAmUnchoking > b.lastAmUnchoking then true
    else if b.recentUnchoking then false
    else a.uploadSpeed > b.uploadSpeed
  }

  // ---------- the order ----------

  /** Notes taken at one moment are ordered by a strict weak order, as a sort requires. */
  lemma BeforeIsStrictWeak(p: Peer, q: Peer, r: Peer, now: int)
    ensures var a, b, c := Note(p, now), Note(q, now), Note(r, now);
      && !(Before(a, b) && Before(b, a))
      && (Before(a, b) && Before(b, c) ==> Before(a, c))
      && (!Before(a, b) && !Before(b, c) ==> !Before(a, c))
  {
  }

  /** Notes in which recency does not follow from the time of the unchoke would not be. */
  lemma BeforeNeedsOneClock()
    ensures exists a, b, c :: Before(a, b) && Before(b, c) && !Before(a, c)
  {
    var a, b, c := Noted(0, 2, true, 0), Noted(0, 1, false, 5), Noted(0, 3, false, 4);
    assert Before(a, b) && Before(b, c) && !Before(a, c);
  }

  // ---------- the candidates ----------

  predicate Candidate(p: Peer) {
    p.active && p.interested
  }

  function Candidates(ps: seq<Peer>): set<nat> {
    set i | 0 <= i < |ps| && Candidate(ps[i])
  }

  function Entries(ps: seq<Peer>, now: int): seq<PeerEntry<Noted>> {
    if ps == [] then []
    else
      var n := |ps| - 1;
      Entries(ps[..n], now) + if Candidate(ps[n]) then [PeerEntry(n, Note(ps[n], now))] else []
  }

  lemma {:induction false} EntryNotes(ps: seq<Peer>, now: int, e: PeerEntry<Noted>)
    requires e in Entries(ps, now)
    ensures e.peer < |ps| && Candidate(ps[e.peer]) && e.noted == Note(ps[e.peer], now)
  {
    var n := |ps| - 1;
    if e in Entries(ps[..n], now) {
      EntryNotes(ps[..n], now, e);
    }
  }

  lemma {:induction false} EntriesAreCandidates(ps: seq<Peer>, now: int)
    ensures NoDup(Entries(ps, now)) && Ids(Entries(ps, now)) == Candidates(ps)
  {
    if ps != [] {
      var n := |ps| - 1;
      var init := Entries(ps[..n], now);
      EntriesAreCandidates(ps[..n], now);
      CandidatesMore(ps);
      if Candidate(ps[n]) {
        forall i | 0 <= i < |init|
          ensures init[i].peer < n
        {
          EntryNotes(ps[..n], now, init[i]);
        }
        IdsMore(init, PeerEntry(n, Note(ps[n], now)));
      } else {
        assert init + [] == init;
      }
    }
  }

  lemma CandidatesMore(ps: seq<Peer>)
    requires ps != []
    ensures Candidates(ps) == Candidates(ps[..|ps| - 1]) + if Candidate(ps[|ps| - 1]) then {|ps| - 1} else {}
  {
  }

  /** The vectors that a sort of the entries may give. */
  ghost function Sortings(ps: seq<Peer>, now: int): iset<seq<PeerEntry<Noted>>> {
    iset s | Permuted(Entries(ps, now), s) && Ordered(Before, s)
  }

  lemma SortedAreActive(ps: seq<Peer>, now: int, s: seq<PeerEntry<Noted>>)
    requires s in Sortings(ps, now)
    ensures NoDup(s) && ForActive(ps, s) && Ids(s) == Candidates(ps)
  {
    EntriesAreCandidates(ps, now);
    forall i | 0 <= i < |s|
      ensures s[i].peer < |ps| && ps[s[i].peer].active
    {
      assert s[i] in s;
      EntryNotes(ps, now, s[i]);
    }
  }

  lemma EntriesSortable(ps: seq<Peer>, now: int)
    ensures StrictWeak(Before, Entries(ps, now))
  {
    var s := Entries(ps, now);
    forall a, b, c | a in s && b in s && c in s
      ensures !(Before(a.noted, b.noted) && Before(b.noted, a.noted))
      ensures !Before(a.noted, b.noted) && !Before(b.noted, c.noted) ==> !Before(a.noted, c.noted)
    {
      EntryNotes(ps, now, a);
      EntryNotes(ps, now, b);
      EntryNotes(ps, now, c);
      BeforeIsStrictWeak(ps[a.peer], ps[b.peer], ps[c.peer], now);
    }
  }

  // ---------- a round ----------

  function Slots(round: nat): nat {
    if round == 2 then 4 else 3
  }

  /** The released peers are candidates, as many as there are slots for, and no candidate left
      out comes before one of them. */
  predicate Chosen(ps: seq<Peer>, now: int, round: nat, released: set<nat>) {
    && released <= Candidates(ps)
    && |released| == Min(Slots(round), |Candidates(ps)|)
    && forall i, j :: i in released && j in Candidates(ps) - released ==> !Before(Note(ps[j], now), Note(ps[i], now))
  }

  /** The peers unchoked optimistically: in the first two rounds one candidate that was not
      released, if there is one; in the last round those of before that are still interested. */
  predicate Lucky(ps: seq<Peer>, round: nat, released: set<nat>, opt: set<nat>) {
    if round < 2 then
      && opt <= Candidates(ps) - released
      && |opt| == if |Candidates(ps)| > Slots(round) then 1 else 0
    else
      opt == Optimistic(ps) * Candidates(ps)
  }

  /** The released and the optimistically unchoked peers that a round may come to. */
  ghost function Outcomes(ps: seq<Peer>, now: int, round: nat): iset<(set<nat>, set<nat>)> {
    iset o: (set<nat>, set<nat>) | Chosen(ps, now, round, o.0) && Lucky(ps, round, o.0, o.1)
  }

  /** The peers after the first pass: all active ones are to be choked. */
  function Marked(p: Peer): Peer {
    WithFlags(p, true, p.interested && p.optUnchoking)
  }

  lemma MarkedIsFlagged(ps: seq<Peer>, r: seq<Peer>)
    requires |r| == |ps| && forall i :: 0 <= i < |ps| ==> r[i] == Marked(ps[i])
    ensures r == Flagged(ps, {}, Optimistic(ps) * Candidates(ps))
  {
  }

  /** No entry behind the first `k` comes before one of them. */
  lemma NoneBetterBehind(ps: seq<Peer>, now: int, s: seq<PeerEntry<Noted>>, k: nat, i: nat, j: nat)
    requires s in Sortings(ps, now) && k <= |s|
    requires i in Ids(s[..k]) && j in Ids(s[k..])
    ensures i < |ps| && j < |ps| && !Before(Note(ps[j], now), Note(ps[i], now))
  {
    var x :| 0 <= x < k && s[..k][x].peer == i;
    var y :| 0 <= y < |s| - k && s[k..][y].peer == j;
    assert s[x] in s && s[k + y] in s;
    EntryNotes(ps, now, s[x]);
    EntryNotes(ps, now, s[k + y]);
  }

  lemma FirstCount(ps: seq<Peer>, now: int, s: seq<PeerEntry<Noted>>, k: nat)
    requires s in Sortings(ps, now) && k <= |s|
    ensures |Ids(s[..k])| == k && |s| == |Candidates(ps)|
    ensures Ids(s[..k]) <= Candidates(ps) && Ids(s[k..]) == Candidates(ps) - Ids(s[..k])
  {
    EntriesAreCandidates(ps, now);
    IdsCount(s);
    IdsCount(s[..k]);
    IdsSplit(s, k);
  }

  /** The first entries of a sorted vector are chosen rightly. */
  lemma FirstAreChosen(ps: seq<Peer>, now: int, round: nat, s: seq<PeerEntry<Noted>>, k: nat)
    requires s in Sortings(ps, now) && k == Min(Slots(round), |s|)
    ensures Chosen(ps, now, round, Ids(s[..k]))
  {
    FirstCount(ps, now, s, k);
    var released := Ids(s[..k]);
    forall i, j | i in released && j in Candidates(ps) - released
      ensures !Before(Note(ps[j], now), Note(ps[i], now))
    {
      NoneBetterBehind(ps, now, s, k, i, j);
    }
  }

  class BtSeederStateChoke {
    var round: nat

    constructor ()
      ensures round == 0
    {
      round := 0;
    }

    /** One choke round over the peers at the time `now`. */
    method ExecuteChoke(ps: seq<Peer>, now: int) returns (r: seq<Peer>, ghost released: set<nat>, ghost opt: set<nat>)
      requires round < 3
      modifies `round
      ensures round == (old(round) + 1) % 3
      ensures r == Flagged(ps, released, opt)
      ensures |r| == |ps| && forall i :: 0 <= i < |ps| ==>
                r[i] == if ps[i].active then ps[i].(chokingRequired := i !in released, optUnchoking := i in opt)
                        else ps[i]
      ensures (released, opt) in Outcomes(ps, now, old(round))
    {
      var peerEntries;
      r, peerEntries := Mark(ps, now);
      r, released, opt := Unchoke(ps, now, r, peerEntries);
      round := if round + 1 == 3 then 0 else round + 1;
    }

    /** The sort decides on the released peers, the shuffle on the optimistic unchoke. */
    method Unchoke(ghost ps: seq<Peer>, ghost now: int, marked: seq<Peer>, peerEntries: seq<PeerEntry<Noted>>)
      returns (r: seq<Peer>, ghost released: set<nat>, ghost opt: set<nat>)
      requires round < 3 && peerEntries == Entries(ps, now)
      requires marked == Flagged(ps, {}, Optimistic(ps) * Candidates(ps))
      ensures r == Flagged(ps, released, opt)
      ensures (released, opt) in Outcomes(ps, now, round)
    {
      var peers := SortEntries(ps, now, peerEntries);
      var count := if round == 2 then 4 else 3;
      var k := if count < |peers| then count else |peers|;
      SortedAreActive(ps, now, peers);
      r := ReleaseAll(ps, {}, Optimistic(ps) * Candidates(ps), marked, peers[..k]);
      JoinedIds({}, peers[..k]);
      released := Ids(peers[..k]);
      assert {} + released == released;
      r, opt := PassOn(ps, now, round, r, peers, k, released);
      OutcomeOf(ps, now, round, peers, k, opt);
    }
  }

  method SortEntries(ghost ps: seq<Peer>, ghost now: int, peerEntries: seq<PeerEntry<Noted>>)
    returns (peers: seq<PeerEntry<Noted>>)
    requires peerEntries == Entries(ps, now)
    ensures peers in Sortings(ps, now)
  {
    EntriesAreCandidates(ps, now);
    EntriesSortable(ps, now);
    peers := Sort(peerEntries, Before);
  }

  /** The optimistic unchokes that go with the first `k` entries. */
  predicate LuckyBehind(ps: seq<Peer>, round: nat, peers: seq<PeerEntry<Noted>>, k: nat, opt: set<nat>)
    requires k <= |peers|
  {
    if round < 2 then opt <= Ids(peers[k..]) && |opt| == if |peers| > k then 1 else 0
    else opt == Optimistic(ps) * Candidates(ps)
  }

  lemma OutcomeOf(ps: seq<Peer>, now: int, round: nat, peers: seq<PeerEntry<Noted>>, k: nat, opt: set<nat>)
    requires round < 3 && peers in Sortings(ps, now) && k == Min(Slots(round), |peers|)
    requires LuckyBehind(ps, round, peers, k, opt)
    ensures (Ids(peers[..k]), opt) in Outcomes(ps, now, round)
  {
    FirstCount(ps, now, peers, k);
    FirstAreChosen(ps, now, round, peers, k);
  }

  /** In the last of three rounds the optimistic unchokes stay. */
  method PassOn(ghost ps: seq<Peer>, ghost now: int, round: nat, marked: seq<Peer>, peers: seq<PeerEntry<Noted>>,
                k: nat, ghost released: set<nat>)
    returns (r: seq<Peer>, ghost opt: set<nat>)
    requires peers in Sortings(ps, now) && k <= |peers|
    requires marked == Flagged(ps, released, Optimistic(ps) * Candidates(ps))
    ensures r == Flagged(ps, released, opt) && LuckyBehind(ps, round, peers, k, opt)
  {
    r, opt := marked, Optimistic(ps) * Candidates(ps);
    if round < 2 {
      r, opt := UnchokeOptimistically(ps, now, r, peers, k, released);
    }
  }

  /** The first pass over the peers. */
  method Mark(ps: seq<Peer>, now: int) returns (r: seq<Peer>, peerEntries: seq<PeerEntry<Noted>>)
    ensures r == Flagged(ps, {}, Optimistic(ps) * Candidates(ps))
    ensures peerEntries == Entries(ps, now)
  {
    r, peerEntries := ps, [];
    for i := 0 to |ps|
      invariant |r| == |ps| && peerEntries == Entries(ps[..i], now)
      invariant forall j :: 0 <= j < i ==> r[j] == Marked(ps[j])
      invariant forall j :: i <= j < |ps| ==> r[j] == ps[j]
    {
      assert ps[..i + 1][..i] == ps[..i];
      if r[i].active {
        r := r[i := r[i].(chokingRequired := true)];
        if r[i].interested {
          peerEntries := peerEntries + [PeerEntry(i, Note(ps[i], now))];
        } else {
          r := r[i := r[i].(optUnchoking := false)];
        }
      }
    }
    assert ps[..|ps|] == ps;
    MarkedIsFlagged(ps, r);
  }

  /** Of the entries behind the first `k` one at random is unchoked optimistically. */
  method UnchokeOptimistically(ghost ps: seq<Peer>, ghost now: int, marked: seq<Peer>,
                               peers: seq<PeerEntry<Noted>>, k: nat, ghost released: set<nat>)
    returns (r: seq<Peer>, ghost opt: set<nat>)
    requires peers in Sortings(ps, now) && k <= |peers|
    requires marked == Flagged(ps, released, Optimistic(ps) * Candidates(ps))
    ensures r == Flagged(ps, released, opt)
    ensures opt <= Ids(peers[k..]) && |opt| == if |peers| > k then 1 else 0
  {
    SortedAreActive(ps, now, peers);
    r := WithdrawAll(ps, released, Optimistic(ps) * Candidates(ps), marked, peers);
    PartedIds(Optimistic(ps) * Candidates(ps), peers);
    opt := Parted(Optimistic(ps) * Candidates(ps), peers);
    assert opt == {};
    if k < |peers| {
      var tail := Shuffle(peers[k..]);
      assert tail[0] in tail;
      assert tail[0].peer in Ids(tail);
      Grant(ps, released, opt, tail[0].peer);
      r := r[tail[0].peer := r[tail[0].peer].(optUnchoking := true)];
      opt := opt + {tail[0].peer};
    }
  }

  // ---------- what a round comes to ----------

  /** What it means that no peer left out comes before a released one. A peer that is owed uploads
      gives way only to others that are. Among those that are owed some, and among the others, one
      unchoked less than 20 seconds ago gives way only to those unchoked as late or later, and any
      other only to those unchoked less than 20 seconds ago or not slower. */
  lemma NotBeforeMeans(p: Peer, q: Peer, now: int)
    ensures !Before(Note(q, now), Note(p, now))
       <==> && (q.outstandingUpload > 0 ==> p.outstandingUpload > 0)
            && ((q.outstandingUpload > 0 <==> p.outstandingUpload > 0) ==>
                  if now - q.lastAmUnchoking < 20 then q.lastAmUnchoking <= p.lastAmUnchoking
                  else now - p.lastAmUnchoking < 20 || q.uploadSpeed <= p.uploadSpeed)
  {
  }

  /** What the outcome of a round means for the peers themselves: of the candidates, which are
      active and interested, as many are released as there are slots, and none left out comes
      before one of them. In the first two of three rounds one of those left out, if there are
      any, is unchoked optimistically; in the last one the candidates stay who were. */
  lemma OutcomeMeans(ps: seq<Peer>, now: int, round: nat, released: set<nat>, opt: set<nat>, candidates: set<nat>)
    requires (released, opt) in Outcomes(ps, now, round)
    requires candidates == set i | 0 <= i < |ps| && ps[i].active && ps[i].interested
    ensures released <= candidates
    ensures var slots := if round == 2 then 4 else 3;
      && |released| == (if |candidates| < slots then |candidates| else slots)
      && (round < 2 ==> opt <= candidates - released && |opt| == if |candidates| > slots then 1 else 0)
    ensures round >= 2 ==> opt == set i | i in candidates && i < |ps| && ps[i].optUnchoking
    ensures forall i, j :: i in released && j in candidates - released ==>
      && (ps[j].outstandingUpload > 0 ==> ps[i].outstandingUpload > 0)
      && ((ps[j].outstandingUpload > 0 <==> ps[i].outstandingUpload > 0) ==>
            if now - ps[j].lastAmUnchoking < 20 then ps[j].lastAmUnchoking <= ps[i].lastAmUnchoking
            else now - ps[i].lastAmUnchoking < 20 || ps[j].uploadSpeed <= ps[i].uploadSpeed)
  {
    assert candidates == Candidates(ps);
    forall i, j | i in released && j in candidates - released
      ensures !Before(Note(ps[j], now), Note(ps[i], now))
      ensures && (ps[j].outstandingUpload > 0 ==> ps[i].outstandingUpload > 0)
              && ((ps[j].outstandingUpload > 0 <==> ps[i].outstandingUpload > 0) ==>
                    if now - ps[j].lastAmUnchoking < 20 then ps[j].lastAmUnchoking <= ps[i].lastAmUnchoking
                    else now - ps[i].lastAmUnchoking < 20 || ps[j].uploadSpeed <= ps[i].uploadSpeed)
    {
      NotBeforeMeans(ps[i], ps[j], now);
    }
  }

  // ---------- over the rounds ----------

  /** A round leaves at most four peers released, all of them interested, and keeps the number of
      optimistic unchokes at one or below; peers that join in between must come without one. */
  lemma RoundKeepsOneOptimistic(ps: seq<Peer>, now: int, round: nat, released: set<nat>, opt: set<nat>)
    requires round < 3 && |Optimistic(ps)| <= 1
    requires (released, opt) in Outcomes(ps, now, round)
    ensures |Optimistic(Flagged(ps, released, opt))| <= 1
    ensures |released| <= if round == 2 then 4 else 3
  {
    OptimisticFlagged(ps, released, opt);
    if round == 2 {
      Fewer(Optimistic(ps) * Candidates(ps), Optimistic(ps));
    }
  }
}
