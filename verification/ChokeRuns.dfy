/** Runs of choke rounds, those of a leecher and those of a seeder in any order. */
module ChokeRuns {
  import Leecher = BtLeecherStateChokes
  import Seeder = BtSeederStateChokes
  import opened ChokeRounds
  import opened Sets

  /** A round over the peers `ps`, with what came of it. */
  datatype Round =
    | SeederRound(ps: seq<Peer>, now: int, number: nat, released: set<nat>, opt: set<nat>)
    | LeecherRound(ps: seq<Peer>, now: int, number: nat, planned: set<nat>, released: set<nat>, opt: set<nat>)

  ghost predicate Played(r: Round) {
    match r
    case SeederRound(ps, now, number, released, opt) =>
      number < 3 && (released, opt) in Seeder.Outcomes(ps, now, number)
    case LeecherRound(ps, now, number, planned, released, opt) =>
      number < 3 && (planned, released, opt) in Leecher.Outcomes(ps, now, number)
  }

  function After(r: Round): seq<Peer> {
    Flagged(r.ps, r.released, r.opt)
  }

  /** Between two rounds peers may leave, join or be snubbed, but none comes in, or is made,
      optimistically unchoked. */
  predicate Follows(after: seq<Peer>, next: seq<Peer>) {
    Optimistic(next) <= Optimistic(after)
  }

  /** Every beginning of a run is a run. */
  ghost predicate Run(rs: seq<Round>) {
    rs == [] ||
    var n := |rs| - 1;
    && Run(rs[..n])
    && Played(rs[n])
    && (n > 0 ==> Follows(After(rs[n - 1]), rs[n].ps))
  }

  lemma PlayedKeepsOne(r: Round)
    requires Played(r) && |Optimistic(r.ps)| <= 1
    ensures |Optimistic(After(r))| <= 1
  {
    match r
    case SeederRound(ps, now, number, released, opt) =>
      Seeder.RoundKeepsOneOptimistic(ps, now, number, released, opt);
    case LeecherRound(ps, now, number, planned, released, opt) =>
      Leecher.RoundKeepsOneOptimistic(ps, now, number, planned, released, opt);
  }

  /** In every run that starts with at most one optimistic unchoke, there is never a second one. */
  lemma {:induction false} AtMostOneOptimistic(rs: seq<Round>)
    requires rs != [] && Run(rs) && |Optimistic(rs[0].ps)| <= 1
    ensures |Optimistic(After(rs[|rs| - 1]))| <= 1
  {
    var n := |rs| - 1;
    if n > 0 {
      AtMostOneOptimistic(rs[..n]);
      assert rs[..n][n - 1] == rs[n - 1];
      Fewer(Optimistic(rs[n].ps), Optimistic(After(rs[n - 1])));
    }
    PlayedKeepsOne(rs[n]);
  }

  /** The active peers that are not to be choked. */
  function Unchoked(ps: seq<Peer>): set<nat> {
    set i | 0 <= i < |ps| && ps[i].active && !ShouldBeChoking(ps[i])
  }

  /** After a round those are the active peers released and those unchoked optimistically. */
  lemma UnchokedExactly(r: Round, i: nat)
    ensures i in Unchoked(After(r)) <==> i < |r.ps| && r.ps[i].active && (i in r.released || i in r.opt)
  {
  }

  lemma ReleasedAre(r: Round)
    requires Played(r)
    ensures |r.released| <= (if r.SeederRound? && r.number == 2 then 4 else 3)
    ensures forall i :: i in r.released ==>
      i < |r.ps| && r.ps[i].active && r.ps[i].interested && (r.LeecherRound? ==> !r.ps[i].snubbing)
  {
    if r.LeecherRound? {
      Leecher.FreedAre(r.ps, r.now, r.released);
    }
  }

  /** After such a run at most three peers have been released, or four by the third round of a
      seeder, all of them interested and none snubbed by a leecher, and at most one more peer is
      unchoked. */
  lemma FewAreUnchoked(rs: seq<Round>)
    requires rs != [] && Run(rs) && |Optimistic(rs[0].ps)| <= 1
    ensures var r := rs[|rs| - 1];
      && |r.released| <= (if r.SeederRound? && r.number == 2 then 4 else 3)
      && |Unchoked(After(r))| <= |r.released| + 1
      && (forall i :: i in r.released ==>
            i < |r.ps| && r.ps[i].active && r.ps[i].interested && (r.LeecherRound? ==> !r.ps[i].snubbing))
  {
    AtMostOneOptimistic(rs);
    var r := rs[|rs| - 1];
    ReleasedAre(r);
    Fewer(Unchoked(After(r)), r.released + Optimistic(After(r)));
  }
}
