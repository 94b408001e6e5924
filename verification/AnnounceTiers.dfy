/** The rotation of the trackers of each tier (BEP 12): `src/AnnounceTier.cc` and the per-tier
    part of `src/AnnounceList.cc`. The front of a tier is its current tracker. */
module AnnounceTiers {

  datatype AnnounceEvent = STARTED | STARTED_AFTER_COMPLETION | DOWNLOADING | STOPPED | COMPLETED | SEEDING | HALTED

  function NextEvent(e: AnnounceEvent): AnnounceEvent {
    match e
    case STARTED => DOWNLOADING
    case STARTED_AFTER_COMPLETION => SEEDING
    case STOPPED => HALTED
    case COMPLETED => SEEDING
    case _ => e
  }

  function NextEventIfAfterStarted(e: AnnounceEvent): AnnounceEvent {
    match e
    case STOPPED => HALTED
    case COMPLETED => SEEDING
    case _ => e
  }

  /** A tier with the number of its trackers that have failed in this round. */
  datatype Tier = Tier(event: AnnounceEvent, urls: seq<string>, tried: nat)

  predicate TierWf(t: Tier) {
    t.tried < |t.urls| || (t.urls == [] && t.tried == 0)
  }

  /** `getAnnounceOfTier`. */
  function Front(t: Tier): string {
    if t.urls == [] then "" else t.urls[0]
  }

  function Succeed(t: Tier): Tier {
    t.(tried := 0, event := NextEvent(t.event))
  }

  /** A failure moves the front to the back; it returns whether a tracker is left to try. */
  function Fail(t: Tier): (Tier, bool) {
    if t.urls == [] then (t, false)
    else
      var urls := t.urls[1..] + [t.urls[0]];
      if t.tried + 1 >= |urls| then (Tier(NextEventIfAfterStarted(t.event), urls, 0), false)
      else (Tier(t.event, urls, t.tried + 1), true)
  }

  // ---------- a round of failures ----------

  /** The tier after `k` failures. */
  function Fails(t: Tier, k: nat): Tier {
    if k == 0 then t else Fail(Fails(t, k - 1)).0
  }

  function Rotated(s: seq<string>, k: nat): (r: seq<string>)
    requires k <= |s|
    ensures |r| == |s|
  {
    s[k..] + s[..k]
  }

  lemma RotateOne(s: seq<string>, k: nat)
    requires k < |s|
    ensures Rotated(s, k)[1..] + [Rotated(s, k)[0]] == Rotated(s, k + 1)
  {
  }

  /** During a round the count is the number of failures, and the trackers come up in turn. */
  lemma {:induction false} RoundSoFar(t: Tier, k: nat)
    requires t.tried == 0 && k < |t.urls|
    ensures Fails(t, k) == Tier(t.event, Rotated(t.urls, k), k)
    ensures Front(Fails(t, k)) == t.urls[k]
    ensures Fail(Fails(t, k)).1 <==> k + 1 < |t.urls|
  {
    if k == 0 {
      assert Rotated(t.urls, 0) == t.urls;
    } else {
      RoundSoFar(t, k - 1);
      RotateOne(t.urls, k - 1);
    }
  }

  /** Exhaustion: as many failures as there are trackers restore the order and the count. */
  lemma RoundDone(t: Tier)
    requires t.tried == 0 && t.urls != []
    ensures Fails(t, |t.urls|) == t.(event := NextEventIfAfterStarted(t.event))
  {
    var n := |t.urls|;
    var s := Tier(t.event, Rotated(t.urls, n - 1), n - 1);
    RoundSoFar(t, n - 1);
    RotateOne(t.urls, n - 1);
    RotatedWhole(t.urls);
    assert Fails(t, n) == Fail(s).0;
  }

  lemma RotatedWhole(s: seq<string>)
    ensures Rotated(s, |s|) == s
  {
  }

  // ---------- runs over all tiers ----------

  datatype Step = Success(idx: nat) | Failure(idx: nat) | SetEvent(idx: nat, event: AnnounceEvent)

  function TierStep(t: Tier, step: Step): Tier {
    match step
    case Success(_) => Succeed(t)
    case Failure(_) => Fail(t).0
    case SetEvent(_, e) => t.(event := e)
  }

  /** A step on a list of tiers; an index behind the last tier changes nothing. */
  function ListStep(ts: seq<Tier>, step: Step): (r: seq<Tier>)
    ensures |r| == |ts|
  {
    if step.idx < |ts| then ts[step.idx := TierStep(ts[step.idx], step)] else ts
  }

  function Run(ts: seq<Tier>, steps: seq<Step>): (r: seq<Tier>)
    ensures |r| == |ts|
  {
    if steps == [] then ts else ListStep(Run(ts, steps[..|steps| - 1]), steps[|steps| - 1])
  }

  /** The steps of one tier. */
  function Own(steps: seq<Step>, idx: nat): seq<Step> {
    if steps == [] then []
    else
      var last := steps[|steps| - 1];
      Own(steps[..|steps| - 1], idx) + if last.idx == idx then [last] else []
  }

  function TierRun(t: Tier, steps: seq<Step>): Tier {
    if steps == [] then t else TierStep(TierRun(t, steps[..|steps| - 1]), steps[|steps| - 1])
  }

  /** Tiers do not disturb each other: a tier after a run is the tier after its own steps. */
  lemma {:induction false} TiersAreIndependent(ts: seq<Tier>, steps: seq<Step>, idx: nat)
    requires idx < |ts|
    ensures Run(ts, steps)[idx] == TierRun(ts[idx], Own(steps, idx))
  {
    if steps != [] {
      var init, last := steps[..|steps| - 1], steps[|steps| - 1];
      TiersAreIndependent(ts, init, idx);
      assert Own(init, idx) + [] == Own(init, idx);
    }
  }

  lemma RotationKeeps(t: Tier)
    requires t.urls != []
    ensures multiset(Fail(t).0.urls) == multiset(t.urls)
  {
    assert t.urls == [t.urls[0]] + t.urls[1..];
  }

  lemma StepKeeps(t: Tier, step: Step)
    requires TierWf(t)
    ensures TierWf(TierStep(t, step)) && multiset(TierStep(t, step).urls) == multiset(t.urls)
  {
    if step.Failure? && t.urls != [] {
      RotationKeeps(t);
    }
  }

  lemma {:induction false} TierRunKeeps(t: Tier, steps: seq<Step>)
    requires TierWf(t)
    ensures TierWf(TierRun(t, steps)) && multiset(TierRun(t, steps).urls) == multiset(t.urls)
  {
    if steps != [] {
      TierRunKeeps(t, steps[..|steps| - 1]);
      StepKeeps(TierRun(t, steps[..|steps| - 1]), steps[|steps| - 1]);
    }
  }

  /** In every run each tier keeps its trackers, and its count stays below their number. */
  lemma RunKeepsTrackers(ts: seq<Tier>, steps: seq<Step>, idx: nat)
    requires idx < |ts| && TierWf(ts[idx])
    ensures TierWf(Run(ts, steps)[idx]) && multiset(Run(ts, steps)[idx].urls) == multiset(ts[idx].urls)
  {
    TiersAreIndependent(ts, steps, idx);
    TierRunKeeps(ts[idx], Own(steps, idx));
  }

  lemma {:induction false} OnlyFailures(t: Tier, steps: seq<Step>)
    requires forall i :: 0 <= i < |steps| ==> steps[i].Failure?
    ensures TierRun(t, steps) == Fails(t, |steps|)
  {
    if steps != [] {
      OnlyFailures(t, steps[..|steps| - 1]);
    }
  }

  /** Whatever the other tiers do meanwhile, the `k`-th failure in a row of a tier that starts a
      round has been on its `k`-th tracker, and the last one ends the round. */
  lemma RoundInAnyRun(ts: seq<Tier>, steps: seq<Step>, idx: nat)
    requires idx < |ts| && ts[idx].tried == 0
    requires forall i :: 0 <= i < |Own(steps, idx)| ==> Own(steps, idx)[i].Failure?
    requires |Own(steps, idx)| <= |ts[idx].urls|
    ensures var k, t := |Own(steps, idx)|, Run(ts, steps)[idx];
      if k < |ts[idx].urls| then
        Front(t) == ts[idx].urls[k] && t.tried == k && (Fail(t).1 <==> k + 1 < |ts[idx].urls|)
      else
        t.urls == ts[idx].urls && t.tried == 0
  {
    TiersAreIndependent(ts, steps, idx);
    OnlyFailures(ts[idx], Own(steps, idx));
    var k := |Own(steps, idx)|;
    if k < |ts[idx].urls| {
      RoundSoFar(ts[idx], k);
    } else if k > 0 {
      RoundDone(ts[idx]);
    }
  }

  // ---------- events ----------

  /** What is left to be told to the trackers of a tier once an event has been told to one. */
  lemma EventTold(t: Tier)
    ensures t.event == STARTED ==> Succeed(t).event == DOWNLOADING
    ensures t.event in {STARTED_AFTER_COMPLETION, COMPLETED} ==> Succeed(t).event == SEEDING
    ensures t.event == STOPPED ==> Succeed(t).event == HALTED
    ensures t.event in {DOWNLOADING, SEEDING, HALTED} ==> Succeed(t).event == t.event
  {
  }

  /** A failure gives up on telling of the end of a download or of a session when no tracker is
      left to try, and never on telling of the beginning. */
  lemma EventNotTold(t: Tier)
    requires TierWf(t) && t.urls != []
    ensures t.tried + 1 < |t.urls| ==> Fail(t).0.event == t.event
    ensures t.tried + 1 == |t.urls| ==>
      Fail(t).0.event == if t.event == STOPPED then HALTED else if t.event == COMPLETED then SEEDING else t.event
  {
  }

  predicate Told(e: AnnounceEvent) {
    e in {DOWNLOADING, SEEDING, HALTED}
  }

  /** In every run in which no new event comes up: one success is enough, after it nothing is left
      to be told, whatever succeeds or fails afterwards. */
  lemma {:induction false} ToldOnce(t: Tier, steps: seq<Step>, k: nat)
    requires k < |steps| && steps[k].Success?
    requires forall i :: k <= i < |steps| ==> !steps[i].SetEvent?
    ensures Told(TierRun(t, steps).event)
    ensures TierRun(t, steps).event == TierRun(t, steps[..k + 1]).event
  {
    var init := steps[..|steps| - 1];
    if k == |steps| - 1 {
      assert steps[..k + 1] == steps;
      EventTold(TierRun(t, init));
    } else {
      ToldOnce(t, init, k);
      assert init[..k + 1] == steps[..k + 1];
    }
  }

  /** A start that no tracker has been told of is still to be told, however many have failed. */
  lemma {:induction false} StartNotLost(t: Tier, k: nat)
    requires t.event in {STARTED, STARTED_AFTER_COMPLETION}
    ensures Fails(t, k).event == t.event
  {
    if k > 0 {
      StartNotLost(t, k - 1);
    }
  }
}
