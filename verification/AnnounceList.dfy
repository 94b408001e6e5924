/** `AnnounceList` of `src/AnnounceList.cc`. Its operations on one tier at a time refine
    `AnnounceTiers`. The older operations move a cursor through all trackers; rotating a tier
    invalidates that cursor, so a run uses the ones or the others. */
module AnnounceLists {
  import opened AnnounceTiers
  import opened Positions

  datatype AnnounceTier = AnnounceTier(event: AnnounceEvent, urls: seq<string>)

  // ---------- all trackers in order ----------

  function Flat(ts: seq<AnnounceTier>): seq<string> {
    if ts == [] then [] else Flat(ts[..|ts| - 1]) + ts[|ts| - 1].urls
  }

  /** How many trackers come before tracker `j` of tier `i`. */
  function Offset(ts: seq<AnnounceTier>, i: nat, j: nat): nat
    requires i <= |ts|
  {
    |Flat(ts[..i])| + j
  }

  lemma {:induction false} FlatPrefix(ts: seq<AnnounceTier>, k: nat)
    requires k <= |ts|
    ensures Flat(ts[..k]) <= Flat(ts)
  {
    if k == |ts| {
      assert ts[..k] == ts;
    } else {
      FlatPrefix(ts[..|ts| - 1], k);
      assert ts[..|ts| - 1][..k] == ts[..k];
    }
  }

  lemma FlatNext(ts: seq<AnnounceTier>, i: nat)
    requires i < |ts|
    ensures Flat(ts[..i + 1]) == Flat(ts[..i]) + ts[i].urls
  {
    assert ts[..i + 1][..i] == ts[..i];
  }

  lemma FlatAt(ts: seq<AnnounceTier>, i: nat, j: nat)
    requires i < |ts| && j < |ts[i].urls|
    ensures Offset(ts, i, j) < |Flat(ts)| && Flat(ts)[Offset(ts, i, j)] == ts[i].urls[j]
    ensures Offset(ts, i + 1, 0) == Offset(ts, i, |ts[i].urls|)
  {
    FlatPrefix(ts, i + 1);
    FlatNext(ts, i);
  }

  /** The order of the trackers does not depend on the events. */
  lemma {:induction false} FlatSame(ts: seq<AnnounceTier>, us: seq<AnnounceTier>)
    requires |ts| == |us| && forall i :: 0 <= i < |ts| ==> ts[i].urls == us[i].urls
    ensures Flat(ts) == Flat(us)
  {
    if ts != [] {
      FlatSame(ts[..|ts| - 1], us[..|us| - 1]);
    }
  }

  lemma OffsetSame(ts: seq<AnnounceTier>, us: seq<AnnounceTier>, i: nat, j: nat)
    requires |ts| == |us| && (forall k :: 0 <= k < |ts| ==> ts[k].urls == us[k].urls) && i <= |ts|
    ensures Flat(ts) == Flat(us) && Offset(ts, i, j) == Offset(us, i, j)
  {
    FlatSame(ts, us);
    FlatSame(ts[..i], us[..i]);
  }

  lemma OffsetEnd(ts: seq<AnnounceTier>)
    ensures Offset(ts, |ts|, 0) == |Flat(ts)|
  {
    assert ts[..|ts|] == ts;
  }

  /** The tiers made of the non-empty groups. */
  function TiersOf(groups: seq<seq<string>>): (r: seq<AnnounceTier>)
    ensures forall i :: 0 <= i < |r| ==> r[i].urls != [] && r[i].event == STARTED
  {
    if groups == [] then []
    else
      var last := groups[|groups| - 1];
      TiersOf(groups[..|groups| - 1]) + if last == [] then [] else [AnnounceTier(STARTED, last)]
  }

  /** The trackers of all groups one behind the other. */
  function Concatenated(groups: seq<seq<string>>): seq<string> {
    if groups == [] then [] else groups[0] + Concatenated(groups[1..])
  }

  lemma {:induction false} ConcatenatedLast(groups: seq<seq<string>>, last: seq<string>)
    ensures Concatenated(groups + [last]) == Concatenated(groups) + last
  {
    if groups == [] {
      assert groups + [last] == [last] && [last][1..] == [];
    } else {
      assert (groups + [last])[1..] == groups[1..] + [last];
      ConcatenatedLast(groups[1..], last);
      assert groups[0] + (Concatenated(groups[1..]) + last) == groups[0] + Concatenated(groups[1..]) + last;
    }
  }

  /** The tiers hold the trackers of the groups, in their order. */
  lemma {:induction false} TiersHoldGroups(groups: seq<seq<string>>)
    ensures Flat(TiersOf(groups)) == Concatenated(groups)
  {
    if groups != [] {
      var init, last := groups[..|groups| - 1], groups[|groups| - 1];
      TiersHoldGroups(init);
      ConcatenatedLast(init, last);
      assert groups == init + [last];
      if last != [] {
        var ts := TiersOf(init) + [AnnounceTier(STARTED, last)];
        assert ts[..|ts| - 1] == TiersOf(init);
      } else {
        assert TiersOf(init) + [] == TiersOf(init);
        assert Concatenated(init) + last == Concatenated(init);
      }
    }
  }

  function Trackers(ts: seq<AnnounceTier>): (r: seq<seq<string>>)
    ensures |r| == |ts|
  {
    seq(|ts|, k requires 0 <= k < |ts| => ts[k].urls)
  }

  function NonEmpty(groups: seq<seq<string>>): (r: seq<bool>)
    ensures |r| == |groups|
  {
    seq(|groups|, i requires 0 <= i < |groups| => groups[i] != [])
  }

  lemma TrackersMore(ts: seq<AnnounceTier>, last: seq<string>)
    ensures Trackers(ts + if last != [] then [AnnounceTier(STARTED, last)] else [])
         == Trackers(ts) + if last != [] then [last] else []
  {
  }

  /** The tiers are the non-empty groups, in their order. */
  lemma {:induction false} TiersAreGroups(groups: seq<seq<string>>) returns (at: seq<nat>)
    ensures Marks(at, NonEmpty(groups)) && Trackers(TiersOf(groups)) == Pick(groups, at)
  {
    if groups == [] {
      at := [];
    } else {
      var init, last := groups[..|groups| - 1], groups[|groups| - 1];
      var rest := TiersAreGroups(init);
      at := rest + if last != [] then [|init|] else [];
      MarksMore(rest, NonEmpty(init), last != []);
      PickMore(init, rest, last, last != []);
      TrackersMore(TiersOf(init), last);
      assert groups == init + [last] && NonEmpty(groups) == NonEmpty(init) + [last != []];
    }
  }

  /** The tiers with their counts, as `AnnounceTiers` sees them. */
  function Joined(ts: seq<AnnounceTier>, tried: seq<nat>): (r: seq<Tier>)
    requires |ts| == |tried|
    ensures |r| == |ts| && forall i :: 0 <= i < |r| ==> r[i] == Tier(ts[i].event, ts[i].urls, tried[i])
  {
    seq(|ts|, i requires 0 <= i < |ts| => Tier(ts[i].event, ts[i].urls, tried[i]))
  }

  class AnnounceList {
    var tiers: seq<AnnounceTier>
    var tierTried: seq<nat>
    var currentTier: nat
    var currentTracker: nat
    var currentTrackerInitialized: bool

    /** The counts run parallel to the tiers. */
    predicate Valid()
      reads `tiers, `tierTried
    {
      |tierTried| == |tiers|
    }

    function View(): seq<Tier>
      requires Valid()
      reads `tiers, `tierTried
    {
      Joined(tiers, tierTried)
    }

    /** The cursor stands on a tracker, or behind the last tier. */
    predicate OnTracker()
      reads this
    {
      && (forall i :: 0 <= i < |tiers| ==> tiers[i].urls != [])
      && if currentTrackerInitialized then
           currentTier < |tiers| && currentTracker < |tiers[currentTier].urls|
         else
           currentTier == |tiers|
    }

    /** How many trackers the cursor has left behind. */
    function Position(): nat
      requires OnTracker()
      reads this
    {
      if currentTrackerInitialized then Offset(tiers, currentTier, currentTracker) else |Flat(tiers)|
    }

    constructor (groups: seq<seq<string>>)
      ensures Valid() && OnTracker() && tiers == TiersOf(groups) && Flat(tiers) == Concatenated(groups)
      ensures Position() == 0 && forall i :: 0 <= i < |tierTried| ==> tierTried[i] == 0
    {
      tiers := [];
      new;
      for k := 0 to |groups|
        invariant tiers == TiersOf(groups[..k])
      {
        assert groups[..k + 1][..k] == groups[..k];
        if groups[k] != [] {
          tiers := tiers + [AnnounceTier(STARTED, groups[k])];
        }
      }
      assert groups[..|groups|] == groups;
      TiersHoldGroups(groups);
      ResetIterator();
    }

    method ResetIterator()
      requires forall i :: 0 <= i < |tiers| ==> tiers[i].urls != []
      modifies `currentTier, `currentTracker, `currentTrackerInitialized, `tierTried
      ensures Valid() && OnTracker() && Position() == 0
      ensures tierTried == seq(|tiers|, _ => 0)
    {
      currentTier := 0;
      currentTracker := 0;
      currentTrackerInitialized := tiers != [] && tiers[0].urls != [];
      tierTried := seq(|tiers|, _ => 0);
      assert tiers[..0] == [];
    }

    // ---------- one tier at a time ----------

    method GetAnnounceOfTier(idx: nat) returns (url: string)
      requires Valid()
      ensures url == if idx < |tiers| then Front(View()[idx]) else ""
    {
      if idx >= |tiers| || tiers[idx].urls == [] {
        return "";
      }
      return tiers[idx].urls[0];
    }

    method AnnounceSuccessOfTier(idx: nat)
      requires Valid()
      modifies `tiers, `tierTried
      ensures Valid() && View() == ListStep(old(View()), Success(idx))
      ensures idx < |tiers| ==> tierTried[idx] == 0 && tiers[idx].urls == old(tiers)[idx].urls
    {
      if idx >= |tiers| {
        return;
      }
      tierTried := tierTried[idx := 0];
      tiers := tiers[idx := tiers[idx].(event := NextEvent(tiers[idx].event))];
    }

    method SetEventOfTier(idx: nat, event: AnnounceEvent)
      requires Valid()
      modifies `tiers
      ensures Valid() && View() == ListStep(old(View()), SetEvent(idx, event))
    {
      if idx < |tiers| {
        tiers := tiers[idx := tiers[idx].(event := event)];
      }
    }

    /** Rotates the tier; returns whether a tracker is left to try in this round. */
    method AnnounceFailureOfTier(idx: nat) returns (more: bool)
      requires Valid()
      modifies `tiers, `tierTried
      ensures Valid() && View() == ListStep(old(View()), Failure(idx))
      ensures idx < |tiers| && tiers[idx].urls != [] ==>
        tiers[idx].urls == old(tiers)[idx].urls[1..] + [old(tiers)[idx].urls[0]]
      ensures more == (idx < |tiers| && Fail(old(View())[idx]).1)
    {
      if idx >= |tiers| || tiers[idx].urls == [] {
        return false;
      }
      var tried := tierTried[idx] + 1;
      var urls := tiers[idx].urls[1..] + [tiers[idx].urls[0]];
      if tried >= |urls| {
        tierTried := tierTried[idx := 0];
        tiers := tiers[idx := AnnounceTier(NextEventIfAfterStarted(tiers[idx].event), urls)];
        return false;
      }
      tierTried := tierTried[idx := tried];
      tiers := tiers[idx := tiers[idx].(urls := urls)];
      return true;
    }

    // ---------- the cursor ----------

    /** The tracker at the cursor, counted over all tiers. */
    method GetAnnounce() returns (url: string)
      requires OnTracker()
      ensures url == if Position() < |Flat(tiers)| then Flat(tiers)[Position()] else ""
    {
      if currentTrackerInitialized {
        FlatAt(tiers, currentTier, currentTracker);
        return tiers[currentTier].urls[currentTracker];
      }
      return "";
    }

    /** A failure goes on to the next of all trackers, so that after as many failures as there
        are trackers each has been offered once and all tiers have failed. */
    method AnnounceFailure()
      requires OnTracker()
      modifies `tiers, `currentTier, `currentTracker, `currentTrackerInitialized
      ensures OnTracker() && Flat(tiers) == old(Flat(tiers))
      ensures Position() == if old(Position()) < |Flat(tiers)| then old(Position()) + 1 else old(Position())
      ensures currentTier == |tiers| <==> Position() == |Flat(tiers)|
      ensures |tiers| == old(|tiers|)
      ensures forall k :: 0 <= k < |tiers| ==>
        && tiers[k].urls == old(tiers)[k].urls
        && tiers[k].event ==
             if old(currentTrackerInitialized) && k == old(currentTier) && old(currentTracker) + 1 == |tiers[k].urls|
             then NextEventIfAfterStarted(old(tiers)[k].event) else old(tiers)[k].event
    {
      if currentTrackerInitialized {
        FlatAt(tiers, currentTier, currentTracker);
        currentTracker := currentTracker + 1;
        if currentTracker == |tiers[currentTier].urls| {
          FinishTier();
        } else {
          FlatAt(tiers, currentTier, currentTracker);
        }
      }
    }

    /** Behind the last tracker of a tier its event moves on, and so does the cursor. */
    method FinishTier()
      requires currentTrackerInitialized && currentTier < |tiers|
      requires forall i :: 0 <= i < |tiers| ==> tiers[i].urls != []
      modifies `tiers, `currentTier, `currentTracker, `currentTrackerInitialized
      ensures OnTracker() && Flat(tiers) == old(Flat(tiers))
      ensures Position() == old(Offset(tiers, currentTier + 1, 0))
      ensures currentTier == |tiers| <==> Position() == |Flat(tiers)|
      ensures tiers == old(var tier := tiers[currentTier];
                           tiers[currentTier := tier.(event := NextEventIfAfterStarted(tier.event))])
    {
      ghost var before := tiers;
      var tier := tiers[currentTier];
      tiers := tiers[currentTier := tier.(event := NextEventIfAfterStarted(tier.event))];
      currentTier := currentTier + 1;
      OffsetSame(before, tiers, currentTier, 0);
      if currentTier == |tiers| {
        OffsetEnd(before);
        currentTrackerInitialized := false;
      } else {
        currentTracker := 0;
        FlatAt(tiers, currentTier, 0);
      }
    }

    /** A success moves the tracker to the front of its tier and starts over. */
    method AnnounceSuccess()
      requires OnTracker()
      modifies `tiers, `currentTier, `currentTracker
      ensures OnTracker()
      ensures !currentTrackerInitialized ==> tiers == old(tiers) && currentTier == old(currentTier)
      ensures currentTrackerInitialized ==>
        var i, j, urls := old(currentTier), old(currentTracker), old(tiers[currentTier].urls);
        && Position() == 0
        && tiers == old(tiers)[i := AnnounceTier(NextEvent(old(tiers)[i].event), [urls[j]] + urls[..j] + urls[j + 1..])]
        && multiset(tiers[i].urls) == multiset(urls)
    {
      if currentTrackerInitialized {
        var i, j := currentTier, currentTracker;
        var urls := tiers[i].urls;
        var url := urls[j];
        MovedToFront(urls, j);
        tiers := tiers[i := AnnounceTier(NextEvent(tiers[i].event), [url] + (urls[..j] + urls[j + 1..]))];
        assert [url] + (urls[..j] + urls[j + 1..]) == [url] + urls[..j] + urls[j + 1..];
        currentTier := 0;
        currentTracker := 0;
        assert tiers[..0] == [];
      }
    }
  }

  lemma MovedToFront(urls: seq<string>, j: nat)
    requires j < |urls|
    ensures multiset([urls[j]] + urls[..j] + urls[j + 1..]) == multiset(urls)
  {
    assert urls == urls[..j] + [urls[j]] + urls[j + 1..];
  }
}
