/**
 * popup.js: the toolbar popup. It shows how many sites are active, how
 * many blocks were logged in total and which site was blocked most, and
 * its button flips the master flag.
 */
module Popup {
  import opened Wrappers
  import opened Sites

  /** `blockedSites.filter(site => site.enabled).length`. */
  function ActiveCount(sites: seq<Site>): (r: nat)
    ensures r <= |sites|
    ensures r == 0 <==> forall k :: 0 <= k < |sites| ==> !sites[k].enabled
    ensures r == |sites| <==> forall k :: 0 <= k < |sites| ==> sites[k].enabled
  {
    if |sites| == 0 then 0
    else (if sites[0].enabled then 1 else 0) + ActiveCount(sites[1..])
  }

  /** The sum of the log lengths, a missing log counting as none. */
  function TotalBlocks(sites: seq<Site>): (r: nat)
    ensures forall k :: 0 <= k < |sites| ==> LogLength(sites[k]) <= r
    ensures r == 0 <==> forall k :: 0 <= k < |sites| ==> LogLength(sites[k]) == 0
  {
    if |sites| == 0 then 0 else LogLength(sites[0]) + TotalBlocks(sites[1..])
  }

  /** Counting the active sites of two lists adds up. */
  lemma {:induction false} ActiveCountAppend(a: seq<Site>, b: seq<Site>)
    ensures ActiveCount(a + b) == ActiveCount(a) + ActiveCount(b)
    decreases |a|
  {
    if |a| > 0 {
      assert (a + b)[0] == a[0];
      assert (a + b)[1..] == a[1..] + b;
      ActiveCountAppend(a[1..], b);
    } else {
      assert a + b == b;
    }
  }

  /** The block totals of two lists add up. */
  lemma {:induction false} TotalBlocksAppend(a: seq<Site>, b: seq<Site>)
    ensures TotalBlocks(a + b) == TotalBlocks(a) + TotalBlocks(b)
    decreases |a|
  {
    if |a| > 0 {
      assert (a + b)[0] == a[0];
      assert (a + b)[1..] == a[1..] + b;
      TotalBlocksAppend(a[1..], b);
    } else {
      assert a + b == b;
    }
  }

  /**
   * A single site counts as active exactly when it is enabled, and its
   * total is its own log length; with the two append lemmas these fix both
   * counts as the number of enabled sites and the sum of the log lengths.
   */
  lemma SingleSiteCounts(s: Site)
    ensures ActiveCount([s]) == if s.enabled then 1 else 0
    ensures TotalBlocks([s]) == LogLength(s)
  {
    assert [s][1..] == [];
  }

  /**
   * Logging a block against a stored site raises the total by exactly one;
   * with no such site the total stays.
   */
  lemma {:induction false} LoggedBlockCounts(sites: seq<Site>, id: int, e: LogEntry)
    ensures TotalBlocks(UpdateFirst(sites, id, AppendLog(e))) ==
      if FindSite(sites, id).Some? then TotalBlocks(sites) + 1 else TotalBlocks(sites)
    decreases |sites|
  {
    if |sites| > 0 && sites[0].id != id {
      LoggedBlockCounts(sites[1..], id, e);
      var r := UpdateFirst(sites, id, AppendLog(e));
      assert r[1..] == UpdateFirst(sites[1..], id, AppendLog(e));
    }
  }

  /**
   * The `reduce` that finds the most blocked site, as an index; `None` is the
   * empty seed object, which survives when no site has a logged block. A
   * site replaces the current winner only with a strictly greater count.
   */
  function MostBlocked(sites: seq<Site>): (r: Option<nat>)
    decreases |sites|
    ensures r.None? <==> forall k :: 0 <= k < |sites| ==> LogLength(sites[k]) == 0
    ensures r.Some? ==> (r.value < |sites| && LogLength(sites[r.value]) > 0
      && (forall k :: 0 <= k < |sites| ==> LogLength(sites[k]) <= LogLength(sites[r.value]))
      && (forall k :: 0 <= k < r.value ==> LogLength(sites[k]) < LogLength(sites[r.value])))
  {
    if |sites| == 0 then None
    else
      var n := |sites| - 1;
      var max := MostBlocked(sites[..n]);
      var maxCount := if max.None? then 0 else LogLength(sites[max.value]);
      if LogLength(sites[n]) > maxCount then Some(n) else max
  }

  /** The most-blocked line has a site to name exactly when some block was logged. */
  lemma MostBlockedIffBlocks(sites: seq<Site>)
    ensures MostBlocked(sites).Some? <==> TotalBlocks(sites) > 0
    ensures MostBlocked(sites).Some? ==> LogLength(sites[MostBlocked(sites).value]) <= TotalBlocks(sites)
  {
  }

  /** The statistics line of the popup. */
  datatype Summary =
    | NoSites
    | Stats(active: nat, total: nat, totalBlocks: nat, mostBlocked: Option<(string, nat)>)

  /**
   * What `updateUI` shows: "No sites blocked" for an empty list; otherwise
   * the active and total counts, the total of blocks, and the most-blocked
   * site with its count when there were blocks and that site has a name.
   */
  function Summarize(sites: seq<Site>): (r: Summary)
    ensures r.NoSites? <==> |sites| == 0
    ensures r.Stats? ==> r.active == ActiveCount(sites) && r.total == |sites| && r.totalBlocks == TotalBlocks(sites)
    ensures r.Stats? ==> (r.mostBlocked.Some? <==> (TotalBlocks(sites) > 0
      && MostBlocked(sites).Some? && sites[MostBlocked(sites).value].name != []))
    ensures r.Stats? && r.mostBlocked.Some? ==> exists k :: (0 <= k < |sites|
      && r.mostBlocked.value == (sites[k].name, LogLength(sites[k]))
      && forall j :: 0 <= j < |sites| ==> LogLength(sites[j]) <= r.mostBlocked.value.1)
    ensures r.Stats? && r.mostBlocked.Some? ==>
      r.mostBlocked.value == (sites[MostBlocked(sites).value].name, LogLength(sites[MostBlocked(sites).value]))
  {
    if |sites| == 0 then NoSites
    else
      var totalBlocks := TotalBlocks(sites);
      var max := MostBlocked(sites);
      var line := if totalBlocks > 0 && max.Some? && sites[max.value].name != []
        then Some((sites[max.value].name, LogLength(sites[max.value]))) else None;
      Stats(ActiveCount(sites), |sites|, totalBlocks, line)
  }

  /** The popup's module-level state. */
  class PopupState {
    var masterBlockEnabled: bool
    var blockedSites: seq<Site>

    constructor ()
      ensures masterBlockEnabled && blockedSites == []
    {
      masterBlockEnabled := true;
      blockedSites := [];
    }

    /** `loadCurrentState`: stored values replace the defaults, missing ones leave them. */
    method LoadCurrentState(store: SyncStore)
      modifies this
      ensures blockedSites == old(store.blockedSites).GetOr(old(blockedSites))
      ensures masterBlockEnabled == old(store.masterBlockEnabled).GetOr(old(masterBlockEnabled))
    {
      if store.blockedSites.Some? {
        blockedSites := store.blockedSites.value;
      }
      if store.masterBlockEnabled.Some? {
        masterBlockEnabled := store.masterBlockEnabled.value;
      }
    }

    /** The toggle button: the flag is negated and the new value stored. */
    method Toggle(store: SyncStore)
      modifies this`masterBlockEnabled, store`masterBlockEnabled
      ensures masterBlockEnabled == !old(masterBlockEnabled)
      ensures store.masterBlockEnabled == Some(masterBlockEnabled)
    {
      masterBlockEnabled := !masterBlockEnabled;
      store.masterBlockEnabled := Some(masterBlockEnabled);
    }

    /** The statistics for the current list. */
    function Statistics(): Summary
      reads this
    {
      Summarize(blockedSites)
    }
  }
}
