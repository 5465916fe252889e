/**
 * options.js: the options page's copy of the site list and the operations on
 * it: the legacy-counter migration on load, adding a site from the form or a
 * quick-add button, toggling, removing, resetting a counter, and the master
 * toggle. Each operation is a function on the list; `OptionsPage` holds the
 * page's state and writes the store where the page saves.
 */
module Options {
  import opened Wrappers
  import opened Strings
  import opened Sites
  import Rules

  // ---------------------------------------------------------------------
  // Migration on load

  /**
   * One site of the `map` in `loadBlockedSites`: a site without a log gets an
   * empty one and loses its legacy `blockCount`; a site with a log is kept.
   */
  function MigrateSite(site: Site): (r: Site)
    ensures site.blockLog.Some? ==> r == site
    ensures site.blockLog.None? ==> r.blockLog == Some([]) && r.blockCount.None?
    ensures r.id == site.id && r.name == site.name && r.urls == site.urls && r.enabled == site.enabled
  {
    if site.blockCount.Some? && site.blockLog.None? then
      site.(blockCount := None, blockLog := Some([]))
    else if site.blockLog.None? then
      site.(blockLog := Some([]))
    else
      site
  }

  /** The migrated list: same length, same order, each site migrated in place. */
  function MigrateLegacy(sites: seq<Site>): (r: seq<Site>)
    ensures |r| == |sites|
    ensures forall k :: 0 <= k < |sites| ==> r[k] == MigrateSite(sites[k])
  {
    seq(|sites|, k requires 0 <= k < |sites| => MigrateSite(sites[k]))
  }

  /** After migration every site has a log, and every displayed count is what it was. */
  lemma MigrationKeepsCounts(sites: seq<Site>)
    ensures forall k :: 0 <= k < |sites| ==>
      MigrateLegacy(sites)[k].blockLog.Some? && LogLength(MigrateLegacy(sites)[k]) == LogLength(sites[k])
  {
  }

  /** The page saves after loading exactly when some site lacked a log. */
  lemma MigrationChangesIff(sites: seq<Site>)
    ensures MigrateLegacy(sites) != sites <==> exists k :: 0 <= k < |sites| && sites[k].blockLog.None?
  {
    if exists k :: 0 <= k < |sites| && sites[k].blockLog.None? {
      var k :| 0 <= k < |sites| && sites[k].blockLog.None?;
      assert MigrateLegacy(sites)[k] != sites[k];
    }
  }

  /** Migrating twice is migrating once. */
  lemma MigrateLegacyIdempotent(sites: seq<Site>)
    ensures MigrateLegacy(MigrateLegacy(sites)) == MigrateLegacy(sites)
  {
    assert forall k :: 0 <= k < |sites| ==> MigrateSite(MigrateSite(sites[k])) == MigrateSite(sites[k]);
  }

  /**
   * Once the service worker's update migration has run, the page's
   * migration finds nothing to do, so a legacy `blockCount` survives.
   */
  lemma WorkerMigrationPreemptsPage(sites: seq<Site>)
    ensures MigrateLegacy(Rules.AddMissingBlockLog(sites)) == Rules.AddMissingBlockLog(sites)
    ensures forall k :: 0 <= k < |sites| ==>
      MigrateLegacy(Rules.AddMissingBlockLog(sites))[k].blockCount == sites[k].blockCount
  {
    var migrated := Rules.AddMissingBlockLog(sites);
    assert forall k :: 0 <= k < |sites| ==> MigrateSite(migrated[k]) == migrated[k];
  }

  // ---------------------------------------------------------------------
  // Adding a site from the form

  /** What `addNewSite` does with the list. */
  datatype AddOutcome = MissingInput | AlreadyListed | Added(sites: seq<Site>)

  /** The duplicate test: same name ignoring case, or the same pattern already listed. */
  predicate SameSite(site: Site, name: string, url: string) {
    Lower(site.name) == Lower(name) || url in site.urls
  }

  /** `blockedSites.some(site => …)` for the duplicate test. */
  function IsListed(sites: seq<Site>, name: string, url: string): (r: bool)
    ensures r <==> exists k :: 0 <= k < |sites| && SameSite(sites[k], name, url)
  {
    if |sites| == 0 then false
    else SameSite(sites[0], name, url) || IsListed(sites[1..], name, url)
  }

  /**
   * `addNewSite` on the form inputs. Both are trimmed; an empty one is
   * refused, so is a duplicate; otherwise one enabled site with an empty log
   * and the single pattern is appended, and the existing sites stay as they are.
   */
  function AddSite(sites: seq<Site>, nameInput: string, urlInput: string, id: int): (r: AddOutcome)
    ensures r.MissingInput? <==> Trim(nameInput) == [] || Trim(urlInput) == []
    ensures r.AlreadyListed? <==> (Trim(nameInput) != [] && Trim(urlInput) != []
      && exists k :: 0 <= k < |sites| && SameSite(sites[k], Trim(nameInput), Trim(urlInput)))
    ensures r.Added? ==> (|r.sites| == |sites| + 1 && r.sites[..|sites|] == sites
      && r.sites[|sites|] == NewSite(id, Trim(nameInput), [Trim(urlInput)]))
  {
    var name := Trim(nameInput);
    var url := Trim(urlInput);
    if name == [] || url == [] then MissingInput
    else if IsListed(sites, name, url) then AlreadyListed
    else Added(sites + [NewSite(id, name, [url])])
  }

  /** No two sites share a name ignoring case or a pattern. */
  ghost predicate NoDuplicates(sites: seq<Site>) {
    forall a, b :: 0 <= a < b < |sites| ==>
      Lower(sites[a].name) != Lower(sites[b].name)
      && forall u :: u in sites[b].urls ==> u !in sites[a].urls
  }

  /** A form add keeps a list free of duplicates free of them. */
  lemma AddSiteKeepsNoDuplicates(sites: seq<Site>, nameInput: string, urlInput: string, id: int)
    requires NoDuplicates(sites)
    ensures AddSite(sites, nameInput, urlInput, id).Added? ==> NoDuplicates(AddSite(sites, nameInput, urlInput, id).sites)
  {
    var r := AddSite(sites, nameInput, urlInput, id);
    if r.Added? {
      var s := r.sites;
      forall a, b | 0 <= a < b < |s|
        ensures Lower(s[a].name) != Lower(s[b].name) && forall u :: u in s[b].urls ==> u !in s[a].urls
      {
        if b < |sites| {
          assert s[a] == sites[a] && s[b] == sites[b];
        } else {
          assert s[a] == sites[a];
          assert !SameSite(sites[a], Trim(nameInput), Trim(urlInput));
        }
      }
    }
  }

  // ---------------------------------------------------------------------
  // Quick add

  /** What a quick-add button does with the list. */
  datatype QuickAddOutcome = AlreadyPresent | QuickAdded(sites: seq<Site>)

  /** `blockedSites.some(site => site.name === name)`: an exact, case-sensitive match. */
  function HasName(sites: seq<Site>, name: string): (r: bool)
    ensures r <==> exists k :: 0 <= k < |sites| && sites[k].name == name
  {
    if |sites| == 0 then false else sites[0].name == name || HasName(sites[1..], name)
  }

  /**
   * A quick-add button: refused when a site has exactly this name, otherwise
   * one site is appended whose patterns are the button's `data-url` split on commas.
   */
  function QuickAdd(sites: seq<Site>, name: string, dataUrl: string, id: int): (r: QuickAddOutcome)
    ensures r.AlreadyPresent? <==> exists k :: 0 <= k < |sites| && sites[k].name == name
    ensures r.QuickAdded? ==> (|r.sites| == |sites| + 1 && r.sites[..|sites|] == sites
      && r.sites[|sites|] == NewSite(id, name, Split(dataUrl, ",")))
  {
    if HasName(sites, name) then AlreadyPresent
    else QuickAdded(sites + [NewSite(id, name, Split(dataUrl, ","))])
  }

  /**
   * The quick-added patterns are exactly the pieces of the attribute: none
   * holds a comma, and joined with commas they give the attribute back.
   */
  lemma QuickAddPatterns(sites: seq<Site>, name: string, dataUrl: string, id: int)
    requires QuickAdd(sites, name, dataUrl, id).QuickAdded?
    ensures var urls := QuickAdd(sites, name, dataUrl, id).sites[|sites|].urls;
      && |urls| >= 1
      && (forall k :: 0 <= k < |urls| ==> ',' !in urls[k])
      && Join(urls, ",") == dataUrl
  {
    var urls := Split(dataUrl, ",");
    JoinSplit(dataUrl, ",");
    forall k | 0 <= k < |urls| ensures ',' !in urls[k] {
      ContainsIff(urls[k], ",");
      forall m | 0 <= m < |urls[k]| ensures urls[k][m] != ',' {
        assert !OccursAt(urls[k], ",", m);
        assert urls[k][m..m + 1] == [urls[k][m]];
      }
    }
  }

  // ---------------------------------------------------------------------
  // Toggle, remove, reset

  /**
   * The toggle handler: the rendered `data-site-id` is parsed back, and the
   * first site with that id gets the checkbox state. An id that does not
   * parse matches no site.
   */
  function ToggleSite(sites: seq<Site>, renderedId: string, checked: bool): (r: seq<Site>)
    ensures |r| == |sites|
    ensures ParseInt(renderedId).None? ==> r == sites
    ensures ParseInt(renderedId).Some? ==> forall k :: 0 <= k < |sites| ==>
      r[k] == if IsFirstWithId(sites, k, ParseInt(renderedId).value) then sites[k].(enabled := checked) else sites[k]
  {
    match ParseInt(renderedId)
    case None => sites
    case Some(id) => UpdateFirst(sites, id, SetEnabled(checked))
  }

  /**
   * Toggling a site through its rendered id sets `enabled` on the first
   * site with that id and changes nothing else.
   */
  lemma ToggleRenderedSite(sites: seq<Site>, id: int, checked: bool)
    ensures var r := ToggleSite(sites, Decimal(id), checked);
      && |r| == |sites|
      && forall k :: 0 <= k < |sites| ==>
        r[k] == if IsFirstWithId(sites, k, id) then sites[k].(enabled := checked) else sites[k]
  {
    ParseIntDecimal(id);
  }

  /** `blockedSites.filter(s => s.id !== siteId)`. */
  function RemoveSite(sites: seq<Site>, id: int): (r: seq<Site>)
    ensures |r| <= |sites|
    ensures forall x :: x in r <==> x in sites && x.id != id
  {
    if |sites| == 0 then []
    else (if sites[0].id != id then [sites[0]] else []) + RemoveSite(sites[1..], id)
  }

  /** Removal keeps order: filtering a concatenation filters each part. */
  lemma {:induction false} RemoveSiteAppend(a: seq<Site>, b: seq<Site>, id: int)
    ensures RemoveSite(a + b, id) == RemoveSite(a, id) + RemoveSite(b, id)
    decreases |a|
  {
    if |a| == 0 {
      assert a + b == b;
    } else {
      assert (a + b)[0] == a[0];
      assert (a + b)[1..] == a[1..] + b;
      RemoveSiteAppend(a[1..], b, id);
    }
  }

  /** Nothing is removed when no site has the id. */
  lemma {:induction false} RemoveAbsentSite(sites: seq<Site>, id: int)
    requires forall k :: 0 <= k < |sites| ==> sites[k].id != id
    ensures RemoveSite(sites, id) == sites
    decreases |sites|
  {
    if |sites| > 0 {
      RemoveAbsentSite(sites[1..], id);
      assert [sites[0]] + sites[1..] == sites;
    }
  }

  /** The remove handler on the rendered id; an id that does not parse removes nothing. */
  function RemoveRendered(sites: seq<Site>, renderedId: string): (r: seq<Site>)
    ensures ParseInt(renderedId).None? ==> r == sites
    ensures ParseInt(renderedId).Some? ==> forall x :: x in r <==> x in sites && x.id != ParseInt(renderedId).value
  {
    match ParseInt(renderedId)
    case None => sites
    case Some(id) => RemoveSite(sites, id)
  }

  /** Removing through a rendered id removes exactly the sites with that id. */
  lemma RemoveRenderedSite(sites: seq<Site>, id: int)
    ensures RemoveRendered(sites, Decimal(id)) == RemoveSite(sites, id)
  {
    ParseIntDecimal(id);
  }

  /**
   * `resetCounter`: the first site with the id gets an empty log and every
   * other site and field stays; with no such site the list is unchanged.
   */
  lemma ResetCounterEffect(sites: seq<Site>, id: int)
    ensures var r := UpdateFirst(sites, id, ClearLog);
      && |r| == |sites|
      && (forall k :: 0 <= k < |sites| ==>
        r[k] == if IsFirstWithId(sites, k, id) then sites[k].(blockLog := Some([])) else sites[k])
      && (FindSite(sites, id).None? ==> r == sites)
  {
  }

  // ---------------------------------------------------------------------
  // The page

  /** The options page's module-level state. */
  class OptionsPage {
    var blockedSites: seq<Site>
    var masterBlockEnabled: bool

    constructor ()
      ensures blockedSites == [] && masterBlockEnabled
    {
      blockedSites := [];
      masterBlockEnabled := true;
    }

    /** `saveBlockedSites`: the whole list is written back. */
    method Save(store: SyncStore)
      modifies store`blockedSites
      ensures store.blockedSites == Some(blockedSites)
    {
      store.blockedSites := Some(blockedSites);
    }

    /**
     * `loadBlockedSites`: a stored list is migrated and saved back only when
     * the migration changed it; a missing list becomes empty and is saved; a
     * missing master flag becomes true and is saved.
     */
    method LoadBlockedSites(store: SyncStore)
      modifies this, store
      ensures blockedSites == MigrateLegacy(old(store.blockedSites).GetOr([]))
      ensures store.blockedSites ==
        if old(store.blockedSites).Some? && blockedSites == old(store.blockedSites).value
        then old(store.blockedSites) else Some(blockedSites)
      ensures masterBlockEnabled == old(store.masterBlockEnabled).GetOr(true)
      ensures store.masterBlockEnabled == Some(masterBlockEnabled)
    {
      match store.blockedSites {
        case Some(stored) =>
          blockedSites := MigrateLegacy(stored);
          if blockedSites != stored {
            Save(store);
          }
        case None =>
          blockedSites := [];
          Save(store);
      }
      match store.masterBlockEnabled {
        case Some(b) =>
          masterBlockEnabled := b;
        case None =>
          masterBlockEnabled := true;
          store.masterBlockEnabled := Some(true);
      }
    }

    /** The master toggle on the page: the flag takes the checkbox state and is stored. */
    method SetMasterToggle(store: SyncStore, checked: bool)
      modifies this`masterBlockEnabled, store`masterBlockEnabled
      ensures masterBlockEnabled == checked && store.masterBlockEnabled == Some(checked)
    {
      masterBlockEnabled := checked;
      store.masterBlockEnabled := Some(checked);
    }

    /** `addNewSite`: the list and the store change only when the site is added. */
    method AddNewSite(store: SyncStore, nameInput: string, urlInput: string, now: int)
      returns (outcome: AddOutcome)
      modifies this`blockedSites, store`blockedSites
      ensures outcome == AddSite(old(blockedSites), nameInput, urlInput, now)
      ensures outcome.Added? ==> blockedSites == outcome.sites && store.blockedSites == Some(blockedSites)
      ensures !outcome.Added? ==> blockedSites == old(blockedSites) && store.blockedSites == old(store.blockedSites)
    {
      outcome := AddSite(blockedSites, nameInput, urlInput, now);
      if outcome.Added? {
        blockedSites := blockedSites + [NewSite(now, Trim(nameInput), [Trim(urlInput)])];
        Save(store);
      }
    }

    /** A quick-add button: the list and the store change only when the site is added. */
    method QuickAddSite(store: SyncStore, name: string, dataUrl: string, now: int)
      returns (outcome: QuickAddOutcome)
      modifies this`blockedSites, store`blockedSites
      ensures outcome == QuickAdd(old(blockedSites), name, dataUrl, now)
      ensures outcome.QuickAdded? ==> blockedSites == outcome.sites && store.blockedSites == Some(blockedSites)
      ensures outcome.AlreadyPresent? ==> blockedSites == old(blockedSites) && store.blockedSites == old(store.blockedSites)
    {
      var urls := Split(dataUrl, ",");
      outcome := QuickAdd(blockedSites, name, dataUrl, now);
      if outcome.QuickAdded? {
        blockedSites := blockedSites + [NewSite(now, name, urls)];
        Save(store);
      }
    }

    /** The toggle handler: saved only when a site was found. */
    method ToggleHandler(store: SyncStore, renderedId: string, checked: bool)
      modifies this`blockedSites, store`blockedSites
      ensures blockedSites == ToggleSite(old(blockedSites), renderedId, checked)
      ensures store.blockedSites ==
        if ParseInt(renderedId).Some? && FindSite(old(blockedSites), ParseInt(renderedId).value).Some?
        then Some(blockedSites) else old(store.blockedSites)
    {
      var siteId := ParseInt(renderedId);
      if siteId.Some? {
        var found := FindSite(blockedSites, siteId.value);
        if found.Some? {
          blockedSites := UpdateFirst(blockedSites, siteId.value, SetEnabled(checked));
          Save(store);
        }
      }
    }

    /** The remove handler: after confirmation the filtered list is saved, even when nothing matched. */
    method RemoveHandler(store: SyncStore, renderedId: string, confirmed: bool)
      modifies this`blockedSites, store`blockedSites
      ensures blockedSites == if confirmed then RemoveRendered(old(blockedSites), renderedId) else old(blockedSites)
      ensures store.blockedSites == if confirmed then Some(blockedSites) else old(store.blockedSites)
    {
      if confirmed {
        blockedSites := RemoveRendered(blockedSites, renderedId);
        Save(store);
      }
    }

    /** `resetCounter`: saved only when a site was found. */
    method ResetCounter(store: SyncStore, siteId: int)
      modifies this`blockedSites, store`blockedSites
      ensures blockedSites == UpdateFirst(old(blockedSites), siteId, ClearLog)
      ensures store.blockedSites ==
        if FindSite(old(blockedSites), siteId).Some? then Some(blockedSites) else old(store.blockedSites)
    {
      var found := FindSite(blockedSites, siteId);
      if found.Some? {
        blockedSites := UpdateFirst(blockedSites, siteId, ClearLog);
        Save(store);
      }
    }
  }
}
