/**
 * The shared data model: a site entry of the `blockedSites` list, the
 * in-place edits the surfaces make to "the first site with this id", and the
 * synchronised settings store that every surface reads and writes.
 */
module Sites {
  import opened Wrappers

  /** One entry of a site's block log: `{ timestamp: <ISO-8601 string> }`. */
  datatype LogEntry = LogEntry(timestamp: string)

  /**
   * A site entry. `blockLog` is `None` where the stored object has no
   * `blockLog` key; `blockCount` is the numeric counter that entries written
   * by older versions carry instead.
   */
  datatype Site = Site(
    id: int,
    name: string,
    urls: seq<string>,
    enabled: bool,
    blockLog: Option<seq<LogEntry>>,
    blockCount: Option<int>)

  /** `(site.blockLog && site.blockLog.length) || 0`. */
  function LogLength(site: Site): nat {
    match site.blockLog
    case Some(log) => |log|
    case None => 0
  }

  /** A freshly added site: enabled, with an empty log. */
  function NewSite(id: int, name: string, urls: seq<string>): Site {
    Site(id, name, urls, true, Some([]), None)
  }

  /** `sites[k]` is the site `sites.find(s => s.id === id)` returns. */
  ghost predicate IsFirstWithId(sites: seq<Site>, k: int, id: int) {
    0 <= k < |sites| && sites[k].id == id && forall j :: 0 <= j < k ==> sites[j].id != id
  }

  /** The index of the site `sites.find(s => s.id === id)` returns, if any. */
  function FindSite(sites: seq<Site>, id: int): (r: Option<nat>)
    decreases |sites|
    ensures r.Some? ==> IsFirstWithId(sites, r.value, id)
    ensures r.None? <==> forall k :: 0 <= k < |sites| ==> sites[k].id != id
  {
    if |sites| == 0 then None
    else if sites[0].id == id then Some(0)
    else match FindSite(sites[1..], id)
      case None => None
      case Some(k) => Some(k + 1)
  }

  /** The in-place changes the surfaces make to a site object they found by id. */
  datatype Edit =
    | SetEnabled(enabled: bool)   // options.js toggle: `site.enabled = checked`
    | ClearLog                    // options.js resetCounter: `site.blockLog = []`
    | AppendLog(entry: LogEntry)  // blocked.js: initialise a missing log, then `push`

  function Apply(edit: Edit, site: Site): (r: Site)
    ensures r.id == site.id && r.name == site.name && r.urls == site.urls
    ensures r.blockCount == site.blockCount
  {
    match edit
    case SetEnabled(b) => site.(enabled := b)
    case ClearLog => site.(blockLog := Some([]))
    case AppendLog(e) => site.(blockLog := Some(site.blockLog.GetOr([]) + [e]))
  }

  /**
   * The list after applying `edit` to the object `sites.find(s => s.id === id)`
   * returns, in place: that one site changes, nothing else does, and nothing
   * changes when no site has the id.
   */
  function UpdateFirst(sites: seq<Site>, id: int, edit: Edit): (r: seq<Site>)
    decreases |sites|
    ensures |r| == |sites|
    ensures forall k :: 0 <= k < |sites| ==>
      r[k] == if IsFirstWithId(sites, k, id) then Apply(edit, sites[k]) else sites[k]
    ensures FindSite(sites, id).None? ==> r == sites
  {
    if |sites| == 0 then []
    else if sites[0].id == id then [Apply(edit, sites[0])] + sites[1..]
    else [sites[0]] + UpdateFirst(sites[1..], id, edit)
  }

  /**
   * `chrome.storage.sync` as the extension uses it: a `blockedSites` key and a
   * `masterBlockEnabled` key, each possibly missing.
   */
  class SyncStore {
    var blockedSites: Option<seq<Site>>
    var masterBlockEnabled: Option<bool>

    constructor (sites: Option<seq<Site>>, master: Option<bool>)
      ensures blockedSites == sites && masterBlockEnabled == master
    {
      blockedSites := sites;
      masterBlockEnabled := master;
    }
  }
}
