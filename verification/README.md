# Tiny Blocker in Dafny

Tiny Blocker is a browser extension that blocks websites. The user keeps a
list of *sites*. Each site has an id, a name, URL patterns such as
`example.com`, `*.example.com` or `https://x.com/*`, an `enabled` flag and a
*block log* of timestamps. A master flag switches all blocking on or off.
The extension has five surfaces, and this project models the deterministic
core of each:

- **Service worker** (`rules.dfy`, module `Rules`). It turns the site list
  into the browser's dynamic redirect ruleset:
  - the scheme is stripped and one trailing slash-star is dropped;
  - a `www.` twin rule is added where needed;
  - rules are numbered 1..n in emission order and point at
    `/blocked.html?site=…&id=…`.

  The old ruleset is removed before the new one is added. The module also
  covers the defaults used when loading and the `blockLog` migration run on
  update. `ServiceWorker` is a class whose `dynamicRules` field is the
  browser's ruleset. `UpdateBlockingRules` builds the rules with the
  source's nested loops, and is proved equal to the specification function
  `DeriveRules`.
- **Request interceptor** (`matcher.dfy`, module `Matcher`). The callback
  escapes regex metacharacters, turns `*` into `.*` and anchors the result.
  The regular expressions this can produce are read back as glob tokens
  (`Tokenize`). `RegexSourceIsGlob` proves that the escaping makes every
  pattern denote exactly its glob reading. `Blocker` holds the listener
  marker.
- **Options page** (`options.dfy`, module `Options`) covers:
  - the legacy `blockCount` to `blockLog` migration on load;
  - adding a site from the form (trim, validate, check for duplicates);
  - quick-add buttons;
  - toggle, remove and counter reset.

  `OptionsPage` writes the store where the page saves.
- **Blocked page** (`blocked.dfy`, module `BlockedPage`). It appends one
  timestamped entry to the log of the site named by the `id` parameter. It
  also proves that the query of a rule's redirect carries the owning site's
  id.
- **Popup** (`popup.dfy`, module `Popup`) computes:
  - the active count;
  - the total number of blocks;
  - the "most blocked" fold, in which ties go to the earliest site;
  - which statistics lines are shown.

  It also flips the master flag.

Shared modules:

- `sites.dfy` (`Sites`) holds the site record, `find` by id, and the
  in-place edits the surfaces make to the site they found. Edits are
  applied to the first site with the id. The module also has
  `SyncStore`, which stands for `chrome.storage.sync`: a `blockedSites`
  key and a `masterBlockEnabled` key, either of which may be missing.
- `strings.dfy` (`Strings`) models the JavaScript string operations the
  source uses:
  - `includes` and `indexOf`;
  - `split` and `join`;
  - `trim`;
  - `toLowerCase`;
  - `String(n)` and `parseInt`.
- `seqs.dfy` (`Seqs`) holds list flattening, which is the shape of a loop
  that pushes a few items per element.
- `wrappers.dfy` (`Wrappers`) holds `Option`. `None` stands for a missing
  JavaScript field or `undefined`.

Site records are held by value in a `seq<Site>`. An in-place change to the
object that `sites.find(s => s.id === id)` returns is modelled as replacing
the first element with that id (`Sites.UpdateFirst`). Because no other
reference to that object survives in any of the handlers, this has the
same effect.

## Model

| member | source | states |
|---|---|---|
| Strings.FindFrom | service-worker.js:143 | the result is the first occurrence of the needle at or after the start, or none exists |
| Strings.ContainsIff | service-worker.js:143 | `includes` holds iff the needle occurs at some index |
| Strings.Split | service-worker.js:145 | `split` gives at least one piece and no piece contains the separator |
| Strings.SplitHead | service-worker.js:145-147 | the first piece is a prefix; there is one piece iff the separator is absent; otherwise the separator follows the first piece |
| Strings.JoinSplit | options.js:94 | joining the pieces of a split with the separator gives the string back |
| Strings.TrimStart | options.js:133-134 | removes exactly the leading white space |
| Strings.TrimEnd | options.js:133-134 | removes exactly the trailing white space |
| Strings.TrimEmptyIff | options.js:136 | a trimmed input is empty iff the input was all white space |
| Strings.TrimIdempotent | options.js:133-134 | trimming twice is trimming once |
| Strings.Trim | options.js:133-134 | the input is white space, then the result, then white space, and the result neither starts nor ends with white space |
| Strings.Lower | options.js:143 | lower-cases each character in place, keeping the length |
| Strings.Decimal | service-worker.js:161 | an id prints as digits, with one leading `-` exactly when it is negative and no leading zero unless it is 0 |
| Strings.ParseInt | blocked.js:14 | `NaN` exactly when no digits follow optional white space and one sign |
| Strings.ParseIntDecimal | options.js:213 | parsing a printed id gives the id back, so a rendered `data-site-id` finds its site |
| Sites.FindSite | options.js:214 | `find` by id returns the first site with the id, and returns nothing iff no site has it |
| Sites.Apply | options.js:216 | an in-place edit keeps the id, name, URLs and legacy counter |
| Sites.UpdateFirst | options.js:214-216 | only the first site with the id changes, the length is kept, and with no match the list is unchanged |
| Sites.SyncStore.constructor | service-worker.js:53 | a store holding the given keys |
| Rules.StripScheme | service-worker.js:143-149 | a pattern without `://` is kept; the result never contains `://` and is never longer than the pattern |
| Rules.StripSchemeSpec | service-worker.js:143-149 | without `://` the pattern is kept; otherwise the text from after the first `://` to the next `://` or the end |
| Rules.StripTrailingWildcard | service-worker.js:152 | a pattern ending in slash-star loses exactly that suffix; any other pattern is unchanged |
| Rules.StripTrailingWildcardOnce | service-worker.js:152 | only one trailing slash-star is removed |
| Rules.ProcessPattern | service-worker.js:140-152 | the `urlFilter` never contains `://` and is never longer than the pattern |
| Rules.TwinNeedsNoTwin | service-worker.js:173 | a `www.` twin never needs a twin itself, so each pattern yields at most two rules |
| Rules.PatternRules | service-worker.js:155-189 | one rule, or two when the filter needs a twin; the twin's filter is `www.` plus the base; every rule targets the owning site |
| Rules.UrlRuleLists | service-worker.js:137-190 | one rule group per pattern, in pattern order |
| Rules.SiteRuleLists | service-worker.js:134-192 | one rule group per site, in site order |
| Rules.DeriveRules | service-worker.js:131-192 | ids are 1..n in emission order and pairwise distinct; priority 1 and main/sub-frame resource types |
| Rules.SitesRulesAppend | service-worker.js:134-192 | rules keep site order: the rules of a concatenation are the concatenated rules |
| Rules.RulesComeFromEnabledSites | service-worker.js:134-189 | every rule comes from a pattern of an enabled site and redirects to that site |
| Rules.EnabledPatternsAreCovered | service-worker.js:134-189 | every rule of every pattern of every enabled site is in the ruleset |
| Rules.DisabledSiteHasNoRules | service-worker.js:135 | with unique ids, no rule redirects to a disabled site |
| Rules.EnabledSiteHasRule | service-worker.js:134-170 | an enabled site with a pattern gets a rule to its page |
| Rules.RuleIds | service-worker.js:115 | the ids of the existing rules, in order |
| Rules.RemoveRules | service-worker.js:118-122 | a rule survives removal iff its id is not among the removed ids |
| Rules.RemoveCoveredRules | service-worker.js:118-122 | removing a superset of the ids empties the ruleset |
| Rules.RemoveAllRules | service-worker.js:113-122 | removing all existing ids empties the ruleset |
| Rules.NumberedSnoc | service-worker.js:156 | numbering one more rule gives it the next id |
| Rules.EmitPatternRules | service-worker.js:140-189 | the inner loop body appends the pattern's rules with the next ids |
| Rules.EmitSiteRules | service-worker.js:135-191 | the outer loop body appends the enabled site's rules, or nothing |
| Rules.BuildRules | service-worker.js:131-192 | the loops build exactly `DeriveRules` |
| Rules.AddMissingBlockLog | service-worker.js:27-32 | a site without a log gets the empty log; sites that had one are unchanged; no other field changes |
| Rules.AddMissingBlockLogIdempotent | service-worker.js:27-32 | the update migration changes nothing the second time |
| Rules.ServiceWorker.constructor | service-worker.js:5-6 | empty list, blocking on, the browser's ruleset as it was |
| Rules.ServiceWorker.UpdateBlockingRules | service-worker.js:111-207 | the ruleset ends as the derived rules when blocking is on, and empty when it is off |
| Rules.ServiceWorker.LoadAndApplyRules | service-worker.js:51-62 | a missing list becomes empty and a missing flag becomes true, then the ruleset is resynchronised |
| Rules.ServiceWorker.OnInstalled | service-worker.js:12-40 | install writes the defaults; update migrates a non-empty stored list; other reasons write nothing; then load and apply |
| Rules.BareDomainGetsWwwTwin | service-worker.js:140-173 | `example.com` is kept and gets a `www.` twin |
| Rules.WildcardSubdomainHasNoTwin | service-worker.js:173 | `*.example.com` is kept and gets no twin |
| Rules.SchemeAndPathStripped | service-worker.js:143-152 | scheme, `://`, host and slash-star become the bare host when neither part has a colon |
| Rules.SchemeStripped | service-worker.js:143-149 | `scheme://rest` becomes `rest` when neither part has a colon |
| Rules.WildcardStripped | service-worker.js:152 | a filter followed by slash-star loses exactly the slash-star |
| Rules.PlainHostNeedsTwin | service-worker.js:173 | a filter not starting with `w` and without a star needs a twin |
| Rules.TwinnedPatternSite | service-worker.js:131-192 | a lone enabled site with one twin-needing pattern gets exactly rules 1 and 2, the base and then the twin |
| Matcher.Escape | blocker.js:61 | escaping never shortens a pattern and keeps its stars; which characters get a backslash is carried by `UnescapeEscape` and `RegexSourceIsGlob` |
| Matcher.UnescapeEscape | blocker.js:61 | dropping each escaping backslash gives the pattern back, so escaping adds only backslashes and loses nothing |
| Matcher.StarToDotStarAppend | blocker.js:62 | the star replacement works piece by piece |
| Matcher.Tokenize | blocker.js:65 | an expression is read only as tokens that spell exactly it, at most one token per character |
| Matcher.TokenizeRender | blocker.js:65 | every token sequence without a literal star is read back from its spelling |
| Matcher.RegexSourceRender | blocker.js:60-62 | the constructed expression spells the glob reading of the pattern |
| Matcher.GlobTokens | blocker.js:60-62 | a star reads as a run and every other character as itself |
| Matcher.RegexSourceIsGlob | blocker.js:60-65 | the constructed expression denotes exactly the glob reading of the pattern |
| Matcher.PatternsAlwaysCompile | blocker.js:64-70 | every pattern compiles, so the catch branch never fires |
| Matcher.TokensMatch | blocker.js:65-66 | anchored matching; without a run, a match has exactly one character per token |
| Matcher.PatternMatches | blocker.js:60-70 | the test holds iff the pattern, read as a glob, matches the whole URL |
| Matcher.GlobTokensAppend | blocker.js:60-62 | the glob reading works piece by piece |
| Matcher.LiteralsConsume | blocker.js:65-66 | a star-free stretch matches iff the URL starts with it and the rest matches what follows |
| Matcher.LiteralsMatchExactly | blocker.js:65-66 | the tokens of a star-free pattern match only the string equal to it |
| Matcher.NoStarMatchesExactly | blocker.js:60-66 | a star-free pattern matches only the URL equal to it |
| Matcher.RunMatches | blocker.js:62-66 | a run matches exactly the strings without a line terminator |
| Matcher.RunConsume | blocker.js:62-66 | a run followed by more pattern matches iff some line-terminator-free stretch is followed by a match of the rest |
| Matcher.StarMatchesAll | blocker.js:60-66 | `*` matches every URL without a line terminator, and no other |
| Matcher.PrefixStarMatches | blocker.js:60-66 | a star-free prefix then a star matches exactly the URLs starting with the prefix |
| Matcher.StarSuffixMatches | blocker.js:60-66 | `*` then a star-free suffix, as in `*.example.com`, matches exactly the URLs ending with the suffix, with no line terminator before it |
| Matcher.AnyPatternMatches | blocker.js:58-71 | holds iff some pattern of the site matches the whole URL |
| Matcher.AnySiteBlocks | blocker.js:55-72 | holds iff some enabled site has a matching pattern |
| Matcher.BlockingCallback | blocker.js:48-79 | no redirect when blocking is off; otherwise a redirect to the blocked page iff some pattern of some enabled site matches |
| Matcher.EnabledUrlLists | blocker.js:96-102 | the patterns of enabled sites, and nothing for disabled ones |
| Matcher.EnabledUrlsNonEmpty | blocker.js:95-105 | `allUrls` is non-empty iff some enabled site lists a pattern |
| Matcher.CollectEnabledUrls | blocker.js:95-102 | the loops collect exactly the enabled patterns, in order |
| Matcher.ListenerCoversRedirects | blocker.js:82-115 | whenever the callback would redirect, the listener marker is set |
| Matcher.Blocker.constructor | blocker.js:2-4 | empty list, blocking on, no listener |
| Matcher.Blocker.UpdateBlockingRules | blocker.js:82-115 | the marker is 1 iff blocking is on and some enabled site lists a pattern, otherwise null |
| Options.MigrateSite | options.js:16-24 | a site with a log is kept; one without gets an empty log and loses `blockCount`; no other field changes |
| Options.MigrateLegacy | options.js:16-24 | the same length and order, each site migrated |
| Options.MigrationKeepsCounts | options.js:16-24 | after migration every site has a log and every displayed count is unchanged |
| Options.MigrationChangesIff | options.js:26-28 | the page saves after loading iff some site lacked a log |
| Options.MigrateLegacyIdempotent | options.js:16-24 | migrating twice is migrating once |
| Options.WorkerMigrationPreemptsPage | options.js:16-24 | after the worker's update migration the page's migration does nothing, so `blockCount` survives |
| Options.IsListed | options.js:142-145 | holds iff a site has the same name ignoring case, or lists the URL |
| Options.AddSite | options.js:129-161 | an empty trimmed input is refused, then a duplicate; otherwise exactly one new enabled site with an empty log is appended and the existing sites are untouched |
| Options.AddSiteKeepsNoDuplicates | options.js:141-161 | a form add keeps names (ignoring case) and patterns unique |
| Options.HasName | options.js:97 | holds iff a site has exactly this name |
| Options.QuickAdd | options.js:92-111 | refused on an exact name match; otherwise one site is appended with the comma-split patterns |
| Options.QuickAddPatterns | options.js:94 | the patterns hold no comma and join back to the `data-url` attribute |
| Options.ToggleSite | options.js:213-216 | an unparsable id changes nothing; otherwise only the first site with the parsed id gets `enabled := checked` |
| Options.ToggleRenderedSite | options.js:212-218 | toggling through a rendered id sets `enabled` on the first site with the id and changes nothing else |
| Options.RemoveSite | options.js:226 | exactly the sites with a different id remain |
| Options.RemoveSiteAppend | options.js:226 | removal keeps order |
| Options.RemoveAbsentSite | options.js:226 | nothing is removed when no site has the id |
| Options.RemoveRendered | options.js:224-226 | an unparsable id changes nothing; otherwise exactly the sites with a different id remain |
| Options.RemoveRenderedSite | options.js:223-226 | removing through a rendered id removes exactly the sites with the id |
| Options.ResetCounterEffect | options.js:247-254 | the first site with the id gets an empty log and nothing else changes; with no such site the list is unchanged |
| Options.OptionsPage.constructor | options.js:2-3 | empty list, blocking on |
| Options.OptionsPage.Save | options.js:49-50 | the whole list is written to the store |
| Options.OptionsPage.LoadBlockedSites | options.js:12-40 | the stored list is migrated and saved only if changed; a missing list or flag gets its default, which is saved |
| Options.OptionsPage.SetMasterToggle | options.js:79-81 | the flag takes the checkbox state and is stored |
| Options.OptionsPage.AddNewSite | options.js:129-163 | the list and the store change only when a site is added |
| Options.OptionsPage.QuickAddSite | options.js:92-112 | the list and the store change only when a site is added |
| Options.OptionsPage.ToggleHandler | options.js:212-219 | toggles by the rendered id and saves only when a site was found |
| Options.OptionsPage.RemoveHandler | options.js:223-229 | after confirmation removes by the rendered id and saves, even when nothing matched |
| Options.OptionsPage.ResetCounter | options.js:247-254 | clears the first matching log and saves only when a site was found |
| BlockedPage.FirstPair | blocked.js:5-7 | the first pair with the name, or none exists |
| BlockedPage.QueryParam | blocked.js:5-7 | the value of the first `&`-separated pair with the name; none iff no pair has it |
| BlockedPage.SecondParam | blocked.js:7 | in a two-pair query with distinct names, the second name finds the second value |
| BlockedPage.RedirectCarriesSiteId | blocked.js:7-14 | the `id` of a rule's redirect query is the owning site's id, and `parseInt` reads it back |
| BlockedPage.LogBlock | blocked.js:14-28 | the first site with the id gains exactly one entry (a missing log counts as empty); nothing else changes; no match leaves the list |
| BlockedPage.VisitTarget | blocked.js:10-16 | a site is logged against only with a non-empty `id`, a stored list, a number, and a site with that id |
| BlockedPage.OnBlockedPageLoad | blocked.js:3-44 | with no target nothing is written or shown; otherwise the logged list is written back and the new log length is shown when `site` is non-empty |
| Popup.ActiveCount | popup.js:44 | between 0 and the number of sites; 0 iff none is enabled; all iff all are |
| Popup.TotalBlocks | popup.js:48-50 | at least each site's log length; 0 iff no site has a logged block |
| Popup.ActiveCountAppend | popup.js:44 | the active counts of two lists add up |
| Popup.TotalBlocksAppend | popup.js:48-50 | the block totals of two lists add up |
| Popup.SingleSiteCounts | popup.js:44-50 | one site counts as active iff it is enabled, and its total is its log length; with the append lemmas, the active count is the number of enabled sites and the total is the sum of the log lengths |
| Popup.LoggedBlockCounts | popup.js:48-50 | logging a block against a stored site raises the total by exactly one |
| Popup.MostBlocked | popup.js:53-57 | the earliest site with the greatest positive count; the seed survives iff every count is 0 |
| Popup.MostBlockedIffBlocks | popup.js:53-65 | there is a most-blocked site iff the total is positive |
| Popup.Summarize | popup.js:53-71 | "No sites blocked" iff the list is empty; the most-blocked line iff there were blocks and the winner has a name; it shows the earliest site with the greatest count, and that count |
| Popup.PopupState.constructor | popup.js:2-3 | blocking on, empty list |
| Popup.PopupState.LoadCurrentState | popup.js:11-23 | stored values replace the defaults and missing ones keep them |
| Popup.PopupState.Toggle | popup.js:76-78 | the flag is negated and the new value stored |

## Left out

- The browser APIs are not modelled:
  - `chrome.storage` callbacks;
  - `chrome.runtime` messaging;
  - the `onChanged`, `onStartup`, `onMessage` and `onClicked` wiring;
  - `lastError` handling.

  The store is a `SyncStore` object. The handlers run one after another to
  completion: the asynchronous interleavings of the surfaces, and their
  races on the shared store, are concurrency.
- `chrome.declarativeNetRequest` and `chrome.webRequest` are platform APIs.
  The dynamic ruleset is a field, and the listener is the
  `currentListenerId` marker. How the browser matches a `urlFilter` against a
  request is not part of this model.
- Rules.ServiceWorker.UpdateBlockingRules: platform failures are not
  modelled. The `try`/`catch` only logs them. A failure of the
  `chrome.declarativeNetRequest` calls is outside what the model can
  observe. The model therefore always ends with the derived rules, or with
  no rules when blocking is off. In the source, when adding the new rules
  throws, the removal at service-worker.js:118-122 has already happened.
  The ruleset then ends empty, not as it was before the call.
- Rules.ServiceWorker.OnInstalled: the order of the asynchronous steps is
  not modelled. The model finishes the update migration and then loads.
  In the source, `loadAndApplyRules()` (service-worker.js:39) is issued
  before the migration's `get` and `set` (service-worker.js:25-33)
  complete, so it reads the unmigrated list. The rules come out the same,
  because `blockLog` does not feed them, and the later storage change
  resynchronises the state.
- Rules.TargetQuery: `encodeURIComponent` is a function parameter. The
  blocked page's round trip assumes the encoded name holds no `&`, which
  `encodeURIComponent` guarantees.
- Strings.ParseInt: `0x` prefixes and the loss of precision beyond 2^53 are
  not modelled. Ids come from `Date.now()` and are short decimal integers.
- Strings.Lower: only ASCII capitals are lower-cased. The full Unicode
  mapping of `toLowerCase` is not modelled, so the case-insensitive
  duplicate test is exact only for ASCII names.
- BlockedPage.QueryParam: percent-decoding, `+` as a space, and the leading
  `?` of `location.search` are not modelled. The `site` parameter is taken
  as given.
- Matcher.PatternMatches: the `RegExp` engine is replaced by the glob
  reading of the only expressions the escaping can produce. The JavaScript
  engine works on UTF-16 code units; this model works on characters.
- `Date.now()` ids and `new Date().toISOString()` timestamps are
  parameters.
- `starting.js` is not part of this model. It only registers a page-action
  rule with the browser.
- DOM rendering is not modelled: the list markup, the status texts, the
  button feedback, `alert`, `focus`, and the blocked page's heading. The
  `confirm` answer of the remove handler is a parameter.
- blocker.js has message and storage-change handlers. These only reassign
  `blockedSites` and `masterBlockEnabled` and then call
  `updateBlockingRules`, and are wiring. The same holds for the initial load
  at blocker.js:7-15.
- Two different migrations exist:
  - The options page's migration (options.js:16-24) drops a legacy
    `blockCount`.
  - The service worker's update migration (service-worker.js:27-32) keeps
    it.

  Both are modelled as written. `Options.WorkerMigrationPreemptsPage` shows
  that once the worker has migrated a list, the page keeps `blockCount`.
