/**
 * The service worker's rule synchronisation (service-worker.js): the site
 * list and the master flag are turned into an ordered list of redirect rules
 * for the browser's dynamic declarativeNetRequest ruleset, which is replaced
 * wholesale by removing every existing rule and adding the new ones.
 */
module Rules {
  import opened Wrappers
  import opened Strings
  import opened Sites
  import opened Seqs

  const SchemeSeparator := "://"
  const WildcardPath := "/*"
  const WwwPrefix := "www."
  const WildcardLabel := "*."
  const RulePriority := 1
  const RuleResourceTypes := ["main_frame", "sub_frame"]

  /** Where a rule sends a matched navigation: blocked.html, told the owning site's name and id. */
  datatype BlockedTarget = BlockedTarget(siteName: string, siteId: int)

  /** What a rule matches and where it redirects, before it is numbered. */
  datatype RuleBody = RuleBody(urlFilter: string, target: BlockedTarget)

  /** A dynamic redirect rule as handed to the browser. */
  datatype Rule = Rule(id: int, priority: int, body: RuleBody, resourceTypes: seq<string>)

  function MakeRule(id: int, body: RuleBody): Rule {
    Rule(id, RulePriority, body, RuleResourceTypes)
  }

  function TargetOf(site: Site): BlockedTarget {
    BlockedTarget(site.name, site.id)
  }

  /** The query string of the redirect; `encode` stands for `encodeURIComponent`. */
  function TargetQuery(t: BlockedTarget, encode: string -> string): string {
    "site=" + encode(t.siteName) + "&id=" + Decimal(t.siteId)
  }

  /** The rule's `extensionPath`: `/blocked.html?site=…&id=…`. */
  function ExtensionPath(t: BlockedTarget, encode: string -> string): string {
    "/blocked.html?" + TargetQuery(t, encode)
  }

  // ---------------------------------------------------------------------
  // Per-pattern processing

  /**
   * `pattern.split('://')[1]` when the pattern contains `://`, else the
   * pattern: either way no `://` is left.
   */
  function StripScheme(pattern: string): (r: string)
    ensures !Contains(pattern, SchemeSeparator) ==> r == pattern
    ensures !Contains(r, SchemeSeparator)
    ensures |r| <= |pattern|
  {
    if Contains(pattern, SchemeSeparator) then
      var parts := Split(pattern, SchemeSeparator);
      SplitHead(pattern, SchemeSeparator);
      SplitFound(pattern, SchemeSeparator, IndexOf(pattern, SchemeSeparator).value);
      SplitHead(pattern[IndexOf(pattern, SchemeSeparator).value + |SchemeSeparator|..], SchemeSeparator);
      if |parts| > 1 then parts[1] else pattern
    else pattern
  }

  /**
   * Without `://` a pattern is kept; with one, what is kept is the text after
   * the first `://` up to the next `://` or the end.
   */
  lemma StripSchemeSpec(pattern: string)
    ensures IndexOf(pattern, SchemeSeparator).None? ==> StripScheme(pattern) == pattern
    ensures IndexOf(pattern, SchemeSeparator).Some? ==>
      var rest := pattern[IndexOf(pattern, SchemeSeparator).value + |SchemeSeparator|..];
      var r := StripScheme(pattern);
      && StartsWith(rest, r)
      && !Contains(r, SchemeSeparator)
      && (|r| == |rest| || OccursAt(rest, SchemeSeparator, |r|))
  {
    var found := IndexOf(pattern, SchemeSeparator);
    if found.Some? {
      var i := found.value;
      var rest := pattern[i + |SchemeSeparator|..];
      SplitFound(pattern, SchemeSeparator, i);
      SplitHead(rest, SchemeSeparator);
      var tail := Split(rest, SchemeSeparator);
      assert Split(pattern, SchemeSeparator)[1] == tail[0];
    }
  }

  /** The path-wildcard replace: drops one trailing slash-star. */
  function StripTrailingWildcard(p: string): (r: string)
    ensures EndsWith(p, WildcardPath) ==> r + WildcardPath == p
    ensures !EndsWith(p, WildcardPath) ==> r == p
  {
    if EndsWith(p, WildcardPath) then p[..|p| - |WildcardPath|] else p
  }

  /** Only one trailing slash-star goes: a doubled one leaves the inner copy. */
  lemma StripTrailingWildcardOnce(p: string)
    ensures StripTrailingWildcard(p + "/*/*") == p + "/*"
  {
    assert EndsWith(p + "/*/*", WildcardPath);
    assert (p + "/*/*")[..|p| + 2] == p + "/*";
  }

  /**
   * The `urlFilter` a user pattern becomes: no `://` is left in it, and it
   * is never longer than the pattern.
   */
  function ProcessPattern(pattern: string): (r: string)
    ensures !Contains(r, SchemeSeparator)
    ensures |r| <= |pattern|
  {
    var x := StripScheme(pattern);
    var r := StripTrailingWildcard(x);
    assert r == x[..|r|];
    forall i | OccursAt(r, SchemeSeparator, i) ensures false {
      OccursInPrefix(x, SchemeSeparator, |r|, i);
      ContainsIff(x, SchemeSeparator);
    }
    ContainsIff(r, SchemeSeparator);
    r
  }

  /** A `www.` twin is added unless the filter already starts with `www.` or has a `*.` label. */
  predicate NeedsWwwTwin(processed: string) {
    !StartsWith(processed, WwwPrefix) && !Contains(processed, WildcardLabel)
  }

  /** The twin itself never needs a twin, so at most one extra rule is made per pattern. */
  lemma TwinNeedsNoTwin(processed: string)
    ensures !NeedsWwwTwin(WwwPrefix + processed)
  {
    assert (WwwPrefix + processed)[..|WwwPrefix|] == WwwPrefix;
  }

  /**
   * The rules one pattern of a site yields: its processed filter, then, when
   * the filter needs it, the same filter with `www.` in front.
   */
  function PatternRules(site: Site, pattern: string): (r: seq<RuleBody>)
    ensures |r| == if NeedsWwwTwin(ProcessPattern(pattern)) then 2 else 1
    ensures r[0].urlFilter == ProcessPattern(pattern)
    ensures |r| == 2 ==> r[1].urlFilter == WwwPrefix + r[0].urlFilter
    ensures forall k :: 0 <= k < |r| ==> r[k].target == TargetOf(site)
  {
    var processed := ProcessPattern(pattern);
    var base := RuleBody(processed, TargetOf(site));
    if NeedsWwwTwin(processed) then [base, RuleBody(WwwPrefix + processed, TargetOf(site))]
    else [base]
  }

  // ---------------------------------------------------------------------
  // The whole ruleset

  /** The rules of each pattern of a site, pattern by pattern. */
  function UrlRuleLists(site: Site, urls: seq<string>): (r: seq<seq<RuleBody>>)
    ensures |r| == |urls| && forall j :: 0 <= j < |urls| ==> r[j] == PatternRules(site, urls[j])
  {
    seq(|urls|, j requires 0 <= j < |urls| => PatternRules(site, urls[j]))
  }

  /** The rules of one site, in pattern order: none when it is disabled. */
  function SiteRules(site: Site): seq<RuleBody> {
    if site.enabled then Flatten(UrlRuleLists(site, site.urls)) else []
  }

  /** The rules of each site, site by site. */
  function SiteRuleLists(sites: seq<Site>): (r: seq<seq<RuleBody>>)
    ensures |r| == |sites| && forall i :: 0 <= i < |sites| ==> r[i] == SiteRules(sites[i])
  {
    seq(|sites|, i requires 0 <= i < |sites| => SiteRules(sites[i]))
  }

  /** The rules of a site list, in site order. */
  function SitesRules(sites: seq<Site>): seq<RuleBody> {
    Flatten(SiteRuleLists(sites))
  }

  /** Rules numbered 1, 2, … in order. */
  function Numbered(bodies: seq<RuleBody>): seq<Rule> {
    seq(|bodies|, k requires 0 <= k < |bodies| => MakeRule(k + 1, bodies[k]))
  }

  /** The ruleset `updateBlockingRules` installs while blocking is on. */
  function DeriveRules(sites: seq<Site>): (rules: seq<Rule>)
    ensures |rules| == |SitesRules(sites)|
    ensures forall k :: 0 <= k < |rules| ==>
      rules[k].id == k + 1 && rules[k].body == SitesRules(sites)[k]
      && rules[k].priority == RulePriority && rules[k].resourceTypes == RuleResourceTypes
    ensures forall a, b :: 0 <= a < b < |rules| ==> rules[a].id != rules[b].id
  {
    Numbered(SitesRules(sites))
  }

  /** Rules keep site order: the rules of a concatenation are the concatenated rules. */
  lemma SitesRulesAppend(a: seq<Site>, b: seq<Site>)
    ensures SitesRules(a + b) == SitesRules(a) + SitesRules(b)
  {
    assert SiteRuleLists(a + b) == SiteRuleLists(a) + SiteRuleLists(b);
    FlattenAppend(SiteRuleLists(a), SiteRuleLists(b));
  }

  /**
   * Only enabled sites contribute: every rule is one of the rules of some
   * pattern of some enabled site, and so redirects to that site's page.
   */
  lemma RulesComeFromEnabledSites(sites: seq<Site>, k: nat)
    requires k < |SitesRules(sites)|
    ensures exists i, j ::
      (0 <= i < |sites| && sites[i].enabled && 0 <= j < |sites[i].urls|
       && SitesRules(sites)[k] in PatternRules(sites[i], sites[i].urls[j])
       && SitesRules(sites)[k].target == TargetOf(sites[i]))
  {
    var b := SitesRules(sites)[k];
    FlattenSound(SiteRuleLists(sites), k);
    var i :| 0 <= i < |sites| && b in SiteRules(sites[i]);
    var site := sites[i];
    var m :| 0 <= m < |SiteRules(site)| && SiteRules(site)[m] == b;
    FlattenSound(UrlRuleLists(site, site.urls), m);
    var j :| 0 <= j < |site.urls| && b in PatternRules(site, site.urls[j]);
  }

  /** Every pattern of every enabled site has all of its rules in the ruleset. */
  lemma EnabledPatternsAreCovered(sites: seq<Site>, i: nat, j: nat)
    requires i < |sites| && sites[i].enabled && j < |sites[i].urls|
    ensures forall b :: b in PatternRules(sites[i], sites[i].urls[j]) ==> b in SitesRules(sites)
  {
    FlattenComplete(UrlRuleLists(sites[i], sites[i].urls), j);
    FlattenComplete(SiteRuleLists(sites), i);
  }

  /** Site ids are pairwise distinct, as the store's invariant demands. */
  ghost predicate UniqueIds(sites: seq<Site>) {
    forall a, b :: 0 <= a < b < |sites| ==> sites[a].id != sites[b].id
  }

  /** With unique ids, a disabled site has no rule redirecting to it. */
  lemma DisabledSiteHasNoRules(sites: seq<Site>, i: nat)
    requires UniqueIds(sites) && i < |sites| && !sites[i].enabled
    ensures forall r :: r in DeriveRules(sites) ==> r.body.target.siteId != sites[i].id
  {
    var rules := DeriveRules(sites);
    forall r | r in rules ensures r.body.target.siteId != sites[i].id {
      var k :| 0 <= k < |rules| && rules[k] == r;
      RulesComeFromEnabledSites(sites, k);
      var m, j :| 0 <= m < |sites| && sites[m].enabled && 0 <= j < |sites[m].urls|
        && SitesRules(sites)[k] in PatternRules(sites[m], sites[m].urls[j]);
      assert r.body.target == TargetOf(sites[m]);
    }
  }

  /** An enabled site with at least one pattern gets a rule redirecting to it. */
  lemma EnabledSiteHasRule(sites: seq<Site>, i: nat)
    requires i < |sites| && sites[i].enabled && |sites[i].urls| > 0
    ensures exists r :: r in DeriveRules(sites) && r.body.target == TargetOf(sites[i])
  {
    EnabledPatternsAreCovered(sites, i, 0);
    var b := PatternRules(sites[i], sites[i].urls[0])[0];
    assert b in SitesRules(sites);
    var k :| 0 <= k < |SitesRules(sites)| && SitesRules(sites)[k] == b;
    assert DeriveRules(sites)[k] in DeriveRules(sites);
  }

  // ---------------------------------------------------------------------
  // Removing rules

  /** `existingRules.map(rule => rule.id)`. */
  function RuleIds(rules: seq<Rule>): (ids: seq<int>)
    ensures |ids| == |rules| && forall k :: 0 <= k < |rules| ==> ids[k] == rules[k].id
  {
    seq(|rules|, k requires 0 <= k < |rules| => rules[k].id)
  }

  /** The ruleset after `updateDynamicRules({ removeRuleIds: ids })`. */
  function RemoveRules(rules: seq<Rule>, ids: seq<int>): (r: seq<Rule>)
    decreases |rules|
    ensures forall x :: x in r <==> x in rules && x.id !in ids
  {
    if |rules| == 0 then []
    else (if rules[0].id in ids then [] else [rules[0]]) + RemoveRules(rules[1..], ids)
  }

  lemma {:induction false} RemoveCoveredRules(rules: seq<Rule>, ids: seq<int>)
    requires forall k :: 0 <= k < |rules| ==> rules[k].id in ids
    ensures RemoveRules(rules, ids) == []
    decreases |rules|
  {
    if |rules| > 0 {
      RemoveCoveredRules(rules[1..], ids);
    }
  }

  /** Removing every existing rule id empties the ruleset. */
  lemma RemoveAllRules(rules: seq<Rule>)
    ensures RemoveRules(rules, RuleIds(rules)) == []
  {
    RemoveCoveredRules(rules, RuleIds(rules));
  }

  // ---------------------------------------------------------------------
  // The worker

  lemma NumberedSnoc(bodies: seq<RuleBody>, b: RuleBody)
    ensures Numbered(bodies + [b]) == Numbered(bodies) + [MakeRule(|bodies| + 1, b)]
  {
  }

  /** One pass of the inner loop: the pattern's rule, then its `www.` twin if it needs one. */
  method EmitPatternRules(rules: seq<Rule>, ruleId: int, site: Site, pattern: string, ghost done: seq<RuleBody>)
    returns (rules': seq<Rule>, ruleId': int)
    requires rules == Numbered(done) && ruleId == |rules| + 1
    ensures rules' == Numbered(done + PatternRules(site, pattern)) && ruleId' == |rules'| + 1
  {
    var processed := ProcessPattern(pattern);
    var base := RuleBody(processed, TargetOf(site));
    NumberedSnoc(done, base);
    rules' := rules + [MakeRule(ruleId, base)];
    ruleId' := ruleId + 1;
    if NeedsWwwTwin(processed) {
      var twin := RuleBody(WwwPrefix + processed, TargetOf(site));
      NumberedSnoc(done + [base], twin);
      rules' := rules' + [MakeRule(ruleId', twin)];
      ruleId' := ruleId' + 1;
      assert done + [base] + [twin] == done + PatternRules(site, pattern);
    } else {
      assert done + [base] == done + PatternRules(site, pattern);
    }
  }

  /** One pass of the outer loop: the rules of every pattern of an enabled site, in order. */
  method EmitSiteRules(rules: seq<Rule>, ruleId: int, site: Site, ghost done: seq<RuleBody>)
    returns (rules': seq<Rule>, ruleId': int)
    requires rules == Numbered(done) && ruleId == |rules| + 1
    ensures rules' == Numbered(done + SiteRules(site)) && ruleId' == |rules'| + 1
  {
    rules', ruleId' := rules, ruleId;
    if site.enabled {
      for j := 0 to |site.urls|
        invariant rules' == Numbered(done + SiteRulesUpTo(site, j))
        invariant ruleId' == |rules'| + 1
      {
        SiteRulesUpToNext(site, j, done);
        rules', ruleId' := EmitPatternRules(rules', ruleId', site, site.urls[j], done + SiteRulesUpTo(site, j));
      }
      SiteRulesUpToAll(site);
    } else {
      assert done + SiteRules(site) == done;
    }
  }

  /** The rules of a site's first `j` patterns. */
  ghost function SiteRulesUpTo(site: Site, j: nat): seq<RuleBody>
    requires j <= |site.urls|
  {
    Flatten(UrlRuleLists(site, site.urls)[..j])
  }

  lemma SiteRulesUpToNext(site: Site, j: nat, done: seq<RuleBody>)
    requires j < |site.urls|
    ensures done + SiteRulesUpTo(site, j + 1) == done + SiteRulesUpTo(site, j) + PatternRules(site, site.urls[j])
  {
    FlattenPrefix(UrlRuleLists(site, site.urls), j);
  }

  lemma SiteRulesUpToAll(site: Site)
    requires site.enabled
    ensures SiteRulesUpTo(site, |site.urls|) == SiteRules(site)
  {
    var lists := UrlRuleLists(site, site.urls);
    assert lists[..|site.urls|] == lists;
  }

  /** The rules as the loops of `updateBlockingRules` build them. */
  method BuildRules(sites: seq<Site>) returns (newRules: seq<Rule>)
    ensures newRules == DeriveRules(sites)
  {
    newRules := [];
    var ruleId := 1;
    ghost var lists := SiteRuleLists(sites);
    for i := 0 to |sites|
      invariant newRules == Numbered(Flatten(lists[..i]))
      invariant ruleId == |newRules| + 1
    {
      FlattenPrefix(lists, i);
      newRules, ruleId := EmitSiteRules(newRules, ruleId, sites[i], Flatten(lists[..i]));
    }
    assert lists[..|sites|] == lists;
  }

  /** Why the service worker was installed (`details.reason`). */
  datatype InstallReason = Install | Update | BrowserUpdate | SharedModuleUpdate

  /** `onInstalled` on an update: every site without a `blockLog` gets an empty one. */
  function AddMissingBlockLog(sites: seq<Site>): (r: seq<Site>)
    ensures |r| == |sites|
    ensures forall k :: 0 <= k < |sites| ==>
      && r[k].blockLog == Some(sites[k].blockLog.GetOr([]))
      && (sites[k].blockLog.Some? ==> r[k] == sites[k])
      && r[k].(blockLog := sites[k].blockLog) == sites[k]
  {
    seq(|sites|, k requires 0 <= k < |sites| =>
      if sites[k].blockLog.None? then sites[k].(blockLog := Some([])) else sites[k])
  }

  /** The update migration changes nothing the second time. */
  lemma AddMissingBlockLogIdempotent(sites: seq<Site>)
    ensures AddMissingBlockLog(AddMissingBlockLog(sites)) == AddMissingBlockLog(sites)
  {
  }

  class ServiceWorker {
    var blockedSites: seq<Site>
    var masterBlockEnabled: bool
    /** The browser's dynamic ruleset, which outlives any one run of the worker. */
    var dynamicRules: seq<Rule>

    constructor (existingRules: seq<Rule>)
      ensures blockedSites == [] && masterBlockEnabled && dynamicRules == existingRules
    {
      blockedSites := [];
      masterBlockEnabled := true;
      dynamicRules := existingRules;
    }

    /**
     * `updateBlockingRules`: remove every existing rule, then, while blocking
     * is on, add the rules derived from the site list.
     */
    method UpdateBlockingRules()
      modifies this`dynamicRules
      ensures dynamicRules == if masterBlockEnabled then DeriveRules(blockedSites) else []
    {
      var existingRuleIds := RuleIds(dynamicRules);
      if |existingRuleIds| > 0 {
        RemoveAllRules(dynamicRules);
        dynamicRules := RemoveRules(dynamicRules, existingRuleIds);
      }
      if !masterBlockEnabled {
        return;
      }
      var newRules := BuildRules(blockedSites);
      if |newRules| > 0 {
        dynamicRules := dynamicRules + newRules;
      }
    }

    /** `loadAndApplyRules`: read the store, default what is missing, resynchronise. */
    method LoadAndApplyRules(store: SyncStore)
      modifies this
      ensures blockedSites == store.blockedSites.GetOr([])
      ensures masterBlockEnabled == store.masterBlockEnabled.GetOr(true)
      ensures dynamicRules == if masterBlockEnabled then DeriveRules(blockedSites) else []
    {
      blockedSites := store.blockedSites.GetOr([]);
      masterBlockEnabled := store.masterBlockEnabled.GetOr(true);
      UpdateBlockingRules();
    }

    /**
     * `onInstalled`: a fresh install writes the defaults; an update gives
     * every stored site a `blockLog`; then the rules are loaded and applied.
     */
    method OnInstalled(reason: InstallReason, store: SyncStore)
      modifies this, store
      ensures reason == Install ==>
        store.blockedSites == Some([]) && store.masterBlockEnabled == Some(true)
      ensures reason == Update ==>
        && store.masterBlockEnabled == old(store.masterBlockEnabled)
        && store.blockedSites == (match old(store.blockedSites)
             case Some(sites) => if |sites| > 0 then Some(AddMissingBlockLog(sites)) else Some(sites)
             case None => None)
      ensures reason != Install && reason != Update ==>
        store.blockedSites == old(store.blockedSites)
        && store.masterBlockEnabled == old(store.masterBlockEnabled)
      ensures blockedSites == store.blockedSites.GetOr([])
      ensures masterBlockEnabled == store.masterBlockEnabled.GetOr(true)
      ensures dynamicRules == if masterBlockEnabled then DeriveRules(blockedSites) else []
    {
      if reason == Install {
        store.blockedSites := Some([]);
        store.masterBlockEnabled := Some(true);
      }
      if reason == Update {
        match store.blockedSites
        case Some(sites) =>
          if |sites| > 0 {
            store.blockedSites := Some(AddMissingBlockLog(sites));
          }
        case None =>
      }
      LoadAndApplyRules(store);
    }
  }

  // ---------------------------------------------------------------------
  // Worked scenarios

  /** A bare domain yields itself and its `www.` twin. */
  lemma BareDomainGetsWwwTwin()
    ensures ProcessPattern("example.com") == "example.com"
    ensures NeedsWwwTwin("example.com")
  {
    NotContainsByFirstChar("example.com", SchemeSeparator);
    NotContainsByFirstChar("example.com", WildcardLabel);
    assert !StartsWith("example.com", WwwPrefix) by {
      assert "example.com"[..4] != WwwPrefix by {
        assert "example.com"[..4][0] != WwwPrefix[0];
      }
    }
  }

  /** A wildcard-subdomain pattern yields a single rule. */
  lemma WildcardSubdomainHasNoTwin()
    ensures ProcessPattern("*.example.com") == "*.example.com"
    ensures !NeedsWwwTwin("*.example.com")
  {
    NotContainsByFirstChar("*.example.com", SchemeSeparator);
    assert OccursAt("*.example.com", WildcardLabel, 0);
    ContainsIff("*.example.com", WildcardLabel);
  }

  /**
   * A pattern written as a scheme, `://`, a host and a trailing slash-star
   * becomes the bare host, provided neither part holds a colon.
   */
  lemma SchemeAndPathStripped(scheme: string, host: string)
    requires ':' !in scheme && ':' !in host
    ensures ProcessPattern(scheme + SchemeSeparator + host + WildcardPath) == host
  {
    var rest := host + WildcardPath;
    assert ':' !in rest by {
      forall k | 0 <= k < |rest| ensures rest[k] != ':' {
        if k < |host| {
          assert rest[k] == host[k];
        }
      }
    }
    assert scheme + SchemeSeparator + host + WildcardPath == scheme + SchemeSeparator + rest;
    SchemeStripped(scheme, rest);
    WildcardStripped(host);
  }

  /** The text after the first `://` is kept when nothing around it holds a colon. */
  lemma SchemeStripped(scheme: string, rest: string)
    requires ':' !in scheme && ':' !in rest
    ensures StripScheme(scheme + SchemeSeparator + rest) == rest
  {
    var p := scheme + SchemeSeparator + rest;
    assert OccursAt(p, SchemeSeparator, |scheme|);
    FirstOccurrenceByFirstChar(p, SchemeSeparator, |scheme|);
    StripSchemeSpec(p);
    assert p[|scheme| + |SchemeSeparator|..] == rest;
    NotContainsByFirstChar(rest, SchemeSeparator);
  }

  lemma WildcardStripped(host: string)
    ensures StripTrailingWildcard(host + WildcardPath) == host
  {
    assert (host + WildcardPath)[|host|..] == WildcardPath;
  }

  /** A filter that neither starts with `w` nor holds a star gets a `www.` twin. */
  lemma PlainHostNeedsTwin(host: string)
    requires (|host| == 0 || host[0] != 'w') && '*' !in host
    ensures NeedsWwwTwin(host)
  {
    NotContainsByFirstChar(host, WildcardLabel);
  }

  /**
   * An enabled site with a single pattern whose filter needs a twin gets
   * exactly two rules, numbered 1 and 2: the filter, then its `www.` twin.
   */
  lemma TwinnedPatternSite(site: Site, p: string)
    requires site.enabled && site.urls == [p] && NeedsWwwTwin(ProcessPattern(p))
    ensures DeriveRules([site]) == [
      MakeRule(1, RuleBody(ProcessPattern(p), TargetOf(site))),
      MakeRule(2, RuleBody(WwwPrefix + ProcessPattern(p), TargetOf(site)))]
  {
    FlattenLast([], PatternRules(site, p));
    assert UrlRuleLists(site, [p]) == [] + [PatternRules(site, p)];
    FlattenLast([], SiteRules(site));
    assert SiteRuleLists([site]) == [] + [SiteRules(site)];
  }
}
