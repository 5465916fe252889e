/**
 * blocked.js: the page a blocked request lands on. It reads the `site` and
 * `id` query parameters, and when the id names a stored site it appends one
 * timestamped entry to that site's block log, writes the list back and
 * shows the new count.
 */
module BlockedPage {
  import opened Wrappers
  import opened Strings
  import opened Sites
  import Rules

  // ---------------------------------------------------------------------
  // Reading the query

  /** The name of one `name=value` pair: the text before its first `=`, or all of it. */
  function PairName(pair: string): string {
    match IndexOf(pair, "=")
    case None => pair
    case Some(i) => pair[..i]
  }

  /** The value of one `name=value` pair: the text after its first `=`, or nothing. */
  function PairValue(pair: string): string {
    match IndexOf(pair, "=")
    case None => ""
    case Some(i) => pair[i + 1..]
  }

  /** The index of the first pair with this name, as `URLSearchParams.get` looks it up. */
  function FirstPair(pairs: seq<string>, key: string): (r: Option<nat>)
    ensures r.None? <==> forall k :: 0 <= k < |pairs| ==> PairName(pairs[k]) != key
    ensures r.Some? ==> (r.value < |pairs| && PairName(pairs[r.value]) == key
      && forall j :: 0 <= j < r.value ==> PairName(pairs[j]) != key)
  {
    if |pairs| == 0 then None
    else if PairName(pairs[0]) == key then Some(0)
    else match FirstPair(pairs[1..], key)
      case None => None
      case Some(k) => Some(k + 1)
  }

  /**
   * `new URLSearchParams(query).get(key)`, without percent-decoding: the
   * value of the first `&`-separated pair with that name, or `None` when no
   * pair has it.
   */
  function QueryParam(query: string, key: string): (r: Option<string>)
    ensures r.None? <==> forall k :: 0 <= k < |Split(query, "&")| ==> PairName(Split(query, "&")[k]) != key
    ensures r.Some? ==> exists k :: (0 <= k < |Split(query, "&")| && PairName(Split(query, "&")[k]) == key
      && r.value == PairValue(Split(query, "&")[k])
      && forall j :: 0 <= j < k ==> PairName(Split(query, "&")[j]) != key)
  {
    var pairs := Split(query, "&");
    var first := FirstPair(pairs, key);
    if first.None? then None
    else
      assert pairs[first.value] == Split(query, "&")[first.value];
      assert !forall k :: 0 <= k < |Split(query, "&")| ==> PairName(Split(query, "&")[k]) != key;
      Some(PairValue(pairs[first.value]))
  }

  /** Splitting `a & b` where neither part holds an ampersand gives the two parts. */
  lemma SplitTwo(a: string, b: string)
    requires '&' !in a && '&' !in b
    ensures Split(a + "&" + b, "&") == [a, b]
  {
    var s := a + "&" + b;
    assert OccursAt(s, "&", |a|);
    FirstOccurrenceByFirstChar(s, "&", |a|);
    SplitFound(s, "&", |a|);
    assert s[..|a|] == a && s[|a| + 1..] == b;
    NotContainsByFirstChar(b, "&");
    SplitHead(b, "&");
  }

  /** The pair `name=value` where the name holds no `=`. */
  lemma PairParts(name: string, value: string)
    requires '=' !in name
    ensures PairName(name + "=" + value) == name && PairValue(name + "=" + value) == value
  {
    var s := name + "=" + value;
    assert OccursAt(s, "=", |name|);
    FirstOccurrenceByFirstChar(s, "=", |name|);
    assert s[..|name|] == name && s[|name| + 1..] == value;
  }

  /** A pair built from parts without separators holds no ampersand. */
  lemma PairHasNoAmpersand(name: string, value: string)
    requires '&' !in name && '&' !in value
    ensures '&' !in name + "=" + value
  {
    var s := name + "=" + value;
    forall k | 0 <= k < |s| ensures s[k] != '&' {
      if k < |name| {
        assert s[k] == name[k];
      } else if k > |name| {
        assert s[k] == value[k - |name| - 1];
      }
    }
  }

  /** In a query of two pairs with distinct names, the second name finds the second value. */
  lemma SecondParam(n1: string, v1: string, n2: string, v2: string)
    requires '&' !in n1 && '&' !in v1 && '&' !in n2 && '&' !in v2
    requires '=' !in n1 && '=' !in n2 && n1 != n2
    ensures QueryParam(n1 + "=" + v1 + "&" + n2 + "=" + v2, n2) == Some(v2)
  {
    var first, second := n1 + "=" + v1, n2 + "=" + v2;
    PairHasNoAmpersand(n1, v1);
    PairHasNoAmpersand(n2, v2);
    SplitTwo(first, second);
    assert n1 + "=" + v1 + "&" + n2 + "=" + v2 == first + "&" + second;
    PairParts(n1, v1);
    PairParts(n2, v2);
    var pairs := [first, second];
    assert pairs[1..] == [second];
    assert FirstPair(pairs, n2) == Some(1);
  }

  /** A printed integer holds neither an ampersand nor an equals sign. */
  lemma DecimalHasNoSeparator(n: int)
    ensures '&' !in Decimal(n) && '=' !in Decimal(n)
  {
    var d := Decimal(n);
    forall k | 0 <= k < |d| ensures d[k] != '&' && d[k] != '=' {
      assert IsDigit(d[k]) || d[k] == '-';
    }
  }

  /**
   * The redirect of a rule leads back to its site: in the query of the
   * rule's blocked-page path the `id` parameter is the site's id, which
   * `parseInt` reads back, provided the encoded name holds no `&`.
   */
  lemma RedirectCarriesSiteId(t: Rules.BlockedTarget, encode: string -> string)
    requires '&' !in encode(t.siteName)
    ensures QueryParam(Rules.TargetQuery(t, encode), "id") == Some(Decimal(t.siteId))
    ensures ParseInt(QueryParam(Rules.TargetQuery(t, encode), "id").value) == Some(t.siteId)
  {
    var e, d := encode(t.siteName), Decimal(t.siteId);
    DecimalHasNoSeparator(t.siteId);
    assert Rules.TargetQuery(t, encode) == "site" + "=" + e + "&" + "id" + "=" + d;
    assert "site" != "id";
    SecondParam("site", e, "id", d);
    ParseIntDecimal(t.siteId);
  }

  // ---------------------------------------------------------------------
  // Logging the block

  /**
   * The list written back after a block: the first site with the id has a
   * missing log initialised and one entry appended; nothing else changes.
   */
  function LogBlock(sites: seq<Site>, id: int, timestamp: string): (r: seq<Site>)
    ensures |r| == |sites|
    ensures forall k :: 0 <= k < |sites| && !IsFirstWithId(sites, k, id) ==> r[k] == sites[k]
    ensures forall k :: IsFirstWithId(sites, k, id) ==>
      && r[k].blockLog == Some(sites[k].blockLog.GetOr([]) + [LogEntry(timestamp)])
      && LogLength(r[k]) == LogLength(sites[k]) + 1
      && r[k].(blockLog := sites[k].blockLog) == sites[k]
    ensures FindSite(sites, id).None? ==> r == sites
  {
    UpdateFirst(sites, id, AppendLog(LogEntry(timestamp)))
  }

  /**
   * The site a visit logs against: only when the `id` parameter is present
   * and non-empty, a list is stored, and the parsed id names a stored site.
   */
  function VisitTarget(stored: Option<seq<Site>>, idParam: Option<string>): (r: Option<nat>)
    ensures r.Some? <==> (idParam.Some? && idParam.value != [] && stored.Some?
      && ParseInt(idParam.value).Some? && FindSite(stored.value, ParseInt(idParam.value).value).Some?)
    ensures r.Some? ==> r == FindSite(stored.value, ParseInt(idParam.value).value)
  {
    if idParam.None? || idParam.value == [] || stored.None? then None
    else match ParseInt(idParam.value)
      case None => None
      case Some(id) => FindSite(stored.value, id)
  }

  /**
   * The `DOMContentLoaded` handler on the store: with no usable target
   * nothing is written and nothing is shown; otherwise the list with the
   * block logged is written back, and the new log length is shown when the
   * `site` parameter is present and non-empty.
   */
  method OnBlockedPageLoad(store: SyncStore, siteParam: Option<string>, idParam: Option<string>, now: string)
    returns (shownCount: Option<nat>)
    modifies store`blockedSites
    ensures VisitTarget(old(store.blockedSites), idParam).None? ==>
      store.blockedSites == old(store.blockedSites) && shownCount.None?
    ensures VisitTarget(old(store.blockedSites), idParam).Some? ==>
      var k := VisitTarget(old(store.blockedSites), idParam).value;
      var written := LogBlock(old(store.blockedSites).value, old(store.blockedSites).value[k].id, now);
      && store.blockedSites == Some(written)
      && shownCount == if siteParam.Some? && siteParam.value != [] then Some(LogLength(written[k])) else None
  {
    shownCount := None;
    if idParam.Some? && idParam.value != [] {
      if store.blockedSites.Some? {
        var sites := store.blockedSites.value;
        var siteId := ParseInt(idParam.value);
        if siteId.Some? {
          var found := FindSite(sites, siteId.value);
          if found.Some? {
            var k := found.value;
            var log := if sites[k].blockLog.None? then [] else sites[k].blockLog.value;
            log := log + [LogEntry(now)];
            var written := sites[k := sites[k].(blockLog := Some(log))];
            assert written == LogBlock(sites, siteId.value, now);
            store.blockedSites := Some(written);
            if siteParam.Some? && siteParam.value != [] {
              shownCount := Some(|log|);
            }
          }
        }
      }
    }
  }
}
