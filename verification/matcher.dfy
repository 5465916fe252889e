/**
 * blocker.js: the request interceptor. A site pattern is turned into a
 * regular expression by escaping every metacharacter except `*` and then
 * replacing `*` by `.*`; the expression is anchored at both ends and tested
 * against the request URL. The regular expressions this construction can
 * produce are read back as glob tokens (`Tokenize`), whose anchored
 * semantics is `TokensMatch`. The listener marker is a field of `Blocker`.
 */
module Matcher {
  import opened Wrappers
  import opened Strings
  import opened Sites
  import opened Seqs

  // ---------------------------------------------------------------------
  // From pattern to regular expression

  /** The characters of the escaping character class: `. + ? ^ $ { } ( ) | [ ] \`. */
  const RegexMeta := ".+?^${}()|[]\\"

  predicate IsRegexMeta(c: char) {
    c in RegexMeta
  }

  /** One character after the escaping pass: a backslash goes before each metacharacter. */
  function EscapeChar(c: char): string {
    if IsRegexMeta(c) then ['\\', c] else [c]
  }

  /** The first `replace`: every metacharacter escaped, every other character (star included) kept. */
  function Escape(p: string): (r: string)
    ensures |r| >= |p|
    ensures '*' in p <==> '*' in r
  {
    if |p| == 0 then "" else EscapeChar(p[0]) + Escape(p[1..])
  }

  /** Reads an escaped pattern back: a backslash stands for the character after it. */
  function Unescape(r: string): string
    decreases |r|
  {
    if |r| == 0 then ""
    else if r[0] == '\\' && |r| >= 2 then [r[1]] + Unescape(r[2..])
    else [r[0]] + Unescape(r[1..])
  }

  /** Escaping loses nothing: removing the backslashes it added gives the pattern back. */
  lemma {:induction false} UnescapeEscape(p: string)
    ensures Unescape(Escape(p)) == p
    decreases |p|
  {
    if |p| > 0 {
      var rest := Escape(p[1..]);
      UnescapeEscape(p[1..]);
      var e := Escape(p);
      assert e == EscapeChar(p[0]) + rest;
      if IsRegexMeta(p[0]) {
        assert e[0] == '\\' && e[1] == p[0] && e[2..] == rest;
      } else {
        assert p[0] != '\\';
        assert e[0] == p[0] && e[1..] == rest;
      }
      assert p == [p[0]] + p[1..];
    }
  }

  /** The second `replace`: every star becomes dot-star. */
  function StarToDotStar(s: string): string {
    if |s| == 0 then ""
    else (if s[0] == '*' then ".*" else [s[0]]) + StarToDotStar(s[1..])
  }

  /** The body of `new RegExp('^' + regexPattern + '$')`. */
  function RegexSource(pattern: string): string {
    StarToDotStar(Escape(pattern))
  }

  lemma {:induction false} StarToDotStarAppend(a: string, b: string)
    ensures StarToDotStar(a + b) == StarToDotStar(a) + StarToDotStar(b)
    decreases |a|
  {
    if |a| == 0 {
      assert a + b == b;
    } else {
      assert (a + b)[0] == a[0];
      assert (a + b)[1..] == a[1..] + b;
      StarToDotStarAppend(a[1..], b);
    }
  }

  // ---------------------------------------------------------------------
  // Glob tokens and their anchored matching

  /** What a piece of the constructed expression stands for: one literal character, or `.*`. */
  datatype Token = Literal(c: char) | AnyRun

  /** The JavaScript line terminators, which `.` does not match. */
  predicate IsLineTerminator(c: char) {
    c == '\n' || c == '\r' || c == '\U{2028}' || c == '\U{2029}'
  }

  predicate NoLineTerminator(u: string) {
    forall k :: 0 <= k < |u| ==> !IsLineTerminator(u[k])
  }

  function Cons(t: Token, rest: Option<seq<Token>>): Option<seq<Token>> {
    match rest
    case None => None
    case Some(ts) => Some([t] + ts)
  }

  /** How a token is written in an expression: an escaped or plain character, or `.*`. */
  function TokenSource(t: Token): string {
    match t
    case Literal(c) => EscapeChar(c)
    case AnyRun => ".*"
  }

  /** The expression that spells a token sequence. */
  function Render(ts: seq<Token>): string {
    if |ts| == 0 then "" else TokenSource(ts[0]) + Render(ts[1..])
  }

  /**
   * Reads an expression built from escaped metacharacters, `.*` and plain
   * characters; anything else (a bare metacharacter, a lone star) is `None`.
   * What it reads is exactly what the expression spells.
   */
  function Tokenize(r: string): (ts: Option<seq<Token>>)
    ensures ts.Some? ==> |ts.value| <= |r|
    ensures ts.Some? ==> Render(ts.value) == r
  {
    if |r| == 0 then Some([])
    else if r[0] == '\\' then
      if |r| >= 2 && IsRegexMeta(r[1]) then Cons(Literal(r[1]), Tokenize(r[2..])) else None
    else if r[0] == '.' then
      if |r| >= 2 && r[1] == '*' then Cons(AnyRun, Tokenize(r[2..])) else None
    else if IsRegexMeta(r[0]) || r[0] == '*' then None
    else Cons(Literal(r[0]), Tokenize(r[1..]))
  }

  /** Every token sequence without a literal star is read back from its spelling. */
  lemma {:induction false} TokenizeRender(ts: seq<Token>)
    requires forall k :: 0 <= k < |ts| ==> ts[k] != Literal('*')
    ensures Tokenize(Render(ts)) == Some(ts)
    decreases |ts|
  {
    if |ts| > 0 {
      var rest := Render(ts[1..]);
      TokenizeRender(ts[1..]);
      var r := Render(ts);
      assert r == TokenSource(ts[0]) + rest;
      assert ts == [ts[0]] + ts[1..];
      match ts[0]
      case AnyRun =>
        assert r[0] == '.' && r[1] == '*' && r[2..] == rest;
      case Literal(c) =>
        if IsRegexMeta(c) {
          assert r[0] == '\\' && r[1] == c && r[2..] == rest;
        } else {
          assert r[0] == c && r[1..] == rest;
        }
    }
  }

  /** The glob reading of a pattern: a star is a run, every other character itself. */
  function GlobTokens(p: string): (ts: seq<Token>)
    ensures |ts| == |p|
    ensures forall k :: 0 <= k < |p| ==> ts[k] == if p[k] == '*' then AnyRun else Literal(p[k])
  {
    if |p| == 0 then [] else [if p[0] == '*' then AnyRun else Literal(p[0])] + GlobTokens(p[1..])
  }

  /**
   * Anchored matching: the tokens match the whole of `u`, a run never
   * crossing a line terminator. Without runs, a match is one character per token.
   */
  function TokensMatch(ts: seq<Token>, u: string): (r: bool)
    decreases |ts|, |u|
    ensures r && (forall k :: 0 <= k < |ts| ==> ts[k].Literal?) ==> |u| == |ts|
  {
    if |ts| == 0 then |u| == 0
    else match ts[0]
      case Literal(c) => |u| > 0 && u[0] == c && TokensMatch(ts[1..], u[1..])
      case AnyRun =>
        TokensMatch(ts[1..], u) || (|u| > 0 && !IsLineTerminator(u[0]) && TokensMatch(ts, u[1..]))
  }

  /**
   * `new RegExp('^' + regexPattern + '$').test(url)` for a site pattern: it
   * holds exactly when the pattern, read as a glob, matches the whole URL.
   */
  function PatternMatches(pattern: string, url: string): (r: bool)
    ensures r <==> TokensMatch(GlobTokens(pattern), url)
  {
    RegexSourceIsGlob(pattern);
    match Tokenize(RegexSource(pattern))
    case Some(ts) => TokensMatch(ts, url)
    case None => false
  }

  /** The constructed expression spells the glob reading of the pattern. */
  lemma {:induction false} RegexSourceRender(p: string)
    ensures RegexSource(p) == Render(GlobTokens(p))
    decreases |p|
  {
    if |p| > 0 {
      var c := p[0];
      StarToDotStarAppend(EscapeChar(c), Escape(p[1..]));
      RegexSourceRender(p[1..]);
      var ts := GlobTokens(p);
      assert ts[1..] == GlobTokens(p[1..]);
      if c == '*' {
        assert StarToDotStar(EscapeChar(c)) == ".*";
      } else if IsRegexMeta(c) {
        assert StarToDotStar(['\\', c]) == ['\\', c];
      } else {
        assert StarToDotStar([c]) == [c];
      }
    }
  }

  /** The escaping leaves nothing the expression syntax could misread: it denotes exactly the glob. */
  lemma RegexSourceIsGlob(p: string)
    ensures Tokenize(RegexSource(p)) == Some(GlobTokens(p))
  {
    RegexSourceRender(p);
    TokenizeRender(GlobTokens(p));
  }

  /** The try/catch fallback never fires: every pattern yields a valid expression. */
  lemma PatternsAlwaysCompile(p: string, url: string)
    ensures Tokenize(RegexSource(p)).Some?
    ensures PatternMatches(p, url) == TokensMatch(GlobTokens(p), url)
  {
    RegexSourceIsGlob(p);
  }

  lemma {:induction false} GlobTokensAppend(a: string, b: string)
    ensures GlobTokens(a + b) == GlobTokens(a) + GlobTokens(b)
  {
    assert |GlobTokens(a + b)| == |GlobTokens(a) + GlobTokens(b)|;
    forall k | 0 <= k < |a + b| ensures GlobTokens(a + b)[k] == (GlobTokens(a) + GlobTokens(b))[k] {
      if k < |a| {
        assert (a + b)[k] == a[k];
      } else {
        assert (a + b)[k] == b[k - |a|];
      }
    }
  }

  /**
   * A star-free stretch of pattern consumes exactly itself: the tokens match
   * iff the URL starts with that stretch and the rest matches what follows.
   */
  lemma {:induction false} LiteralsConsume(p: string, rest: seq<Token>, u: string)
    requires '*' !in p
    ensures TokensMatch(GlobTokens(p) + rest, u) <==> StartsWith(u, p) && TokensMatch(rest, u[|p|..])
    decreases |p|
  {
    if |p| == 0 {
      assert GlobTokens(p) + rest == rest;
      assert u[0..] == u;
    } else {
      var ts := GlobTokens(p) + rest;
      assert ts[0] == Literal(p[0]);
      assert ts[1..] == GlobTokens(p[1..]) + rest;
      if |u| > 0 {
        LiteralsConsume(p[1..], rest, u[1..]);
        StartsWithCons(u, p);
        if |p| <= |u| {
          assert u[1..][|p[1..]|..] == u[|p|..];
        }
      }
    }
  }

  /** The tokens of a star-free pattern match only the string equal to it. */
  lemma LiteralsMatchExactly(p: string, u: string)
    requires '*' !in p
    ensures TokensMatch(GlobTokens(p), u) <==> u == p
  {
    assert GlobTokens(p) + [] == GlobTokens(p);
    LiteralsConsume(p, [], u);
    if StartsWith(u, p) && |u[|p|..]| == 0 {
      assert u == u[..|p|];
    }
  }

  /** A star-free pattern matches only the URL equal to it. */
  lemma NoStarMatchesExactly(p: string, u: string)
    requires '*' !in p
    ensures PatternMatches(p, u) <==> u == p
  {
    LiteralsMatchExactly(p, u);
  }

  /** A lone run matches exactly the strings without a line terminator. */
  lemma {:induction false} RunMatches(u: string)
    ensures TokensMatch([AnyRun], u) <==> NoLineTerminator(u)
    decreases |u|
  {
    assert [AnyRun][1..] == [];
    if |u| > 0 {
      RunMatches(u[1..]);
      assert NoLineTerminator(u) <==> !IsLineTerminator(u[0]) && NoLineTerminator(u[1..]) by {
        if !IsLineTerminator(u[0]) && NoLineTerminator(u[1..]) {
          forall k | 0 <= k < |u| ensures !IsLineTerminator(u[k]) {
            if k > 0 {
              assert u[k] == u[1..][k - 1];
            }
          }
        }
        if NoLineTerminator(u) {
          forall k | 0 <= k < |u[1..]| ensures !IsLineTerminator(u[1..][k]) {
            assert u[1..][k] == u[k + 1];
          }
        }
      }
    }
  }

  /** A non-empty prefix is free of line terminators iff its head and the rest of it are. */
  lemma NoLineTerminatorPrefix(u: string, i: nat)
    requires 0 < i <= |u|
    ensures NoLineTerminator(u[..i]) <==> !IsLineTerminator(u[0]) && NoLineTerminator(u[1..][..i - 1])
  {
    var w, v := u[..i], u[1..][..i - 1];
    assert w == [u[0]] + v;
    if !IsLineTerminator(u[0]) && NoLineTerminator(v) {
      forall k | 0 <= k < |w| ensures !IsLineTerminator(w[k]) {
        if k > 0 {
          assert w[k] == v[k - 1];
        }
      }
    }
    if NoLineTerminator(w) {
      forall k | 0 <= k < |v| ensures !IsLineTerminator(v[k]) {
        assert v[k] == w[k + 1];
      }
    }
  }

  /** A run can take any line-terminator-free stretch before the rest of the pattern. */
  lemma {:induction false} RunConsumeSound(rest: seq<Token>, u: string, i: nat)
    requires i <= |u| && NoLineTerminator(u[..i]) && TokensMatch(rest, u[i..])
    ensures TokensMatch([AnyRun] + rest, u)
    decreases i
  {
    var ts := [AnyRun] + rest;
    assert ts[0] == AnyRun && ts[1..] == rest;
    if i == 0 {
      assert u[0..] == u;
    } else {
      NoLineTerminatorPrefix(u, i);
      assert u[1..][i - 1..] == u[i..];
      RunConsumeSound(rest, u[1..], i - 1);
    }
  }

  /** A match of a run and the rest of the pattern splits the URL where the run ends. */
  lemma {:induction false} RunConsumeComplete(rest: seq<Token>, u: string)
    requires TokensMatch([AnyRun] + rest, u)
    ensures exists i :: 0 <= i <= |u| && NoLineTerminator(u[..i]) && TokensMatch(rest, u[i..])
    decreases |u|
  {
    var ts := [AnyRun] + rest;
    assert ts[0] == AnyRun && ts[1..] == rest;
    if TokensMatch(rest, u) {
      assert u[..0] == [] && u[0..] == u;
    } else {
      var v := u[1..];
      RunConsumeComplete(rest, v);
      var j :| 0 <= j <= |v| && NoLineTerminator(v[..j]) && TokensMatch(rest, v[j..]);
      NoLineTerminatorPrefix(u, j + 1);
      assert v[j..] == u[j + 1..];
    }
  }

  /**
   * A run followed by more pattern, as in `*.example.com`: the run takes some
   * stretch of the URL free of line terminators, and the rest of the
   * pattern matches what is left.
   */
  lemma RunConsume(rest: seq<Token>, u: string)
    ensures TokensMatch([AnyRun] + rest, u) <==>
      exists i :: 0 <= i <= |u| && NoLineTerminator(u[..i]) && TokensMatch(rest, u[i..])
  {
    if TokensMatch([AnyRun] + rest, u) {
      RunConsumeComplete(rest, u);
    }
    if exists i :: 0 <= i <= |u| && NoLineTerminator(u[..i]) && TokensMatch(rest, u[i..]) {
      var i :| 0 <= i <= |u| && NoLineTerminator(u[..i]) && TokensMatch(rest, u[i..]);
      RunConsumeSound(rest, u, i);
    }
  }

  /** The pattern `*` matches every URL without a line terminator, and no other. */
  lemma StarMatchesAll(u: string)
    ensures PatternMatches("*", u) <==> NoLineTerminator(u)
  {
    RegexSourceIsGlob("*");
    assert GlobTokens("*") == [AnyRun];
    RunMatches(u);
  }

  /**
   * A pattern that is a star-free prefix followed by one star matches exactly
   * the URLs that start with that prefix (their remainder free of line terminators).
   */
  lemma PrefixStarMatches(p: string, u: string)
    requires '*' !in p
    ensures PatternMatches(p + "*", u) <==> StartsWith(u, p) && NoLineTerminator(u[|p|..])
  {
    RegexSourceIsGlob(p + "*");
    GlobTokensAppend(p, "*");
    assert GlobTokens("*") == [AnyRun];
    LiteralsConsume(p, [AnyRun], u);
    if |p| <= |u| {
      RunMatches(u[|p|..]);
    }
  }

  /**
   * A leading star then a star-free suffix, as in `*.example.com`, matches
   * exactly the URLs that end with the suffix, the part before it free of
   * line terminators.
   */
  lemma StarSuffixMatches(p: string, u: string)
    requires '*' !in p
    ensures PatternMatches("*" + p, u) <==>
      (EndsWith(u, p) && NoLineTerminator(u[..|u| - |p|]))
  {
    GlobTokensAppend("*", p);
    assert GlobTokens("*") == [AnyRun];
    RunConsume(GlobTokens(p), u);
    forall i | 0 <= i <= |u| ensures TokensMatch(GlobTokens(p), u[i..]) <==> u[i..] == p {
      LiteralsMatchExactly(p, u[i..]);
    }
    if EndsWith(u, p) && NoLineTerminator(u[..|u| - |p|]) {
      var i := |u| - |p|;
      assert u[i..] == p;
      assert TokensMatch(GlobTokens(p), u[i..]);
    }
  }

  // ---------------------------------------------------------------------
  // The callback

  /** What `blockingCallback` returns: `{}` or `{redirectUrl}`. */
  datatype Response = Proceed | Redirect(redirectUrl: string)

  /** `site.urls.some(pattern => …)`. */
  function AnyPatternMatches(patterns: seq<string>, url: string): (r: bool)
    ensures r <==> exists j :: 0 <= j < |patterns| && PatternMatches(patterns[j], url)
  {
    if |patterns| == 0 then false
    else PatternMatches(patterns[0], url) || AnyPatternMatches(patterns[1..], url)
  }

  /** `blockedSites.some(site => site.enabled && …)`. */
  function AnySiteBlocks(sites: seq<Site>, url: string): (r: bool)
    ensures r <==> exists i :: 0 <= i < |sites| && sites[i].enabled && AnyPatternMatches(sites[i].urls, url)
  {
    if |sites| == 0 then false
    else (sites[0].enabled && AnyPatternMatches(sites[0].urls, url)) || AnySiteBlocks(sites[1..], url)
  }

  /**
   * `blockingCallback`: with blocking off, never a redirect; with it on, a
   * redirect to the blocked page exactly when some pattern of some enabled
   * site matches the whole URL.
   */
  function BlockingCallback(master: bool, sites: seq<Site>, url: string, blockedPage: string): (r: Response)
    ensures !master ==> r == Proceed
    ensures r.Redirect? <==> master && exists i, j ::
      (0 <= i < |sites| && sites[i].enabled && 0 <= j < |sites[i].urls|
       && PatternMatches(sites[i].urls[j], url))
    ensures r.Redirect? ==> r.redirectUrl == blockedPage
  {
    if !master then Proceed
    else if AnySiteBlocks(sites, url) then Redirect(blockedPage)
    else Proceed
  }

  // ---------------------------------------------------------------------
  // The listener marker

  /** The patterns of the enabled sites, site by site. */
  function EnabledUrlLists(sites: seq<Site>): (r: seq<seq<string>>)
    ensures |r| == |sites|
    ensures forall i :: 0 <= i < |sites| ==> r[i] == if sites[i].enabled then sites[i].urls else []
  {
    seq(|sites|, i requires 0 <= i < |sites| => if sites[i].enabled then sites[i].urls else [])
  }

  /** `allUrls`: every pattern of every enabled site, in order. */
  function EnabledUrls(sites: seq<Site>): seq<string> {
    Flatten(EnabledUrlLists(sites))
  }

  /** `allUrls` is non-empty iff some enabled site lists at least one pattern. */
  lemma EnabledUrlsNonEmpty(sites: seq<Site>)
    ensures |EnabledUrls(sites)| > 0 <==> exists i :: 0 <= i < |sites| && sites[i].enabled && |sites[i].urls| > 0
  {
    var lists := EnabledUrlLists(sites);
    if |EnabledUrls(sites)| > 0 {
      FlattenSound(lists, 0);
      var i :| 0 <= i < |lists| && EnabledUrls(sites)[0] in lists[i];
    }
    if exists i :: 0 <= i < |sites| && sites[i].enabled && |sites[i].urls| > 0 {
      var i :| 0 <= i < |sites| && sites[i].enabled && |sites[i].urls| > 0;
      FlattenComplete(lists, i);
      assert sites[i].urls[0] in lists[i];
    }
  }

  /** The loops of `updateBlockingRules` that push every enabled pattern into `allUrls`. */
  method CollectEnabledUrls(sites: seq<Site>) returns (allUrls: seq<string>)
    ensures allUrls == EnabledUrls(sites)
  {
    allUrls := [];
    ghost var lists := EnabledUrlLists(sites);
    for i := 0 to |sites|
      invariant allUrls == Flatten(lists[..i])
    {
      FlattenPrefix(lists, i);
      var site := sites[i];
      if site.enabled {
        for j := 0 to |site.urls|
          invariant allUrls == Flatten(lists[..i]) + site.urls[..j]
        {
          assert site.urls[..j + 1] == site.urls[..j] + [site.urls[j]];
          allUrls := allUrls + [site.urls[j]];
        }
        assert site.urls[..|site.urls|] == lists[i];
      } else {
        assert lists[i] == [];
      }
    }
    assert lists[..|sites|] == lists;
  }

  /** The value `updateBlockingRules` leaves in `currentListenerId`. */
  function ListenerMarker(master: bool, sites: seq<Site>): Option<int> {
    if master && |EnabledUrls(sites)| > 0 then Some(1) else None
  }

  /**
   * The listener is registered whenever the callback could redirect: a
   * redirect implies the marker is set.
   */
  lemma ListenerCoversRedirects(master: bool, sites: seq<Site>, url: string, blockedPage: string)
    requires BlockingCallback(master, sites, url, blockedPage).Redirect?
    ensures ListenerMarker(master, sites) == Some(1)
  {
    var i, j :| 0 <= i < |sites| && sites[i].enabled && 0 <= j < |sites[i].urls|
      && PatternMatches(sites[i].urls[j], url);
    EnabledUrlsNonEmpty(sites);
  }

  /** blocker.js's module state: the cached settings and the listener marker. */
  class Blocker {
    var blockedSites: seq<Site>
    var masterBlockEnabled: bool
    var currentListenerId: Option<int>

    /** The module-level initial values. */
    constructor ()
      ensures blockedSites == [] && masterBlockEnabled && currentListenerId == None
    {
      blockedSites := [];
      masterBlockEnabled := true;
      currentListenerId := None;
    }

    /** The callback on the current state. */
    function Intercept(url: string, blockedPage: string): Response
      reads this
    {
      BlockingCallback(masterBlockEnabled, blockedSites, url, blockedPage)
    }

    /**
     * `updateBlockingRules`: drop the listener, then register it again only
     * when blocking is on and some enabled site lists a pattern.
     */
    method UpdateBlockingRules()
      modifies this`currentListenerId
      ensures currentListenerId == ListenerMarker(masterBlockEnabled, blockedSites)
      ensures currentListenerId == Some(1) <==> (masterBlockEnabled
        && exists i :: 0 <= i < |blockedSites| && blockedSites[i].enabled && |blockedSites[i].urls| > 0)
    {
      if currentListenerId != None {
        currentListenerId := None;
      }
      EnabledUrlsNonEmpty(blockedSites);
      if !masterBlockEnabled {
        return;
      }
      var allUrls := CollectEnabledUrls(blockedSites);
      if |allUrls| > 0 {
        currentListenerId := Some(1);
      }
    }
  }
}
