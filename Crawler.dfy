/**
 * The crawl engine of `crawlPage`: a depth-first, depth-bounded traversal
 * that shares one visited set across all its recursive calls, records one
 * `scripts` row per script source of every page it enters, and follows the
 * links of a page that start with that page's origin.
 *
 * The browser is abstracted as a finite site map from URL to what the page
 * yields: its script sources and its (already absolute) anchor hrefs, in
 * document order. A URL the map does not hold is one whose navigation fails;
 * the failure is not caught anywhere, so it ends the whole session. The
 * origin of a URL is a parameter of the session (`originOf`).
 */
module Crawler {
  import opened Store

  /** Pages at depth 0, 1 and 2 are entered; a call at a greater depth returns at once. */
  const MaxDepth: nat := 2

  /** What rendering one page yields: `script[src]` sources and `a` hrefs, in document order. */
  datatype Page = Page(scriptSrcs: seq<string>, hrefs: seq<string>)

  type Site = map<string, Page>

  /**
   * The state one crawl call works on: the shared visited set, the URLs
   * fetched so far in order (a log kept for the proofs), the table's rows and
   * counter, and whether an uncaught navigation failure has ended the session.
   */
  datatype Visit = Visit(visited: set<string>, fetched: seq<string>, rows: seq<Row>, nextId: nat, aborted: bool)

  /** The links of a page that are followed: those whose text starts with `origin`, in order. */
  function SameOrigin(hrefs: seq<string>, origin: string): (r: seq<string>)
    ensures forall h :: h in r <==> h in hrefs && origin <= h
  {
    if hrefs == [] then []
    else
      var rest := SameOrigin(hrefs[1..], origin);
      assert forall h :: h in hrefs <==> h == hrefs[0] || h in hrefs[1..] by {
        assert hrefs == [hrefs[0]] + hrefs[1..];
      }
      (if origin <= hrefs[0] then [hrefs[0]] else []) + rest
  }

  /** The filter keeps discovery order: filtering a concatenation concatenates the filtered parts. */
  lemma {:induction false} SameOriginAppend(a: seq<string>, b: seq<string>, origin: string)
    ensures SameOrigin(a + b, origin) == SameOrigin(a, origin) + SameOrigin(b, origin)
  {
    if a == [] {
      assert a + b == b;
    } else {
      assert (a + b)[1..] == a[1..] + b;
      SameOriginAppend(a[1..], b, origin);
    }
  }

  /** Termination measure: the levels still open below `depth`. */
  function Budget(depth: nat): nat
  {
    if depth <= MaxDepth + 1 then MaxDepth + 2 - depth else 0
  }

  /** `crawlPage(url, depth, visited)`, as a function of the state before the call. */
  function Crawl(site: Site, originOf: string -> string, url: string, depth: nat, s: Visit): Visit
    decreases Budget(depth), 0, 0
  {
    if depth > MaxDepth || url in s.visited then s
    else
      var s1 := s.(visited := s.visited + {url}, fetched := s.fetched + [url]);
      if url !in site then s1.(aborted := true)
      else
        var page := site[url];
        var s2 := s1.(rows := s1.rows + PageRows(url, page.scriptSrcs, s1.nextId),
                      nextId := s1.nextId + |page.scriptSrcs|);
        CrawlLinks(site, originOf, SameOrigin(page.hrefs, originOf(url)), depth + 1, s2)
  }

  /** The loop over a page's surviving links: each one crawled in turn, until one aborts the session. */
  function CrawlLinks(site: Site, originOf: string -> string, links: seq<string>, depth: nat, s: Visit): Visit
    decreases Budget(depth), 1, |links|
  {
    if links == [] || s.aborted then s
    else CrawlLinks(site, originOf, links[1..], depth, Crawl(site, originOf, links[0], depth, s))
  }

  class CrawlSession {
    const site: Site
    const originOf: string -> string
    const table: ScriptTable
    var visited: set<string>
    ghost var fetched: seq<string>

    ghost predicate Valid()
      reads this, table
    {
      table.Valid()
    }

    ghost function State(aborted: bool): Visit
      reads this, table
    {
      Visit(visited, fetched, table.rows, table.nextId, aborted)
    }

    /** A new session over `table`: `crawlPage(url)` called without a visited set starts from an empty one. */
    constructor (site: Site, originOf: string -> string, table: ScriptTable)
      requires table.Valid()
      ensures Valid()
      ensures this.site == site && this.originOf == originOf && this.table == table
      ensures visited == {} && fetched == []
    {
      this.site := site;
      this.originOf := originOf;
      this.table := table;
      visited := {};
      fetched := [];
    }

    /** One `INSERT` per script source of the page at `url`, in document order. */
    method RecordScripts(url: string, scriptUrls: seq<string>)
      requires Valid()
      modifies table
      ensures Valid()
      ensures table.rows == old(table.rows) + PageRows(url, scriptUrls, old(table.nextId))
      ensures table.nextId == old(table.nextId) + |scriptUrls|
    {
      ghost var rows0, firstId := table.rows, table.nextId;
      for i := 0 to |scriptUrls|
        invariant table.Valid()
        invariant table.rows == rows0 + PageRows(url, scriptUrls[..i], firstId)
        invariant table.nextId == firstId + i
      {
        var _ := table.Insert(url, scriptUrls[i]);
        assert PageRows(url, scriptUrls[..i + 1], firstId) == PageRows(url, scriptUrls[..i], firstId) + [Row(firstId + i, url, scriptUrls[i])];
      }
      assert scriptUrls[..|scriptUrls|] == scriptUrls;
    }

    /**
     * `crawlPage(url, depth, visited)`. Returns false when a navigation
     * failure escaped, which ends the session.
     */
    method CrawlPage(url: string, depth: nat) returns (ok: bool)
      requires Valid()
      modifies this, table
      ensures Valid()
      ensures State(!ok) == Crawl(site, originOf, url, depth, old(State(false)))
      decreases Budget(depth)
    {
      ghost var s0 := State(false);
      if depth > MaxDepth || url in visited {
        return true;
      }
      visited := visited + {url};
      fetched := fetched + [url];
      if url !in site {
        return false;
      }
      var page := site[url];

      RecordScripts(url, page.scriptSrcs);
      var links := SameOrigin(page.hrefs, originOf(url));
      ghost var start := State(false);
      ghost var s1 := s0.(visited := s0.visited + {url}, fetched := s0.fetched + [url]);
      assert start == s1.(rows := s1.rows + PageRows(url, page.scriptSrcs, s1.nextId),
                          nextId := s1.nextId + |page.scriptSrcs|);
      assert Crawl(site, originOf, url, depth, s0) == CrawlLinks(site, originOf, links, depth + 1, start);
      ok := true;
      var i := 0;
      while i < |links| && ok
        invariant 0 <= i <= |links|
        invariant Valid()
        invariant CrawlLinks(site, originOf, links[i..], depth + 1, State(!ok)) == CrawlLinks(site, originOf, links, depth + 1, start)
      {
        assert links[i..][1..] == links[i + 1..];
        ok := CrawlPage(links[i], depth + 1);
        i := i + 1;
      }
      assert CrawlLinks(site, originOf, links[i..], depth + 1, State(!ok)) == State(!ok);
    }
  }

  // ---------------------------------------------------------------------------
  // What a crawl call does to its state

  /** A call too deep, or for a URL already visited, changes nothing: no fetch, no row, no new visited URL. */
  lemma CrawlSkips(site: Site, originOf: string -> string, url: string, depth: nat, s: Visit)
    requires depth > MaxDepth || url in s.visited
    ensures Crawl(site, originOf, url, depth, s) == s
  {
  }

  ghost predicate Distinct(urls: seq<string>)
  {
    forall i, j :: 0 <= i < j < |urls| ==> urls[i] != urls[j]
  }

  /** The rows fetching `urls` in order records, ids counting up from `firstId`; a failed fetch records none. */
  function RowsOf(site: Site, urls: seq<string>, firstId: nat): seq<Row>
  {
    if urls == [] then []
    else
      var here := FetchRows(site, urls[0], firstId);
      here + RowsOf(site, urls[1..], firstId + |here|)
  }

  lemma {:induction false} RowsOfAppend(site: Site, a: seq<string>, b: seq<string>, firstId: nat)
    ensures RowsOf(site, a + b, firstId) == RowsOf(site, a, firstId) + RowsOf(site, b, firstId + |RowsOf(site, a, firstId)|)
  {
    if a == [] {
      assert a + b == b;
    } else {
      var here := FetchRows(site, a[0], firstId);
      var ab := a + b;
      assert ab[0] == a[0] && ab[1..] == a[1..] + b;
      var next := firstId + |here|;
      RowsOfAppend(site, a[1..], b, next);
      ConcatAssoc(here, RowsOf(site, a[1..], next), RowsOf(site, b, next + |RowsOf(site, a[1..], next)|));
    }
  }

  lemma ConcatAssoc(x: seq<Row>, y: seq<Row>, z: seq<Row>)
    ensures x + (y + z) == (x + y) + z
  {
  }

  /**
   * `r` extends `s`: the fetch log and the visited set only grow, and the
   * table gains exactly the rows of the pages fetched since `s`, in fetch
   * order, with ids continuing from `s`'s counter.
   */
  ghost predicate Extends(site: Site, s: Visit, r: Visit)
  {
    && s.fetched <= r.fetched && s.visited <= r.visited
    && r.rows == s.rows + RowsOf(site, r.fetched[|s.fetched|..], s.nextId)
    && r.nextId == s.nextId + |RowsOf(site, r.fetched[|s.fetched|..], s.nextId)|
  }

  /** Two extensions in turn make one: the rows of the second run follow those of the first. */
  lemma ExtendsTransitive(site: Site, s: Visit, t: Visit, r: Visit)
    requires Extends(site, s, t) && Extends(site, t, r)
    ensures Extends(site, s, r)
  {
    SliceSplit(s.fetched, t.fetched, r.fetched);
    RowsOfAppend(site, t.fetched[|s.fetched|..], r.fetched[|t.fetched|..], s.nextId);
  }

  /** What a log grown in two steps gained is what each step gained, in turn. */
  lemma SliceSplit(a: seq<string>, b: seq<string>, c: seq<string>)
    requires a <= b <= c
    ensures c[|a|..] == b[|a|..] + c[|b|..]
  {
  }

  /** A call only extends the state. */
  lemma {:induction false} CrawlRecords(site: Site, originOf: string -> string, url: string, depth: nat, s: Visit)
    ensures Extends(site, s, Crawl(site, originOf, url, depth, s))
    decreases Budget(depth), 0, 0
  {
    var r := Crawl(site, originOf, url, depth, s);
    if depth > MaxDepth || url in s.visited {
      assert r.fetched[|s.fetched|..] == [];
    } else {
      var s1 := s.(visited := s.visited + {url}, fetched := s.fetched + [url]);
      assert s1.fetched[|s.fetched|..] == [url];
      if url in site {
        var page := site[url];
        var s2 := s1.(rows := s1.rows + PageRows(url, page.scriptSrcs, s1.nextId),
                      nextId := s1.nextId + |page.scriptSrcs|);
        assert Extends(site, s, s2);
        CrawlLinksRecords(site, originOf, SameOrigin(page.hrefs, originOf(url)), depth + 1, s2);
        ExtendsTransitive(site, s, s2, r);
      }
    }
  }

  /** The loop over a page's links only extends the state. */
  lemma {:induction false} CrawlLinksRecords(site: Site, originOf: string -> string, links: seq<string>, depth: nat, s: Visit)
    ensures Extends(site, s, CrawlLinks(site, originOf, links, depth, s))
    decreases Budget(depth), 1, |links|
  {
    if links == [] || s.aborted {
      assert s.fetched[|s.fetched|..] == [];
    } else {
      var t := Crawl(site, originOf, links[0], depth, s);
      CrawlRecords(site, originOf, links[0], depth, s);
      CrawlLinksRecords(site, originOf, links[1..], depth, t);
      ExtendsTransitive(site, s, t, CrawlLinks(site, originOf, links, depth, s));
    }
  }

  /**
   * The loop over a concatenation of links crawls the first part to the end,
   * each link's whole subtree before the next link, and then the second part
   * from the state the first part left.
   */
  lemma {:induction false} CrawlLinksAppend(site: Site, originOf: string -> string, a: seq<string>, b: seq<string>, depth: nat, s: Visit)
    ensures CrawlLinks(site, originOf, a + b, depth, s)
            == CrawlLinks(site, originOf, b, depth, CrawlLinks(site, originOf, a, depth, s))
    decreases |a|
  {
    if a == [] {
      assert a + b == b;
    } else if !s.aborted {
      assert (a + b)[1..] == a[1..] + b;
      CrawlLinksAppend(site, originOf, a[1..], b, depth, Crawl(site, originOf, a[0], depth, s));
    }
  }

  /**
   * The session invariant: no URL is in the fetch log twice, the log holds
   * exactly the visited URLs, and the session has aborted exactly when one
   * of them could not be fetched.
   */
  ghost predicate Consistent(site: Site, s: Visit)
  {
    && Distinct(s.fetched)
    && (forall u :: u in s.fetched <==> u in s.visited)
    && (s.aborted <==> exists u :: u in s.fetched && u !in site)
  }

  lemma {:induction false} CrawlConsistent(site: Site, originOf: string -> string, url: string, depth: nat, s: Visit)
    requires Consistent(site, s)
    ensures Consistent(site, Crawl(site, originOf, url, depth, s))
    decreases Budget(depth), 0, 0
  {
    if depth <= MaxDepth && url !in s.visited {
      var s1 := s.(visited := s.visited + {url}, fetched := s.fetched + [url]);
      assert forall u :: u in s1.fetched <==> u in s.fetched || u == url;
      if url in site {
        var page := site[url];
        var s2 := s1.(rows := s1.rows + PageRows(url, page.scriptSrcs, s1.nextId),
                      nextId := s1.nextId + |page.scriptSrcs|);
        CrawlLinksConsistent(site, originOf, SameOrigin(page.hrefs, originOf(url)), depth + 1, s2);
      }
    }
  }

  lemma {:induction false} CrawlLinksConsistent(site: Site, originOf: string -> string, links: seq<string>, depth: nat, s: Visit)
    requires Consistent(site, s)
    ensures Consistent(site, CrawlLinks(site, originOf, links, depth, s))
    decreases Budget(depth), 1, |links|
  {
    if links != [] && !s.aborted {
      CrawlConsistent(site, originOf, links[0], depth, s);
      CrawlLinksConsistent(site, originOf, links[1..], depth, Crawl(site, originOf, links[0], depth, s));
    }
  }

  /**
   * A failed fetch is the last one: every URL fetched before it rendered,
   * and while the session runs every URL fetched so far rendered.
   */
  ghost predicate FailsLast(site: Site, s: Visit)
  {
    if s.aborted then
      && |s.fetched| > 0 && s.fetched[|s.fetched| - 1] !in site
      && forall i :: 0 <= i < |s.fetched| - 1 ==> s.fetched[i] in site
    else
      forall i :: 0 <= i < |s.fetched| ==> s.fetched[i] in site
  }

  lemma {:induction false} CrawlFailsLast(site: Site, originOf: string -> string, url: string, depth: nat, s: Visit)
    requires !s.aborted && FailsLast(site, s)
    ensures FailsLast(site, Crawl(site, originOf, url, depth, s))
    decreases Budget(depth), 0, 0
  {
    if depth <= MaxDepth && url !in s.visited {
      var s1 := s.(visited := s.visited + {url}, fetched := s.fetched + [url]);
      assert forall i :: 0 <= i < |s.fetched| ==> s1.fetched[i] == s.fetched[i];
      if url in site {
        var page := site[url];
        var s2 := s1.(rows := s1.rows + PageRows(url, page.scriptSrcs, s1.nextId),
                      nextId := s1.nextId + |page.scriptSrcs|);
        assert FailsLast(site, s2);
        CrawlLinksFailsLast(site, originOf, SameOrigin(page.hrefs, originOf(url)), depth + 1, s2);
      }
    }
  }

  lemma {:induction false} CrawlLinksFailsLast(site: Site, originOf: string -> string, links: seq<string>, depth: nat, s: Visit)
    requires FailsLast(site, s)
    ensures FailsLast(site, CrawlLinks(site, originOf, links, depth, s))
    decreases Budget(depth), 1, |links|
  {
    if links != [] && !s.aborted {
      CrawlFailsLast(site, originOf, links[0], depth, s);
      CrawlLinksFailsLast(site, originOf, links[1..], depth, Crawl(site, originOf, links[0], depth, s));
    }
  }

  /** `to` is `from`, or is reached from it by following at most `hops` same-origin links. */
  ghost predicate Reach(site: Site, originOf: string -> string, from: string, to: string, hops: nat)
    decreases hops
  {
    || from == to
    || (&& hops > 0
        && from in site
        && exists l :: l in SameOrigin(site[from].hrefs, originOf(from)) && Reach(site, originOf, l, to, hops - 1))
  }

  /**
   * Every URL a call fetches is reached from the call's URL in at most
   * `MaxDepth - depth` same-origin hops; a call deeper than `MaxDepth`
   * fetches nothing.
   */
  lemma {:induction false} CrawlReaches(site: Site, originOf: string -> string, url: string, depth: nat, s: Visit)
    ensures var r := Crawl(site, originOf, url, depth, s);
      && s.fetched <= r.fetched
      && forall u :: u in r.fetched[|s.fetched|..] ==> depth <= MaxDepth && Reach(site, originOf, url, u, MaxDepth - depth)
    decreases Budget(depth), 0, 0
  {
    var r := Crawl(site, originOf, url, depth, s);
    if depth > MaxDepth || url in s.visited {
      assert r.fetched[|s.fetched|..] == [];
    } else {
      var s1 := s.(visited := s.visited + {url}, fetched := s.fetched + [url]);
      assert s1.fetched[|s.fetched|..] == [url];
      if url in site {
        var page := site[url];
        var s2 := s1.(rows := s1.rows + PageRows(url, page.scriptSrcs, s1.nextId),
                      nextId := s1.nextId + |page.scriptSrcs|);
        var links := SameOrigin(page.hrefs, originOf(url));
        assert r == CrawlLinks(site, originOf, links, depth + 1, s2);
        CrawlLinksReach(site, originOf, links, depth + 1, s2);
        SliceSplit(s.fetched, s2.fetched, r.fetched);
        forall u | u in r.fetched[|s2.fetched|..]
          ensures Reach(site, originOf, url, u, MaxDepth - depth)
        {
          var l :| l in links && Reach(site, originOf, l, u, MaxDepth - (depth + 1));
        }
      }
    }
  }

  lemma {:induction false} CrawlLinksReach(site: Site, originOf: string -> string, links: seq<string>, depth: nat, s: Visit)
    ensures var r := CrawlLinks(site, originOf, links, depth, s);
      && s.fetched <= r.fetched
      && forall u :: u in r.fetched[|s.fetched|..] ==>
           depth <= MaxDepth && exists l :: l in links && Reach(site, originOf, l, u, MaxDepth - depth)
    decreases Budget(depth), 1, |links|
  {
    var r := CrawlLinks(site, originOf, links, depth, s);
    if links == [] || s.aborted {
      assert r.fetched[|s.fetched|..] == [];
    } else {
      var t := Crawl(site, originOf, links[0], depth, s);
      assert r == CrawlLinks(site, originOf, links[1..], depth, t);
      CrawlReaches(site, originOf, links[0], depth, s);
      CrawlLinksReach(site, originOf, links[1..], depth, t);
      SliceSplit(s.fetched, t.fetched, r.fetched);
      forall u | u in r.fetched[|s.fetched|..]
        ensures depth <= MaxDepth && exists l :: l in links && Reach(site, originOf, l, u, MaxDepth - depth)
      {
        if u in t.fetched[|s.fetched|..] {
          assert links[0] in links;
        } else {
          var l :| l in links[1..] && Reach(site, originOf, l, u, MaxDepth - depth);
          assert l in links;
        }
      }
    }
  }

  /** Each fetched page's scripts appear once, in order, under that page; a page not fetched has none. */
  lemma {:induction false} RowsOfByPage(site: Site, urls: seq<string>, firstId: nat, pageUrl: string)
    requires Distinct(urls)
    ensures ScriptsOf(ByPage(RowsOf(site, urls, firstId), pageUrl))
            == if pageUrl in urls && pageUrl in site then site[pageUrl].scriptSrcs else []
  {
    if urls != [] {
      var x, tail := urls[0], urls[1..];
      var here := FetchRows(site, x, firstId);
      var rest := RowsOf(site, tail, firstId + |here|);
      assert RowsOf(site, urls, firstId) == here + rest;
      DistinctTail(urls);
      RowsOfByPage(site, tail, firstId + |here|, pageUrl);
      FetchRowsByPage(site, x, firstId, pageUrl);
      ByPageAppend(here, rest, pageUrl);
      var mine, theirs := ScriptsOf(ByPage(here, pageUrl)), ScriptsOf(ByPage(rest, pageUrl));
      ScriptsOfAppend(ByPage(here, pageUrl), ByPage(rest, pageUrl));
      assert ScriptsOf(ByPage(RowsOf(site, urls, firstId), pageUrl)) == mine + theirs;
      if x == pageUrl {
        assert theirs == [];
        assert mine + theirs == mine;
      } else {
        assert mine == [];
        assert mine + theirs == theirs;
      }
    }
  }

  /** The rows one fetch of `url` records: its page's scripts, or none when the fetch fails. */
  function FetchRows(site: Site, url: string, firstId: nat): seq<Row>
  {
    if url in site then PageRows(url, site[url].scriptSrcs, firstId) else []
  }

  lemma FetchRowsByPage(site: Site, url: string, firstId: nat, pageUrl: string)
    ensures ScriptsOf(ByPage(FetchRows(site, url, firstId), pageUrl))
            == if url == pageUrl && url in site then site[url].scriptSrcs else []
  {
    if url in site {
      ByPageOfPageRows(url, site[url].scriptSrcs, firstId, pageUrl);
    }
  }

  lemma DistinctTail(urls: seq<string>)
    requires Distinct(urls) && urls != []
    ensures Distinct(urls[1..]) && urls[0] !in urls[1..]
    ensures forall u :: u in urls <==> u == urls[0] || u in urls[1..]
  {
    assert urls == [urls[0]] + urls[1..];
  }

  lemma ScriptsOfAppend(a: seq<PageEntry>, b: seq<PageEntry>)
    ensures ScriptsOf(a + b) == ScriptsOf(a) + ScriptsOf(b)
  {
  }

  /** The state `crawlPage(start)` begins from: a fresh visited set over a table holding `rows`. */
  function Fresh(rows: seq<Row>, nextId: nat): Visit
  {
    Visit({}, [], rows, nextId, false)
  }

  /**
   * A whole session, `crawlPage(start)` with a fresh visited set: the start
   * URL is fetched first, no URL is fetched twice, the fetched URLs are
   * exactly the visited ones, and the session aborts exactly when some
   * fetched URL could not be rendered.
   */
  lemma SessionFetchesOnce(site: Site, originOf: string -> string, start: string, rows: seq<Row>, nextId: nat)
    ensures var r := Crawl(site, originOf, start, 0, Fresh(rows, nextId));
      && |r.fetched| > 0 && r.fetched[0] == start
      && Distinct(r.fetched)
      && (forall u :: u in r.fetched <==> u in r.visited)
      && (r.aborted <==> exists u :: u in r.fetched && u !in site)
  {
    var s := Fresh(rows, nextId);
    CrawlConsistent(site, originOf, start, 0, s);
    var s1 := s.(visited := s.visited + {start}, fetched := s.fetched + [start]);
    assert s1.fetched == [start];
    if start in site {
      var page := site[start];
      var s2 := s1.(rows := s1.rows + PageRows(start, page.scriptSrcs, s1.nextId),
                    nextId := s1.nextId + |page.scriptSrcs|);
      var links := SameOrigin(page.hrefs, originOf(start));
      assert Crawl(site, originOf, start, 0, s) == CrawlLinks(site, originOf, links, 1, s2);
      CrawlLinksRecords(site, originOf, links, 1, s2);
    }
  }

  /**
   * A session that aborts stops at the failing URL: it is the last one
   * fetched and every URL fetched before it rendered. A session that does
   * not abort rendered every URL it fetched.
   */
  lemma SessionEndsAtFailure(site: Site, originOf: string -> string, start: string, rows: seq<Row>, nextId: nat)
    ensures var r := Crawl(site, originOf, start, 0, Fresh(rows, nextId));
      && |r.fetched| > 0
      && (forall i :: 0 <= i < |r.fetched| - 1 ==> r.fetched[i] in site)
      && (r.aborted <==> r.fetched[|r.fetched| - 1] !in site)
  {
    SessionFetchesOnce(site, originOf, start, rows, nextId);
    CrawlFailsLast(site, originOf, start, 0, Fresh(rows, nextId));
  }

  /** Every URL a session fetches is reached from the start URL in at most `MaxDepth` same-origin hops. */
  lemma SessionStaysInReach(site: Site, originOf: string -> string, start: string, rows: seq<Row>, nextId: nat)
    ensures var r := Crawl(site, originOf, start, 0, Fresh(rows, nextId));
      forall u :: u in r.fetched ==> Reach(site, originOf, start, u, MaxDepth)
  {
    var s := Fresh(rows, nextId);
    var r := Crawl(site, originOf, start, 0, s);
    CrawlReaches(site, originOf, start, 0, s);
    assert r.fetched[|s.fetched|..] == r.fetched;
  }

  /**
   * A session keeps the rows the table held and adds, for each page it
   * fetched, one row per script source of that page in order, and nothing
   * for any other page.
   */
  lemma SessionRecordsScripts(site: Site, originOf: string -> string, start: string, rows: seq<Row>, nextId: nat)
    ensures var r := Crawl(site, originOf, start, 0, Fresh(rows, nextId));
      && |rows| <= |r.rows| && r.rows[..|rows|] == rows
      && forall p :: ScriptsOf(ByPage(r.rows[|rows|..], p)) == if p in r.fetched && p in site then site[p].scriptSrcs else []
  {
    var s := Fresh(rows, nextId);
    var r := Crawl(site, originOf, start, 0, s);
    CrawlRecords(site, originOf, start, 0, s);
    CrawlConsistent(site, originOf, start, 0, s);
    assert r.fetched[|s.fetched|..] == r.fetched;
    assert r.rows[|rows|..] == RowsOf(site, r.fetched, nextId);
    forall p ensures ScriptsOf(ByPage(r.rows[|rows|..], p)) == if p in r.fetched && p in site then site[p].scriptSrcs else [] {
      RowsOfByPage(site, r.fetched, nextId, p);
    }
  }
}
