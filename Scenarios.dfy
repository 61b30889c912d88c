/**
 * Small sites crawled end to end. The origin of each page is given as a
 * requirement on `originOf`, the value `new URL(page).origin` has for it.
 */
module Scenarios {
  import opened Store
  import opened Crawler

  const Origin: string := "https://a.test"
  const Home: string := "https://a.test/"
  const Inner: string := "https://a.test/b"
  const Foreign: string := "https://ext.test/c"
  const ScriptX: string := "https://cdn.test/x.js"
  const ScriptY: string := "https://cdn.test/y.js"

  lemma HomeLinks()
    ensures SameOrigin([Inner, Foreign], Origin) == [Inner]
  {
    assert Inner == Origin + "/b";
    assert !(Origin <= Foreign) by { assert Foreign[8] == 'e' && Origin[8] == 'a'; }
    assert [Inner, Foreign][1..] == [Foreign] && [Foreign][1..] == [];
    assert SameOrigin([Foreign], Origin) == [] + SameOrigin([], Origin);
    assert SameOrigin([Inner, Foreign], Origin) == [Inner] + SameOrigin([Foreign], Origin);
  }

  /**
   * The start page embeds one script and links to a page of its own origin
   * and to a page elsewhere; the page of the same origin embeds one script
   * and has no links. The crawl records both scripts, each under its page,
   * and never fetches the foreign page.
   */
  lemma SameOriginOnly(originOf: string -> string)
    requires originOf(Home) == Origin && originOf(Inner) == Origin
    ensures var site := map[Home := Page([ScriptX], [Inner, Foreign]), Inner := Page([ScriptY], [])];
      var r := Crawl(site, originOf, Home, 0, Fresh([], FirstId));
      && r.fetched == [Home, Inner]
      && r.rows == [Row(1, Home, ScriptX), Row(2, Inner, ScriptY)]
      && !r.aborted
  {
    var site := map[Home := Page([ScriptX], [Inner, Foreign]), Inner := Page([ScriptY], [])];
    HomeLinks();
    var s0 := Fresh([], FirstId);
    var s1 := s0.(visited := s0.visited + {Home}, fetched := s0.fetched + [Home]);
    var s2 := s1.(rows := s1.rows + PageRows(Home, [ScriptX], s1.nextId), nextId := s1.nextId + 1);
    assert Crawl(site, originOf, Home, 0, s0) == CrawlLinks(site, originOf, [Inner], 1, s2);
    var t1 := s2.(visited := s2.visited + {Inner}, fetched := s2.fetched + [Inner]);
    var t2 := t1.(rows := t1.rows + PageRows(Inner, [ScriptY], t1.nextId), nextId := t1.nextId + 1);
    assert Crawl(site, originOf, Inner, 1, s2) == CrawlLinks(site, originOf, [], 2, t2);
    assert [Inner][1..] == [];
  }

  const P0: string := "https://a.test/0"
  const P1: string := "https://a.test/1"
  const P2: string := "https://a.test/2"
  const P3: string := "https://a.test/3"

  lemma ChainLinks(p: string)
    requires Origin <= p
    ensures SameOrigin([p], Origin) == [p]
  {
    assert [p][1..] == [];
  }

  const Chain: Site := map[P0 := Page(["s0"], [P1]), P1 := Page(["s1"], [P2]),
                           P2 := Page(["s2"], [P3]), P3 := Page(["s3"], [])]

  /**
   * A straight chain p0 -> p1 -> p2 -> p3 of one origin, each page with its
   * own script: p3 would be entered at depth 3, so it is never fetched and
   * its script is never recorded.
   */
  lemma ChainStopsAtDepthTwo(originOf: string -> string)
    requires originOf(P0) == Origin && originOf(P1) == Origin && originOf(P2) == Origin
    ensures var r := Crawl(Chain, originOf, P0, 0, Fresh([], FirstId));
      && r.fetched == [P0, P1, P2]
      && r.rows == [Row(1, P0, "s0"), Row(2, P1, "s1"), Row(3, P2, "s2")]
  {
    var site := Chain;
    assert P1 == Origin + "/1";
    assert site[P0] == Page(["s0"], [P1]);
    ChainLinks(P1);
    assert [P1][1..] == [];
    var s0 := Fresh([], FirstId);
    var a1 := s0.(visited := s0.visited + {P0}, fetched := s0.fetched + [P0]);
    var a2 := a1.(rows := a1.rows + PageRows(P0, ["s0"], a1.nextId), nextId := a1.nextId + 1);
    assert Crawl(site, originOf, P0, 0, s0) == CrawlLinks(site, originOf, [P1], 1, a2);
    assert P0[15] == '0' && P1[15] == '1' && P2[15] == '2';
    ChainFromP1(originOf, a2);
    assert CrawlLinks(site, originOf, [P1], 1, a2) == Crawl(site, originOf, P1, 1, a2);
    assert a2.rows == [Row(1, P0, "s0")];
  }

  /** Entered at depth 1, p1 and then p2 are crawled, each adding its script; p3 lies one level too deep. */
  lemma ChainFromP1(originOf: string -> string, s: Visit)
    requires originOf(P1) == Origin && originOf(P2) == Origin
    requires P1 !in s.visited && P2 !in s.visited && P1 != P2 && !s.aborted
    ensures Crawl(Chain, originOf, P1, 1, s)
            == s.(visited := s.visited + {P1, P2}, fetched := s.fetched + [P1, P2],
                  rows := s.rows + [Row(s.nextId, P1, "s1"), Row(s.nextId + 1, P2, "s2")], nextId := s.nextId + 2)
  {
    var site := Chain;
    assert P2 == Origin + "/2" && P3 == Origin + "/3";
    assert site[P1] == Page(["s1"], [P2]) && site[P2] == Page(["s2"], [P3]);
    ChainLinks(P2);
    ChainLinks(P3);
    assert [P2][1..] == [] && [P3][1..] == [];
    var b1 := s.(visited := s.visited + {P1}, fetched := s.fetched + [P1]);
    var b2 := b1.(rows := b1.rows + PageRows(P1, ["s1"], b1.nextId), nextId := b1.nextId + 1);
    assert Crawl(site, originOf, P1, 1, s) == CrawlLinks(site, originOf, [P2], 2, b2);
    var c1 := b2.(visited := b2.visited + {P2}, fetched := b2.fetched + [P2]);
    var c2 := c1.(rows := c1.rows + PageRows(P2, ["s2"], c1.nextId), nextId := c1.nextId + 1);
    assert Crawl(site, originOf, P2, 2, b2) == CrawlLinks(site, originOf, [P3], 3, c2);
    assert Crawl(site, originOf, P3, 3, c2) == c2;
    assert CrawlLinks(site, originOf, [P3], 3, c2) == c2;
    assert CrawlLinks(site, originOf, [P2], 2, b2) == Crawl(site, originOf, P2, 2, b2);
    assert c2.rows == s.rows + [Row(s.nextId, P1, "s1"), Row(s.nextId + 1, P2, "s2")];
  }

  const Lookalike: string := "https://a.test.evil.com/x"

  /**
   * The link filter is a plain text-prefix test, so a link to another host
   * whose name merely begins with the page's host passes it.
   */
  lemma PrefixAdmitsLookalikeHost()
    ensures SameOrigin([Lookalike], Origin) == [Lookalike]
  {
    assert Lookalike == Origin + ".evil.com/x";
    assert [Lookalike][1..] == [];
  }

  const Q0: string := "https://a.test/q0"
  const Q1: string := "https://a.test/q1"
  const Q2: string := "https://a.test/q2"
  const Q3: string := "https://a.test/q3"

  const Shortcut: Site := map[Q0 := Page([], [Q1, Q2]), Q1 := Page([], [Q2]),
                              Q2 := Page([], [Q3]), Q3 := Page([], [])]

  /** q3 is two same-origin hops from q0, through q0's own link to q2. */
  lemma ShortcutReachable(originOf: string -> string)
    requires originOf(Q0) == Origin && originOf(Q2) == Origin
    ensures Reach(Shortcut, originOf, Q0, Q3, MaxDepth)
  {
    assert Q2 == Origin + "/q2" && Q3 == Origin + "/q3";
    assert [Q1, Q2][1..] == [Q2] && [Q2][1..] == [] && [Q3][1..] == [];
    assert SameOrigin([Q3], Origin) == [Q3];
    assert Reach(Shortcut, originOf, Q3, Q3, 0);
    assert Reach(Shortcut, originOf, Q2, Q3, 1) by { assert Q3 in SameOrigin(Shortcut[Q2].hrefs, originOf(Q2)); }
    assert Q2 in SameOrigin(Shortcut[Q0].hrefs, originOf(Q0));
  }

  /**
   * Depth-first order with one shared visited set: q2 is first entered at
   * depth 2 through q1, so its link to q3 is not followed; when q0's own
   * link to q2 comes up, q2 is already visited. q3, although within two hops
   * of q0, is never fetched: the crawl does not fetch every page in reach.
   */
  lemma DepthFirstSkipsShortcut(originOf: string -> string)
    requires originOf(Q0) == Origin && originOf(Q1) == Origin && originOf(Q2) == Origin
    ensures var r := Crawl(Shortcut, originOf, Q0, 0, Fresh([], FirstId));
      && r.fetched == [Q0, Q1, Q2]
      && Q3 !in r.visited
  {
    var site := Shortcut;
    assert Q1 == Origin + "/q1" && Q2 == Origin + "/q2";
    assert Q0[16] == '0' && Q1[16] == '1' && Q2[16] == '2' && Q3[16] == '3';
    assert site[Q0] == Page([], [Q1, Q2]);
    assert [Q1, Q2][1..] == [Q2] && [Q2][1..] == [];
    assert SameOrigin([Q1, Q2], Origin) == [Q1] + SameOrigin([Q2], Origin);
    ChainLinks(Q2);
    var s0 := Fresh([], FirstId);
    var a := s0.(visited := s0.visited + {Q0}, fetched := s0.fetched + [Q0], rows := s0.rows + PageRows(Q0, [], s0.nextId));
    assert Crawl(site, originOf, Q0, 0, s0) == CrawlLinks(site, originOf, [Q1, Q2], 1, a);
    var c := a.(visited := a.visited + {Q1, Q2}, fetched := a.fetched + [Q1, Q2]);
    ShortcutThroughQ1(originOf, a);
    assert CrawlLinks(site, originOf, [Q1, Q2], 1, a) == CrawlLinks(site, originOf, [Q2], 1, c);
    assert Crawl(site, originOf, Q2, 1, c) == c;
    assert CrawlLinks(site, originOf, [Q2], 1, c) == c;
    assert c.fetched == [Q0, Q1, Q2] && c.visited == {Q0, Q1, Q2};
  }

  /** Entered at depth 1 through q1, the crawl takes q1 and then q2, whose link to q3 lies one level too deep. */
  lemma ShortcutThroughQ1(originOf: string -> string, s: Visit)
    requires originOf(Q1) == Origin && originOf(Q2) == Origin
    requires Q1 !in s.visited && Q2 !in s.visited && Q1 != Q2 && !s.aborted
    ensures Crawl(Shortcut, originOf, Q1, 1, s)
            == s.(visited := s.visited + {Q1, Q2}, fetched := s.fetched + [Q1, Q2])
  {
    var site := Shortcut;
    assert Q2 == Origin + "/q2" && Q3 == Origin + "/q3";
    assert site[Q1] == Page([], [Q2]) && site[Q2] == Page([], [Q3]);
    ChainLinks(Q2);
    ChainLinks(Q3);
    assert [Q2][1..] == [] && [Q3][1..] == [];
    var b := s.(visited := s.visited + {Q1}, fetched := s.fetched + [Q1], rows := s.rows + PageRows(Q1, [], s.nextId));
    assert Crawl(site, originOf, Q1, 1, s) == CrawlLinks(site, originOf, [Q2], 2, b);
    var c := b.(visited := b.visited + {Q2}, fetched := b.fetched + [Q2], rows := b.rows + PageRows(Q2, [], b.nextId));
    assert Crawl(site, originOf, Q2, 2, b) == CrawlLinks(site, originOf, [Q3], 3, c);
    assert Crawl(site, originOf, Q3, 3, c) == c;
    assert CrawlLinks(site, originOf, [Q3], 3, c) == c;
    assert CrawlLinks(site, originOf, [Q2], 2, b) == Crawl(site, originOf, Q2, 2, b);
    assert c == s.(visited := s.visited + {Q1, Q2}, fetched := s.fetched + [Q1, Q2]);
  }
}
