/**
 * The `scripts` table: `id INTEGER PRIMARY KEY AUTOINCREMENT, page_url TEXT,
 * script_url TEXT`, kept in memory as the sequence of its rows in insertion
 * order, together with the next id the AUTOINCREMENT counter hands out.
 * The two listings are functions over that sequence.
 */
module Store {
  import opened StringOrder

  datatype Row = Row(id: nat, pageUrl: string, scriptUrl: string)

  /** One row of the per-page listing: `SELECT id, script_url ... WHERE page_url = ?`. */
  datatype PageEntry = PageEntry(id: nat, scriptUrl: string)

  /** One row of the grouped listing: a script URL with every id and page URL recorded for it. */
  datatype Group = Group(scriptUrl: string, ids: seq<nat>, pageUrls: seq<string>)

  /** AUTOINCREMENT hands out 1 first. */
  const FirstId: nat := 1

  /** The rows that inserting each of `scripts`, found on `page`, adds when the counter is at `firstId`. */
  function PageRows(page: string, scripts: seq<string>, firstId: nat): seq<Row>
  {
    seq(|scripts|, i requires 0 <= i < |scripts| => Row(firstId + i, page, scripts[i]))
  }

  /** Ids are unique and increase with insertion order, all below the counter. */
  ghost predicate IdsIncreasing(rows: seq<Row>, nextId: nat)
  {
    && FirstId <= nextId
    && (forall i, j :: 0 <= i < j < |rows| ==> rows[i].id < rows[j].id)
    && (forall i :: 0 <= i < |rows| ==> FirstId <= rows[i].id < nextId)
  }

  class ScriptTable {
    var rows: seq<Row>
    var nextId: nat

    ghost predicate Valid()
      reads this
    {
      IdsIncreasing(rows, nextId)
    }

    /** A freshly created table. */
    constructor ()
      ensures Valid()
      ensures rows == [] && nextId == FirstId
    {
      rows := [];
      nextId := FirstId;
    }

    /** `INSERT INTO scripts (page_url, script_url) VALUES (?, ?)`; returns the new row's id. */
    method Insert(pageUrl: string, scriptUrl: string) returns (id: nat)
      requires Valid()
      modifies this
      ensures Valid()
      ensures id == old(nextId) && nextId == old(nextId) + 1
      ensures rows == old(rows) + [Row(id, pageUrl, scriptUrl)]
      ensures forall r :: r in old(rows) ==> r.id < id
    {
      id := nextId;
      rows := rows + [Row(id, pageUrl, scriptUrl)];
      nextId := nextId + 1;
    }

    /**
     * `DELETE FROM scripts`. The AUTOINCREMENT counter is not reset, so ids
     * are never reused. Both listings are empty afterwards, and a second call
     * leaves the table as the first did.
     */
    method DeleteAll()
      requires Valid()
      modifies this
      ensures Valid()
      ensures rows == [] && nextId == old(nextId)
      ensures Grouped(rows) == [] && forall u :: ByPage(rows, u) == []
    {
      rows := [];
    }
  }

  // ---------------------------------------------------------------------------
  // The per-page listing

  function ByPage(rows: seq<Row>, pageUrl: string): (r: seq<PageEntry>)
    ensures |r| <= |rows|
  {
    if rows == [] then []
    else
      (if rows[0].pageUrl == pageUrl then [PageEntry(rows[0].id, rows[0].scriptUrl)] else [])
      + ByPage(rows[1..], pageUrl)
  }

  /** The listing holds an entry exactly when some row of that page carries it. */
  lemma {:induction false} ByPageExact(rows: seq<Row>, pageUrl: string)
    ensures forall e :: e in ByPage(rows, pageUrl) <==>
      exists i :: 0 <= i < |rows| && rows[i].pageUrl == pageUrl && e == PageEntry(rows[i].id, rows[i].scriptUrl)
  {
    if rows != [] {
      ByPageExact(rows[1..], pageUrl);
      forall e | e in ByPage(rows, pageUrl)
        ensures exists i :: 0 <= i < |rows| && rows[i].pageUrl == pageUrl && e == PageEntry(rows[i].id, rows[i].scriptUrl)
      {
        if e !in ByPage(rows[1..], pageUrl) {
          assert rows[0].pageUrl == pageUrl && e == PageEntry(rows[0].id, rows[0].scriptUrl);
        } else {
          var i :| 0 <= i < |rows[1..]| && rows[1..][i].pageUrl == pageUrl && e == PageEntry(rows[1..][i].id, rows[1..][i].scriptUrl);
          assert rows[i + 1] == rows[1..][i];
        }
      }
      forall e | exists i :: 0 <= i < |rows| && rows[i].pageUrl == pageUrl && e == PageEntry(rows[i].id, rows[i].scriptUrl)
        ensures e in ByPage(rows, pageUrl)
      {
        var i :| 0 <= i < |rows| && rows[i].pageUrl == pageUrl && e == PageEntry(rows[i].id, rows[i].scriptUrl);
        if i > 0 {
          assert rows[1..][i - 1] == rows[i];
        }
      }
    }
  }

  /** The listing keeps insertion order: listing a concatenation concatenates the listings. */
  lemma {:induction false} ByPageAppend(a: seq<Row>, b: seq<Row>, pageUrl: string)
    ensures ByPage(a + b, pageUrl) == ByPage(a, pageUrl) + ByPage(b, pageUrl)
  {
    if a != [] {
      assert (a + b)[1..] == a[1..] + b;
      ByPageAppend(a[1..], b, pageUrl);
    } else {
      assert a + b == b;
    }
  }

  /** The script URLs of a listing, in its order. */
  function ScriptsOf(entries: seq<PageEntry>): seq<string>
  {
    seq(|entries|, i requires 0 <= i < |entries| => entries[i].scriptUrl)
  }

  /** The rows one page adds list, for that page, exactly its scripts in order, and nothing for any other page. */
  lemma {:induction false} ByPageOfPageRows(page: string, scripts: seq<string>, firstId: nat, pageUrl: string)
    ensures ScriptsOf(ByPage(PageRows(page, scripts, firstId), pageUrl)) == if page == pageUrl then scripts else []
  {
    if scripts != [] {
      var rows := PageRows(page, scripts, firstId);
      assert rows[1..] == PageRows(page, scripts[1..], firstId + 1);
      ByPageOfPageRows(page, scripts[1..], firstId + 1, pageUrl);
      assert scripts == [scripts[0]] + scripts[1..];
    }
  }

  // ---------------------------------------------------------------------------
  // The grouped listing: GROUP BY script_url ORDER BY script_url

  /** The rows carrying `scriptUrl`, in insertion order. */
  function Matching(rows: seq<Row>, scriptUrl: string): seq<Row>
  {
    if rows == [] then []
    else (if rows[0].scriptUrl == scriptUrl then [rows[0]] else []) + Matching(rows[1..], scriptUrl)
  }

  /** `Matching` keeps exactly the rows with that script URL, each as often as the table has it. */
  lemma {:induction false} MatchingExact(rows: seq<Row>, scriptUrl: string)
    ensures forall r :: multiset(Matching(rows, scriptUrl))[r] == if r.scriptUrl == scriptUrl then multiset(rows)[r] else 0
  {
    if rows != [] {
      MatchingExact(rows[1..], scriptUrl);
      assert rows == [rows[0]] + rows[1..];
    }
  }

  function ScriptUrls(rows: seq<Row>): set<string>
  {
    set r | r in rows :: r.scriptUrl
  }

  ghost predicate StrictlySorted(keys: seq<string>)
  {
    forall i, j :: 0 <= i < j < |keys| ==> Less(keys[i], keys[j])
  }

  /** Puts `key` into its place in a strictly sorted sequence, unless it is there already. */
  function InsertKey(keys: seq<string>, key: string): (r: seq<string>)
    requires StrictlySorted(keys)
    ensures StrictlySorted(r)
    ensures forall k :: k in r <==> k in keys || k == key
  {
    if keys == [] then [key]
    else if key == keys[0] then keys
    else if Less(key, keys[0]) then
      assert forall j :: 0 < j < |keys| ==> Less(key, keys[j]) by {
        forall j | 0 < j < |keys| ensures Less(key, keys[j]) {
          LessTransitive(key, keys[0], keys[j]);
        }
      }
      [key] + keys
    else
      LessTotal(key, keys[0]);
      var rest := InsertKey(keys[1..], key);
      assert forall k :: k in rest ==> Less(keys[0], k) by {
        forall k | k in rest ensures Less(keys[0], k) {
          if k != key {
            var j :| 0 <= j < |keys[1..]| && keys[1..][j] == k;
            assert keys[j + 1] == k;
          }
        }
      }
      [keys[0]] + rest
  }

  /** The distinct script URLs of the table, ascending. */
  function Keys(rows: seq<Row>): (r: seq<string>)
    ensures StrictlySorted(r)
    ensures forall k :: k in r <==> k in ScriptUrls(rows)
  {
    if rows == [] then []
    else
      var r := InsertKey(Keys(rows[1..]), rows[0].scriptUrl);
      assert forall x :: x in rows <==> x == rows[0] || x in rows[1..] by {
        assert rows == [rows[0]] + rows[1..];
      }
      r
  }

  function GroupOf(rows: seq<Row>, scriptUrl: string): Group
  {
    var m := Matching(rows, scriptUrl);
    Group(scriptUrl,
          seq(|m|, i requires 0 <= i < |m| => m[i].id),
          seq(|m|, i requires 0 <= i < |m| => m[i].pageUrl))
  }

  /** `SELECT script_url, GROUP_CONCAT(id), GROUP_CONCAT(page_url) FROM scripts GROUP BY script_url ORDER BY script_url`. */
  function Grouped(rows: seq<Row>): seq<Group>
  {
    var keys := Keys(rows);
    seq(|keys|, i requires 0 <= i < |keys| => GroupOf(rows, keys[i]))
  }

  /**
   * The grouped listing has one group per distinct script URL of the table,
   * ascending; each group aggregates the ids and page URLs of exactly the
   * rows with that script URL, pairwise from the same row, as many as there
   * are such rows (and at least one).
   */
  lemma GroupedCorrect(rows: seq<Row>)
    ensures var g := Grouped(rows);
      && (forall i, j :: 0 <= i < j < |g| ==> Less(g[i].scriptUrl, g[j].scriptUrl))
      && (forall s :: s in ScriptUrls(rows) <==> exists i :: 0 <= i < |g| && g[i].scriptUrl == s)
      && (forall i :: 0 <= i < |g| ==>
            && |g[i].ids| == |g[i].pageUrls| == |Matching(rows, g[i].scriptUrl)| > 0
            && forall k :: 0 <= k < |g[i].ids| ==>
                 Matching(rows, g[i].scriptUrl)[k] == Row(g[i].ids[k], g[i].pageUrls[k], g[i].scriptUrl))
  {
    var g := Grouped(rows);
    var keys := Keys(rows);
    forall s | s in ScriptUrls(rows) ensures exists i :: 0 <= i < |g| && g[i].scriptUrl == s {
      var i :| 0 <= i < |keys| && keys[i] == s;
      assert g[i].scriptUrl == s;
    }
    forall i | 0 <= i < |g|
      ensures |Matching(rows, g[i].scriptUrl)| > 0
      ensures forall k :: 0 <= k < |g[i].ids| ==>
                Matching(rows, g[i].scriptUrl)[k] == Row(g[i].ids[k], g[i].pageUrls[k], g[i].scriptUrl)
    {
      MatchingPresent(rows, keys[i]);
      MatchingScriptUrl(rows, keys[i]);
    }
  }

  /** A script URL present in the table has at least one matching row. */
  lemma MatchingPresent(rows: seq<Row>, scriptUrl: string)
    requires scriptUrl in ScriptUrls(rows)
    ensures |Matching(rows, scriptUrl)| > 0
  {
    var r :| r in rows && r.scriptUrl == scriptUrl;
    MatchingExact(rows, scriptUrl);
    assert multiset(Matching(rows, scriptUrl))[r] > 0;
  }

  /** Every row `Matching` keeps carries the script URL asked for. */
  lemma {:induction false} MatchingScriptUrl(rows: seq<Row>, scriptUrl: string)
    ensures forall k :: 0 <= k < |Matching(rows, scriptUrl)| ==> Matching(rows, scriptUrl)[k].scriptUrl == scriptUrl
  {
    if rows != [] {
      MatchingScriptUrl(rows[1..], scriptUrl);
    }
  }
}
