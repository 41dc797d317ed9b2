/// Link discovery of the remake scraper: the scan over the tables, rows and
/// anchors of the two index pages that lists each original film and its
/// remake. Fetching and parsing the pages are outside the model: a page is
/// given as its tables, a table as its rows, a row as its anchors.
module MovieScraper {
  import Sequences

  datatype Option<T> = None | Some(value: T)

  /** An `<a>` element: its `title` and `href` attributes. */
  datatype Anchor = Anchor(title: string, href: string)

  /** The anchors of one `<tr>`, in document order. */
  type HtmlRow = seq<Anchor>
  /** The rows of one `<table>`, header row first. */
  type HtmlTable = seq<HtmlRow>
  /** The tables of one index page, in document order. */
  type Page = seq<HtmlTable>

  /** One name and link, as appended together to a name list and a link list. */
  datatype Entry = Entry(name: Option<string>, link: Option<string>)

  /** One row of the resulting frame. */
  datatype RemakeRow = RemakeRow(
    originalName: Option<string>, originalLink: Option<string>,
    remakeName: Option<string>, remakeLink: Option<string>)

  /** Prefix of every relative `href`. */
  const BaseUrl: string := "https://en.wikipedia.org"

  /** The entry recorded when the anchor looked for is missing. */
  const Absent: Entry := Entry(None, None)

  /** Python's `s[1:]`: everything but the first element, empty if `s` is. */
  function Tail<T>(s: seq<T>): (r: seq<T>)
    ensures |r| == if s == [] then 0 else |s| - 1
    ensures forall k :: 0 <= k < |r| ==> r[k] == s[k + 1]
  {
    if s == [] then [] else s[1..]
  }

  // ---------------------------------------------------------------------
  // What one data row contributes
  // ---------------------------------------------------------------------

  /** The title of an anchor and its absolute link. */
  function EntryOf(a: Anchor): Entry
  {
    Entry(Some(a.title), Some(BaseUrl + a.href))
  }

  /** The original film of a row: its first anchor. */
  function OriginalEntry(row: HtmlRow): Entry
  {
    if |row| > 0 then EntryOf(row[0]) else Absent
  }

  /** The remake of a row: its second anchor. */
  function RemakeEntry(row: HtmlRow): Entry
  {
    if |row| > 1 then EntryOf(row[1]) else Absent
  }

  /** Every link recorded is the base URL followed by the `href` of the
      anchor read: the first for the original, the second for the remake;
      a link is absent exactly when that anchor is. */
  lemma EntryLinks(row: HtmlRow)
    ensures OriginalEntry(row).link.Some? <==> |row| >= 1
    ensures |row| >= 1 ==> OriginalEntry(row) == Entry(Some(row[0].title), Some(BaseUrl + row[0].href))
    ensures RemakeEntry(row).link.Some? <==> |row| >= 2
    ensures |row| >= 2 ==> RemakeEntry(row) == Entry(Some(row[1].title), Some(BaseUrl + row[1].href))
    ensures OriginalEntry(row).name.Some? == OriginalEntry(row).link.Some?
    ensures RemakeEntry(row).name.Some? == RemakeEntry(row).link.Some?
  {
  }

  // ---------------------------------------------------------------------
  // Reference definitions of the four lists
  // ---------------------------------------------------------------------

  /** The rows scanned, table after table: every row but the header. */
  function DataRows(tables: seq<HtmlTable>): (rs: seq<HtmlRow>)
    ensures forall t, i :: 0 <= t < |tables| && 0 <= i < |Tail(tables[t])| ==> Tail(tables[t])[i] in rs
    ensures forall row :: row in rs ==> exists t :: 0 <= t < |tables| && row in Tail(tables[t])
    ensures |tables| == 1 ==> rs == Tail(tables[0])
  {
    if tables == [] then []
    else
      var init := tables[..|tables| - 1];
      assert forall t :: 0 <= t < |init| ==> init[t] == tables[t];
      DataRows(init) + Tail(tables[|tables| - 1])
  }

  /** The rows scanned from the two index pages: every table but the first
      of each page, page 1 before page 2. */
  function ScrapedRows(page1: Page, page2: Page): seq<HtmlRow>
  {
    DataRows(Tail(page1) + Tail(page2))
  }

  /** One original entry per row, in row order. */
  function OriginalEntries(rows: seq<HtmlRow>): (es: seq<Entry>)
    ensures |es| == |rows|
    ensures forall i :: 0 <= i < |rows| ==> es[i] == OriginalEntry(rows[i])
  {
    if rows == [] then []
    else OriginalEntries(rows[..|rows| - 1]) + [OriginalEntry(rows[|rows| - 1])]
  }

  /** One remake entry per row that has at least one anchor, in row order. */
  function RemakeEntries(rows: seq<HtmlRow>): seq<Entry>
  {
    if rows == [] then []
    else
      var last := rows[|rows| - 1];
      RemakeEntries(rows[..|rows| - 1]) + (if |last| > 0 then [RemakeEntry(last)] else [])
  }

  /** Positions of the rows that have at least one anchor, in increasing order. */
  function AnchoredRows(rows: seq<HtmlRow>): (ix: seq<nat>)
    ensures forall k :: 0 <= k < |ix| ==> ix[k] < |rows|
    ensures forall k, l :: 0 <= k < l < |ix| ==> ix[k] < ix[l]
    ensures forall i :: 0 <= i < |rows| ==> (i in ix <==> |rows[i]| > 0)
  {
    if rows == [] then []
    else
      var last := |rows| - 1;
      AnchoredRows(rows[..last]) + (if |rows[last]| > 0 then [last] else [])
  }

  /** The name column of a list of entries. */
  function Names(es: seq<Entry>): seq<Option<string>>
  {
    seq(|es|, i requires 0 <= i < |es| => es[i].name)
  }

  /** The link column of a list of entries. */
  function Links(es: seq<Entry>): seq<Option<string>>
  {
    seq(|es|, i requires 0 <= i < |es| => es[i].link)
  }

  /** Scanning one more row: an original entry always, a remake entry only
      when the row has an anchor. A one-anchor row gives its original and an
      absent remake; an anchorless row gives an absent original and no
      remake at all. */
  lemma {:induction false} ScanRow(rows: seq<HtmlRow>, row: HtmlRow)
    ensures OriginalEntries(rows + [row]) == OriginalEntries(rows) + [OriginalEntry(row)]
    ensures RemakeEntries(rows + [row]) == RemakeEntries(rows) + (if |row| > 0 then [RemakeEntry(row)] else [])
    ensures |row| == 1 ==> OriginalEntry(row) == EntryOf(row[0]) && RemakeEntry(row) == Absent
    ensures |row| == 0 ==> OriginalEntry(row) == Absent
  {
    assert (rows + [row])[..|rows|] == rows;
  }

  /** The k-th remake entry comes from the k-th row that has an anchor. */
  lemma {:induction false} RemakeEntriesFollowAnchoredRows(rows: seq<HtmlRow>)
    ensures |RemakeEntries(rows)| == |AnchoredRows(rows)|
    ensures forall k :: 0 <= k < |RemakeEntries(rows)| ==>
      RemakeEntries(rows)[k] == RemakeEntry(rows[AnchoredRows(rows)[k]])
  {
    if rows != [] {
      var init := rows[..|rows| - 1];
      var last := rows[|rows| - 1];
      RemakeEntriesFollowAnchoredRows(init);
      var before := RemakeEntries(init);
      var ix := AnchoredRows(init);
      assert RemakeEntries(rows) == before + (if |last| > 0 then [RemakeEntry(last)] else []);
      assert AnchoredRows(rows) == ix + (if |last| > 0 then [|rows| - 1] else []);
      forall k | 0 <= k < |before| ensures rows[ix[k]] == init[ix[k]] {
      }
    }
  }

  /** There are never more remake entries than original entries, and fewer
      exactly when some row has no anchor. */
  lemma {:induction false} RemakeListLength(rows: seq<HtmlRow>)
    ensures |RemakeEntries(rows)| <= |OriginalEntries(rows)|
    ensures |RemakeEntries(rows)| == |OriginalEntries(rows)| <==> forall i :: 0 <= i < |rows| ==> |rows[i]| > 0
  {
    if rows != [] {
      var init := rows[..|rows| - 1];
      var last := rows[|rows| - 1];
      RemakeListLength(init);
      assert |RemakeEntries(rows)| == |RemakeEntries(init)| + (if |last| > 0 then 1 else 0);
      if forall i :: 0 <= i < |init| ==> |init[i]| > 0 {
        if |last| > 0 {
          forall i | 0 <= i < |rows| ensures |rows[i]| > 0 {
            if i < |init| {
              assert rows[i] == init[i];
            }
          }
        }
      } else {
        var i :| 0 <= i < |init| && |init[i]| == 0;
        assert rows[i] == init[i];
      }
    }
  }


  // ---------------------------------------------------------------------
  // The scan
  // ---------------------------------------------------------------------

  /** Appending an entry appends its name and its link to the two columns. */
  lemma AppendEntry(es: seq<Entry>, e: Entry)
    ensures Names(es + [e]) == Names(es) + [e.name]
    ensures Links(es + [e]) == Links(es) + [e.link]
  {
    assert forall i :: 0 <= i < |es| ==> (es + [e])[i] == es[i];
  }

  /** The four lists hold, column by column, the entries of the rows
      scanned so far. */
  predicate Mirrors(rows: seq<HtmlRow>, originalName: seq<Option<string>>, originalLink: seq<Option<string>>,
                    remakeName: seq<Option<string>>, remakeLink: seq<Option<string>>)
  {
    && originalName == Names(OriginalEntries(rows))
    && originalLink == Links(OriginalEntries(rows))
    && remakeName == Names(RemakeEntries(rows))
    && remakeLink == Links(RemakeEntries(rows))
  }

  /** One step of the inner loop keeps the lists in step with the rows. */
  lemma ScanStep(rows: seq<HtmlRow>, entry: HtmlRow, originalName: seq<Option<string>>, originalLink: seq<Option<string>>,
                 remakeName: seq<Option<string>>, remakeLink: seq<Option<string>>)
    requires Mirrors(rows, originalName, originalLink, remakeName, remakeLink)
    ensures |entry| == 0 ==>
      Mirrors(rows + [entry], originalName + [None], originalLink + [None], remakeName, remakeLink)
    ensures |entry| == 1 ==>
      Mirrors(rows + [entry], originalName + [Some(entry[0].title)], originalLink + [Some(BaseUrl + entry[0].href)],
              remakeName + [None], remakeLink + [None])
    ensures |entry| > 1 ==>
      Mirrors(rows + [entry], originalName + [Some(entry[0].title)], originalLink + [Some(BaseUrl + entry[0].href)],
              remakeName + [Some(entry[1].title)], remakeLink + [Some(BaseUrl + entry[1].href)])
  {
    ScanRow(rows, entry);
    AppendEntry(OriginalEntries(rows), OriginalEntry(entry));
    AppendEntry(RemakeEntries(rows), RemakeEntry(entry));
  }

  /** Scanning one more table adds its data rows. */
  lemma NextTable(tables: seq<HtmlTable>, t: nat)
    requires t < |tables|
    ensures DataRows(tables[..t + 1]) == DataRows(tables[..t]) + Tail(tables[t])
  {
    assert tables[..t + 1][..t] == tables[..t];
  }

  /** The nested loops of `get_remakes` over `wiki_table`: for each table,
      each row but the header; a row without anchors adds an absent original
      and moves on (no remake entry); otherwise the first anchor is the
      original and the second, when there is one, the remake. */
  method ScanTables(wikiTable: seq<HtmlTable>)
    returns (originalName: seq<Option<string>>, originalLink: seq<Option<string>>,
             remakeName: seq<Option<string>>, remakeLink: seq<Option<string>>)
    ensures originalName == Names(OriginalEntries(DataRows(wikiTable)))
    ensures originalLink == Links(OriginalEntries(DataRows(wikiTable)))
    ensures remakeName == Names(RemakeEntries(DataRows(wikiTable)))
    ensures remakeLink == Links(RemakeEntries(DataRows(wikiTable)))
  {
    originalName, originalLink, remakeName, remakeLink := [], [], [], [];
    for t := 0 to |wikiTable|
      invariant Mirrors(DataRows(wikiTable[..t]), originalName, originalLink, remakeName, remakeLink)
    {
      var letterTable := Tail(wikiTable[t]);
      ghost var done := DataRows(wikiTable[..t]);
      assert done + letterTable[..0] == done;
      for r := 0 to |letterTable|
        invariant Mirrors(done + letterTable[..r], originalName, originalLink, remakeName, remakeLink)
      {
        var entry := letterTable[r];
        Sequences.ExtendPrefix(done, letterTable, r);
        ScanStep(done + letterTable[..r], entry, originalName, originalLink, remakeName, remakeLink);
        if |entry| == 0 {
          originalName := originalName + [None];
          originalLink := originalLink + [None];
          continue;
        }
        var originalMovie := entry[0];
        originalName := originalName + [Some(originalMovie.title)];
        originalLink := originalLink + [Some(BaseUrl + originalMovie.href)];
        if |entry| > 1 {
          var remakeMovie := entry[1];
          remakeName := remakeName + [Some(remakeMovie.title)];
          remakeLink := remakeLink + [Some(BaseUrl + remakeMovie.href)];
        } else {
          remakeName := remakeName + [None];
          remakeLink := remakeLink + [None];
        }
      }
      assert letterTable[..|letterTable|] == letterTable;
      NextTable(wikiTable, t);
    }
    assert wikiTable[..|wikiTable|] == wikiTable;
  }

  /** Python's `zip` over four lists: as many rows as the shortest list. */
  function Zip4(a: seq<Option<string>>, b: seq<Option<string>>,
                c: seq<Option<string>>, d: seq<Option<string>>): (r: seq<RemakeRow>)
    ensures |r| <= |a| && |r| <= |b| && |r| <= |c| && |r| <= |d|
    ensures |r| == |a| || |r| == |b| || |r| == |c| || |r| == |d|
    ensures forall i :: 0 <= i < |r| ==> r[i] == RemakeRow(a[i], b[i], c[i], d[i])
  {
    if a == [] || b == [] || c == [] || d == [] then []
    else [RemakeRow(a[0], b[0], c[0], d[0])] + Zip4(a[1..], b[1..], c[1..], d[1..])
  }

  /** The frame `get_remakes` builds from the scanned rows, as written. */
  function Scraped(rows: seq<HtmlRow>): (frame: seq<RemakeRow>)
    ensures |frame| == |RemakeEntries(rows)| <= |rows|
    ensures forall k :: 0 <= k < |frame| ==> frame[k] == Combine(OriginalEntry(rows[k]), RemakeEntries(rows)[k])
  {
    RemakeListLength(rows);
    var originals := OriginalEntries(rows);
    var remakes := RemakeEntries(rows);
    Zip4(Names(originals), Links(originals), Names(remakes), Links(remakes))
  }

  /** The result row built from an original entry and a remake entry. */
  function Combine(original: Entry, remake: Entry): RemakeRow
  {
    RemakeRow(original.name, original.link, remake.name, remake.link)
  }

  /** The frame has one row per anchored data row; its k-th row holds the
      original of the k-th data row and the remake of the k-th anchored row. */
  lemma ScrapedPairing(rows: seq<HtmlRow>)
    ensures |Scraped(rows)| == |AnchoredRows(rows)| <= |rows|
    ensures forall k :: 0 <= k < |Scraped(rows)| ==>
      Scraped(rows)[k] == Combine(OriginalEntry(rows[k]), RemakeEntry(rows[AnchoredRows(rows)[k]]))
  {
    RemakeEntriesFollowAnchoredRows(rows);
    RemakeListLength(rows);
  }

  /** `get_remakes`: drops the first table of each page, scans the rest and
      zips the four lists into the frame's rows. */
  method GetRemakes(page1: Page, page2: Page) returns (movieData: seq<RemakeRow>)
    ensures movieData == Scraped(ScrapedRows(page1, page2))
    ensures var rows := ScrapedRows(page1, page2);
      && |movieData| == |AnchoredRows(rows)| <= |rows|
      && forall k :: 0 <= k < |movieData| ==>
           movieData[k] == Combine(OriginalEntry(rows[k]), RemakeEntry(rows[AnchoredRows(rows)[k]]))
  {
    var table1 := Tail(page1);
    var table2 := Tail(page2);
    var wikiTable := table1 + table2;
    var originalName, originalLink, remakeName, remakeLink := ScanTables(wikiTable);
    movieData := Zip4(originalName, originalLink, remakeName, remakeLink);
    ScrapedPairing(ScrapedRows(page1, page2));
  }

  // ---------------------------------------------------------------------
  // Order and what the scan ignores
  // ---------------------------------------------------------------------

  /** Tables are scanned in order: the rows of the first group of tables
      come before those of the second. */
  lemma {:induction false} DataRowsAppend(a: seq<HtmlTable>, b: seq<HtmlTable>)
    ensures DataRows(a + b) == DataRows(a) + DataRows(b)
  {
    if b != [] {
      var init := b[..|b| - 1];
      assert (a + b)[..|a + b| - 1] == a + init;
      DataRowsAppend(a, init);
    } else {
      assert a + b == a;
    }
  }

  /** Page 1's tables are scanned before page 2's. */
  lemma PagesInOrder(page1: Page, page2: Page)
    ensures ScrapedRows(page1, page2) == DataRows(Tail(page1)) + DataRows(Tail(page2))
  {
    DataRowsAppend(Tail(page1), Tail(page2));
  }

  /** Tables that agree beyond their header rows give the same data rows. */
  lemma {:induction false} DataRowsIgnoreHeaders(a: seq<HtmlTable>, b: seq<HtmlTable>)
    requires |a| == |b|
    requires forall t :: 0 <= t < |a| ==> Tail(a[t]) == Tail(b[t])
    ensures DataRows(a) == DataRows(b)
  {
    if a != [] {
      DataRowsIgnoreHeaders(a[..|a| - 1], b[..|b| - 1]);
    }
  }

  /** The first table of each page and the header row of every table never
      reach the frame: pages that differ only there give the same frame. */
  lemma FirstTableAndHeadersIgnored(page1: Page, page2: Page, other1: Page, other2: Page)
    requires |page1| == |other1| && |page2| == |other2|
    requires forall t :: 1 <= t < |page1| ==> Tail(page1[t]) == Tail(other1[t])
    requires forall t :: 1 <= t < |page2| ==> Tail(page2[t]) == Tail(other2[t])
    ensures Scraped(ScrapedRows(page1, page2)) == Scraped(ScrapedRows(other1, other2))
  {
    DataRowsIgnoreHeaders(Tail(page1) + Tail(page2), Tail(other1) + Tail(other2));
  }

  /** The first two anchors of a row, or all of them if fewer. */
  function FirstTwo(row: HtmlRow): HtmlRow
  {
    if |row| < 2 then row else row[..2]
  }

  /** Anchors beyond the second are never read: rows that agree on their
      first two anchors give the same four lists. */
  lemma {:induction false} OnlyFirstTwoAnchorsRead(rows: seq<HtmlRow>, others: seq<HtmlRow>)
    requires |rows| == |others|
    requires forall i :: 0 <= i < |rows| ==> FirstTwo(rows[i]) == FirstTwo(others[i])
    ensures OriginalEntries(rows) == OriginalEntries(others)
    ensures RemakeEntries(rows) == RemakeEntries(others)
  {
    if rows != [] {
      var n := |rows| - 1;
      OnlyFirstTwoAnchorsRead(rows[..n], others[..n]);
      var row, other := rows[n], others[n];
      assert FirstTwo(row) == FirstTwo(other);
      assert |row| > 0 <==> |other| > 0;
      assert OriginalEntry(row) == OriginalEntry(other) by {
        if |row| > 0 {
          assert row[0] == FirstTwo(row)[0];
          assert other[0] == FirstTwo(other)[0];
        }
      }
      assert RemakeEntry(row) == RemakeEntry(other) by {
        if |row| > 1 {
          assert row[1] == FirstTwo(row)[1];
          assert other[1] == FirstTwo(other)[1];
        }
      }
    }
  }

  // ---------------------------------------------------------------------
  // Row alignment
  // ---------------------------------------------------------------------

  /** Two anchorless-then-anchored data rows, as written: the anchorless row
      adds an absent original but no remake, so the zip pairs that absent
      original with the next row's remake and drops the next row's original. */
  lemma MisalignedPairing()
    ensures var a := Anchor("Original", "/wiki/Original");
            var b := Anchor("Remake", "/wiki/Remake");
            Scraped([[], [a, b]]) ==
              [RemakeRow(None, None, Some("Remake"), Some(BaseUrl + "/wiki/Remake"))]
  {
    var a := Anchor("Original", "/wiki/Original");
    var b := Anchor("Remake", "/wiki/Remake");
    var empty: seq<HtmlRow> := [];
    var first: seq<HtmlRow> := [[]];
    var rows: seq<HtmlRow> := [[], [a, b]];
    ScanRow(first, [a, b]);
    ScanRow(empty, []);
    assert first + [[a, b]] == rows;
    assert empty + [[]] == first;
    assert RemakeEntries(rows) == [EntryOf(b)];
    var frame := Scraped(rows);
    assert frame[0] == Combine(OriginalEntry(rows[0]), EntryOf(b));
    assert frame == [frame[0]];
  }

  /** The frame the scan evidently means to build: one row per data row,
      pairing that row's original with that same row's remake, both absent
      for a row without anchors. */
  function PairRows(rows: seq<HtmlRow>): (r: seq<RemakeRow>)
    ensures |r| == |rows|
    ensures forall i :: 0 <= i < |rows| ==> r[i] == Combine(OriginalEntry(rows[i]), RemakeEntry(rows[i]))
  {
    if rows == [] then []
    else PairRows(rows[..|rows| - 1]) + [Combine(OriginalEntry(rows[|rows| - 1]), RemakeEntry(rows[|rows| - 1]))]
  }

  /** The frame as written agrees with the row-by-row pairing exactly when
      every data row has at least one anchor. */
  lemma AlignedIffAllAnchored(rows: seq<HtmlRow>)
    ensures Scraped(rows) == PairRows(rows) <==> forall i :: 0 <= i < |rows| ==> |rows[i]| > 0
  {
    RemakeListLength(rows);
    if forall i :: 0 <= i < |rows| ==> |rows[i]| > 0 {
      AllAnchoredAligned(rows);
    } else {
      assert |Scraped(rows)| < |PairRows(rows)|;
    }
  }

  /** With every row anchored, the k-th anchored row is row k itself. */
  lemma AllAnchoredAligned(rows: seq<HtmlRow>)
    requires forall i :: 0 <= i < |rows| ==> |rows[i]| > 0
    ensures Scraped(rows) == PairRows(rows)
  {
    RemakeListLength(rows);
    RemakeEntriesFollowAnchoredRows(rows);
    var ix := AnchoredRows(rows);
    var remakes := RemakeEntries(rows);
    AllPositions(ix, |rows|);
    var frame := Scraped(rows);
    forall k | 0 <= k < |rows| ensures frame[k] == PairRows(rows)[k] {
      assert ix[k] == k;
      assert remakes[k] == RemakeEntry(rows[k]);
      assert frame[k] == Combine(OriginalEntry(rows[k]), remakes[k]);
    }
  }

  /** A strictly increasing sequence of `n` positions below `n` lists them all. */
  lemma {:induction false} AllPositions(ix: seq<nat>, n: nat)
    requires |ix| == n
    requires forall k :: 0 <= k < |ix| ==> ix[k] < n
    requires forall k, l :: 0 <= k < l < |ix| ==> ix[k] < ix[l]
    ensures forall k :: 0 <= k < |ix| ==> ix[k] == k
  {
    if n > 0 {
      var init := ix[..n - 1];
      assert ix[n - 1] == n - 1 by {
        if ix[n - 1] < n - 1 {
          BelowBound(ix, n);
        }
      }
      AllPositions(init, n - 1);
    }
  }

  /** Strictly increasing naturals: the k-th is at least k. */
  lemma {:induction false} BelowBound(ix: seq<nat>, n: nat)
    requires |ix| == n > 0
    requires forall k, l :: 0 <= k < l < |ix| ==> ix[k] < ix[l]
    ensures ix[n - 1] >= n - 1
  {
    if n > 1 {
      BelowBound(ix[..n - 1], n - 1);
    }
  }
}
