/// The data selection of the plotting module: the positional column map,
/// the ranking of original-film genres by popularity, and the selection of
/// the rows that carry a given genre. The plots and the rating averages
/// they draw are not part of this model.
module GraphData {
  import opened Cells
  import TestData
  import Sequences

  /** Name of each column of the data set, mapped to its position. */
  const Col: map<string, nat> :=
    map["original_name" := 0, "original_date" := 1, "original_genre" := 2,
        "original_rating" := 3, "original_votes" := 4, "remake_name" := 5,
        "remake_date" := 6, "remake_genre" := 7, "remake_rating" := 8,
        "remake_votes" := 9]

  /** The ten names of the schema, originals first. */
  const ColumnNames: seq<string> :=
    ["original_name", "original_date", "original_genre", "original_rating", "original_votes",
     "remake_name", "remake_date", "remake_genre", "remake_rating", "remake_votes"]

  /** The column map is a positional schema: the k-th name sits at column k,
      no other name is mapped, and each remake field lies five columns to the
      right of the matching original field. */
  lemma ColumnSchema()
    ensures Col.Keys == set k | 0 <= k < |ColumnNames| :: ColumnNames[k]
    ensures forall k :: 0 <= k < |ColumnNames| ==> Col[ColumnNames[k]] == k
    ensures forall a, b :: a in Col && b in Col && a != b ==> Col[a] != Col[b]
    ensures forall v :: v in Col.Values <==> 0 <= v < Width
    ensures forall k :: 0 <= k < 5 ==> Col[ColumnNames[k + 5]] == Col[ColumnNames[k]] + 5
  {
    ColumnsNamed();
    NamesPlaced();
    var names := set k | 0 <= k < |ColumnNames| :: ColumnNames[k];
    forall a | a in Col ensures a in names {
      assert a == ColumnNames[Col[a]];
    }
    forall v: int | 0 <= v < Width ensures v in Col.Values {
      assert Col[ColumnNames[v]] == v;
    }
  }

  /** Every key of the column map is the schema name of its position. */
  lemma ColumnsNamed()
    ensures forall a :: a in Col ==> Col[a] < |ColumnNames| && ColumnNames[Col[a]] == a
  {
  }

  /** Every schema name is a key, mapped to its position. */
  lemma NamesPlaced()
    ensures forall k :: 0 <= k < |ColumnNames| ==> ColumnNames[k] in Col && Col[ColumnNames[k]] == k
  {
  }

  /** Position of the original film's genre list. */
  const OriginalGenre: nat := Col["original_genre"]

  /** Every row carries a list of genre names in the original-genre column. */
  predicate HasGenreColumn(t: Table) {
    forall r :: 0 <= r < |t| ==> |t[r]| > OriginalGenre && IsStrList(t[r][OriginalGenre])
  }

  /** The genre names of one row's original-genre list, in list order. */
  function Genres(row: Row): (gs: seq<string>)
    requires |row| > OriginalGenre && IsStrList(row[OriginalGenre])
    ensures |gs| == |row[OriginalGenre].items|
    ensures forall k :: 0 <= k < |gs| ==> row[OriginalGenre].items[k] == Str(gs[k])
  {
    var items := row[OriginalGenre].items;
    seq(|items|, k requires 0 <= k < |items| => items[k].s)
  }

  /** The original-genre column: the genre list of every row, in row order. */
  function GenreColumn(t: Table): (cols: seq<seq<string>>)
    requires HasGenreColumn(t)
    ensures |cols| == |t|
    ensures forall r :: 0 <= r < |t| ==> cols[r] == Genres(t[r])
  {
    seq(|t|, r requires 0 <= r < |t| => Genres(t[r]))
  }

  /** The genre test of the suite establishes what the genre code needs. */
  lemma ValidGenresGiveGenreColumn(t: Table)
    requires WellFormed(t) && TestData.GenresValid(t)
    ensures HasGenreColumn(t)
  {
  }

  // ---------------------------------------------------------------------
  // Reference definitions: occurrences, genre set, first appearance
  // ---------------------------------------------------------------------

  /** Total number of occurrences of `g` over all the lists, a repeat within
      one list counting once per repeat. */
  function Occurrences(cols: seq<seq<string>>, g: string): nat
  {
    if cols == [] then 0
    else Occurrences(cols[..|cols| - 1], g) + multiset(cols[|cols| - 1])[g]
  }

  /** The distinct genres that occur in some list. */
  function GenreSet(cols: seq<seq<string>>): set<string>
  {
    set r, g | 0 <= r < |cols| && g in cols[r] :: g
  }

  /** The lists concatenated in row order: the order in which the nested
      loops visit the genres. */
  function Flatten(cols: seq<seq<string>>): seq<string>
  {
    if cols == [] then [] else Flatten(cols[..|cols| - 1]) + cols[|cols| - 1]
  }

  /** The concatenation holds exactly the genres of the lists, each as often
      as it occurs over all of them. */
  lemma {:induction false} FlattenFacts(cols: seq<seq<string>>)
    ensures forall g :: g in Flatten(cols) <==> g in GenreSet(cols)
    ensures forall g :: multiset(Flatten(cols))[g] == Occurrences(cols, g)
  {
    if cols != [] {
      var init := cols[..|cols| - 1];
      var last := cols[|cols| - 1];
      FlattenFacts(init);
      assert multiset(Flatten(cols)) == multiset(Flatten(init)) + multiset(last);
      forall g | g in GenreSet(cols) ensures g in GenreSet(init) || g in last {
        var r :| 0 <= r < |cols| && g in cols[r];
        if r < |cols| - 1 {
          assert init[r] == cols[r];
        }
      }
      forall g | g in GenreSet(init) ensures g in GenreSet(cols) {
        var r :| 0 <= r < |init| && g in init[r];
        assert cols[r] == init[r];
      }
    }
  }

  /** Position of the first occurrence of `g` in `s`, or `|s|` if none. */
  function FirstPos(s: seq<string>, g: string): (p: nat)
    ensures p <= |s|
    ensures p < |s| <==> g in s
    ensures p < |s| ==> s[p] == g
    ensures forall k :: 0 <= k < p ==> s[k] != g
  {
    if s == [] then 0
    else if s[0] == g then 0
    else 1 + FirstPos(s[1..], g)
  }

  lemma FirstPosSnoc(s: seq<string>, x: string, g: string)
    ensures g in s ==> FirstPos(s + [x], g) == FirstPos(s, g)
    ensures g !in s && g == x ==> FirstPos(s + [x], g) == |s|
  {
    var p := FirstPos(s + [x], g);
    if g in s {
      var q := FirstPos(s, g);
      assert (s + [x])[q] == g;
      assert forall k :: 0 <= k < q ==> (s + [x])[k] != g;
    } else if g == x {
      assert (s + [x])[|s|] == g;
    }
  }

  // ---------------------------------------------------------------------
  // The dictionary built by the nested loops
  // ---------------------------------------------------------------------

  /** Keys of `s` in order of first appearance: the key order of a Python
      dict filled by scanning `s`. */
  function Distinct(s: seq<string>): seq<string>
  {
    if s == [] then []
    else
      var d := Distinct(s[..|s| - 1]);
      if s[|s| - 1] in d then d else d + [s[|s| - 1]]
  }

  /** The dict's keys are the genres seen, each once, in order of first
      appearance. */
  lemma {:induction false} DistinctFacts(s: seq<string>)
    ensures forall g :: g in Distinct(s) <==> g in s
    ensures forall i, j :: 0 <= i < j < |Distinct(s)| ==> Distinct(s)[i] != Distinct(s)[j]
    ensures forall i, j :: 0 <= i < j < |Distinct(s)| ==> FirstPos(s, Distinct(s)[i]) < FirstPos(s, Distinct(s)[j])
  {
    if s != [] {
      var init := s[..|s| - 1];
      var x := s[|s| - 1];
      DistinctFacts(init);
      assert s == init + [x];
      forall g | g in init ensures FirstPos(s, g) == FirstPos(init, g) < |init| {
        FirstPosSnoc(init, x, g);
      }
      if x !in init {
        FirstPosSnoc(init, x, x);
      }
    }
  }

  /** The tally of `s`: each genre seen, with its number of occurrences. */
  function Tally(s: seq<string>): (m: map<string, nat>)
    ensures forall g :: g in m <==> g in s
  {
    map g | g in s :: multiset(s)[g]
  }

  /** `top_categories.get`, the sort key (every key sorted is present). */
  function Get(m: map<string, nat>, g: string): nat
  {
    if g in m then m[g] else 0
  }

  lemma TallyGet(s: seq<string>, g: string)
    ensures Get(Tally(s), g) == multiset(s)[g]
  {
  }

  /** One more genre seen: a new key with count 1, or one more on its count. */
  lemma TallySnoc(s: seq<string>, x: string)
    ensures x !in Tally(s) ==> Tally(s + [x]) == Tally(s)[x := 1]
    ensures x in Tally(s) ==> Tally(s + [x]) == Tally(s)[x := Tally(s)[x] + 1]
  {
    var t := s + [x];
    assert multiset(t) == multiset(s) + multiset{x};
    var expected := if x in Tally(s) then Tally(s)[x := Tally(s)[x] + 1] else Tally(s)[x := 1];
    assert Tally(t).Keys == expected.Keys;
    forall g | g in expected ensures Tally(t)[g] == expected[g] {
    }
  }

  lemma DistinctSnoc(s: seq<string>, x: string)
    ensures Distinct(s + [x]) == if x in s then Distinct(s) else Distinct(s) + [x]
  {
    DistinctFacts(s);
    assert (s + [x])[..|s|] == s;
  }

  // ---------------------------------------------------------------------
  // The stable sort by descending count
  // ---------------------------------------------------------------------

  /** Place `x` after every key whose count is at least its own. */
  function Insert(x: string, s: seq<string>, c: map<string, nat>): (r: seq<string>)
    ensures |r| == |s| + 1
    ensures forall g :: g in r <==> g == x || g in s
  {
    if s == [] then [x]
    else if Get(c, s[0]) < Get(c, x) then [x] + s
    else [s[0]] + Insert(x, s[1..], c)
  }

  /** `sorted(keys, key=c.get, reverse=True)`: a stable sort, so equal
      counts keep their order in `keys`. */
  function SortByCount(keys: seq<string>, c: map<string, nat>): (r: seq<string>)
    ensures |r| == |keys|
    ensures forall g :: g in r <==> g in keys
  {
    if keys == [] then []
    else Insert(keys[|keys| - 1], SortByCount(keys[..|keys| - 1], c), c)
  }

  /** `a` comes before `b` in the ranking: a higher count, or the same count
      and an earlier first appearance in `flat`. */
  predicate Precedes(c: map<string, nat>, flat: seq<string>, a: string, b: string)
  {
    Get(c, a) > Get(c, b) || (Get(c, a) == Get(c, b) && FirstPos(flat, a) < FirstPos(flat, b))
  }

  /** `s` is ordered by non-increasing count, equal counts by increasing
      position of first appearance in `flat`. */
  predicate RankedBy(s: seq<string>, c: map<string, nat>, flat: seq<string>)
  {
    forall i, j :: 0 <= i < j < |s| ==> Precedes(c, flat, s[i], s[j])
  }

  /** A head that precedes everything in a ranked list keeps it ranked. */
  lemma ConsRanked(h: string, rest: seq<string>, c: map<string, nat>, flat: seq<string>)
    requires RankedBy(rest, c, flat)
    requires forall g :: g in rest ==> Precedes(c, flat, h, g)
    ensures RankedBy([h] + rest, c, flat)
  {
    var r := [h] + rest;
    forall i, j | 0 <= i < j < |r| ensures Precedes(c, flat, r[i], r[j]) {
      assert r[j] == rest[j - 1] && rest[j - 1] in rest;
      if i > 0 {
        assert r[i] == rest[i - 1];
      }
    }
  }

  lemma InsertFrontRanked(x: string, s: seq<string>, c: map<string, nat>, flat: seq<string>)
    requires s != [] && Get(c, s[0]) < Get(c, x)
    requires RankedBy(s, c, flat)
    ensures RankedBy([x] + s, c, flat)
  {
    forall g | g in s ensures Precedes(c, flat, x, g) {
      var k :| 0 <= k < |s| && s[k] == g;
      if k > 0 {
        assert Precedes(c, flat, s[0], s[k]);
      }
    }
    ConsRanked(x, s, c, flat);
  }

  lemma InsertBehindRanked(x: string, s: seq<string>, rest: seq<string>, c: map<string, nat>, flat: seq<string>)
    requires s != [] && Get(c, s[0]) >= Get(c, x) && FirstPos(flat, s[0]) < FirstPos(flat, x)
    requires RankedBy(s, c, flat) && RankedBy(rest, c, flat)
    requires forall g :: g in rest <==> g == x || g in s[1..]
    ensures RankedBy([s[0]] + rest, c, flat)
  {
    forall g | g in rest ensures Precedes(c, flat, s[0], g) {
      HeadPrecedes(x, s, c, flat, g);
    }
    ConsRanked(s[0], rest, c, flat);
  }

  /** The head of a ranked list that does not yield to `x` precedes `x`
      and everything behind it. */
  lemma HeadPrecedes(x: string, s: seq<string>, c: map<string, nat>, flat: seq<string>, g: string)
    requires s != [] && Get(c, s[0]) >= Get(c, x) && FirstPos(flat, s[0]) < FirstPos(flat, x)
    requires RankedBy(s, c, flat)
    requires g == x || g in s[1..]
    ensures Precedes(c, flat, s[0], g)
  {
    if g != x {
      var k :| 0 <= k < |s[1..]| && s[1..][k] == g;
      assert s[k + 1] == g;
    }
  }

  lemma {:induction false} InsertRanked(x: string, s: seq<string>, c: map<string, nat>, flat: seq<string>)
    requires RankedBy(s, c, flat)
    requires forall y :: y in s ==> FirstPos(flat, y) < FirstPos(flat, x)
    ensures RankedBy(Insert(x, s, c), c, flat)
  {
    if s == [] {
    } else if Get(c, s[0]) < Get(c, x) {
      InsertFrontRanked(x, s, c, flat);
    } else {
      var tail := s[1..];
      assert RankedBy(tail, c, flat) by {
        forall i, j | 0 <= i < j < |tail| ensures Precedes(c, flat, tail[i], tail[j]) {
          assert tail[i] == s[i + 1] && tail[j] == s[j + 1];
        }
      }
      InsertRanked(x, tail, c, flat);
      InsertBehindRanked(x, s, Insert(x, tail, c), c, flat);
    }
  }

  lemma {:induction false} SortRanked(keys: seq<string>, c: map<string, nat>, flat: seq<string>)
    requires forall i, j :: 0 <= i < j < |keys| ==> FirstPos(flat, keys[i]) < FirstPos(flat, keys[j])
    ensures RankedBy(SortByCount(keys, c), c, flat)
  {
    if keys != [] {
      var init := keys[..|keys| - 1];
      var x := keys[|keys| - 1];
      SortRanked(init, c, flat);
      forall y | y in SortByCount(init, c) ensures FirstPos(flat, y) < FirstPos(flat, x) {
        var k :| 0 <= k < |init| && init[k] == y;
      }
      InsertRanked(x, SortByCount(init, c), c, flat);
    }
  }

  /** A ranking is free of duplicates: the keys it sorts are. */
  lemma {:induction false} SortNoDuplicates(keys: seq<string>, c: map<string, nat>)
    requires forall i, j :: 0 <= i < j < |keys| ==> keys[i] != keys[j]
    ensures forall i, j :: 0 <= i < j < |SortByCount(keys, c)| ==>
      SortByCount(keys, c)[i] != SortByCount(keys, c)[j]
  {
    if keys != [] {
      var init := keys[..|keys| - 1];
      SortNoDuplicates(init, c);
      InsertNoDuplicates(keys[|keys| - 1], SortByCount(init, c), c);
    }
  }

  lemma {:induction false} InsertNoDuplicates(x: string, s: seq<string>, c: map<string, nat>)
    requires x !in s
    requires forall i, j :: 0 <= i < j < |s| ==> s[i] != s[j]
    ensures forall i, j :: 0 <= i < j < |Insert(x, s, c)| ==> Insert(x, s, c)[i] != Insert(x, s, c)[j]
  {
    if s != [] && Get(c, s[0]) >= Get(c, x) {
      var tail := s[1..];
      InsertNoDuplicates(x, tail, c);
      var rest := Insert(x, tail, c);
      forall j | 0 < j < |rest| + 1 ensures ([s[0]] + rest)[j] != s[0] {
        assert rest[j - 1] in rest;
      }
    }
  }

  /** A duplicate-free sequence has as many elements as its set. */
  lemma {:induction false} DistinctCardinality(d: seq<string>)
    requires forall i, j :: 0 <= i < j < |d| ==> d[i] != d[j]
    ensures |set g | g in d| == |d|
  {
    if d != [] {
      var init := d[..|d| - 1];
      DistinctCardinality(init);
      assert (set g | g in d) == (set g | g in init) + {d[|d| - 1]};
    }
  }

  // ---------------------------------------------------------------------
  // find_popular_genres
  // ---------------------------------------------------------------------

  function Min(a: nat, b: nat): nat { if a < b then a else b }

  /** All distinct original genres, ranked by count (descending), ties in
      order of first appearance. */
  function Ranking(cols: seq<seq<string>>): seq<string>
  {
    var flat := Flatten(cols);
    SortByCount(Distinct(flat), Tally(flat))
  }

  /** Reference result of `find_popular_genres`: the first `number` genres
      of the ranking. */
  function TopGenres(cols: seq<seq<string>>, number: nat): seq<string>
  {
    var ranked := Ranking(cols);
    ranked[..Min(number, |ranked|)]
  }

  /** The ranking lists each distinct genre exactly once, ranked by its
      number of occurrences. */
  lemma RankingFacts(cols: seq<seq<string>>)
    ensures |Ranking(cols)| == |GenreSet(cols)|
    ensures forall g :: g in Ranking(cols) <==> g in GenreSet(cols)
    ensures forall i, j :: 0 <= i < j < |Ranking(cols)| ==> Ranking(cols)[i] != Ranking(cols)[j]
    ensures RankedBy(Ranking(cols), Tally(Flatten(cols)), Flatten(cols))
    ensures forall g :: Get(Tally(Flatten(cols)), g) == Occurrences(cols, g)
  {
    var flat := Flatten(cols);
    var keys := Distinct(flat);
    FlattenFacts(cols);
    DistinctFacts(flat);
    assert (set g | g in keys) == GenreSet(cols);
    DistinctCardinality(keys);
    SortRanked(keys, Tally(flat), flat);
    SortNoDuplicates(keys, Tally(flat));
    forall g ensures Get(Tally(flat), g) == Occurrences(cols, g) {
      TallyGet(flat, g);
    }
  }

  /** The result holds `min(number, #genres)` distinct genres, each of which
      occurs in some row. */
  lemma TopGenresSelection(cols: seq<seq<string>>, number: nat)
    ensures |TopGenres(cols, number)| == Min(number, |GenreSet(cols)|)
    ensures forall i, j :: 0 <= i < j < |TopGenres(cols, number)| ==>
      TopGenres(cols, number)[i] != TopGenres(cols, number)[j]
    ensures forall g :: g in TopGenres(cols, number) ==> g in GenreSet(cols)
  {
    RankingFacts(cols);
    var ranked := Ranking(cols);
    var top := TopGenres(cols, number);
    forall g | g in top ensures g in GenreSet(cols) {
      var i :| 0 <= i < |top| && top[i] == g;
      assert ranked[i] == g;
    }
  }

  /** The result is ordered by non-increasing count; genres with equal
      counts keep the order in which they first appear. */
  lemma TopGenresOrder(cols: seq<seq<string>>, number: nat)
    ensures forall i, j :: 0 <= i < j < |TopGenres(cols, number)| ==>
      Occurrences(cols, TopGenres(cols, number)[i]) >= Occurrences(cols, TopGenres(cols, number)[j])
    ensures forall i, j ::
      (0 <= i < j < |TopGenres(cols, number)| &&
       Occurrences(cols, TopGenres(cols, number)[i]) == Occurrences(cols, TopGenres(cols, number)[j])) ==>
        FirstPos(Flatten(cols), TopGenres(cols, number)[i]) < FirstPos(Flatten(cols), TopGenres(cols, number)[j])
  {
    RankingFacts(cols);
    var ranked := Ranking(cols);
    var top := TopGenres(cols, number);
    forall i, j | 0 <= i < j < |top|
      ensures Precedes(Tally(Flatten(cols)), Flatten(cols), top[i], top[j])
    {
      assert top[i] == ranked[i] && top[j] == ranked[j];
    }
  }

  /** A genre left out of the result occurs no more often than any genre in it. */
  lemma TopGenresExcluded(cols: seq<seq<string>>, number: nat)
    ensures forall g, t :: g in GenreSet(cols) && g !in TopGenres(cols, number) && t in TopGenres(cols, number) ==>
      Occurrences(cols, g) <= Occurrences(cols, t)
  {
    RankingFacts(cols);
    var ranked := Ranking(cols);
    var top := TopGenres(cols, number);
    forall g, t | g in GenreSet(cols) && g !in top && t in top
      ensures Occurrences(cols, g) <= Occurrences(cols, t)
    {
      var p :| 0 <= p < |ranked| && ranked[p] == g;
      var i :| 0 <= i < |top| && top[i] == t;
      assert ranked[i] == t;
      assert Precedes(Tally(Flatten(cols)), Flatten(cols), ranked[i], ranked[p]);
    }
  }

  /** The dict's insertion-ordered keys and counts after scanning `s`. */
  predicate DictOf(s: seq<string>, keys: seq<string>, topCategories: map<string, nat>)
  {
    keys == Distinct(s) && topCategories == Tally(s)
  }

  /** One step of the inner loop: a genre not yet in the dict becomes a key
      with count 1, appended to the key order; a genre already there has its
      count raised by one. */
  lemma CountStep(s: seq<string>, genre: string, keys: seq<string>, topCategories: map<string, nat>)
    requires DictOf(s, keys, topCategories)
    ensures genre !in topCategories <==> genre !in s
    ensures genre !in topCategories ==> DictOf(s + [genre], keys + [genre], topCategories[genre := 1])
    ensures genre in topCategories ==>
      DictOf(s + [genre], keys, topCategories[genre := topCategories[genre] + 1])
  {
    TallySnoc(s, genre);
    DistinctSnoc(s, genre);
  }

  /** The nested loops of `find_popular_genres`: every genre of every
      original-genre list, in row order, goes into the `top_categories` dict,
      as a new key with count 1 or as one more on its count. The dict's keys
      come back in insertion order. */
  method CountGenres(column: seq<seq<string>>) returns (keys: seq<string>, topCategories: map<string, nat>)
    ensures keys == Distinct(Flatten(column))
    ensures topCategories == Tally(Flatten(column))
    ensures forall g :: g in topCategories <==> g in GenreSet(column)
    ensures forall g :: g in topCategories ==> topCategories[g] == Occurrences(column, g)
  {
    topCategories := map[];
    keys := [];
    for i := 0 to |column|
      invariant DictOf(Flatten(column[..i]), keys, topCategories)
    {
      var movie := column[i];
      ghost var seen := Flatten(column[..i]);
      assert seen + movie[..0] == seen;
      for j := 0 to |movie|
        invariant DictOf(seen + movie[..j], keys, topCategories)
      {
        var genre := movie[j];
        Sequences.ExtendPrefix(seen, movie, j);
        CountStep(seen + movie[..j], genre, keys, topCategories);
        if genre !in topCategories {
          topCategories := topCategories[genre := 1];
          keys := keys + [genre];
        } else {
          topCategories := topCategories[genre := topCategories[genre] + 1];
        }
      }
      assert movie[..|movie|] == movie;
      assert column[..i + 1][..i] == column[..i];
      assert Flatten(column[..i + 1]) == seen + movie;
    }
    assert column[..|column|] == column;
    FlattenFacts(column);
  }

  /** `find_popular_genres(movie_data, number)`: tallies the original genres,
      sorts the dict's keys by count (descending, stable) and returns the
      first `number` of them. */
  method FindPopularGenres(movieData: Table, number: nat) returns (top: seq<string>)
    requires HasGenreColumn(movieData)
    ensures top == TopGenres(GenreColumn(movieData), number)
    ensures var cols := GenreColumn(movieData);
      && |top| == Min(number, |GenreSet(cols)|)
      && (forall i, j :: 0 <= i < j < |top| ==> top[i] != top[j])
      && (forall g :: g in top ==> g in GenreSet(cols))
      && (forall i, j :: 0 <= i < j < |top| ==> Occurrences(cols, top[i]) >= Occurrences(cols, top[j]))
      && (forall i, j :: (0 <= i < j < |top| && Occurrences(cols, top[i]) == Occurrences(cols, top[j])) ==>
            FirstPos(Flatten(cols), top[i]) < FirstPos(Flatten(cols), top[j]))
      && (forall g, t :: g in GenreSet(cols) && g !in top && t in top ==>
            Occurrences(cols, g) <= Occurrences(cols, t))
  {
    var column := GenreColumn(movieData);
    var keys, topCategories := CountGenres(column);
    var categories := SortByCount(keys, topCategories);
    assert categories == Ranking(column);
    top := categories[..Min(number, |categories|)];
    assert top == TopGenres(column, number);
    TopGenresSelection(column, number);
    TopGenresOrder(column, number);
    TopGenresExcluded(column, number);
  }

  // ---------------------------------------------------------------------
  // Rows carrying a genre
  // ---------------------------------------------------------------------

  /** The indices of the rows whose original-genre list contains `genre`,
      in increasing order. */
  function MoviesWithGenre(df: Table, genre: string): (ix: seq<nat>)
    requires HasGenreColumn(df)
    ensures forall k :: 0 <= k < |ix| ==> ix[k] < |df|
    ensures forall k, l :: 0 <= k < l < |ix| ==> ix[k] < ix[l]
    ensures forall r :: 0 <= r < |df| ==> (r in ix <==> genre in Genres(df[r]))
  {
    if df == [] then []
    else
      var last := |df| - 1;
      MoviesWithGenre(df[..last], genre) + (if genre in Genres(df[last]) then [last] else [])
  }

  /** Every genre the ranking returns is carried by at least one row, so the
      averages taken over the selected rows never divide by zero. */
  lemma PopularGenresHaveMovies(df: Table, number: nat, genre: string)
    requires HasGenreColumn(df)
    requires genre in TopGenres(GenreColumn(df), number)
    ensures MoviesWithGenre(df, genre) != []
  {
    var cols := GenreColumn(df);
    TopGenresSelection(cols, number);
    var r :| 0 <= r < |cols| && genre in cols[r];
    assert r in MoviesWithGenre(df, genre);
  }
}
