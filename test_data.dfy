/// The type checks of the test suite: each test walks every row of the
/// table, clears a flag when a cell of its column pair has the wrong type,
/// and passes when the flag is still set at the end.
module TestData {
  import opened Cells

  /** Columns 0 and 5 (titles) hold `str` in every row. */
  predicate NamesValid(t: Table)
    requires WellFormed(t)
  {
    forall r :: 0 <= r < |t| ==> t[r][0].Str? && t[r][5].Str?
  }

  /** Columns 1 and 6 (years) hold `int` in every row. */
  predicate YearsValid(t: Table)
    requires WellFormed(t)
  {
    forall r :: 0 <= r < |t| ==> t[r][1].Int? && t[r][6].Int?
  }

  /** Columns 2 and 7 (genres) hold lists of `str` in every row. */
  predicate GenresValid(t: Table)
    requires WellFormed(t)
  {
    forall r :: 0 <= r < |t| ==> IsStrList(t[r][2]) && IsStrList(t[r][7])
  }

  /** Columns 3 and 8 (ratings) hold `float` in every row. */
  predicate RatingsValid(t: Table)
    requires WellFormed(t)
  {
    forall r :: 0 <= r < |t| ==> t[r][3].Float? && t[r][8].Float?
  }

  /** Columns 4 and 9 (vote counts) hold `int` in every row. */
  predicate VotesValid(t: Table)
    requires WellFormed(t)
  {
    forall r :: 0 <= r < |t| ==> t[r][4].Int? && t[r][9].Int?
  }

  /** `test_valid_name`: the flag it asserts on. */
  method TestValidName(data: Table) returns (validNames: bool)
    requires WellFormed(data)
    ensures validNames <==> NamesValid(data)
  {
    validNames := true;
    for row := 0 to |data|
      invariant validNames <==> NamesValid(data[..row])
    {
      if !data[row][0].Str? {
        validNames := false;
      }
      if !data[row][5].Str? {
        validNames := false;
      }
    }
    assert data[..|data|] == data;
  }

  /** `test_valid_years`: the flag it asserts on. */
  method TestValidYears(data: Table) returns (validYears: bool)
    requires WellFormed(data)
    ensures validYears <==> YearsValid(data)
  {
    validYears := true;
    for row := 0 to |data|
      invariant validYears <==> YearsValid(data[..row])
    {
      if !data[row][1].Int? {
        validYears := false;
      }
      if !data[row][6].Int? {
        validYears := false;
      }
    }
    assert data[..|data|] == data;
  }

  /** `test_valid_genres`: the flag it asserts on. A cell that is not a list
      clears the flag; a list clears it once per element that is not a `str`. */
  method TestValidGenres(data: Table) returns (validGenres: bool)
    requires WellFormed(data)
    ensures validGenres <==> GenresValid(data)
  {
    validGenres := true;
    for row := 0 to |data|
      invariant validGenres <==> GenresValid(data[..row])
    {
      ghost var before := validGenres;
      if !data[row][2].List? {
        validGenres := false;
      } else {
        var genres := data[row][2].items;
        for k := 0 to |genres|
          invariant validGenres <==> before && forall m :: 0 <= m < k ==> genres[m].Str?
        {
          if !genres[k].Str? {
            validGenres := false;
          }
        }
      }
      ghost var middle := validGenres;
      assert middle <==> before && IsStrList(data[row][2]);
      if !data[row][7].List? {
        validGenres := false;
      } else {
        var genres := data[row][7].items;
        for k := 0 to |genres|
          invariant validGenres <==> middle && forall m :: 0 <= m < k ==> genres[m].Str?
        {
          if !genres[k].Str? {
            validGenres := false;
          }
        }
      }
      assert validGenres <==> before && IsStrList(data[row][2]) && IsStrList(data[row][7]);
      assert data[..row + 1] == data[..row] + [data[row]];
    }
    assert data[..|data|] == data;
  }

  /** `test_valid_ratings`: the flag it asserts on. */
  method TestValidRatings(data: Table) returns (validRatings: bool)
    requires WellFormed(data)
    ensures validRatings <==> RatingsValid(data)
  {
    validRatings := true;
    for row := 0 to |data|
      invariant validRatings <==> RatingsValid(data[..row])
    {
      if !data[row][3].Float? {
        validRatings := false;
      }
      if !data[row][8].Float? {
        validRatings := false;
      }
    }
    assert data[..|data|] == data;
  }

  /** `test_valid_votes`: the flag it asserts on. */
  method TestValidVotes(data: Table) returns (validVotes: bool)
    requires WellFormed(data)
    ensures validVotes <==> VotesValid(data)
  {
    validVotes := true;
    for row := 0 to |data|
      invariant validVotes <==> VotesValid(data[..row])
    {
      if !data[row][4].Int? {
        validVotes := false;
      }
      if !data[row][9].Int? {
        validVotes := false;
      }
    }
    assert data[..|data|] == data;
  }

  /** A flag once cleared stays cleared: a table whose first `k` rows fail a
      check fails it as a whole, whatever rows follow. */
  lemma FailureIsFinal(t: Table, k: nat)
    requires WellFormed(t) && k <= |t|
    ensures !NamesValid(t[..k]) ==> !NamesValid(t)
    ensures !YearsValid(t[..k]) ==> !YearsValid(t)
    ensures !GenresValid(t[..k]) ==> !GenresValid(t)
    ensures !RatingsValid(t[..k]) ==> !RatingsValid(t)
    ensures !VotesValid(t[..k]) ==> !VotesValid(t)
  {
  }

  /** The empty table passes all five tests. */
  lemma EmptyTablePasses()
    ensures NamesValid([]) && YearsValid([]) && GenresValid([])
    ensures RatingsValid([]) && VotesValid([])
  {
  }

  /** A `None` cell fails the test responsible for its column. */
  lemma NoneCellFails(t: Table, r: nat, c: nat)
    requires WellFormed(t) && r < |t| && c < Width
    requires t[r][c].NoneValue?
    ensures (c == 0 || c == 5) ==> !NamesValid(t)
    ensures (c == 1 || c == 6) ==> !YearsValid(t)
    ensures (c == 2 || c == 7) ==> !GenresValid(t)
    ensures (c == 3 || c == 8) ==> !RatingsValid(t)
    ensures (c == 4 || c == 9) ==> !VotesValid(t)
    ensures !(NamesValid(t) && YearsValid(t) && GenresValid(t) && RatingsValid(t) && VotesValid(t))
  {
  }

  // ---------------------------------------------------------------------
  // NaN and infinite ratings
  // ---------------------------------------------------------------------

  /** A float cell whose value is NaN or an infinity. */
  predicate NonFinite(c: Cell) {
    c.Float? && !c.f.Finite?
  }

  /** Columns 3 and 8 hold finite floats in every row. */
  predicate RatingsFinite(t: Table)
    requires WellFormed(t)
  {
    forall r :: 0 <= r < |t| ==>
      t[r][3].Float? && t[r][3].f.Finite? && t[r][8].Float? && t[r][8].f.Finite?
  }

  /** The ratings test reads only the type: a passing table still passes
      when a rating is replaced by NaN or an infinity, although it no
      longer has finite ratings. */
  lemma NonFiniteRatingPasses(t: Table, r: nat, c: nat, v: FloatValue)
    requires WellFormed(t) && r < |t| && (c == 3 || c == 8)
    requires !v.Finite?
    ensures WellFormed(t[r := t[r][c := Float(v)]])
    ensures RatingsValid(t) ==> RatingsValid(t[r := t[r][c := Float(v)]])
    ensures !RatingsFinite(t[r := t[r][c := Float(v)]])
  {
    var u := t[r := t[r][c := Float(v)]];
    assert u[r][c] == Float(v);
  }

  /** A one-row table with a NaN original rating and every other cell well
      typed passes the ratings test. */
  lemma NanRatingPasses()
    ensures var row := [Str("Heat"), Int(1986), List([Str("Crime")]), Float(NaN), Int(120),
                        Str("Heat"), Int(1995), List([Str("Crime")]), Float(Finite(8.3)), Int(700000)];
      WellFormed([row]) && RatingsValid([row]) && NonFinite(row[3]) && !RatingsFinite([row])
  {
    var row := [Str("Heat"), Int(1986), List([Str("Crime")]), Float(NaN), Int(120),
                Str("Heat"), Int(1995), List([Str("Crime")]), Float(Finite(8.3)), Int(700000)];
    assert [row][0][3].f == NaN;
  }

  /** Finite ratings are the ratings test plus the absence of NaN and
      infinities. */
  lemma FiniteRatingsFacts(t: Table)
    requires WellFormed(t)
    ensures RatingsFinite(t) <==>
      RatingsValid(t) && forall r :: 0 <= r < |t| ==> !NonFinite(t[r][3]) && !NonFinite(t[r][8])
  {
  }

  /** The ratings test as its comment describes it: a rating passes only
      when it is a float that is neither NaN nor infinite. */
  method TestFiniteRatings(data: Table) returns (validRatings: bool)
    requires WellFormed(data)
    ensures validRatings <==> RatingsFinite(data)
  {
    validRatings := true;
    for row := 0 to |data|
      invariant validRatings <==> RatingsFinite(data[..row])
    {
      if !data[row][3].Float? || !data[row][3].f.Finite? {
        validRatings := false;
      }
      if !data[row][8].Float? || !data[row][8].f.Finite? {
        validRatings := false;
      }
    }
    assert data[..|data|] == data;
  }
}
