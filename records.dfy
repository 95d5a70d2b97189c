/** The record store: one medal row per participant and medal, after the column drops of
    the preparation step, and the row filters and column projections every analytic
    starts from. */
module Records {
  import opened Tables

  /** One row of the medal table. Nullable columns are Options (None is NaN). */
  datatype MedalRow = MedalRow(
    countryName: string,
    disciplineTitle: string,
    eventTitle: string,
    eventGender: Option<string>,
    athleteFullName: Option<string>,
    medalType: string,
    slugGame: string)

  /** The non-null string columns that the analytics group and filter on. */
  datatype Column = CountryName | DisciplineTitle | MedalType | SlugGame

  function Field(r: MedalRow, c: Column): string
  {
    match c
    case CountryName => r.countryName
    case DisciplineTitle => r.disciplineTitle
    case MedalType => r.medalType
    case SlugGame => r.slugGame
  }

  /** `df[df[c] == v]`: exact string equality, order kept. */
  function Where(rows: seq<MedalRow>, c: Column, v: string): (w: seq<MedalRow>)
    ensures |w| <= |rows|
    ensures forall r :: r in w <==> r in rows && Field(r, c) == v
  {
    if rows == [] then []
    else if Field(rows[0], c) == v then [rows[0]] + Where(rows[1..], c, v)
    else Where(rows[1..], c, v)
  }

  /** `df[c]` as a list of values. */
  function Select(rows: seq<MedalRow>, c: Column): (xs: seq<string>)
    ensures |xs| == |rows|
    ensures forall x :: x in xs <==> exists r :: r in rows && Field(r, c) == x
  {
    if rows == [] then []
    else
      var rest := Select(rows[1..], c);
      assert forall r :: r in rows <==> r == rows[0] || r in rows[1..];
      [Field(rows[0], c)] + rest
  }

  /** The two group keys of each row, for `groupby([c1, c2])`. */
  function Pairs(rows: seq<MedalRow>, c1: Column, c2: Column): (ps: seq<(string, string)>)
    ensures |ps| == |rows|
  {
    if rows == [] then [] else [(Field(rows[0], c1), Field(rows[0], c2))] + Pairs(rows[1..], c1, c2)
  }

  /** The size of group `v` of column `c` is the number of rows that the filter `c == v` keeps. */
  lemma {:induction false} CountSelect(rows: seq<MedalRow>, c: Column, v: string)
    ensures Count(Select(rows, c), v) == |Where(rows, c, v)|
  {
    if rows != [] {
      CountSelect(rows[1..], c, v);
    }
  }

  lemma {:induction false} FirstsOfPairs(rows: seq<MedalRow>, c1: Column, c2: Column)
    ensures Firsts(Pairs(rows, c1, c2)) == Select(rows, c1)
    ensures Seconds(Pairs(rows, c1, c2)) == Select(rows, c2)
  {
    if rows != [] {
      FirstsOfPairs(rows[1..], c1, c2);
    }
  }

  /** The rows of group `v` in a two-key grouping are the rows the filter `c1 == v` keeps. */
  lemma {:induction false} SecondsWherePairs(rows: seq<MedalRow>, c1: Column, c2: Column, v: string)
    ensures SecondsWhere(Pairs(rows, c1, c2), v) == Select(Where(rows, c1, v), c2)
  {
    if rows != [] {
      SecondsWherePairs(rows[1..], c1, c2, v);
    }
  }

  /** Two equality filters commute. */
  lemma {:induction false} WhereCommutes(rows: seq<MedalRow>, c1: Column, v1: string, c2: Column, v2: string)
    ensures Where(Where(rows, c1, v1), c2, v2) == Where(Where(rows, c2, v2), c1, v1)
  {
    if rows != [] {
      WhereCommutes(rows[1..], c1, v1, c2, v2);
    }
  }

  /** The cell of the zero-filled table grouped by (c1, c2) counts the rows with both keys. */
  lemma CrossTabCell(rows: seq<MedalRow>, c1: Column, c2: Column, i: nat, j: nat)
    requires i < |CrossTab(Pairs(rows, c1, c2)).index|
    requires j < |CrossTab(Pairs(rows, c1, c2)).columns|
    ensures var f := CrossTab(Pairs(rows, c1, c2));
      f.cells[i][j] == |Where(Where(rows, c1, f.index[i]), c2, f.columns[j])|
  {
    var f := CrossTab(Pairs(rows, c1, c2));
    SecondsWherePairs(rows, c1, c2, f.index[i]);
    CountSelect(Where(rows, c1, f.index[i]), c2, f.columns[j]);
  }

  /** The keys of the table grouped by (c1, c2) are exactly the values present in the rows. */
  lemma CrossTabKeys(rows: seq<MedalRow>, c1: Column, c2: Column)
    ensures var f := CrossTab(Pairs(rows, c1, c2));
      && (forall k :: k in f.index <==> k in Select(rows, c1))
      && (forall k :: k in f.columns <==> k in Select(rows, c2))
  {
    FirstsOfPairs(rows, c1, c2);
  }

  /** Each row of the table grouped by (c1, c2) sums to the number of rows of its c1 group. */
  lemma CrossTabRows(rows: seq<MedalRow>, c1: Column, c2: Column, i: nat)
    requires i < |CrossTab(Pairs(rows, c1, c2)).index|
    ensures var f := CrossTab(Pairs(rows, c1, c2));
      Sum(f.cells[i]) == |Where(rows, c1, f.index[i])| >= 1
  {
    var f := CrossTab(Pairs(rows, c1, c2));
    CrossTabRowSum(Pairs(rows, c1, c2), i);
    FirstsOfPairs(rows, c1, c2);
    CountSelect(rows, c1, f.index[i]);
  }

  /** A value has rows exactly when it occurs in the column. */
  lemma WhereNonEmpty(rows: seq<MedalRow>, c: Column, v: string)
    ensures Where(rows, c, v) != [] <==> v in Select(rows, c)
  {
    CountSelect(rows, c, v);
  }

  /** The unfilled table grouped by (c1, c2) has the keys of the filled one, and a cell is
      NaN exactly when its group is empty. */
  lemma UnstackCell(rows: seq<MedalRow>, c1: Column, c2: Column, i: nat, j: nat)
    requires i < |CrossTab(Pairs(rows, c1, c2)).index|
    requires j < |CrossTab(Pairs(rows, c1, c2)).columns|
    ensures var u := Unstack(Pairs(rows, c1, c2));
      var f := CrossTab(Pairs(rows, c1, c2));
      && u.index == f.index && u.columns == f.columns
      && u.cells[i][j] == NaNIfZero(|Where(Where(rows, c1, f.index[i]), c2, f.columns[j])|)
  {
    CrossTabCell(rows, c1, c2, i, j);
  }

  /** A column of the unfilled table grouped by (c1, c2), read by name: the row's group size
      for that value, NaN when the group is empty. */
  lemma UnstackColumn(rows: seq<MedalRow>, c1: Column, c2: Column, i: nat, name: string)
    requires i < |CrossTab(Pairs(rows, c1, c2)).index| && name in CrossTab(Pairs(rows, c1, c2)).columns
    ensures GetColumn(Unstack(Pairs(rows, c1, c2)), name).Ok?
    ensures GetColumn(Unstack(Pairs(rows, c1, c2)), name).value[i]
            == NaNIfZero(|Where(Where(rows, c1, CrossTab(Pairs(rows, c1, c2)).index[i]), c2, name)|)
  {
    var f := CrossTab(Pairs(rows, c1, c2));
    var j :| 0 <= j < |f.columns| && f.columns[j] == name;
    GetColumnAt(Unstack(Pairs(rows, c1, c2)), j);
    UnstackCell(rows, c1, c2, i, j);
  }

  /** An absent key has no rows: its count is 0. */
  lemma AbsentKey(rows: seq<MedalRow>, c: Column, v: string)
    requires v !in Select(rows, c)
    ensures Where(rows, c, v) == []
  {
    CountSelect(rows, c, v);
  }
}
