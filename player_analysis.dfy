/** The athlete page: one athlete's medals by Games and medal type. Rows with no athlete
    name are dropped first, then the name must match exactly; the grouped table is unstacked
    without fill and the gaps filled with 0. */
module PlayerAnalysis {
  import opened Tables
  import opened Records

  /** The rows credited to the athlete: a missing name never matches. */
  function AthleteRows(rows: seq<MedalRow>, name: string): (w: seq<MedalRow>)
    ensures forall r :: r in w <==> r in rows && r.athleteFullName == Some(name)
  {
    if rows == [] then []
    else
      var rest := AthleteRows(rows[1..], name);
      assert forall r :: r in rows <==> r == rows[0] || r in rows[1..];
      match rows[0].athleteFullName
      case None => rest
      case Some(n) => if n == name then [rows[0]] + rest else rest
  }

  /** The number of rows credited to the athlete, counted directly. */
  function MedalsOf(rows: seq<MedalRow>, name: string): nat
  {
    if rows == [] then 0
    else (if rows[0].athleteFullName == Some(name) then 1 else 0) + MedalsOf(rows[1..], name)
  }

  /** The bar chart's table: medal counts by Games (rows) and medal type (columns). */
  function MedalCountTable(rows: seq<MedalRow>, name: string): Frame<nat>
  {
    FillNa(Unstack(Pairs(AthleteRows(rows, name), SlugGame, MedalType)))
  }

  lemma {:induction false} AthleteRowsCount(rows: seq<MedalRow>, name: string)
    ensures |AthleteRows(rows, name)| == MedalsOf(rows, name)
  {
    if rows != [] {
      AthleteRowsCount(rows[1..], name);
    }
  }

  /** The table has a row for each Games and a column for each medal type the athlete won,
      sorted; every cell counts the athlete's medals of that type at those Games; and
      the stacked bars add up to all the athlete's medals. */
  lemma MedalCountTableSpec(rows: seq<MedalRow>, name: string)
    ensures var t := MedalCountTable(rows, name);
      var a := AthleteRows(rows, name);
      && Shaped(t) && Increasing(t.index) && Increasing(t.columns)
      && (forall g :: g in t.index <==> Where(a, SlugGame, g) != [])
      && (forall m :: m in t.columns <==> Where(a, MedalType, m) != [])
      && (forall i, j :: 0 <= i < |t.index| && 0 <= j < |t.columns| ==>
            t.cells[i][j] == |Where(Where(a, SlugGame, t.index[i]), MedalType, t.columns[j])|)
      && Sum(seq(|t.cells|, i requires 0 <= i < |t.cells| => Sum(t.cells[i]))) == MedalsOf(rows, name)
  {
    var a := AthleteRows(rows, name);
    var ps := Pairs(a, SlugGame, MedalType);
    var t := MedalCountTable(rows, name);
    FillNaUnstack(ps);
    CrossTabKeys(a, SlugGame, MedalType);
    forall g ensures g in t.index <==> Where(a, SlugGame, g) != [] {
      WhereNonEmpty(a, SlugGame, g);
    }
    forall m ensures m in t.columns <==> Where(a, MedalType, m) != [] {
      WhereNonEmpty(a, MedalType, m);
    }
    forall i, j | 0 <= i < |t.index| && 0 <= j < |t.columns|
      ensures t.cells[i][j] == |Where(Where(a, SlugGame, t.index[i]), MedalType, t.columns[j])|
    {
      CrossTabCell(a, SlugGame, MedalType, i, j);
    }
    CrossTabTotal(ps);
    AthleteRowsCount(rows, name);
  }

  /** A row without an athlete name never reaches the table. */
  lemma {:induction false} NamelessRowIgnored(rows: seq<MedalRow>, x: MedalRow, name: string)
    requires x.athleteFullName.None?
    ensures MedalCountTable(rows + [x], name) == MedalCountTable(rows, name)
  {
    AthleteRowsNameless(rows, x, name);
  }

  lemma {:induction false} AthleteRowsNameless(rows: seq<MedalRow>, x: MedalRow, name: string)
    requires x.athleteFullName.None?
    ensures AthleteRows(rows + [x], name) == AthleteRows(rows, name)
  {
    if rows == [] {
      assert AthleteRows([x], name) == AthleteRows([x][1..], name);
    } else {
      assert (rows + [x])[1..] == rows[1..] + [x];
      AthleteRowsNameless(rows[1..], x, name);
    }
  }
}
