/** The map pages: per country, the total number of medals, the gold, silver and bronze
    counts with their total, and the medals won in five fixed disciplines. Each starts from
    the table grouped by (country, x) and unstacked WITHOUT a fill value, so a combination
    never seen is NaN; the row sums skip NaN. */
module Geo {
  import opened Tables
  import opened Records

  /** Medal counts by country and medal type, NaN where a country never won that type. */
  function MedalsByCountry(rows: seq<MedalRow>): Frame<Option<nat>>
  {
    Unstack(Pairs(rows, CountryName, MedalType))
  }

  /** One row per country with medals and one column per medal type won by anyone; a cell
      is the country's number of rows of that type, NaN when there are none. */
  lemma MedalsByCountrySpec(rows: seq<MedalRow>)
    ensures var f := MedalsByCountry(rows);
      && Shaped(f) && Increasing(f.index) && Increasing(f.columns)
      && (forall c :: c in f.index <==> Where(rows, CountryName, c) != [])
      && (forall m :: m in f.columns <==> Where(rows, MedalType, m) != [])
      && (forall i, j :: 0 <= i < |f.index| && 0 <= j < |f.columns| ==>
            f.cells[i][j] == NaNIfZero(|Where(Where(rows, CountryName, f.index[i]), MedalType, f.columns[j])|))
  {
    var f := MedalsByCountry(rows);
    CrossTabKeys(rows, CountryName, MedalType);
    forall c ensures c in f.index <==> Where(rows, CountryName, c) != [] {
      WhereNonEmpty(rows, CountryName, c);
    }
    forall m ensures m in f.columns <==> Where(rows, MedalType, m) != [] {
      WhereNonEmpty(rows, MedalType, m);
    }
    forall i, j | 0 <= i < |f.index| && 0 <= j < |f.columns|
      ensures f.cells[i][j] == NaNIfZero(|Where(Where(rows, CountryName, f.index[i]), MedalType, f.columns[j])|)
    {
      UnstackCell(rows, CountryName, MedalType, i, j);
    }
  }

  /** `Total Medals` of the first map: each country's row summed, NaN skipped. */
  function TotalMedalsByCountry(rows: seq<MedalRow>): (s: Series)
    ensures |s.index| == |s.values|
  {
    var f := MedalsByCountry(rows);
    Series(f.index, seq(|f.cells|, i requires 0 <= i < |f.cells| => SumSkipNa(f.cells[i])))
  }

  /** Every country with a medal row appears once, in sorted order, and its total is its
      number of medal rows. */
  lemma TotalMedalsByCountrySpec(rows: seq<MedalRow>)
    ensures var s := TotalMedalsByCountry(rows);
      && Increasing(s.index)
      && (forall c :: c in s.index <==> Where(rows, CountryName, c) != [])
      && (forall i :: 0 <= i < |s.index| ==> s.values[i] == |Where(rows, CountryName, s.index[i])|)
  {
    var s := TotalMedalsByCountry(rows);
    var t := CrossTab(Pairs(rows, CountryName, MedalType));
    var f := MedalsByCountry(rows);
    CrossTabKeys(rows, CountryName, MedalType);
    forall c ensures c in s.index <==> Where(rows, CountryName, c) != [] {
      WhereNonEmpty(rows, CountryName, c);
    }
    forall i | 0 <= i < |s.index| ensures s.values[i] == |Where(rows, CountryName, s.index[i])| {
      SumSkipNaFilled(f.cells[i], t.cells[i]);
      CrossTabRows(rows, CountryName, MedalType, i);
    }
  }

  /** One row of the second map. */
  datatype CountryMedals = CountryMedals(
    countryName: string,
    gold: Option<nat>,
    silver: Option<nat>,
    bronze: Option<nat>,
    totalMedals: nat)

  /** The medal types the second map reads, in the order it reads them. */
  const MedalTypes: seq<string> := ["GOLD", "SILVER", "BRONZE"]

  /** The second map: the GOLD, SILVER and BRONZE columns (a KeyError for the first that is
      missing) and their NaN-skipping sum. */
  function IndividualMedals(rows: seq<MedalRow>): Result<seq<CountryMedals>>
  {
    MedalTable(MedalsByCountry(rows))
  }

  function MedalTable(f: Frame<Option<nat>>): (r: Result<seq<CountryMedals>>)
    requires Shaped(f)
    ensures r.Ok? ==> |r.value| == |f.index|
  {
    match GetColumns(f, MedalTypes)
    case Ok(cols) =>
      assert GetColumn(f, MedalTypes[0]) == Ok(cols[0]);
      assert GetColumn(f, MedalTypes[1]) == Ok(cols[1]);
      assert GetColumn(f, MedalTypes[2]) == Ok(cols[2]);
      Ok(seq(|f.index|, i requires 0 <= i < |f.index| =>
        CountryMedals(f.index[i], cols[0][i], cols[1][i], cols[2][i],
                      SumSkipNa([cols[0][i], cols[1][i], cols[2][i]]))))
    case KeyError(k) => KeyError(k)
    case IndexError => IndexError
  }

  /** A row of the medal table reads the three medal-type columns at its country. */
  lemma MedalTableRow(f: Frame<Option<nat>>, k: nat)
    requires Shaped(f) && MedalTable(f).Ok? && k < |f.index|
    ensures GetColumn(f, "GOLD").Ok? && GetColumn(f, "SILVER").Ok? && GetColumn(f, "BRONZE").Ok?
    ensures var gold := GetColumn(f, "GOLD").value[k];
      var silver := GetColumn(f, "SILVER").value[k];
      var bronze := GetColumn(f, "BRONZE").value[k];
      MedalTable(f).value[k] ==
        CountryMedals(f.index[k], gold, silver, bronze, FillZero(gold) + FillZero(silver) + FillZero(bronze))
  {
    var cols := GetColumns(f, MedalTypes).value;
    assert MedalTypes[0] == "GOLD" && MedalTypes[1] == "SILVER" && MedalTypes[2] == "BRONZE";
    assert GetColumn(f, "GOLD") == Ok(cols[0]);
    assert GetColumn(f, "SILVER") == Ok(cols[1]);
    assert GetColumn(f, "BRONZE") == Ok(cols[2]);
    var vs := [cols[0][k], cols[1][k], cols[2][k]];
    assert vs[1..] == [cols[1][k], cols[2][k]] && vs[1..][1..] == [cols[2][k]] && vs[1..][1..][1..] == [];
    assert SumSkipNa(vs[1..][1..]) == FillZero(cols[2][k]);
    assert SumSkipNa(vs[1..]) == FillZero(cols[1][k]) + FillZero(cols[2][k]);
  }

  /** What a row of the second map says about a country: each medal type's count, NaN when
      it is 0, and the three counts added up. */
  predicate Tallied(rows: seq<MedalRow>, cm: CountryMedals)
  {
    var w := Where(rows, CountryName, cm.countryName);
    && cm.gold == NaNIfZero(|Where(w, MedalType, "GOLD")|)
    && cm.silver == NaNIfZero(|Where(w, MedalType, "SILVER")|)
    && cm.bronze == NaNIfZero(|Where(w, MedalType, "BRONZE")|)
    && cm.totalMedals == |Where(w, MedalType, "GOLD")| + |Where(w, MedalType, "SILVER")|
                         + |Where(w, MedalType, "BRONZE")|
  }

  /** The map fails on the first medal type nobody won; otherwise it has one row per country
      with medals, tallied from the rows. */
  lemma IndividualMedalsSpec(rows: seq<MedalRow>)
    ensures var r := IndividualMedals(rows);
      && (Where(rows, MedalType, "GOLD") == [] ==> r == KeyError("GOLD"))
      && ((Where(rows, MedalType, "GOLD") != [] && Where(rows, MedalType, "SILVER") == []) ==>
            r == KeyError("SILVER"))
      && ((Where(rows, MedalType, "GOLD") != [] && Where(rows, MedalType, "SILVER") != []
           && Where(rows, MedalType, "BRONZE") == []) ==> r == KeyError("BRONZE"))
      && (r.Ok? <==> (Where(rows, MedalType, "GOLD") != [] && Where(rows, MedalType, "SILVER") != []
                      && Where(rows, MedalType, "BRONZE") != []))
      && (r.Ok? ==> forall c :: (exists k :: 0 <= k < |r.value| && r.value[k].countryName == c)
                               <==> Where(rows, CountryName, c) != [])
      && (r.Ok? ==> forall k :: 0 <= k < |r.value| ==> Tallied(rows, r.value[k]))
  {
    var f := MedalsByCountry(rows);
    CrossTabKeys(rows, CountryName, MedalType);
    assert f.columns == CrossTab(Pairs(rows, CountryName, MedalType)).columns;
    WhereNonEmpty(rows, MedalType, "GOLD");
    WhereNonEmpty(rows, MedalType, "SILVER");
    WhereNonEmpty(rows, MedalType, "BRONZE");
    GetColumnsThree(f, "GOLD", "SILVER", "BRONZE");
    if MedalTable(f).Ok? {
      IndividualMedalsRows(rows);
    }
  }

  lemma IndividualMedalsRows(rows: seq<MedalRow>)
    requires MedalTable(MedalsByCountry(rows)).Ok?
    ensures var cms := MedalTable(MedalsByCountry(rows)).value;
      && (forall c :: (exists k :: 0 <= k < |cms| && cms[k].countryName == c) <==> Where(rows, CountryName, c) != [])
      && (forall k :: 0 <= k < |cms| ==> Tallied(rows, cms[k]))
  {
    var f := MedalsByCountry(rows);
    var cms := MedalTable(f).value;
    CrossTabKeys(rows, CountryName, MedalType);
    forall k | 0 <= k < |cms| ensures cms[k].countryName == f.index[k] && Tallied(rows, cms[k]) {
      IndividualMedalsRow(rows, k);
    }
    forall c ensures (exists k :: 0 <= k < |cms| && cms[k].countryName == c) <==> Where(rows, CountryName, c) != [] {
      WhereNonEmpty(rows, CountryName, c);
      if c in f.index {
        var k :| 0 <= k < |f.index| && f.index[k] == c;
        assert cms[k].countryName == c;
      }
    }
  }

  lemma IndividualMedalsRow(rows: seq<MedalRow>, k: nat)
    requires MedalTable(MedalsByCountry(rows)).Ok?
    requires k < |MedalsByCountry(rows).index|
    ensures MedalTable(MedalsByCountry(rows)).value[k].countryName == MedalsByCountry(rows).index[k]
    ensures Tallied(rows, MedalTable(MedalsByCountry(rows)).value[k])
  {
    var f := MedalsByCountry(rows);
    var t := CrossTab(Pairs(rows, CountryName, MedalType));
    assert f.index == t.index && f.columns == t.columns;
    MedalTableRow(f, k);
    UnstackColumn(rows, CountryName, MedalType, k, "GOLD");
    UnstackColumn(rows, CountryName, MedalType, k, "SILVER");
    UnstackColumn(rows, CountryName, MedalType, k, "BRONZE");
  }

  /** The five disciplines of the third map, in the order it reads them. */
  const TopDisciplines: seq<string> := ["Athletics", "Swimming", "Wrestling", "Rowing", "Boxing"]

  /** The five names are distinct (their initials already differ), so no medal row is
      counted twice. */
  lemma TopDisciplinesUnique()
    ensures Unique(TopDisciplines)
  {
    var initials := seq(|TopDisciplines|, j requires 0 <= j < |TopDisciplines| => TopDisciplines[j][0]);
    assert initials == ['A', 'S', 'W', 'R', 'B'];
  }

  /** Medal counts by country and discipline, NaN where a country never medalled in it. */
  function DisciplinesByCountry(rows: seq<MedalRow>): Frame<Option<nat>>
  {
    Unstack(Pairs(rows, CountryName, DisciplineTitle))
  }

  /** The third map: the five discipline columns (a KeyError for the first that is missing)
      and, per country, their NaN-skipping sum. */
  function TopDisciplineTotals(rows: seq<MedalRow>): Result<Series>
  {
    TopTotals(DisciplinesByCountry(rows))
  }

  function TopTotals(f: Frame<Option<nat>>): (r: Result<Series>)
    requires Shaped(f)
    ensures r.Ok? ==> r.value.index == f.index && |r.value.values| == |f.index|
  {
    match GetColumns(f, TopDisciplines)
    case Ok(cols) =>
      assert forall j :: 0 <= j < |cols| ==> GetColumn(f, TopDisciplines[j]) == Ok(cols[j]);
      Ok(Series(f.index, seq(|f.index|, i requires 0 <= i < |f.index| =>
        SumSkipNa(seq(|cols|, j requires 0 <= j < |cols| => cols[j][i])))))
    case KeyError(k) => KeyError(k)
    case IndexError => IndexError
  }

  /** A country's value is the sum of its five discipline cells, NaN read as 0. */
  lemma TopTotalsRow(f: Frame<Option<nat>>, i: nat, ns: seq<nat>)
    requires Shaped(f) && Increasing(f.columns) && TopTotals(f).Ok? && i < |f.index|
    requires |ns| == |TopDisciplines|
    requires forall j, jj :: 0 <= j < |ns| && 0 <= jj < |f.columns| && f.columns[jj] == TopDisciplines[j] ==>
               FillZero(f.cells[i][jj]) == ns[j]
    ensures TopTotals(f).value.values[i] == Sum(ns)
  {
    var cols := GetColumns(f, TopDisciplines).value;
    var vs := seq(|cols|, j requires 0 <= j < |cols| => cols[j][i]);
    forall j | 0 <= j < |vs| ensures FillZero(vs[j]) == ns[j] {
      assert TopDisciplines[j] in f.columns;
      var jj :| 0 <= jj < |f.columns| && f.columns[jj] == TopDisciplines[j];
      GetColumnAt(f, jj);
    }
    SumSkipNaFilled(vs, ns);
  }

  /** The map fails on the first of the five disciplines in which nobody medalled. Otherwise
      every country with medals appears, and its value is the number of its medal rows whose
      discipline is one of the five; rows in any other discipline count for nothing, and a
      country with none of the five is shown with 0. */
  lemma TopDisciplineTotalsSpec(rows: seq<MedalRow>)
    ensures TopDisciplineTotals(rows).Ok? <==>
              forall d :: d in TopDisciplines ==> Where(rows, DisciplineTitle, d) != []
    ensures TopDisciplineTotals(rows).KeyError? ==>
              exists j :: 0 <= j < |TopDisciplines| && TopDisciplineTotals(rows).key == TopDisciplines[j]
                          && Where(rows, DisciplineTitle, TopDisciplines[j]) == []
                          && forall i :: 0 <= i < j ==> Where(rows, DisciplineTitle, TopDisciplines[i]) != []
    ensures TopDisciplineTotals(rows).Ok? ==>
              var s := TopDisciplineTotals(rows).value;
              && Increasing(s.index)
              && (forall c :: c in s.index <==> Where(rows, CountryName, c) != [])
              && (forall i :: 0 <= i < |s.index| ==>
                    s.values[i] == CountAmong(Select(Where(rows, CountryName, s.index[i]), DisciplineTitle), TopDisciplines))
  {
    var f := DisciplinesByCountry(rows);
    CrossTabKeys(rows, CountryName, DisciplineTitle);
    forall d ensures Where(rows, DisciplineTitle, d) != [] <==> d in f.columns {
      WhereNonEmpty(rows, DisciplineTitle, d);
    }
    if TopDisciplineTotals(rows).Ok? {
      TopDisciplineTotalsRows(rows);
    }
  }

  lemma TopDisciplineTotalsRows(rows: seq<MedalRow>)
    requires TopDisciplineTotals(rows).Ok?
    ensures var s := TopDisciplineTotals(rows).value;
      && Increasing(s.index)
      && (forall c :: c in s.index <==> Where(rows, CountryName, c) != [])
      && (forall i :: 0 <= i < |s.index| ==>
            s.values[i] == CountAmong(Select(Where(rows, CountryName, s.index[i]), DisciplineTitle), TopDisciplines))
  {
    var s := TopDisciplineTotals(rows).value;
    CrossTabKeys(rows, CountryName, DisciplineTitle);
    forall c ensures c in s.index <==> Where(rows, CountryName, c) != [] {
      WhereNonEmpty(rows, CountryName, c);
    }
    forall i | 0 <= i < |s.index|
      ensures s.values[i] == CountAmong(Select(Where(rows, CountryName, s.index[i]), DisciplineTitle), TopDisciplines)
    {
      TopDisciplineTotalsRow(rows, i);
    }
  }

  lemma TopDisciplineTotalsRow(rows: seq<MedalRow>, i: nat)
    requires TopDisciplineTotals(rows).Ok? && i < |TopDisciplineTotals(rows).value.index|
    ensures var s := TopDisciplineTotals(rows).value;
      s.values[i] == CountAmong(Select(Where(rows, CountryName, s.index[i]), DisciplineTitle), TopDisciplines)
  {
    var f := DisciplinesByCountry(rows);
    var t := CrossTab(Pairs(rows, CountryName, DisciplineTitle));
    assert f.index == t.index && f.columns == t.columns;
    var w := Where(rows, CountryName, f.index[i]);
    var ns := Counts(Select(w, DisciplineTitle), TopDisciplines);
    forall j, jj | 0 <= j < |ns| && 0 <= jj < |f.columns| && f.columns[jj] == TopDisciplines[j]
      ensures FillZero(f.cells[i][jj]) == ns[j]
    {
      UnstackCell(rows, CountryName, DisciplineTitle, i, jj);
      CountSelect(w, DisciplineTitle, TopDisciplines[j]);
    }
    TopTotalsRow(f, i, ns);
    TopDisciplinesUnique();
    SumOfCountsAmong(Select(w, DisciplineTitle), TopDisciplines);
  }
}
