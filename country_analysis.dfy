/** Country analytics: the most-participated discipline of a country, the disciplines in
    which a country has the most medal rows, the per-game medal trajectory of a country in
    one discipline (as a total and split by medal type), and the comparison of two
    countries' trajectories. */
module CountryAnalysis {
  import opened Tables
  import opened Records

  /** The rows of one country in one discipline (an exact match on both names). */
  function Filtered(rows: seq<MedalRow>, country: string, discipline: string): seq<MedalRow>
  {
    Where(Where(rows, CountryName, country), DisciplineTitle, discipline)
  }

  // ---------------------------------------------------------------------------
  // Most-participated discipline.
  // ---------------------------------------------------------------------------

  /** Participation counts, countries by disciplines, zero-filled. */
  function ParticipationPivot(rows: seq<MedalRow>): (p: Frame<nat>)
    ensures Shaped(p)
  {
    CrossTab(Pairs(rows, CountryName, DisciplineTitle))
  }

  /** `pivot_df.loc[country].idxmax()`: a KeyError for a country without rows. */
  function MostParticipatedSport(rows: seq<MedalRow>, country: string): Result<string>
  {
    var ps := Pairs(rows, CountryName, DisciplineTitle);
    var p := ParticipationPivot(rows);
    match Loc(p, country)
    case Ok(counts) =>
      assert |counts| > 0 by {
        assert country in Firsts(ps);
        assert Seconds(ps)[0] in p.columns;
      }
      Ok(p.columns[ArgMax(counts)])
    case _ => KeyError(country)
  }

  /** The row of the pivot for a country holds the country's row count per discipline. */
  lemma PivotRow(rows: seq<MedalRow>, country: string, i: nat)
    requires i < |ParticipationPivot(rows).index| && ParticipationPivot(rows).index[i] == country
    ensures var p := ParticipationPivot(rows);
      forall j :: 0 <= j < |p.columns| ==> p.cells[i][j] == |Filtered(rows, country, p.columns[j])|
  {
    var p := ParticipationPivot(rows);
    forall j | 0 <= j < |p.columns| ensures p.cells[i][j] == |Filtered(rows, country, p.columns[j])| {
      CrossTabCell(rows, CountryName, DisciplineTitle, i, j);
    }
  }

  /** A discipline nobody won a medal in has no rows for any country. */
  lemma AbsentDiscipline(rows: seq<MedalRow>, country: string, d: string)
    requires d !in Select(rows, DisciplineTitle)
    ensures Filtered(rows, country, d) == []
  {
    var w := Where(rows, CountryName, country);
    assert d !in Select(w, DisciplineTitle);
    AbsentKey(w, DisciplineTitle, d);
  }

  /** The discipline returned has the largest row count of the country (and at least one row);
      on a tie it is the lexicographically smallest of the tied disciplines; a country with no
      rows is a lookup error rather than a default. */
  lemma MostParticipatedSportSpec(rows: seq<MedalRow>, country: string)
    ensures var r := MostParticipatedSport(rows, country);
      && (r.Ok? || r == KeyError(country))
      && (r.KeyError? <==> Where(rows, CountryName, country) == [])
      && (r.Ok? ==>
            && |Filtered(rows, country, r.value)| >= 1
            && (forall d :: |Filtered(rows, country, d)| <= |Filtered(rows, country, r.value)|)
            && (forall d :: d != r.value && |Filtered(rows, country, d)| == |Filtered(rows, country, r.value)|
                  ==> Below(r.value, d)))
  {
    var p := ParticipationPivot(rows);
    var r := MostParticipatedSport(rows, country);
    CrossTabKeys(rows, CountryName, DisciplineTitle);
    CountSelect(rows, CountryName, country);
    if r.Ok? {
      var i := IndexOf(p.index, country).value;
      var counts := p.cells[i];
      var k := ArgMax(counts);
      assert r.value == p.columns[k];
      PivotRow(rows, country, i);
      assert counts[k] >= 1 by {
        CrossTabRows(rows, CountryName, DisciplineTitle, i);
        if counts[k] == 0 {
          SumAllZero(counts);
        }
      }
      forall d ensures |Filtered(rows, country, d)| <= counts[k]
        && (d != r.value && |Filtered(rows, country, d)| == counts[k] ==> Below(r.value, d))
      {
        if d in p.columns {
          var j := IndexOf(p.columns, d).value;
          if j != k && counts[j] == counts[k] {
            assert k < j;
          }
        } else {
          AbsentDiscipline(rows, country, d);
        }
      }
    }
  }

  /** `participants_count`: the country's group size among the rows of one discipline,
      0 when the country is not in that group. */
  function ParticipantsCount(rows: seq<MedalRow>, sport: string, country: string): nat
  {
    GetOr(ValueCounts(Select(Where(rows, DisciplineTitle, sport), CountryName)), country, 0)
  }

  /** The participants count is the country's row count in the discipline. */
  lemma ParticipantsCountSpec(rows: seq<MedalRow>, sport: string, country: string)
    ensures ParticipantsCount(rows, sport, country) == |Filtered(rows, country, sport)|
  {
    var xs := Select(Where(rows, DisciplineTitle, sport), CountryName);
    var s := ValueCounts(xs);
    ValueCountsSpec(xs);
    CountSelect(Where(rows, DisciplineTitle, sport), CountryName, country);
    WhereCommutes(rows, CountryName, country, DisciplineTitle, sport);
    if country in s.index {
      var j := IndexOf(s.index, country).value;
      assert s.values[j] == Count(xs, country);
    }
  }

  /** The bar drawn for the most-participated discipline is the maximum of the country's
      participation counts. */
  lemma ParticipantsOfMostParticipated(rows: seq<MedalRow>, country: string)
    requires MostParticipatedSport(rows, country).Ok?
    ensures var s := MostParticipatedSport(rows, country).value;
      && ParticipantsCount(rows, s, country) >= 1
      && forall d :: |Filtered(rows, country, d)| <= ParticipantsCount(rows, s, country)
  {
    MostParticipatedSportSpec(rows, country);
    ParticipantsCountSpec(rows, MostParticipatedSport(rows, country).value, country);
  }

  // ---------------------------------------------------------------------------
  // Best discipline per country.
  // ---------------------------------------------------------------------------

  datatype DisciplineLeader = DisciplineLeader(countryName: string, disciplineTitle: string, medalCount: nat)

  /** For one discipline, the countries with rows in it (sorted) and their medal totals:
      the (country, discipline, medal type) group sizes summed over the medal types. */
  function TotalMedals(rows: seq<MedalRow>, discipline: string): (t: Series)
    ensures |t.index| == |t.values| && Increasing(t.index)
  {
    var countries := Distinct(Select(Where(rows, DisciplineTitle, discipline), CountryName));
    Series(countries, seq(|countries|, i requires 0 <= i < |countries| =>
      Sum(ValueCounts(Select(Filtered(rows, countries[i], discipline), MedalType)).values)))
  }

  /** A country is in a discipline's totals iff it has rows there, and its total is its
      row count in that discipline. */
  lemma TotalMedalsSpec(rows: seq<MedalRow>, discipline: string)
    ensures var t := TotalMedals(rows, discipline);
      && (forall c :: c in t.index <==> Filtered(rows, c, discipline) != [])
      && (forall i :: 0 <= i < |t.index| ==> t.values[i] == |Filtered(rows, t.index[i], discipline)|)
  {
    var t := TotalMedals(rows, discipline);
    var w := Where(rows, DisciplineTitle, discipline);
    forall i | 0 <= i < |t.index| ensures t.values[i] == |Filtered(rows, t.index[i], discipline)| {
      ValueCountsSpec(Select(Filtered(rows, t.index[i], discipline), MedalType));
    }
    forall c ensures c in t.index <==> Filtered(rows, c, discipline) != [] {
      CountSelect(w, CountryName, c);
      WhereCommutes(rows, CountryName, c, DisciplineTitle, discipline);
    }
  }

  /** `groupby('discipline_title')['medal_count'].idxmax()` for one discipline: the first
      country (in sorted order) with the largest total. */
  function Leader(rows: seq<MedalRow>, discipline: string): DisciplineLeader
    requires discipline in Select(rows, DisciplineTitle)
  {
    var t := TotalMedals(rows, discipline);
    var w := Where(rows, DisciplineTitle, discipline);
    assert |t.index| > 0 by {
      assert w != [] by { CountSelect(rows, DisciplineTitle, discipline); }
      assert Select(w, CountryName)[0] in t.index;
    }
    var k := ArgMax(t.values);
    DisciplineLeader(t.index[k], discipline, t.values[k])
  }

  /** The leader of a discipline has the most rows there (at least one), and every country
      sorted before it has strictly fewer. */
  lemma LeaderSpec(rows: seq<MedalRow>, discipline: string)
    requires discipline in Select(rows, DisciplineTitle)
    ensures var l := Leader(rows, discipline);
      && l.disciplineTitle == discipline
      && l.medalCount == |Filtered(rows, l.countryName, discipline)| >= 1
      && (forall c :: |Filtered(rows, c, discipline)| <= l.medalCount)
      && (forall c :: Below(c, l.countryName) ==> |Filtered(rows, c, discipline)| < l.medalCount)
  {
    var t := TotalMedals(rows, discipline);
    var l := Leader(rows, discipline);
    var k := ArgMax(t.values);
    TotalMedalsSpec(rows, discipline);
    assert l.countryName == t.index[k];
    forall c ensures |Filtered(rows, c, discipline)| <= l.medalCount
      && (Below(c, l.countryName) ==> |Filtered(rows, c, discipline)| < l.medalCount)
    {
      if c in t.index {
        var j := IndexOf(t.index, c).value;
        if Below(c, l.countryName) {
          if k < j {
            assert Below(t.index[k], t.index[j]);
            BelowTransitive(c, t.index[k], c);
            BelowIrreflexive(c);
          }
          if j == k {
            BelowIrreflexive(c);
          }
        }
      }
    }
  }

  /** Every discipline with its leader, in discipline order. */
  function Leaders(rows: seq<MedalRow>): (ls: seq<DisciplineLeader>)
    ensures |ls| == |Distinct(Select(rows, DisciplineTitle))|
  {
    var ds := Distinct(Select(rows, DisciplineTitle));
    seq(|ds|, j requires 0 <= j < |ds| => Leader(rows, ds[j]))
  }

  /** The leaders that are the given country (`df[df['country_name'] == country]`). */
  function OfCountry(ls: seq<DisciplineLeader>, country: string): (r: seq<DisciplineLeader>)
    ensures forall l :: l in r <==> l in ls && l.countryName == country
  {
    if ls == [] then []
    else if ls[0].countryName == country then [ls[0]] + OfCountry(ls[1..], country)
    else OfCountry(ls[1..], country)
  }

  function BestMedalsByDiscipline(rows: seq<MedalRow>, country: string): seq<DisciplineLeader>
  {
    OfCountry(Leaders(rows), country)
  }

  function LeaderDiscipline(l: DisciplineLeader): string
  {
    l.disciplineTitle
  }

  lemma {:induction false} OfCountryIncreasing(ls: seq<DisciplineLeader>, country: string)
    requires Increasing(Labels(ls, LeaderDiscipline))
    ensures Increasing(Labels(OfCountry(ls, country), LeaderDiscipline))
    ensures forall d :: d in Labels(OfCountry(ls, country), LeaderDiscipline) ==> d in Labels(ls, LeaderDiscipline)
  {
    if ls != [] {
      IncreasingTail(Labels(ls, LeaderDiscipline));
      OfCountryIncreasing(ls[1..], country);
      var rest := Labels(OfCountry(ls[1..], country), LeaderDiscipline);
      forall m | 0 <= m < |rest| ensures Below(ls[0].disciplineTitle, rest[m]) {
        assert rest[m] in Labels(ls[1..], LeaderDiscipline);
        var j :| 0 <= j < |Labels(ls[1..], LeaderDiscipline)| && Labels(ls[1..], LeaderDiscipline)[j] == rest[m];
        assert Labels(ls, LeaderDiscipline)[j + 1] == rest[m];
      }
    }
  }

  /** Every row returned is the country's, for a discipline it leads: its medal count is the
      country's row count there, no country has more, and every country sorted before it has
      fewer. No discipline appears twice. */
  lemma BestMedalsByDisciplineSound(rows: seq<MedalRow>, country: string)
    ensures var best := BestMedalsByDiscipline(rows, country);
      && (forall i, j :: 0 <= i < j < |best| ==> best[i].disciplineTitle != best[j].disciplineTitle)
      && forall l :: l in best ==>
           && l.countryName == country
           && l.medalCount == |Filtered(rows, country, l.disciplineTitle)| >= 1
           && (forall c :: |Filtered(rows, c, l.disciplineTitle)| <= l.medalCount)
           && (forall c :: Below(c, country) ==> |Filtered(rows, c, l.disciplineTitle)| < l.medalCount)
  {
    var ds := Distinct(Select(rows, DisciplineTitle));
    var ls := Leaders(rows);
    var best := BestMedalsByDiscipline(rows, country);
    assert Labels(ls, LeaderDiscipline) == ds by {
      forall j | 0 <= j < |ds| ensures Labels(ls, LeaderDiscipline)[j] == ds[j] {
        LabelsAt(ls, LeaderDiscipline, j);
        LeaderSpec(rows, ds[j]);
      }
    }
    OfCountryIncreasing(ls, country);
    forall i, j | 0 <= i < j < |best| ensures best[i].disciplineTitle != best[j].disciplineTitle {
      LabelsAt(best, LeaderDiscipline, i);
      LabelsAt(best, LeaderDiscipline, j);
      BelowIrreflexive(best[i].disciplineTitle);
    }
    forall l | l in best
      ensures l.medalCount == |Filtered(rows, country, l.disciplineTitle)| >= 1
      ensures forall c :: |Filtered(rows, c, l.disciplineTitle)| <= l.medalCount
      ensures forall c :: Below(c, country) ==> |Filtered(rows, c, l.disciplineTitle)| < l.medalCount
    {
      var j :| 0 <= j < |ls| && ls[j] == l;
      LeaderSpec(rows, ds[j]);
    }
  }

  /** Conversely, a discipline in which the country has rows, no country has more, and every
      country sorted before it has fewer, is in the result. */
  lemma BestMedalsByDisciplineComplete(rows: seq<MedalRow>, country: string, d: string)
    requires |Filtered(rows, country, d)| >= 1
    requires forall c :: |Filtered(rows, c, d)| <= |Filtered(rows, country, d)|
    requires forall c :: Below(c, country) ==> |Filtered(rows, c, d)| < |Filtered(rows, country, d)|
    ensures exists l :: l in BestMedalsByDiscipline(rows, country) && l.disciplineTitle == d
  {
    assert d in Select(rows, DisciplineTitle) by {
      var r := Filtered(rows, country, d)[0];
      assert r in Filtered(rows, country, d);
    }
    var ds := Distinct(Select(rows, DisciplineTitle));
    var j := IndexOf(ds, d).value;
    var l := Leader(rows, d);
    LeaderSpec(rows, d);
    if l.countryName != country {
      BelowTotal(l.countryName, country);
    }
    assert Leaders(rows)[j] == l;
  }

  // ---------------------------------------------------------------------------
  // Trajectories.
  // ---------------------------------------------------------------------------

  /** `groupby('slug_game')['medal_type'].count()` over the country's rows in the discipline. */
  function TrackCountryPerformance(rows: seq<MedalRow>, country: string, discipline: string): Series
  {
    ValueCounts(Select(Filtered(rows, country, discipline), SlugGame))
  }

  /** One entry per game with at least one row, in key order; each total is the number of rows
      in that game (so at least 1); games without rows are absent; the totals add up to the
      number of filtered rows. */
  lemma TrackCountryPerformanceSpec(rows: seq<MedalRow>, country: string, discipline: string)
    ensures var t := TrackCountryPerformance(rows, country, discipline);
      var f := Filtered(rows, country, discipline);
      && |t.index| == |t.values| && Increasing(t.index)
      && (forall g :: g in t.index <==> Where(f, SlugGame, g) != [])
      && (forall j :: 0 <= j < |t.index| ==> t.values[j] == |Where(f, SlugGame, t.index[j])| >= 1)
      && Sum(t.values) == |f|
  {
    var f := Filtered(rows, country, discipline);
    var t := TrackCountryPerformance(rows, country, discipline);
    ValueCountsSpec(Select(f, SlugGame));
    forall g ensures Count(Select(f, SlugGame), g) == |Where(f, SlugGame, g)| {
      CountSelect(f, SlugGame, g);
    }
  }

  /** `groupby('slug_game')['medal_type'].value_counts().unstack(fill_value=0)`. */
  function TrackPerformance(rows: seq<MedalRow>, country: string, discipline: string): (b: Frame<nat>)
    ensures Shaped(b)
  {
    CrossTab(Pairs(Filtered(rows, country, discipline), SlugGame, MedalType))
  }

  /** The medal-type breakdown has the same games as the total trajectory; its columns are
      exactly the medal types observed; each cell counts the rows of that game and type (0 when
      there are none); each game's cells add up to that game's total. */
  lemma TrackPerformanceSpec(rows: seq<MedalRow>, country: string, discipline: string)
    ensures var b := TrackPerformance(rows, country, discipline);
      var t := TrackCountryPerformance(rows, country, discipline);
      var f := Filtered(rows, country, discipline);
      && b.index == t.index
      && (forall m :: m in b.columns <==> Where(f, MedalType, m) != [])
      && (forall i, j :: 0 <= i < |b.index| && 0 <= j < |b.columns| ==>
            b.cells[i][j] == |Where(Where(f, SlugGame, b.index[i]), MedalType, b.columns[j])|)
      && (forall i :: 0 <= i < |b.index| ==> Sum(b.cells[i]) == t.values[i])
  {
    var f := Filtered(rows, country, discipline);
    var b := TrackPerformance(rows, country, discipline);
    var t := TrackCountryPerformance(rows, country, discipline);
    FirstsOfPairs(f, SlugGame, MedalType);
    TrackCountryPerformanceSpec(rows, country, discipline);
    CrossTabKeys(f, SlugGame, MedalType);
    forall m ensures m in b.columns <==> Where(f, MedalType, m) != [] {
      CountSelect(f, MedalType, m);
    }
    forall i, j | 0 <= i < |b.index| && 0 <= j < |b.columns|
      ensures b.cells[i][j] == |Where(Where(f, SlugGame, b.index[i]), MedalType, b.columns[j])|
    {
      CrossTabCell(f, SlugGame, MedalType, i, j);
    }
    forall i | 0 <= i < |b.index| ensures Sum(b.cells[i]) == t.values[i] {
      CrossTabRows(f, SlugGame, MedalType, i);
    }
  }

  /** `performance_df['slug_game'].values[0]` and `performance_df['total_medals'].values[0]`:
      the first game of the trajectory and its total, an IndexError when it is empty. */
  function FirstTrackedGame(rows: seq<MedalRow>, country: string, discipline: string): Result<(string, nat)>
  {
    var t := TrackCountryPerformance(rows, country, discipline);
    if t.index == [] then IndexError else Ok((t.index[0], t.values[0]))
  }

  /** The trajectory chart fails exactly when the country has no row in the discipline;
      otherwise it opens on the smallest game with rows, with that game's row count. */
  lemma FirstTrackedGameSpec(rows: seq<MedalRow>, country: string, discipline: string)
    ensures var r := FirstTrackedGame(rows, country, discipline);
      var f := Filtered(rows, country, discipline);
      && (r.Ok? || r == IndexError)
      && (r == IndexError <==> f == [])
      && (r.Ok? ==>
            && r.value.1 == |Where(f, SlugGame, r.value.0)| >= 1
            && forall g :: (g != r.value.0 && Where(f, SlugGame, g) != []) ==> Below(r.value.0, g))
  {
    var f := Filtered(rows, country, discipline);
    var t := TrackCountryPerformance(rows, country, discipline);
    TrackCountryPerformanceSpec(rows, country, discipline);
    if t.index == [] {
      assert Sum(t.values) == 0;
    } else {
      assert t.index[0] in t.index;
      assert f != [];
      forall g | g != t.index[0] && Where(f, SlugGame, g) != [] ensures Below(t.index[0], g) {
        var m :| 0 <= m < |t.index| && t.index[m] == g;
        assert 0 < m;
      }
    }
  }

  // ---------------------------------------------------------------------------
  // Two-country comparison.
  // ---------------------------------------------------------------------------

  /** `performance_country1.merge(performance_country2, on='slug_game')`. */
  function ComparePerformance(rows: seq<MedalRow>, country1: string, country2: string, discipline: string): seq<Joined>
  {
    var a := TrackCountryPerformance(rows, country1, discipline);
    var b := TrackCountryPerformance(rows, country2, discipline);
    InnerJoin(a, b)
  }

  /** The country has at least one row in the discipline at the game. */
  predicate Medalled(rows: seq<MedalRow>, country: string, discipline: string, game: string)
  {
    Where(Filtered(rows, country, discipline), SlugGame, game) != []
  }

  /** The comparison holds exactly the games in which both countries have rows, in key order,
      each with the two countries' unchanged totals; a game only one country medalled in is
      dropped. */
  lemma ComparePerformanceSpec(rows: seq<MedalRow>, country1: string, country2: string, discipline: string)
    ensures var js := ComparePerformance(rows, country1, country2, discipline);
      && Increasing(Labels(js, JoinedKey))
      && (forall g :: g in Labels(js, JoinedKey) <==> Medalled(rows, country1, discipline, g) && Medalled(rows, country2, discipline, g))
      && (forall m :: 0 <= m < |js| ==>
            && js[m].left == |Where(Filtered(rows, country1, discipline), SlugGame, js[m].key)|
            && js[m].right == |Where(Filtered(rows, country2, discipline), SlugGame, js[m].key)|)
  {
    var a := TrackCountryPerformance(rows, country1, discipline);
    var b := TrackCountryPerformance(rows, country2, discipline);
    var js := InnerJoin(a, b);
    TrackCountryPerformanceSpec(rows, country1, discipline);
    TrackCountryPerformanceSpec(rows, country2, discipline);
    LabelsAll(js, JoinedKey);
    forall m | 0 <= m < |js|
      ensures js[m].left == |Where(Filtered(rows, country1, discipline), SlugGame, js[m].key)|
      ensures js[m].right == |Where(Filtered(rows, country2, discipline), SlugGame, js[m].key)|
    {
      assert Labels(js, JoinedKey)[m] in Labels(js, JoinedKey);
      var i :| 0 <= i < |a.index| && a.index[i] == js[m].key;
      var j :| 0 <= j < |b.index| && b.index[j] == js[m].key;
      InnerJoinLeft(a, b, m, i);
      InnerJoinRight(a, b, m, j);
    }
  }
}
