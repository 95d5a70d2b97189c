/** Medal analytics. Its two pipelines are the same as the country analytics ones: its
    `track_country_performance` is `CountryAnalysis.TrackPerformance` (medal-type breakdown)
    and its `track_compare_performance` is `CountryAnalysis.TrackCountryPerformance` (total),
    and its comparison is `CountryAnalysis.ComparePerformance`. What this module adds is how
    the charts read those tables: by the fixed medal-type columns, and by the first row of
    the comparison. */
module MedalAnalysis {
  import opened Tables
  import opened Records
  import opened CountryAnalysis

  /** `performance_df[medal_type]` for GOLD, SILVER and BRONZE in that order: the first
      medal type that is not a column raises a KeyError. */
  function MedalColumns(b: Frame<nat>): Result<seq<seq<nat>>>
    requires Shaped(b)
  {
    GetColumns(b, ["GOLD", "SILVER", "BRONZE"])
  }

  /** The breakdown's columns are only the medal types observed, so the chart's lookup fails
      for a type the country never won in that discipline; when all three were won, the
      three columns are read. */
  lemma MedalColumnsSpec(rows: seq<MedalRow>, country: string, discipline: string)
    ensures var f := Filtered(rows, country, discipline);
      Where(f, MedalType, "GOLD") == [] ==>
        MedalColumns(TrackPerformance(rows, country, discipline)) == KeyError("GOLD")
    ensures var f := Filtered(rows, country, discipline);
      (Where(f, MedalType, "GOLD") != [] && Where(f, MedalType, "SILVER") == []) ==>
        MedalColumns(TrackPerformance(rows, country, discipline)) == KeyError("SILVER")
    ensures var f := Filtered(rows, country, discipline);
      (Where(f, MedalType, "GOLD") != [] && Where(f, MedalType, "SILVER") != []
       && Where(f, MedalType, "BRONZE") == []) ==>
        MedalColumns(TrackPerformance(rows, country, discipline)) == KeyError("BRONZE")
    ensures var f := Filtered(rows, country, discipline);
      MedalColumns(TrackPerformance(rows, country, discipline)).Ok? <==>
        (Where(f, MedalType, "GOLD") != [] && Where(f, MedalType, "SILVER") != []
         && Where(f, MedalType, "BRONZE") != [])
  {
    var t := TrackPerformance(rows, country, discipline);
    TrackPerformanceSpec(rows, country, discipline);
    GetColumnsThree(t, "GOLD", "SILVER", "BRONZE");
  }

  /** `performance_combined[...].values[0]`: the first compared game, an IndexError when the
      comparison is empty. */
  function FirstComparedGame(js: seq<Joined>): Result<Joined>
  {
    if js == [] then IndexError else Ok(js[0])
  }

  /** The comparison chart fails exactly when the two countries share no game in the
      discipline; otherwise it opens on the smallest shared game (in key order). */
  lemma FirstComparedGameSpec(rows: seq<MedalRow>, country1: string, country2: string, discipline: string)
    ensures var r := FirstComparedGame(ComparePerformance(rows, country1, country2, discipline));
      && (r.Ok? || r == IndexError)
      && (r == IndexError <==>
            forall g :: !(Medalled(rows, country1, discipline, g) && Medalled(rows, country2, discipline, g)))
      && (r.Ok? ==>
            && Medalled(rows, country1, discipline, r.value.key) && Medalled(rows, country2, discipline, r.value.key)
            && forall g ::
                 (g != r.value.key && Medalled(rows, country1, discipline, g) && Medalled(rows, country2, discipline, g))
                 ==> Below(r.value.key, g))
  {
    var js := ComparePerformance(rows, country1, country2, discipline);
    ComparePerformanceSpec(rows, country1, country2, discipline);
    LabelsAll(js, JoinedKey);
    if js != [] {
      var ks := Labels(js, JoinedKey);
      assert ks[0] in ks;
      forall g | g != js[0].key && Medalled(rows, country1, discipline, g) && Medalled(rows, country2, discipline, g)
        ensures Below(js[0].key, g)
      {
        var m :| 0 <= m < |ks| && ks[m] == g;
        assert 0 < m;
      }
    }
  }
}
