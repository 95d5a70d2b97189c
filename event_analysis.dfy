/** Gender orientation of disciplines: rows without an event gender are dropped, the rows
    of each discipline are counted per gender label, the Men and Women counts give the male
    and female proportions, and each discipline is labelled Male-Oriented, Female-Oriented or
    Balanced by the first condition that holds. The three returned tables are built by
    exclusion from those labels. */
module EventAnalysis {
  import opened Tables
  import opened Records

  datatype Orientation = MaleOriented | FemaleOriented | Balanced

  /** One row of the pivot: the Men and Women counts (None where the pivot has NaN),
      the total, the two proportions (None where they are NaN) and the label (None when no
      condition holds). */
  datatype GenderRow = GenderRow(
    disciplineTitle: string,
    men: Option<nat>,
    women: Option<nat>,
    totalCompetitors: nat,
    maleProportion: Option<real>,
    femaleProportion: Option<real>,
    orientation: Option<Orientation>)

  datatype Orientations = Orientations(balanced: seq<GenderRow>, male: seq<GenderRow>, female: seq<GenderRow>)

  /** `dropna(subset=['event_gender'])` followed by the (discipline, gender) group keys. */
  function GenderPairs(rows: seq<MedalRow>): (ps: seq<(string, string)>)
    ensures |ps| <= |rows|
  {
    if rows == [] then []
    else match rows[0].eventGender
      case None => GenderPairs(rows[1..])
      case Some(g) => [(rows[0].disciplineTitle, g)] + GenderPairs(rows[1..])
  }

  /** The number of rows of a discipline with the given gender label (reference count). */
  function GenderCount(rows: seq<MedalRow>, discipline: string, gender: string): nat
  {
    if rows == [] then 0
    else (if rows[0].disciplineTitle == discipline && rows[0].eventGender == Some(gender) then 1 else 0)
         + GenderCount(rows[1..], discipline, gender)
  }

  /** A part of a total as a proportion; 0/0 is NaN (None). */
  function Proportion(part: nat, total: nat): Option<real>
  {
    if total == 0 then None else Some(part as real / total as real)
  }

  /** `p > 0.5`, false for NaN. */
  predicate AboveHalf(p: Option<real>)
  {
    p.Some? && p.value > 0.5
  }

  /** `p == q`, false when either is NaN. */
  predicate SameProportion(p: Option<real>, q: Option<real>)
  {
    p.Some? && q.Some? && p.value == q.value
  }

  /** `np.select` over the five conditions, in order, with default None. */
  function Classify(men: Option<nat>, women: Option<nat>, mp: Option<real>, fp: Option<real>): Option<Orientation>
  {
    if AboveHalf(mp) then Some(MaleOriented)
    else if AboveHalf(fp) then Some(FemaleOriented)
    else if SameProportion(mp, fp) then Some(Balanced)
    else if men.None? && women.Some? then Some(FemaleOriented)
    else if women.None? && men.Some? then Some(MaleOriented)
    else None
  }

  /** The derived columns of one pivot row. */
  function MakeRow(discipline: string, men: Option<nat>, women: Option<nat>): GenderRow
  {
    var total := FillZero(men) + FillZero(women);
    var mp := Proportion(FillZero(men), total);
    var fp := Proportion(FillZero(women), total);
    GenderRow(discipline, men, women, total, mp, fp, Classify(men, women, mp, fp))
  }

  /** The pivot with its derived columns. `pivot_df['Men']` and `pivot_df['Women']` raise a
      KeyError when no row at all carries that label. */
  function GenderTable(rows: seq<MedalRow>): Result<seq<GenderRow>>
  {
    var p := Unstack(GenderPairs(rows));
    match GetColumn(p, "Men")
    case Ok(men) =>
      (match GetColumn(p, "Women")
       case Ok(women) => Ok(seq(|p.index|, i requires 0 <= i < |p.index| => MakeRow(p.index[i], men[i], women[i])))
       case _ => KeyError("Women"))
    case _ => KeyError("Men")
  }

  /** The rows labelled `o`. */
  function Labelled(ts: seq<GenderRow>, o: Orientation): (r: seq<GenderRow>)
    ensures forall g :: g in r <==> g in ts && g.orientation == Some(o)
  {
    if ts == [] then []
    else if ts[0].orientation == Some(o) then [ts[0]] + Labelled(ts[1..], o)
    else Labelled(ts[1..], o)
  }

  /** The rows whose label is neither `a` nor `b` (`~isin([a, b])`; an absent label is kept). */
  function NotLabelled(ts: seq<GenderRow>, a: Orientation, b: Orientation): (r: seq<GenderRow>)
    ensures forall g :: g in r <==> g in ts && g.orientation != Some(a) && g.orientation != Some(b)
  {
    if ts == [] then []
    else if ts[0].orientation != Some(a) && ts[0].orientation != Some(b) then [ts[0]] + NotLabelled(ts[1..], a, b)
    else NotLabelled(ts[1..], a, b)
  }

  function AnalyzeGenderOrientation(rows: seq<MedalRow>): Result<Orientations>
  {
    match GenderTable(rows)
    case Ok(t) =>
      Ok(Orientations(Labelled(t, Balanced), NotLabelled(t, Balanced, FemaleOriented), NotLabelled(t, Balanced, MaleOriented)))
    case KeyError(k) => KeyError(k)
    case IndexError => IndexError
  }

  // ---------------------------------------------------------------------------
  // Proportions reduce to comparisons of the two counts.
  // ---------------------------------------------------------------------------

  lemma ProportionCompare(m: nat, w: nat)
    requires m + w > 0
    ensures var mp := Proportion(m, m + w).value;
      var fp := Proportion(w, m + w).value;
      && (mp > 0.5 <==> m > w)
      && (fp > 0.5 <==> w > m)
      && (mp == fp <==> m == w)
  {
    var t := (m + w) as real;
    AboveHalfExact(m, m + w);
    AboveHalfExact(w, m + w);
    var mp := m as real / t;
    var fp := w as real / t;
    assert mp * t == m as real && fp * t == w as real;
    assert mp == fp <==> m == w by {
      if mp == fp { assert mp * t == fp * t; }
    }
  }

  /** A part of a positive total is above one half exactly when it is more than the rest. */
  lemma AboveHalfExact(p: nat, t: nat)
    requires 0 < t
    ensures (p as real / t as real > 0.5) <==> 2 * p > t
  {
    var tr := t as real;
    var q := p as real / tr;
    assert q * tr == p as real;
    if q > 0.5 {
      MulPositive(q - 0.5, tr);
      assert q * tr - 0.5 * tr > 0.0;
    } else if q < 0.5 {
      MulPositive(0.5 - q, tr);
      assert 0.5 * tr - q * tr > 0.0;
    } else {
      assert p as real == 0.5 * tr;
    }
  }

  lemma MulPositive(x: real, y: real)
    requires x > 0.0 && y > 0.0
    ensures x * y > 0.0
  {
  }

  /** The label of a discipline from its counts. Counts that exist are at least 1, as
      group sizes are. With a positive total: Male-Oriented iff more Men rows, Female-Oriented
      iff more Women rows, Balanced iff as many of each (both then positive). With a zero
      total: no label. Whenever there is a label, one of the first three conditions gave it. */
  lemma MakeRowSpec(discipline: string, men: Option<nat>, women: Option<nat>)
    requires men.Some? ==> men.value >= 1
    requires women.Some? ==> women.value >= 1
    ensures var g := MakeRow(discipline, men, women);
      var m := FillZero(men);
      var w := FillZero(women);
      && g.totalCompetitors == m + w
      && (m + w > 0 ==>
            && (g.orientation == Some(MaleOriented) <==> m > w)
            && (g.orientation == Some(FemaleOriented) <==> w > m)
            && (g.orientation == Some(Balanced) <==> m == w && m > 0 && w > 0))
      && (m + w == 0 ==> g.orientation == None)
      && (g.orientation.Some? ==>
            AboveHalf(g.maleProportion) || AboveHalf(g.femaleProportion)
            || SameProportion(g.maleProportion, g.femaleProportion))
  {
    var m := FillZero(men);
    var w := FillZero(women);
    if m + w > 0 {
      ProportionCompare(m, w);
    }
  }

  // ---------------------------------------------------------------------------
  // The pivot counts.
  // ---------------------------------------------------------------------------

  lemma {:induction false} GenderPairsCount(rows: seq<MedalRow>, discipline: string, gender: string)
    ensures Count(SecondsWhere(GenderPairs(rows), discipline), gender) == GenderCount(rows, discipline, gender)
  {
    if rows != [] {
      GenderPairsCount(rows[1..], discipline, gender);
    }
  }

  /** A discipline has a group iff one of its rows has a gender; a gender label is a column
      iff some row carries it. */
  lemma {:induction false} GenderPairsKeys(rows: seq<MedalRow>)
    ensures forall d :: d in Firsts(GenderPairs(rows)) <==>
      exists r :: r in rows && r.disciplineTitle == d && r.eventGender.Some?
    ensures forall g :: g in Seconds(GenderPairs(rows)) <==> exists r :: r in rows && r.eventGender == Some(g)
  {
    if rows != [] {
      GenderPairsKeys(rows[1..]);
      assert forall r :: r in rows <==> r == rows[0] || r in rows[1..];
    }
  }

  /** Every cell of the pivot is the row count of its discipline and label, NaN when there is
      none. */
  lemma GenderPivotCell(rows: seq<MedalRow>, i: nat, j: nat)
    requires i < |Unstack(GenderPairs(rows)).index| && j < |Unstack(GenderPairs(rows)).columns|
    ensures var p := Unstack(GenderPairs(rows));
      p.cells[i][j] == NaNIfZero(GenderCount(rows, p.index[i], p.columns[j]))
  {
    var p := Unstack(GenderPairs(rows));
    GenderPairsCount(rows, p.index[i], p.columns[j]);
  }

  /** Both labels are required columns; when present, the table has one row per discipline
      with at least one gendered row, in key order, whose Men and Women entries are the row
      counts (NaN when 0) and whose total counts only those two labels. */
  lemma GenderTableSpec(rows: seq<MedalRow>)
    ensures var r := GenderTable(rows);
      && (r.Ok? || r == KeyError("Men") || r == KeyError("Women"))
      && ((forall x :: x in rows ==> x.eventGender != Some("Men")) ==> r == KeyError("Men"))
      && (((exists x :: x in rows && x.eventGender == Some("Men"))
             && (forall x :: x in rows ==> x.eventGender != Some("Women"))) ==> r == KeyError("Women"))
      && (r.Ok? <==> (exists x :: x in rows && x.eventGender == Some("Men"))
                     && (exists x :: x in rows && x.eventGender == Some("Women")))
      && (r.Ok? ==>
            && Increasing(Labels(r.value, RowDiscipline))
            && (forall d :: d in Labels(r.value, RowDiscipline) <==>
                  exists x :: x in rows && x.disciplineTitle == d && x.eventGender.Some?)
            && (forall g :: g in r.value ==>
                  && g.men == NaNIfZero(GenderCount(rows, g.disciplineTitle, "Men"))
                  && g.women == NaNIfZero(GenderCount(rows, g.disciplineTitle, "Women"))
                  && g.totalCompetitors == GenderCount(rows, g.disciplineTitle, "Men") + GenderCount(rows, g.disciplineTitle, "Women")))
  {
    var ps := GenderPairs(rows);
    var p := Unstack(ps);
    GenderPairsKeys(rows);
    var r := GenderTable(rows);
    if r.Ok? {
      var mj := IndexOf(p.columns, "Men").value;
      var wj := IndexOf(p.columns, "Women").value;
      var t := r.value;
      assert |t| == |p.index|;
      forall i | 0 <= i < |t| ensures Labels(t, RowDiscipline)[i] == p.index[i]
        && t[i].men == NaNIfZero(GenderCount(rows, p.index[i], "Men"))
        && t[i].women == NaNIfZero(GenderCount(rows, p.index[i], "Women"))
      {
        LabelsAt(t, RowDiscipline, i);
        GenderPivotCell(rows, i, mj);
        GenderPivotCell(rows, i, wj);
      }
      assert Labels(t, RowDiscipline) == p.index;
    }
  }

  function RowDiscipline(t: GenderRow): string
  {
    t.disciplineTitle
  }

  // ---------------------------------------------------------------------------
  // The three returned tables.
  // ---------------------------------------------------------------------------

  /** Membership of each discipline in the three tables, by its Men and Women row counts:
      Balanced iff as many Men as Women rows (and some); the male table holds the disciplines
      with more Men rows and those with no Men or Women row at all; the female table likewise.
      So for disciplines with a positive total the three tables are disjoint and cover them,
      and a discipline with only other labels is in both the male and the female table. */
  lemma AnalyzeGenderOrientationSpec(rows: seq<MedalRow>)
    ensures var r := AnalyzeGenderOrientation(rows);
      var t := GenderTable(rows);
      && (r.Ok? <==> t.Ok?)
      && (r.Ok? ==> forall g :: g in t.value ==>
            var m := GenderCount(rows, g.disciplineTitle, "Men");
            var w := GenderCount(rows, g.disciplineTitle, "Women");
            && (g in r.value.balanced <==> m == w && m > 0)
            && (g in r.value.male <==> m > w || m + w == 0)
            && (g in r.value.female <==> w > m || m + w == 0))
      && (r.Ok? ==> forall g :: g in r.value.balanced || g in r.value.male || g in r.value.female ==> g in t.value)
  {
    var t := GenderTable(rows);
    GenderTableSpec(rows);
    if t.Ok? {
      var o := AnalyzeGenderOrientation(rows).value;
      forall g | g in t.value
        ensures var m := GenderCount(rows, g.disciplineTitle, "Men");
          var w := GenderCount(rows, g.disciplineTitle, "Women");
          && (g in o.balanced <==> m == w && m > 0)
          && (g in o.male <==> m > w || m + w == 0)
          && (g in o.female <==> w > m || m + w == 0)
      {
        GenderTableRow(rows, g);
        MakeRowSpec(g.disciplineTitle, g.men, g.women);
      }
    }
  }

  /** Each row of the table is the derived row of its pivot counts. */
  lemma GenderTableRow(rows: seq<MedalRow>, g: GenderRow)
    requires GenderTable(rows).Ok? && g in GenderTable(rows).value
    ensures g == MakeRow(g.disciplineTitle, g.men, g.women)
    ensures g.men.Some? ==> g.men.value >= 1
    ensures g.women.Some? ==> g.women.value >= 1
  {
    var p := Unstack(GenderPairs(rows));
    var men := GetColumn(p, "Men").value;
    var women := GetColumn(p, "Women").value;
    var t := GenderTable(rows).value;
    assert t == seq(|p.index|, i requires 0 <= i < |p.index| => MakeRow(p.index[i], men[i], women[i]));
    UnstackColumnPositive(GenderPairs(rows), "Men");
    UnstackColumnPositive(GenderPairs(rows), "Women");
    var i :| 0 <= i < |t| && t[i] == g;
    assert g == MakeRow(p.index[i], men[i], women[i]);
  }

  /** Rows with a null event gender are dropped before counting: adding one changes nothing. */
  lemma NullGenderIgnored(rows: seq<MedalRow>, x: MedalRow)
    requires x.eventGender == None
    ensures AnalyzeGenderOrientation(rows + [x]) == AnalyzeGenderOrientation(rows)
  {
    NullGenderPairs(rows, x);
  }

  lemma {:induction false} NullGenderPairs(rows: seq<MedalRow>, x: MedalRow)
    requires x.eventGender == None
    ensures GenderPairs(rows + [x]) == GenderPairs(rows)
  {
    if rows != [] {
      assert (rows + [x])[1..] == rows[1..] + [x];
      NullGenderPairs(rows[1..], x);
    }
  }
}
