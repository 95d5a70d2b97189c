/** Preparation of the medal table: four columns are dropped, then the country column is
    rewritten four times in a row, each pass replacing one historical or alias name by its
    canonical spelling. The table is mutated in place, so the country column is an array. */
module DatasetPrep {
  import opened Tables
  import opened Records

  /** A row as read from the medal file, before the drops. */
  datatype RawMedalRow = RawMedalRow(
    disciplineTitle: string,
    slugGame: string,
    eventTitle: string,
    eventGender: Option<string>,
    medalType: string,
    participantTitle: Option<string>,
    athleteUrl: Option<string>,
    athleteFullName: Option<string>,
    countryName: string,
    countryCode: string,
    country3LetterCode: string)

  /** The columns dropped: country_code, country_3_letter_code, participant_title, athlete_url. */
  function DropColumns(r: RawMedalRow): MedalRow
  {
    MedalRow(r.countryName, r.disciplineTitle, r.eventTitle, r.eventGender,
             r.athleteFullName, r.medalType, r.slugGame)
  }

  /** `Series.replace(from, to)` on one value: the whole value must match. */
  function Replace(name: string, from: string, to: string): string
  {
    if name == from then to else name
  }

  /** The four aliases that the preparation step rewrites. */
  predicate IsAlias(name: string)
  {
    name == "Soviet Union" || name == "German Democratic Republic (Germany)"
    || name == "Olympic Athletes from Russia" || name == "ROC"
  }

  /** The four replacements, in the order they are applied. Three aliases become Russian
      Federation, one becomes Germany, and every other name (including one that merely
      contains an alias) is kept. */
  function CanonicalName(name: string): (c: string)
    ensures name == "Soviet Union" ==> c == "Russian Federation"
    ensures name == "German Democratic Republic (Germany)" ==> c == "Germany"
    ensures name == "Olympic Athletes from Russia" ==> c == "Russian Federation"
    ensures name == "ROC" ==> c == "Russian Federation"
    ensures !IsAlias(name) ==> c == name
  {
    var n1 := Replace(name, "Soviet Union", "Russian Federation");
    var n2 := Replace(n1, "German Democratic Republic (Germany)", "Germany");
    var n3 := Replace(n2, "Olympic Athletes from Russia", "Russian Federation");
    Replace(n3, "ROC", "Russian Federation")
  }

  /** No replacement target is itself an alias, so a canonical name is never rewritten again. */
  lemma CanonicalNameIdempotent(name: string)
    ensures !IsAlias(CanonicalName(name))
    ensures CanonicalName(CanonicalName(name)) == CanonicalName(name)
  {
    assert "Russian Federation" != "Soviet Union" && "Russian Federation" != "ROC";
    assert "Germany" != "German Democratic Republic (Germany)";
  }

  /** One `df['country_name'] = df['country_name'].replace(from, to)` pass. */
  method ReplaceCountry(names: array<string>, from: string, to: string)
    modifies names
    ensures forall i :: 0 <= i < names.Length ==> names[i] == Replace(old(names[i]), from, to)
  {
    var i := 0;
    while i < names.Length
      invariant 0 <= i <= names.Length
      invariant forall k :: 0 <= k < i ==> names[k] == Replace(old(names[k]), from, to)
      invariant forall k :: i <= k < names.Length ==> names[k] == old(names[k])
    {
      if names[i] == from {
        names[i] := to;
      }
      i := i + 1;
    }
  }

  /** The four passes of the preparation script, in order. */
  method CanonicalizeCountries(names: array<string>)
    modifies names
    ensures forall i :: 0 <= i < names.Length ==> names[i] == CanonicalName(old(names[i]))
  {
    ReplaceCountry(names, "Soviet Union", "Russian Federation");
    ReplaceCountry(names, "German Democratic Republic (Germany)", "Germany");
    ReplaceCountry(names, "Olympic Athletes from Russia", "Russian Federation");
    ReplaceCountry(names, "ROC", "Russian Federation");
  }

  /** The whole preparation: drop the four columns, then canonicalize the country column.
      The row count and every kept column other than the country are unchanged. */
  method PrepareDataset(raw: seq<RawMedalRow>) returns (df: seq<MedalRow>)
    ensures |df| == |raw|
    ensures forall i :: 0 <= i < |raw| ==>
      df[i] == MedalRow(CanonicalName(raw[i].countryName), raw[i].disciplineTitle, raw[i].eventTitle,
                        raw[i].eventGender, raw[i].athleteFullName, raw[i].medalType, raw[i].slugGame)
    ensures forall i :: 0 <= i < |df| ==> !IsAlias(df[i].countryName)
  {
    var dropped := seq(|raw|, i requires 0 <= i < |raw| => DropColumns(raw[i]));
    var names := new string[|dropped|](i requires 0 <= i < |dropped| => dropped[i].countryName);
    CanonicalizeCountries(names);
    df := [];
    var i := 0;
    while i < |dropped|
      invariant 0 <= i <= |dropped| && |df| == i
      invariant forall k :: 0 <= k < i ==> df[k] == dropped[k].(countryName := names[k])
    {
      df := df + [dropped[i].(countryName := names[i])];
      i := i + 1;
    }
    forall k | 0 <= k < |df| ensures !IsAlias(df[k].countryName) {
      CanonicalNameIdempotent(raw[k].countryName);
    }
  }
}
