/** The grouping engine shared by every analytic: group keys in pandas' sorted order,
    value counts, unstacked (pivoted) count tables, column and row lookups that fail with
    a KeyError, idxmax and the inner join of two count series. */
module Tables {

  datatype Option<T> = None | Some(value: T)

  /** What a pandas lookup gives back: a value, or the exception it raises. */
  datatype Result<T> = Ok(value: T) | KeyError(key: string) | IndexError

  // ---------------------------------------------------------------------------
  // Key order. pandas sorts string group keys with Python's `<` on str, which
  // compares code points lexicographically; a proper prefix comes first.
  // ---------------------------------------------------------------------------

  predicate Below(a: string, b: string)
  {
    if |b| == 0 then false
    else if |a| == 0 then true
    else a[0] < b[0] || (a[0] == b[0] && Below(a[1..], b[1..]))
  }

  lemma {:induction false} BelowIrreflexive(a: string)
    ensures !Below(a, a)
  {
    if |a| > 0 {
      BelowIrreflexive(a[1..]);
    }
  }

  lemma {:induction false} BelowTransitive(a: string, b: string, c: string)
    requires Below(a, b) && Below(b, c)
    ensures Below(a, c)
  {
    if |a| > 0 && a[0] == b[0] && b[0] == c[0] {
      BelowTransitive(a[1..], b[1..], c[1..]);
    }
  }

  lemma {:induction false} BelowTotal(a: string, b: string)
    requires a != b
    ensures Below(a, b) || Below(b, a)
  {
    if |a| > 0 && |b| > 0 && a[0] == b[0] {
      assert a[1..] != b[1..] by {
        assert a == [a[0]] + a[1..] && b == [b[0]] + b[1..];
      }
      BelowTotal(a[1..], b[1..]);
    }
  }

  /** Strictly increasing: sorted with no key twice, as every pandas group index is. */
  predicate Increasing(ks: seq<string>)
  {
    forall i, j :: 0 <= i < j < |ks| ==> Below(ks[i], ks[j])
  }

  lemma IncreasingTail(ks: seq<string>)
    requires Increasing(ks) && |ks| > 0
    ensures Increasing(ks[1..]) && ks[0] !in ks[1..]
  {
    if ks[0] in ks[1..] {
      var j :| 0 <= j < |ks[1..]| && ks[1..][j] == ks[0];
      assert Below(ks[0], ks[j + 1]);
      BelowIrreflexive(ks[0]);
    }
  }

  /** Inserts `k` into a strictly increasing key list, unless it is already there. */
  function Insert(k: string, ks: seq<string>): (r: seq<string>)
    requires Increasing(ks)
    ensures Increasing(r)
    ensures forall x :: x in r <==> x == k || x in ks
  {
    if ks == [] then [k]
    else if k == ks[0] then ks
    else if Below(k, ks[0]) then
      assert forall j | 0 <= j < |ks| :: Below(k, ks[j]) by {
        forall j | 0 < j < |ks| ensures Below(k, ks[j]) {
          BelowTransitive(k, ks[0], ks[j]);
        }
      }
      [k] + ks
    else
      var rest := Insert(k, ks[1..]);
      assert forall j | 0 <= j < |rest| :: Below(ks[0], rest[j]) by {
        BelowTotal(k, ks[0]);
        forall j | 0 <= j < |rest| ensures Below(ks[0], rest[j]) {
          assert rest[j] in rest;
        }
      }
      [ks[0]] + rest
  }

  /** The sorted group keys of a column: each value once, in increasing order. */
  function Distinct(xs: seq<string>): (ks: seq<string>)
    ensures Increasing(ks)
    ensures forall x :: x in ks <==> x in xs
  {
    if xs == [] then [] else Insert(xs[0], Distinct(xs[1..]))
  }

  // ---------------------------------------------------------------------------
  // Counting.
  // ---------------------------------------------------------------------------

  /** The number of occurrences of `k` in `xs` (the size of the group `k`). */
  function Count(xs: seq<string>, k: string): (n: nat)
    ensures n <= |xs|
    ensures n > 0 <==> k in xs
  {
    if xs == [] then 0 else (if xs[0] == k then 1 else 0) + Count(xs[1..], k)
  }

  function Sum(ns: seq<nat>): nat
  {
    if ns == [] then 0 else ns[0] + Sum(ns[1..])
  }

  /** The group sizes of `xs` for the keys `ks`, in the order of `ks`. */
  function Counts(xs: seq<string>, ks: seq<string>): (ns: seq<nat>)
    ensures |ns| == |ks|
  {
    seq(|ks|, j requires 0 <= j < |ks| => Count(xs, ks[j]))
  }

  lemma {:induction false} SumPointwise(a: seq<nat>, b: seq<nat>, c: seq<nat>)
    requires |a| == |b| == |c|
    requires forall j :: 0 <= j < |c| ==> c[j] == a[j] + b[j]
    ensures Sum(c) == Sum(a) + Sum(b)
  {
    if |c| > 0 {
      SumPointwise(a[1..], b[1..], c[1..]);
    }
  }

  lemma {:induction false} SumAllZero(ns: seq<nat>)
    requires forall j :: 0 <= j < |ns| ==> ns[j] == 0
    ensures Sum(ns) == 0
  {
    if |ns| > 0 {
      SumAllZero(ns[1..]);
    }
  }

  /** No key twice. */
  predicate Unique(ks: seq<string>)
  {
    forall i, j :: 0 <= i < j < |ks| ==> ks[i] != ks[j]
  }

  lemma IncreasingUnique(ks: seq<string>)
    requires Increasing(ks)
    ensures Unique(ks)
  {
    forall i, j | 0 <= i < j < |ks| ensures ks[i] != ks[j] {
      assert Below(ks[i], ks[j]);
      BelowIrreflexive(ks[i]);
    }
  }

  /** Over keys without repetition, the indicator of a value sums to 1 if the value is one
      of the keys and to 0 otherwise. */
  lemma {:induction false} SumIndicator(x: string, ks: seq<string>, ns: seq<nat>)
    requires Unique(ks) && |ns| == |ks|
    requires forall j :: 0 <= j < |ks| ==> ns[j] == if ks[j] == x then 1 else 0
    ensures Sum(ns) == if x in ks then 1 else 0
  {
    if ks != [] {
      SumIndicator(x, ks[1..], ns[1..]);
    }
  }

  /** The number of values that are one of the keys. */
  function CountAmong(xs: seq<string>, ks: seq<string>): (n: nat)
    ensures n <= |xs|
  {
    if xs == [] then 0 else (if xs[0] in ks then 1 else 0) + CountAmong(xs[1..], ks)
  }

  /** The group sizes of distinct keys add up to the number of values among those keys. */
  lemma {:induction false} SumOfCountsAmong(xs: seq<string>, ks: seq<string>)
    requires Unique(ks)
    ensures Sum(Counts(xs, ks)) == CountAmong(xs, ks)
  {
    if xs == [] {
      SumAllZero(Counts(xs, ks));
    } else {
      var ind := seq(|ks|, j requires 0 <= j < |ks| => if ks[j] == xs[0] then 1 else 0);
      SumIndicator(xs[0], ks, ind);
      SumOfCountsAmong(xs[1..], ks);
      SumPointwise(ind, Counts(xs[1..], ks), Counts(xs, ks));
    }
  }

  lemma {:induction false} CountAmongAll(xs: seq<string>, ks: seq<string>)
    requires forall x :: x in xs ==> x in ks
    ensures CountAmong(xs, ks) == |xs|
  {
    if xs != [] {
      CountAmongAll(xs[1..], ks);
    }
  }

  /** Counting conservation: when sorted keys cover every value, the group sizes add up to
      the number of values. */
  lemma SumOfCounts(xs: seq<string>, ks: seq<string>)
    requires Increasing(ks)
    requires forall x :: x in xs ==> x in ks
    ensures Sum(Counts(xs, ks)) == |xs|
  {
    IncreasingUnique(ks);
    SumOfCountsAmong(xs, ks);
    CountAmongAll(xs, ks);
  }

  // ---------------------------------------------------------------------------
  // Series: a sorted index with one count per key (`groupby(..).size()`,
  // `value_counts()`, `groupby(..)[col].count()` over a column without nulls).
  // ---------------------------------------------------------------------------

  datatype Series = Series(index: seq<string>, values: seq<nat>)

  function ValueCounts(xs: seq<string>): (s: Series)
    ensures |s.index| == |s.values| && Increasing(s.index)
    ensures forall k :: k in s.index <==> k in xs
  {
    var ks := Distinct(xs);
    Series(ks, Counts(xs, ks))
  }

  /** Every group that appears is non-empty, and the groups partition the values. */
  lemma ValueCountsSpec(xs: seq<string>)
    ensures var s := ValueCounts(xs);
      && (forall j :: 0 <= j < |s.index| ==> s.values[j] == Count(xs, s.index[j]) >= 1)
      && Sum(s.values) == |xs|
  {
    SumOfCounts(xs, Distinct(xs));
  }

  /** The position of a key in an index (`Index.get_loc`), None if absent. */
  function IndexOf(ks: seq<string>, k: string): (r: Option<nat>)
    ensures r.Some? <==> k in ks
    ensures r.Some? ==> r.value < |ks| && ks[r.value] == k
  {
    if ks == [] then None
    else if ks[0] == k then Some(0)
    else match IndexOf(ks[1..], k)
      case None => None
      case Some(j) => Some(j + 1)
  }

  /** In a strictly increasing index the position of a key is unique. */
  lemma IndexOfIncreasing(ks: seq<string>, j: nat)
    requires Increasing(ks) && j < |ks|
    ensures IndexOf(ks, ks[j]) == Some(j)
  {
    var r := IndexOf(ks, ks[j]).value;
    if r != j {
      if r < j { assert Below(ks[r], ks[j]); } else { assert Below(ks[j], ks[r]); }
      BelowIrreflexive(ks[j]);
    }
  }

  /** `Series.get(k, default)`. */
  function GetOr(s: Series, k: string, default: nat): (n: nat)
    requires |s.index| == |s.values|
    ensures k !in s.index ==> n == default
    ensures forall j :: 0 <= j < |s.index| && s.index[j] == k && Increasing(s.index) ==> n == s.values[j]
  {
    match IndexOf(s.index, k)
    case None => default
    case Some(j) =>
      assert forall i :: 0 <= i < |s.index| && s.index[i] == k && Increasing(s.index) ==> i == j by {
        forall i | 0 <= i < |s.index| && s.index[i] == k && Increasing(s.index) ensures i == j {
          IndexOfIncreasing(s.index, i);
        }
      }
      s.values[j]
  }

  /** `idxmax`: the position of the first maximum. */
  function ArgMax(ns: seq<nat>): (k: nat)
    requires |ns| > 0
    ensures k < |ns|
    ensures forall j :: 0 <= j < |ns| ==> ns[j] <= ns[k]
    ensures forall j :: 0 <= j < k ==> ns[j] < ns[k]
  {
    if |ns| == 1 then 0
    else
      var k' := ArgMax(ns[1..]);
      if ns[0] >= ns[1 + k'] then 0 else 1 + k'
  }

  // ---------------------------------------------------------------------------
  // Frames: `groupby([r, c]).size().unstack()`. Cells are aligned with the
  // sorted row index and the sorted columns.
  // ---------------------------------------------------------------------------

  datatype Frame<T> = Frame(index: seq<string>, columns: seq<string>, cells: seq<seq<T>>)

  predicate Shaped<T>(f: Frame<T>)
  {
    |f.cells| == |f.index| && forall i :: 0 <= i < |f.cells| ==> |f.cells[i]| == |f.columns|
  }

  function Firsts(ps: seq<(string, string)>): (xs: seq<string>)
    ensures |xs| == |ps|
  {
    if ps == [] then [] else [ps[0].0] + Firsts(ps[1..])
  }

  function Seconds(ps: seq<(string, string)>): (xs: seq<string>)
    ensures |xs| == |ps|
  {
    if ps == [] then [] else [ps[0].1] + Seconds(ps[1..])
  }

  /** The second keys of the pairs whose first key is `r`: the rows of group `r`. */
  function SecondsWhere(ps: seq<(string, string)>, r: string): (xs: seq<string>)
    ensures |xs| == Count(Firsts(ps), r)
    ensures forall x :: x in xs ==> x in Seconds(ps)
  {
    if ps == [] then []
    else if ps[0].0 == r then [ps[0].1] + SecondsWhere(ps[1..], r)
    else SecondsWhere(ps[1..], r)
  }

  /** The zero-filled two-key count table: `.unstack(fill_value=0)`. */
  function CrossTab(ps: seq<(string, string)>): (f: Frame<nat>)
    ensures Shaped(f) && Increasing(f.index) && Increasing(f.columns)
    ensures forall r :: r in f.index <==> r in Firsts(ps)
    ensures forall c :: c in f.columns <==> c in Seconds(ps)
  {
    var rs := Distinct(Firsts(ps));
    var cs := Distinct(Seconds(ps));
    Frame(rs, cs, seq(|rs|, i requires 0 <= i < |rs| => Counts(SecondsWhere(ps, rs[i]), cs)))
  }

  /** Each row of the count table sums to the size of its row group. */
  lemma CrossTabRowSum(ps: seq<(string, string)>, i: nat)
    requires i < |CrossTab(ps).index|
    ensures Sum(CrossTab(ps).cells[i]) == Count(Firsts(ps), CrossTab(ps).index[i]) >= 1
  {
    var f := CrossTab(ps);
    SumOfCounts(SecondsWhere(ps, f.index[i]), f.columns);
  }

  /** The whole count table sums to the number of pairs. */
  lemma CrossTabTotal(ps: seq<(string, string)>)
    ensures var f := CrossTab(ps);
      Sum(seq(|f.cells|, i requires 0 <= i < |f.cells| => Sum(f.cells[i]))) == |ps|
  {
    var f := CrossTab(ps);
    var sums := seq(|f.cells|, i requires 0 <= i < |f.cells| => Sum(f.cells[i]));
    forall i | 0 <= i < |f.cells| ensures sums[i] == Counts(Firsts(ps), f.index)[i] {
      CrossTabRowSum(ps, i);
    }
    assert sums == Counts(Firsts(ps), f.index);
    SumOfCounts(Firsts(ps), f.index);
  }

  /** A count without fill: pandas leaves an empty group as NaN (here None). */
  function NaNIfZero(n: nat): Option<nat>
  {
    if n == 0 then None else Some(n)
  }

  /** `.unstack()` with no fill value. */
  function Unstack(ps: seq<(string, string)>): (f: Frame<Option<nat>>)
    ensures Shaped(f)
  {
    var t := CrossTab(ps);
    Frame(t.index, t.columns,
      seq(|t.cells|, i requires 0 <= i < |t.cells| =>
        seq(|t.cells[i]|, j requires 0 <= j < |t.cells[i]| => NaNIfZero(t.cells[i][j]))))
  }

  function FillZero(v: Option<nat>): nat
  {
    match v
    case None => 0
    case Some(n) => n
  }

  /** `.fillna(0)`. */
  function FillNa(f: Frame<Option<nat>>): (g: Frame<nat>)
    requires Shaped(f)
    ensures Shaped(g)
  {
    Frame(f.index, f.columns,
      seq(|f.cells|, i requires 0 <= i < |f.cells| =>
        seq(|f.cells[i]|, j requires 0 <= j < |f.cells[i]| => FillZero(f.cells[i][j]))))
  }

  /** Unstacking without fill and then filling with 0 is the zero-filled table. */
  lemma FillNaUnstack(ps: seq<(string, string)>)
    ensures FillNa(Unstack(ps)) == CrossTab(ps)
  {
    var t := CrossTab(ps);
    var g := FillNa(Unstack(ps));
    assert |g.cells| == |t.cells|;
    forall i | 0 <= i < |t.cells| ensures g.cells[i] == t.cells[i] {
      assert |g.cells[i]| == |t.cells[i]|;
    }
  }

  /** `.sum(axis=1)` over cells that may be NaN: NaN is skipped. */
  function SumSkipNa(vs: seq<Option<nat>>): nat
  {
    if vs == [] then 0 else FillZero(vs[0]) + SumSkipNa(vs[1..])
  }

  lemma {:induction false} SumSkipNaFilled(vs: seq<Option<nat>>, ns: seq<nat>)
    requires |vs| == |ns|
    requires forall j :: 0 <= j < |vs| ==> FillZero(vs[j]) == ns[j]
    ensures SumSkipNa(vs) == Sum(ns)
  {
    if vs != [] {
      SumSkipNaFilled(vs[1..], ns[1..]);
    }
  }

  /** `frame[name]`: the column, or a KeyError when no such column exists. */
  function GetColumn<T>(f: Frame<T>, name: string): (r: Result<seq<T>>)
    requires Shaped(f)
    ensures r.Ok? || r == KeyError(name)
    ensures r.Ok? <==> name in f.columns
    ensures r.Ok? ==> |r.value| == |f.index|
  {
    match IndexOf(f.columns, name)
    case None => KeyError(name)
    case Some(j) => Ok(seq(|f.cells|, i requires 0 <= i < |f.cells| => f.cells[i][j]))
  }

  /** With sorted columns, the column read by name is the one at that name's position. */
  lemma GetColumnAt<T>(f: Frame<T>, j: nat)
    requires Shaped(f) && Increasing(f.columns) && j < |f.columns|
    ensures GetColumn(f, f.columns[j]).Ok?
    ensures forall i :: 0 <= i < |f.index| ==> GetColumn(f, f.columns[j]).value[i] == f.cells[i][j]
  {
    IndexOfIncreasing(f.columns, j);
  }

  /** A column read from an unfilled count table holds group sizes: a present value is at
      least 1. */
  lemma UnstackColumnPositive(ps: seq<(string, string)>, name: string)
    requires GetColumn(Unstack(ps), name).Ok?
    ensures forall i :: 0 <= i < |GetColumn(Unstack(ps), name).value| ==>
      var v := GetColumn(Unstack(ps), name).value[i];
      v.Some? ==> v.value >= 1
  {
  }

  /** The names looked up one at a time, in order, as `frame[n1]`, `frame[n2]`, ...: the first
      name that is not a column raises a KeyError. (A single list lookup `frame[[n1, n2, ...]]`
      raises one KeyError listing every missing name instead; every caller performs the list
      lookup only after the one-at-a-time lookups of the same names have succeeded.) */
  function GetColumns<T>(f: Frame<T>, names: seq<string>): (r: Result<seq<seq<T>>>)
    requires Shaped(f)
    ensures r.Ok? <==> forall n :: n in names ==> n in f.columns
    ensures r.KeyError? ==> exists j :: 0 <= j < |names| && r.key == names[j] && names[j] !in f.columns
                              && forall i :: 0 <= i < j ==> names[i] in f.columns
    ensures r.Ok? ==> |r.value| == |names|
    ensures r.Ok? ==> forall j :: 0 <= j < |names| ==> GetColumn(f, names[j]) == Ok(r.value[j])
  {
    if names == [] then Ok([])
    else match GetColumn(f, names[0])
      case Ok(col) =>
        (match GetColumns(f, names[1..])
         case Ok(cols) => Ok([col] + cols)
         case KeyError(k) =>
           ghost var j :| 0 <= j < |names[1..]| && k == names[1..][j] && names[1..][j] !in f.columns
                          && forall i :: 0 <= i < j ==> names[1..][i] in f.columns;
           assert forall i :: 0 <= i < j + 1 ==> names[i] in f.columns by {
             forall i | 0 <= i < j + 1 ensures names[i] in f.columns {
               if i > 0 { assert names[i] == names[1..][i - 1]; }
             }
           }
           KeyError(k)
         case IndexError => IndexError)
      case _ => KeyError(names[0])
  }

  /** The KeyError names exactly the first missing name. */
  lemma {:induction false} GetColumnsFirstMissing<T>(f: Frame<T>, names: seq<string>, j: nat)
    requires Shaped(f) && j < |names| && names[j] !in f.columns
    requires forall i :: 0 <= i < j ==> names[i] in f.columns
    ensures GetColumns(f, names) == KeyError(names[j])
  {
    if j > 0 {
      assert names[0] in f.columns;
      GetColumnsFirstMissing(f, names[1..], j - 1);
    }
  }

  /** Three names looked up in order. */
  lemma GetColumnsThree<T>(f: Frame<T>, a: string, b: string, c: string)
    requires Shaped(f)
    ensures a !in f.columns ==> GetColumns(f, [a, b, c]) == KeyError(a)
    ensures (a in f.columns && b !in f.columns) ==> GetColumns(f, [a, b, c]) == KeyError(b)
    ensures (a in f.columns && b in f.columns && c !in f.columns) ==> GetColumns(f, [a, b, c]) == KeyError(c)
    ensures GetColumns(f, [a, b, c]).Ok? <==> (a in f.columns && b in f.columns && c in f.columns)
  {
    var names := [a, b, c];
    if names[0] !in f.columns {
      GetColumnsFirstMissing(f, names, 0);
    } else if names[1] !in f.columns {
      GetColumnsFirstMissing(f, names, 1);
    } else if names[2] !in f.columns {
      GetColumnsFirstMissing(f, names, 2);
    }
  }

  /** `frame.loc[key]`: the row, or a KeyError when no such row exists. */
  function Loc<T>(f: Frame<T>, key: string): (r: Result<seq<T>>)
    requires Shaped(f)
    ensures r.Ok? || r == KeyError(key)
    ensures r.Ok? <==> key in f.index
    ensures r.Ok? ==> |r.value| == |f.columns|
  {
    match IndexOf(f.index, key)
    case None => KeyError(key)
    case Some(i) => Ok(f.cells[i])
  }

  /** Over a sorted index, `.loc` returns the row stored at the key's position. */
  lemma LocAt<T>(f: Frame<T>, i: nat)
    requires Shaped(f) && Increasing(f.index) && i < |f.index|
    ensures Loc(f, f.index[i]) == Ok(f.cells[i])
  {
    IndexOfIncreasing(f.index, i);
  }

  /** One string field of each record, in order: a column of a list of records. */
  function Labels<R>(rs: seq<R>, field: R -> string): (ls: seq<string>)
    ensures |ls| == |rs|
  {
    if rs == [] then [] else [field(rs[0])] + Labels(rs[1..], field)
  }

  lemma {:induction false} LabelsAt<R>(rs: seq<R>, field: R -> string, j: nat)
    requires j < |rs|
    ensures Labels(rs, field)[j] == field(rs[j])
  {
    if j > 0 {
      LabelsAt(rs[1..], field, j - 1);
    }
  }

  lemma LabelsAll<R>(rs: seq<R>, field: R -> string)
    ensures forall m :: 0 <= m < |rs| ==> Labels(rs, field)[m] == field(rs[m])
  {
    forall m | 0 <= m < |rs| ensures Labels(rs, field)[m] == field(rs[m]) {
      LabelsAt(rs, field, m);
    }
  }

  // ---------------------------------------------------------------------------
  // Inner join of two count series on their key (`merge(on=key)`, how='inner').
  // ---------------------------------------------------------------------------

  datatype Joined = Joined(key: string, left: nat, right: nat)

  function JoinedKey(j: Joined): string
  {
    j.key
  }

  /** Keeps the left keys that also occur on the right, in left order, each carrying
      the left and the right value of that key (see InnerJoinValues). */
  function InnerJoin(a: Series, b: Series): (js: seq<Joined>)
    requires |a.index| == |a.values| && |b.index| == |b.values|
    requires Increasing(a.index) && Increasing(b.index)
    ensures Increasing(Labels(js, JoinedKey))
    ensures forall k :: k in Labels(js, JoinedKey) <==> k in a.index && k in b.index
    decreases |a.index|
  {
    if a.index == [] then []
    else
      IncreasingTail(a.index);
      var rest := InnerJoin(Series(a.index[1..], a.values[1..]), b);
      assert forall m :: 0 <= m < |Labels(rest, JoinedKey)| ==> Below(a.index[0], Labels(rest, JoinedKey)[m]) by {
        forall m | 0 <= m < |Labels(rest, JoinedKey)| ensures Below(a.index[0], Labels(rest, JoinedKey)[m]) {
          assert Labels(rest, JoinedKey)[m] in Labels(rest, JoinedKey);
        }
      }
      match IndexOf(b.index, a.index[0])
      case None => rest
      case Some(j) => [Joined(a.index[0], a.values[0], b.values[j])] + rest
  }

  /** A joined key is a left key after the first one, unless it is the first one. */
  lemma InnerJoinKeyInTail(a: Series, b: Series, m: nat)
    requires |a.index| == |a.values| && |b.index| == |b.values|
    requires Increasing(a.index) && Increasing(b.index) && a.index != []
    requires m < |InnerJoin(Series(a.index[1..], a.values[1..]), b)|
    ensures exists k :: 1 <= k < |a.index| && a.index[k] == InnerJoin(Series(a.index[1..], a.values[1..]), b)[m].key
  {
    IncreasingTail(a.index);
    var rest := InnerJoin(Series(a.index[1..], a.values[1..]), b);
    LabelsAll(rest, JoinedKey);
    assert Labels(rest, JoinedKey)[m] in Labels(rest, JoinedKey);
    var k :| 0 <= k < |a.index[1..]| && a.index[1..][k] == rest[m].key;
    assert a.index[k + 1] == rest[m].key;
  }

  /** A key of the join of the tail sits after the first left key. */
  lemma InnerJoinTailPosition(a: Series, b: Series, m: nat, i: nat)
    requires |a.index| == |a.values| && |b.index| == |b.values|
    requires Increasing(a.index) && Increasing(b.index) && a.index != []
    requires m < |InnerJoin(Series(a.index[1..], a.values[1..]), b)| && i < |a.index|
    requires a.index[i] == InnerJoin(Series(a.index[1..], a.values[1..]), b)[m].key
    ensures 1 <= i
  {
    IncreasingUnique(a.index);
    InnerJoinKeyInTail(a, b, m);
  }

  /** Each joined row carries the left value stored under its key. */
  lemma {:induction false} InnerJoinLeft(a: Series, b: Series, m: nat, i: nat)
    requires |a.index| == |a.values| && |b.index| == |b.values|
    requires Increasing(a.index) && Increasing(b.index)
    requires m < |InnerJoin(a, b)| && i < |a.index| && a.index[i] == InnerJoin(a, b)[m].key
    ensures InnerJoin(a, b)[m].left == a.values[i]
    decreases |a.index|, 1
  {
    match IndexOf(b.index, a.index[0])
    case None => InnerJoinLeftSkip(a, b, m, i);
    case Some(jb) => InnerJoinLeftKeep(a, b, jb, m, i);
  }

  /** InnerJoinLeft when the first left key is not on the right. */
  lemma {:induction false} InnerJoinLeftSkip(a: Series, b: Series, m: nat, i: nat)
    requires |a.index| == |a.values| && |b.index| == |b.values|
    requires Increasing(a.index) && Increasing(b.index) && a.index != []
    requires IndexOf(b.index, a.index[0]).None?
    requires m < |InnerJoin(a, b)| && i < |a.index| && a.index[i] == InnerJoin(a, b)[m].key
    ensures InnerJoin(a, b)[m].left == a.values[i]
    decreases |a.index|, 0
  {
    var tail := Series(a.index[1..], a.values[1..]);
    IncreasingTail(a.index);
    assert InnerJoin(a, b) == InnerJoin(tail, b);
    InnerJoinTailPosition(a, b, m, i);
    InnerJoinLeft(tail, b, m, i - 1);
  }

  /** InnerJoinLeft when the first left key is on the right, at `jb`. */
  lemma {:induction false} InnerJoinLeftKeep(a: Series, b: Series, jb: nat, m: nat, i: nat)
    requires |a.index| == |a.values| && |b.index| == |b.values|
    requires Increasing(a.index) && Increasing(b.index) && a.index != []
    requires IndexOf(b.index, a.index[0]) == Some(jb)
    requires m < |InnerJoin(a, b)| && i < |a.index| && a.index[i] == InnerJoin(a, b)[m].key
    ensures InnerJoin(a, b)[m].left == a.values[i]
    decreases |a.index|, 0
  {
    var tail := Series(a.index[1..], a.values[1..]);
    IncreasingTail(a.index);
    var rest := InnerJoin(tail, b);
    var js := [Joined(a.index[0], a.values[0], b.values[jb])] + rest;
    assert InnerJoin(a, b) == js;
    if m == 0 {
      IncreasingUnique(a.index);
    } else {
      assert js[m] == rest[m - 1];
      InnerJoinTailPosition(a, b, m - 1, i);
      InnerJoinLeft(tail, b, m - 1, i - 1);
    }
  }

  /** Each joined row carries the right value stored under its key. */
  lemma {:induction false} InnerJoinRight(a: Series, b: Series, m: nat, j: nat)
    requires |a.index| == |a.values| && |b.index| == |b.values|
    requires Increasing(a.index) && Increasing(b.index)
    requires m < |InnerJoin(a, b)| && j < |b.index| && b.index[j] == InnerJoin(a, b)[m].key
    ensures InnerJoin(a, b)[m].right == b.values[j]
    decreases |a.index|
  {
    var tail := Series(a.index[1..], a.values[1..]);
    IncreasingTail(a.index);
    IncreasingUnique(b.index);
    var rest := InnerJoin(tail, b);
    var js := InnerJoin(a, b);
    var off := if IndexOf(b.index, a.index[0]).Some? then 1 else 0;
    assert js == (if off == 1 then [js[0]] else []) + rest;
    if m >= off {
      assert js[m] == rest[m - off];
      InnerJoinRight(tail, b, m - off, j);
    }
  }
}
