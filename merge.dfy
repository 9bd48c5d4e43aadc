/** The merge of the per-game analysis workbooks: one row of KPIs per game, and one row per
    game holding the mean hours its sampled players spent in each of their other games. */
module Merge {
  import opened Common
  import opened Text
  import opened Json
  import opened Ranking

  const AnalysisSuffix: string := "_analysis.xlsx"
  const TopOther: int := 100
  const BaseColumn: string := "base_game"
  const SteamIdColumn: string := "steamid"

  // ---------------------------------------------------------------- files and names

  /** `discover_files`: the directory entries ending with the suffix, in listing order. */
  function DiscoverFiles(listing: seq<string>, suffix: string): (files: seq<string>)
    ensures forall f :: f in files <==> f in listing && EndsWith(f, suffix)
  {
    Filter(listing, f => EndsWith(f, suffix))
  }

  /** The selection of a listing is the selection of its parts, one after the other: the order
      of the listing is kept. */
  lemma DiscoverFilesAppend(a: seq<string>, b: seq<string>, suffix: string)
    ensures DiscoverFiles(a + b, suffix) == DiscoverFiles(a, suffix) + DiscoverFiles(b, suffix)
  {
    FilterAppend(a, b, f => EndsWith(f, suffix));
  }

  /** The game a workbook belongs to: the file name with every occurrence of the suffix deleted
      and each `_` turned into a space. */
  function BaseGame(fname: string, suffix: string): (base: string)
    ensures |base| <= |fname|
    ensures '_' !in base
  {
    var stem := RemoveAll(fname, suffix);
    var base := ReplaceChar(stem, '_', ' ');
    assert forall i :: 0 <= i < |base| ==> base[i] != '_';
    base
  }

  /** A name made of a stem and the suffix, which does not occur earlier, names the stem with
      its underscores turned into spaces. */
  lemma BaseGameOfStem(stem: string, suffix: string)
    requires |suffix| > 0
    requires forall i :: 0 <= i < |stem| ==> !OccursAt(stem + suffix, suffix, i)
    ensures BaseGame(stem + suffix, suffix) == ReplaceChar(stem, '_', ' ')
  {
    RemoveAllTrailing(stem, suffix);
  }

  // ---------------------------------------------------------------- frames built from rows

  /** A table: column names and one list of cells per row. */
  datatype Table<V> = Table(columns: seq<string>, cells: seq<seq<V>>)

  /** The keys of every row, row after row. */
  function AllKeys<V>(rows: seq<Assoc<string, V>>): seq<string> {
    if rows == [] then [] else AllKeys(rows[..|rows| - 1]) + Keys(rows[|rows| - 1])
  }

  /** Some row has a value under `c`. */
  ghost predicate KeyedBy<V>(rows: seq<Assoc<string, V>>, c: string) {
    exists i :: 0 <= i < |rows| && Lookup(rows[i], c).Some?
  }

  lemma {:induction false} AllKeysSpec<V>(rows: seq<Assoc<string, V>>, c: string)
    ensures c in AllKeys(rows) <==> KeyedBy(rows, c)
  {
    if rows != [] {
      var init := rows[..|rows| - 1];
      var last := rows[|rows| - 1];
      AllKeysSpec(init, c);
      KeysLookup(last, c);
      if KeyedBy(init, c) {
        var i :| 0 <= i < |init| && Lookup(init[i], c).Some?;
        assert rows[i] == init[i];
      }
      if KeyedBy(rows, c) && !Lookup(last, c).Some? {
        var i :| 0 <= i < |rows| && Lookup(rows[i], c).Some?;
        assert init[i] == rows[i];
      }
    }
  }

  /** The columns of `pd.DataFrame(rows)` reordered with `base_game` first: every key once, in
      the order it first appears. */
  function FrameColumns<V>(rows: seq<Assoc<string, V>>): (cols: seq<string>)
    ensures |cols| > 0 && cols[0] == BaseColumn
    ensures Distinct(cols)
  {
    var seen := Dedup(AllKeys(rows));
    var others := Filter(seen, c => c != BaseColumn);
    FilterDistinct(seen, c => c != BaseColumn);
    var cols := [BaseColumn] + others;
    forall i, j | 0 <= i < j < |cols| ensures cols[i] != cols[j] {
      if i == 0 {
        assert cols[j] == others[j - 1] && cols[j] in others;
      } else {
        assert cols[i] == others[i - 1] && cols[j] == others[j - 1];
      }
    }
    cols
  }

  /** A column is `base_game` or a key of some row, and every such key is a column. */
  lemma FrameColumnsSpec<V>(rows: seq<Assoc<string, V>>, c: string)
    ensures c in FrameColumns(rows) <==> c == BaseColumn || KeyedBy(rows, c)
  {
    AllKeysSpec(rows, c);
  }

  /** `pd.DataFrame(rows)[cols]`: a key a row lacks gives a missing cell (`NaN`). */
  function Frame<V>(rows: seq<Assoc<string, V>>): Table<Option<V>> {
    var cols := FrameColumns(rows);
    Table(cols, seq(|rows|, i requires 0 <= i < |rows| =>
      seq(|cols|, j requires 0 <= j < |cols| => Lookup(rows[i], cols[j]))))
  }

  /** `.fillna(fill)` */
  function FillNa<V>(t: Table<Option<V>>, fill: V): Table<V> {
    Table(t.columns, seq(|t.cells|, i requires 0 <= i < |t.cells| =>
      seq(|t.cells[i]|, j requires 0 <= j < |t.cells[i]| => t.cells[i][j].GetOr(fill))))
  }

  /** After the fill, a cell holds what its row has under its column, or the fill value. */
  lemma FilledCells<V>(rows: seq<Assoc<string, V>>, fill: V)
    ensures var t := FillNa(Frame(rows), fill);
      && t.columns == FrameColumns(rows)
      && |t.cells| == |rows|
      && forall i :: 0 <= i < |rows| ==>
        && |t.cells[i]| == |t.columns|
        && forall j :: 0 <= j < |t.columns| ==> t.cells[i][j] == Lookup(rows[i], t.columns[j]).GetOr(fill)
  {
  }

  // ---------------------------------------------------------------- the KPI table

  type Row = Assoc<string, Json>

  /** The first row of a game's KPI sheet with its `base_game` set. */
  function KpiRow(fname: string, suffix: string, sheet: seq<Row>): (row: Row)
    requires sheet != []
    ensures forall c ::
      Lookup(row, c) == if c == BaseColumn then Some(JStr(BaseGame(fname, suffix))) else Lookup(sheet[0], c)
  {
    var row := Put(sheet[0], BaseColumn, JStr(BaseGame(fname, suffix)));
    PutLookup(sheet[0], BaseColumn, JStr(BaseGame(fname, suffix)));
    row
  }

  /** Some file's first KPI row has a value under `c`. */
  ghost predicate InSomeFirstRow(files: seq<string>, kpiSheet: string -> seq<Row>, c: string) {
    exists i :: 0 <= i < |files| && kpiSheet(files[i]) != [] && Lookup(kpiSheet(files[i])[0], c).Some?
  }

  /** What the merged KPI table holds in column `c` for a file. */
  function KpiCell(fname: string, suffix: string, sheet: seq<Row>, c: string): Option<Json>
    requires sheet != []
  {
    if c == BaseColumn then Some(JStr(BaseGame(fname, suffix))) else Lookup(sheet[0], c)
  }

  /** `merge_kpis`: a sheet without rows raises; no file at all leaves no `base_game` column to
      select and raises too. Otherwise one row per file, in file order, holding that file's first
      KPI row and its game; `base_game` comes first and every field of any file is a column. */
  method MergeKpis(files: seq<string>, suffix: string, kpiSheet: string -> seq<Row>)
    returns (outcome: Result<Table<Option<Json>>>)
    ensures outcome.Err? <==> files == [] || exists i :: 0 <= i < |files| && kpiSheet(files[i]) == []
    ensures outcome.Err? ==> outcome.error == if files == [] then MissingKey else EmptySheet
    ensures outcome.Ok? ==> var t := outcome.value;
      && |t.columns| > 0 && t.columns[0] == BaseColumn
      && Distinct(t.columns)
      && (forall c :: c in t.columns <==> c == BaseColumn || InSomeFirstRow(files, kpiSheet, c))
      && |t.cells| == |files|
      && forall i :: 0 <= i < |files| ==>
        && kpiSheet(files[i]) != []
        && |t.cells[i]| == |t.columns|
        && forall j :: 0 <= j < |t.columns| ==>
          t.cells[i][j] == KpiCell(files[i], suffix, kpiSheet(files[i]), t.columns[j])
  {
    var rows: seq<Row> := [];
    var i := 0;
    while i < |files|
      invariant 0 <= i <= |files| && |rows| == i
      invariant forall k :: 0 <= k < i ==> kpiSheet(files[k]) != []
      invariant forall k :: 0 <= k < i ==> rows[k] == KpiRow(files[k], suffix, kpiSheet(files[k]))
    {
      var sheet := kpiSheet(files[i]);
      if sheet == [] {
        return Err(EmptySheet);
      }
      rows := rows + [KpiRow(files[i], suffix, sheet)];
      i := i + 1;
    }
    if rows == [] {
      return Err(MissingKey);
    }
    var t := Frame(rows);
    forall c ensures c in t.columns <==> c == BaseColumn || InSomeFirstRow(files, kpiSheet, c) {
      FrameColumnsSpec(rows, c);
      KpiKeyed(files, suffix, kpiSheet, rows, c);
    }
    outcome := Ok(t);
  }

  /** A key of some merged KPI row is `base_game` or a field of some first row. */
  lemma KpiKeyed(files: seq<string>, suffix: string, kpiSheet: string -> seq<Row>, rows: seq<Row>, c: string)
    requires |rows| == |files| > 0
    requires forall k :: 0 <= k < |files| ==> kpiSheet(files[k]) != []
    requires forall k :: 0 <= k < |files| ==> rows[k] == KpiRow(files[k], suffix, kpiSheet(files[k]))
    ensures KeyedBy(rows, c) <==> c == BaseColumn || InSomeFirstRow(files, kpiSheet, c)
  {
    if c == BaseColumn {
      assert Lookup(rows[0], c).Some?;
    }
    if InSomeFirstRow(files, kpiSheet, c) {
      var k :| 0 <= k < |files| && kpiSheet(files[k]) != [] && Lookup(kpiSheet(files[k])[0], c).Some?;
      assert Lookup(rows[k], c).Some?;
    }
    if KeyedBy(rows, c) && c != BaseColumn {
      var k :| 0 <= k < |rows| && Lookup(rows[k], c).Some?;
      assert Lookup(kpiSheet(files[k])[0], c).Some?;
    }
  }

  // ---------------------------------------------------------------- the other-games table

  /** A sheet of the other games, column by column: the column name and its cells. */
  type Sheet = Assoc<string, seq<real>>

  function Sum(v: seq<real>): real {
    if v == [] then 0.0 else v[0] + Sum(v[1..])
  }

  /** `Series.mean()` of a column with cells. */
  function Mean(v: seq<real>): real
    requires v != []
  {
    Sum(v) / (|v| as real)
  }

  /** What a column contributes once the table is filled: its mean, or 0 for a column without
      cells, whose mean is `NaN`. */
  function FilledMean(v: seq<real>): real {
    if v == [] then 0.0 else Mean(v)
  }

  /** The mean of each column with cells, in column order. */
  function Averages(s: Sheet): seq<(string, real)> {
    if s == [] then []
    else (if s[0].1 != [] then [(s[0].0, Mean(s[0].1))] else []) + Averages(s[1..])
  }

  /** The columns without cells, in column order, with the 0 their `NaN` mean becomes. */
  function Blanks(s: Sheet): seq<(string, real)> {
    if s == [] then []
    else (if s[0].1 == [] then [(s[0].0, 0.0)] else []) + Blanks(s[1..])
  }

  function MeanOf(e: (string, real)): real { e.1 }

  /** `df.drop(columns=['steamid'])`: the game columns. */
  function Games(sheet: Sheet): Sheet {
    Remove(sheet, SteamIdColumn)
  }

  /** `df.mean().sort_values(ascending=False).head(top_n)` over the game columns: the means
      largest first, the `NaN` ones after all others, cut to `top_n`. */
  function TopAverages(sheet: Sheet, topN: int): seq<(string, real)> {
    var s := Games(sheet);
    TakePrefix(SortDesc(Averages(s), MeanOf) + Blanks(s), topN)
  }

  /** In a sheet whose column names are distinct, each averaged entry is the mean of the column
      it names. */
  lemma {:induction false} AveragesEntries(s: Sheet)
    requires DistinctKeys(s)
    ensures forall e :: e in Averages(s) ==>
      Lookup(s, e.0).Some? && Lookup(s, e.0).value != [] && e.1 == Mean(Lookup(s, e.0).value)
  {
    if s != [] {
      var rest := s[1..];
      assert DistinctKeys(rest);
      AveragesEntries(rest);
      forall e | e in Averages(rest) ensures e.0 != s[0].0 {
        var k :| 0 <= k < |rest| && rest[k].0 == e.0;
        assert s[k + 1].0 == e.0;
      }
    }
  }

  /** Every column with cells is averaged. */
  lemma {:induction false} AveragesComplete(s: Sheet, c: string)
    requires Lookup(s, c).Some? && Lookup(s, c).value != []
    ensures (c, Mean(Lookup(s, c).value)) in Averages(s)
  {
    if s[0].0 != c {
      AveragesComplete(s[1..], c);
    }
  }

  /** Every column is averaged or blank. */
  lemma {:induction false} AveragesSize(s: Sheet)
    ensures |Averages(s)| + |Blanks(s)| == |s|
  {
    if s != [] {
      AveragesSize(s[1..]);
    }
  }

  /** Averaged and blank entries name columns of the sheet. */
  lemma {:induction false} SplitKeys(s: Sheet)
    ensures forall e :: e in Averages(s) ==> e.0 in Keys(s)
    ensures forall e :: e in Blanks(s) ==> e.0 in Keys(s)
  {
    if s != [] {
      SplitKeys(s[1..]);
      assert Keys(s) == [s[0].0] + Keys(s[1..]);
    }
  }

  /** An entry put before a dictionary that lacks its key keeps the keys distinct. */
  lemma PrependDistinct(h: seq<(string, real)>, t: seq<(string, real)>)
    requires |h| <= 1 && DistinctKeys(t)
    requires h != [] ==> h[0].0 !in Keys(t)
    ensures DistinctKeys(h + t)
  {
    var a := h + t;
    forall i, j | 0 <= i < j < |a| ensures a[i].0 != a[j].0 {
      if h != [] && i == 0 {
        assert a[j] == t[j - 1] && Keys(t)[j - 1] == a[j].0;
      } else {
        assert a[i] == t[i - |h|] && a[j] == t[j - |h|];
      }
    }
  }

  /** The first column's name is not among the others'. */
  lemma HeadNameFresh(s: Sheet)
    requires s != [] && DistinctKeys(s)
    ensures s[0].0 !in Keys(s[1..])
  {
    forall k | 0 <= k < |s| - 1 ensures Keys(s[1..])[k] != s[0].0 {
      assert Keys(s[1..])[k] == s[k + 1].0;
    }
  }

  /** Distinct column names give distinct averaged names. */
  lemma {:induction false} AveragesDistinct(s: Sheet)
    requires DistinctKeys(s)
    ensures DistinctKeys(Averages(s))
  {
    if s != [] {
      var rest := s[1..];
      assert DistinctKeys(rest);
      AveragesDistinct(rest);
      SplitKeys(rest);
      HeadNameFresh(s);
      var head := if s[0].1 != [] then [(s[0].0, Mean(s[0].1))] else [];
      PrependDistinct(head, Averages(rest));
    }
  }

  /** Distinct column names give distinct blank names. */
  lemma {:induction false} BlanksDistinct(s: Sheet)
    requires DistinctKeys(s)
    ensures DistinctKeys(Blanks(s))
  {
    if s != [] {
      var rest := s[1..];
      assert DistinctKeys(rest);
      BlanksDistinct(rest);
      SplitKeys(rest);
      HeadNameFresh(s);
      var head := if s[0].1 == [] then [(s[0].0, 0.0)] else [];
      PrependDistinct(head, Blanks(rest));
    }
  }

  /** In a sheet whose column names are distinct, the blank entries name blank columns. */
  lemma {:induction false} BlanksEntries(s: Sheet)
    requires DistinctKeys(s)
    ensures forall e :: e in Blanks(s) ==> Lookup(s, e.0).Some? && Lookup(s, e.0).value == [] && e.1 == 0.0
  {
    if s != [] {
      var rest := s[1..];
      assert DistinctKeys(rest);
      BlanksEntries(rest);
      forall e | e in Blanks(rest) ensures e.0 != s[0].0 {
        var k :| 0 <= k < |rest| && rest[k].0 == e.0;
        assert s[k + 1].0 == e.0;
      }
    }
  }

  /** While there are at least `topN` columns with cells, the selection is the best `topN`
      of their means. */
  lemma TopShort(sheet: Sheet, topN: int)
    requires 0 <= topN <= |Averages(Games(sheet))|
    ensures TopAverages(sheet, topN) == TopK(Averages(Games(sheet)), topN, MeanOf)
  {
    var a := Averages(Games(sheet));
    var sa := SortDesc(a, MeanOf);
    var t := sa + Blanks(Games(sheet));
    assert |sa| == |multiset(sa)| == |multiset(a)| == |a|;
    assert t[..topN] == sa[..topN];
  }

  /** Otherwise it holds all of them. */
  lemma TopLong(sheet: Sheet, topN: int)
    requires topN >= |Averages(Games(sheet))|
    ensures forall x :: x in Averages(Games(sheet)) ==> x in TopAverages(sheet, topN)
  {
    var a := Averages(Games(sheet));
    var sa := SortDesc(a, MeanOf);
    var t := sa + Blanks(Games(sheet));
    var r := TopAverages(sheet, topN);
    assert |sa| == |multiset(sa)| == |multiset(a)| == |a|;
    assert r[..|sa|] == sa;
    forall x | x in a ensures x in r {
      assert x in multiset(sa);
      assert x in r[..|sa|];
    }
  }

  /** Each selected entry names a game column, never `steamid`, and holds its mean (0 for a
      column without cells). */
  lemma TopEntries(sheet: Sheet, topN: int)
    requires DistinctKeys(sheet) && topN >= 0
    ensures forall e :: e in TopAverages(sheet, topN) ==>
      && e.0 != SteamIdColumn
      && Lookup(sheet, e.0).Some?
      && e.1 == FilledMean(Lookup(sheet, e.0).value)
  {
    var s := Games(sheet);
    var a := Averages(s);
    var sa := SortDesc(a, MeanOf);
    var r := TopAverages(sheet, topN);
    AveragesEntries(s);
    BlanksEntries(s);
    forall e | e in r
      ensures e.0 != SteamIdColumn && Lookup(sheet, e.0).Some? && e.1 == FilledMean(Lookup(sheet, e.0).value)
    {
      assert e in sa + Blanks(s);
      if e in sa {
        assert e in multiset(a);
      }
    }
  }

  /** The selected names are distinct when the sheet's are. */
  lemma TopDistinct(sheet: Sheet, topN: int)
    requires DistinctKeys(sheet) && topN >= 0
    ensures DistinctKeys(TopAverages(sheet, topN))
  {
    var s := Games(sheet);
    var a := Averages(s);
    var sa := SortDesc(a, MeanOf);
    var b := Blanks(s);
    var t := sa + b;
    var r := TopAverages(sheet, topN);
    AveragesEntries(s);
    BlanksEntries(s);
    AveragesDistinct(s);
    BlanksDistinct(s);
    PermDistinctKeys(a, sa);
    forall i, j | 0 <= i < j < |t| ensures t[i].0 != t[j].0 {
      if j < |sa| {
        assert t[i] == sa[i] && t[j] == sa[j];
      } else if i >= |sa| {
        assert t[i] == b[i - |sa|] && t[j] == b[j - |sa|];
      } else {
        assert t[i] == sa[i] && t[i] in multiset(a);
        assert t[j] == b[j - |sa|] && t[j] in b;
      }
    }
    forall i, j | 0 <= i < j < |r| ensures r[i].0 != r[j].0 {
      assert r[i] == t[i] && r[j] == t[j];
    }
  }

  lemma KeyIn<V>(d: Assoc<string, V>, k: nat)
    requires k < |d|
    ensures d[k].0 in Keys(d)
  {
    assert Keys(d)[k] == d[k].0;
  }

  /** Once `topN` reaches the number of columns with cells, all of them are selected. */
  lemma FilledKept(sheet: Sheet, topN: int, c: string)
    requires topN >= |Averages(Games(sheet))|
    requires c != SteamIdColumn && Lookup(sheet, c).Some? && Lookup(sheet, c).value != []
    ensures c in Keys(TopAverages(sheet, topN))
  {
    var s := Games(sheet);
    var r := TopAverages(sheet, topN);
    TopLong(sheet, topN);
    AveragesComplete(s, c);
    var x := (c, Mean(Lookup(sheet, c).value));
    var k :| 0 <= k < |r| && r[k] == x;
    KeyIn(r, k);
  }

  /** A column with cells that is not selected has a mean no larger than any selected one. */
  lemma TopBound(sheet: Sheet, topN: int, c: string, e: (string, real))
    requires topN >= 0
    requires c != SteamIdColumn && Lookup(sheet, c).Some? && Lookup(sheet, c).value != []
    requires c !in Keys(TopAverages(sheet, topN)) && e in TopAverages(sheet, topN)
    ensures Mean(Lookup(sheet, c).value) <= e.1
  {
    if topN < |Averages(Games(sheet))| {
      AveragesComplete(Games(sheet), c);
      TopBoundShort(sheet, topN, (c, Mean(Lookup(sheet, c).value)), e);
    } else {
      FilledKept(sheet, topN, c);
    }
  }

  lemma TopBoundShort(sheet: Sheet, topN: int, x: (string, real), e: (string, real))
    requires 0 <= topN <= |Averages(Games(sheet))|
    requires x in Averages(Games(sheet))
    requires x.0 !in Keys(TopAverages(sheet, topN)) && e in TopAverages(sheet, topN)
    ensures x.1 <= e.1
  {
    var a := Averages(Games(sheet));
    var r := TopAverages(sheet, topN);
    TopShort(sheet, topN);
    forall k | 0 <= k < |r| ensures r[k] != x {
      KeyIn(r, k);
    }
    TopKBound(a, topN, MeanOf);
    assert MeanOf(x) <= MeanOf(e);
  }

  /** While there are more columns with cells than `topN`, no blank column is selected. */
  lemma BlanksDropped(sheet: Sheet, topN: int)
    requires DistinctKeys(sheet) && 0 <= topN <= |Averages(Games(sheet))|
    ensures forall e :: e in TopAverages(sheet, topN) ==> Lookup(sheet, e.0).Some? && Lookup(sheet, e.0).value != []
  {
    var s := Games(sheet);
    var a := Averages(s);
    TopShort(sheet, topN);
    TopKSize(a, topN, MeanOf);
    AveragesEntries(s);
    forall e | e in TopAverages(sheet, topN) ensures Lookup(sheet, e.0).Some? && Lookup(sheet, e.0).value != [] {
      assert e in multiset(a);
    }
  }

  /** The per-game selection of `merge_other_games`: at most `topN` game columns, never
      `steamid`, each once with its mean; the columns with the largest means are the ones kept,
      and blank columns only come in once every column with cells is in. */
  lemma TopAveragesSpec(sheet: Sheet, topN: int)
    requires DistinctKeys(sheet) && topN >= 0
    ensures var r := TopAverages(sheet, topN);
      && |r| == Min(topN, |Games(sheet)|)
      && DistinctKeys(r)
      && (forall e :: e in r ==>
        e.0 != SteamIdColumn && Lookup(sheet, e.0).Some? && e.1 == FilledMean(Lookup(sheet, e.0).value))
      && (forall c, e ::
            (c != SteamIdColumn && Lookup(sheet, c).Some? && Lookup(sheet, c).value != [] &&
             c !in Keys(r) && e in r) ==> Mean(Lookup(sheet, c).value) <= e.1)
      && (topN >= |Averages(Games(sheet))| ==>
            forall c :: (c != SteamIdColumn && Lookup(sheet, c).Some? && Lookup(sheet, c).value != []) ==>
              c in Keys(r))
      && (topN <= |Averages(Games(sheet))| ==> forall e :: e in r ==> Lookup(sheet, e.0).value != [])
  {
    var s := Games(sheet);
    var a := Averages(s);
    var sa := SortDesc(a, MeanOf);
    var r := TopAverages(sheet, topN);
    AveragesSize(s);
    assert |sa| == |multiset(sa)| == |multiset(a)| == |a|;
    TopEntries(sheet, topN);
    TopDistinct(sheet, topN);
    forall c, e | c != SteamIdColumn && Lookup(sheet, c).Some? && Lookup(sheet, c).value != [] &&
      c !in Keys(r) && e in r
      ensures Mean(Lookup(sheet, c).value) <= e.1
    {
      TopBound(sheet, topN, c, e);
    }
    if topN >= |a| {
      forall c | c != SteamIdColumn && Lookup(sheet, c).Some? && Lookup(sheet, c).value != []
        ensures c in Keys(r)
      {
        FilledKept(sheet, topN, c);
      }
    }
    if topN <= |a| {
      BlanksDropped(sheet, topN);
    }
  }

  // ---------------------------------------------------------------- merged rows of means

  /** The means as cell values. */
  function Nums(es: seq<(string, real)>): (r: Assoc<string, Json>)
    ensures |r| == |es|
    ensures forall i :: 0 <= i < |es| ==> r[i] == (es[i].0, JNum(es[i].1))
  {
    if es == [] then [] else [(es[0].0, JNum(es[0].1))] + Nums(es[1..])
  }

  lemma {:induction false} NumsLookup(es: seq<(string, real)>, c: string)
    ensures Lookup(Nums(es), c) == if Lookup(es, c).Some? then Some(JNum(Lookup(es, c).value)) else None
  {
    if es != [] && es[0].0 != c {
      NumsLookup(es[1..], c);
    }
  }

  /** A game's row of `merge_other_games`: its `base_game`, then its selected means. */
  function OtherRow(base: string, entries: seq<(string, real)>): Row {
    Update([(BaseColumn, JStr(base))], Nums(entries))
  }

  /** A column of the merged table reads the game's mean when the game's selection has it, the
      game's name in `base_game`, and 0 everywhere else. */
  function OtherCell(base: string, entries: seq<(string, real)>, c: string): Json {
    Lookup(OtherRow(base, entries), c).GetOr(JNum(0.0))
  }

  lemma OtherCellSpec(base: string, entries: seq<(string, real)>, c: string)
    requires DistinctKeys(entries)
    ensures OtherCell(base, entries, c) ==
      if Lookup(entries, c).Some? then JNum(Lookup(entries, c).value)
      else if c == BaseColumn then JStr(base)
      else JNum(0.0)
  {
    var nums := Nums(entries);
    assert DistinctKeys(nums) by {
      forall i, j | 0 <= i < j < |nums| ensures nums[i].0 != nums[j].0 {
        assert nums[i].0 == entries[i].0 && nums[j].0 == entries[j].0;
      }
    }
    UpdateLookup([(BaseColumn, JStr(base))], nums, c);
    NumsLookup(entries, c);
    KeysLookup(entries, c);
  }

  /** Some game's selection has a mean for `c`. */
  ghost predicate KeptSomewhere(files: seq<string>, otherSheet: string -> Sheet, topN: int, c: string) {
    exists i :: 0 <= i < |files| && c in Keys(TopAverages(otherSheet(files[i]), topN))
  }

  /** `merge_other_games`: one row per file, in file order, with its game in `base_game` (the
      first column) and the selected means of its sheet; a game column some other file kept and
      this one did not reads 0. With no file at all there is no `base_game` column to select
      and the call raises. */
  method MergeOtherGames(files: seq<string>, topN: int, suffix: string, otherSheet: string -> Sheet)
    returns (outcome: Result<Table<Json>>)
    ensures outcome.Err? <==> files == []
    ensures outcome.Err? ==> outcome.error == MissingKey
    ensures outcome.Ok? ==> var t := outcome.value;
      && |t.columns| > 0 && t.columns[0] == BaseColumn
      && Distinct(t.columns)
      && (forall c :: c in t.columns <==> c == BaseColumn || KeptSomewhere(files, otherSheet, topN, c))
      && |t.cells| == |files|
      && forall i :: 0 <= i < |files| ==>
        && |t.cells[i]| == |t.columns|
        && forall j :: 0 <= j < |t.columns| ==>
          t.cells[i][j] == OtherCell(BaseGame(files[i], suffix), TopAverages(otherSheet(files[i]), topN), t.columns[j])
  {
    var rows := OtherRows(files, topN, suffix, otherSheet);
    if rows == [] {
      return Err(MissingKey);
    }
    var t := FillNa(Frame(rows), JNum(0.0));
    OtherCells(files, topN, suffix, otherSheet, rows);
    forall c ensures c in t.columns <==> c == BaseColumn || KeptSomewhere(files, otherSheet, topN, c) {
      FrameColumnsSpec(rows, c);
      OtherKeyed(files, topN, suffix, otherSheet, rows, c);
    }
    outcome := Ok(t);
  }

  /** The loop of `merge_other_games`: each file's row, in file order. */
  method OtherRows(files: seq<string>, topN: int, suffix: string, otherSheet: string -> Sheet)
    returns (rows: seq<Row>)
    ensures |rows| == |files|
    ensures forall k :: 0 <= k < |files| ==>
      rows[k] == FileRow(files[k], topN, suffix, otherSheet)
  {
    rows := [];
    var i := 0;
    while i < |files|
      invariant 0 <= i <= |files| && |rows| == i
      invariant forall k :: 0 <= k < i ==>
        rows[k] == FileRow(files[k], topN, suffix, otherSheet)
    {
      rows := rows + [FileRow(files[i], topN, suffix, otherSheet)];
      i := i + 1;
    }
  }

  /** The row an exported file contributes: its game and its sheet's selection. */
  function FileRow(file: string, topN: int, suffix: string, otherSheet: string -> Sheet): Row {
    OtherRow(BaseGame(file, suffix), TopAverages(otherSheet(file), topN))
  }

  /** Each cell of the filled frame is the `OtherCell` of its file and column. */
  lemma OtherCells(files: seq<string>, topN: int, suffix: string, otherSheet: string -> Sheet, rows: seq<Row>)
    requires |rows| == |files|
    requires forall k :: 0 <= k < |files| ==>
      rows[k] == FileRow(files[k], topN, suffix, otherSheet)
    ensures var t := FillNa(Frame(rows), JNum(0.0));
      && |t.cells| == |files|
      && forall i :: 0 <= i < |files| ==>
        && |t.cells[i]| == |t.columns|
        && forall j :: 0 <= j < |t.columns| ==>
          t.cells[i][j] == OtherCell(BaseGame(files[i], suffix), TopAverages(otherSheet(files[i]), topN), t.columns[j])
  {
    FilledCells(rows, JNum(0.0));
  }

  /** A key of some merged row is `base_game` or a game some file's selection kept. */
  lemma OtherKeyed(files: seq<string>, topN: int, suffix: string, otherSheet: string -> Sheet, rows: seq<Row>, c: string)
    requires |rows| == |files| > 0
    requires forall k :: 0 <= k < |files| ==>
      rows[k] == FileRow(files[k], topN, suffix, otherSheet)
    ensures KeyedBy(rows, c) <==> c == BaseColumn || KeptSomewhere(files, otherSheet, topN, c)
  {
    if c == BaseColumn {
      RowKeys(BaseGame(files[0], suffix), TopAverages(otherSheet(files[0]), topN), c);
    }
    if KeptSomewhere(files, otherSheet, topN, c) {
      var k :| 0 <= k < |files| && c in Keys(TopAverages(otherSheet(files[k]), topN));
      RowKeys(BaseGame(files[k], suffix), TopAverages(otherSheet(files[k]), topN), c);
    }
    if KeyedBy(rows, c) && c != BaseColumn {
      var k :| 0 <= k < |rows| && Lookup(rows[k], c).Some?;
      RowKeys(BaseGame(files[k], suffix), TopAverages(otherSheet(files[k]), topN), c);
    }
  }

  /** A game's row has `base_game` and the selected games, nothing else. */
  lemma RowKeys(base: string, entries: seq<(string, real)>, c: string)
    ensures Lookup(OtherRow(base, entries), c).Some? <==> c == BaseColumn || c in Keys(entries)
  {
    UpdateKeys([(BaseColumn, JStr(base))], Nums(entries), c);
    NumsLookup(entries, c);
    KeysLookup(entries, c);
  }
}
