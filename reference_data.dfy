/** `helper(des)`: the description, precautions, medications, diets and workouts of a disease,
    read from the five reference tables loaded at start-up. A table that failed to load is
    `None`, and its part of the answer keeps its empty default. */
module ReferenceData {
  import opened Wrappers

  /** One row of a reference table: its disease column and the column `helper` reads. */
  datatype Row<T> = Row(disease: string, value: T)

  /** The columns `Precaution_1` to `Precaution_4` of one row of the precautions table. */
  datatype Precautions = Precautions(first: string, second: string, third: string, fourth: string)

  /** `ast.literal_eval` on a cell that holds a Python list of strings. */
  type ListParser = string -> seq<string>

  /** The five module-level tables; `None` where `load_csv` failed. */
  datatype Tables = Tables(
    description: Option<seq<Row<string>>>,       // description.csv: Disease, Description
    precautions: Option<seq<Row<Precautions>>>,  // precautions_df.csv: Disease, Precaution_1..4
    medications: Option<seq<Row<string>>>,       // medications.csv: Disease, Medication
    diets: Option<seq<Row<string>>>,             // diets.csv: Disease, Diet
    workout: Option<seq<Row<string>>>)           // workout_df.csv: disease, workout

  /** The five values `helper` returns, in order. */
  datatype DiseaseDetails = DiseaseDetails(
    description: string,
    precautions: seq<string>,
    medications: seq<string>,
    diets: seq<string>,
    workouts: seq<string>)

  /** The rows of a table whose disease is `des`, reduced to the column read: their values,
      in table order. */
  function Matching<T>(rows: seq<Row<T>>, des: string): (r: seq<T>)
    ensures |r| <= |rows|
  {
    if rows == [] then []
    else
      var n := |rows| - 1;
      Matching(rows[..n], des) + (if rows[n].disease == des then [rows[n].value] else [])
  }

  /** A value is selected exactly when some row of `des` holds it. */
  lemma {:induction false} MatchingMembers<T>(rows: seq<Row<T>>, des: string, x: T)
    ensures x in Matching(rows, des)
      <==> exists i | 0 <= i < |rows| :: rows[i].disease == des && rows[i].value == x
  {
    if rows != [] {
      var n := |rows| - 1;
      MatchingMembers(rows[..n], des, x);
      assert forall i | 0 <= i < n :: rows[..n][i] == rows[i];
    }
  }

  /** Nothing is selected exactly when no row belongs to `des`. */
  lemma {:induction false} MatchingEmpty<T>(rows: seq<Row<T>>, des: string)
    ensures Matching(rows, des) == [] <==> forall i | 0 <= i < |rows| :: rows[i].disease != des
  {
    if rows != [] {
      var n := |rows| - 1;
      MatchingEmpty(rows[..n], des);
      assert forall i | 0 <= i < n :: rows[..n][i] == rows[i];
    }
  }

  /** Selection goes row by row: the rows of a concatenation select the concatenation. */
  lemma {:induction false} MatchingAppend<T>(a: seq<Row<T>>, b: seq<Row<T>>, des: string)
    ensures Matching(a + b, des) == Matching(a, des) + Matching(b, des)
  {
    if b == [] {
      assert a + b == a;
    } else {
      var n := |b| - 1;
      var front := b[..n];
      assert a + b == (a + front) + [b[n]];
      assert b == front + [b[n]];
      MatchingAppend(a, front, des);
      MatchingSnoc(a + front, b[n], des);
      MatchingSnoc(front, b[n], des);
      var ma := Matching(a, des);
      var mf := Matching(front, des);
      var last := if b[n].disease == des then [b[n].value] else [];
      assert (ma + mf) + last == ma + (mf + last);
    }
  }

  /** One more row selects its value when it belongs to `des`. */
  lemma MatchingSnoc<T>(rows: seq<Row<T>>, row: Row<T>, des: string)
    ensures Matching(rows + [row], des)
      == Matching(rows, des) + (if row.disease == des then [row.value] else [])
  {
    assert (rows + [row])[..|rows|] == rows;
  }

  /** The first value selected is the one on the first row of `des`. */
  lemma MatchingFirst<T>(rows: seq<Row<T>>, des: string, i: nat)
    requires i < |rows| && rows[i].disease == des
    requires forall j | 0 <= j < i :: rows[j].disease != des
    ensures Matching(rows, des) != [] && Matching(rows, des)[0] == rows[i].value
  {
    MatchingEmpty(rows[..i], des);
    assert rows == rows[..i] + [rows[i]] + rows[i + 1..];
    MatchingAppend(rows[..i] + [rows[i]], rows[i + 1..], des);
    MatchingAppend(rows[..i], [rows[i]], des);
    assert [rows[i]][..0] == [];
  }

  /** `" ".join(words)`. */
  function JoinWords(words: seq<string>): (r: string)
    ensures words == [] ==> r == ""
    ensures |words| == 1 ==> r == words[0]
  {
    if words == [] then ""
    else if |words| == 1 then words[0]
    else words[0] + " " + JoinWords(words[1..])
  }

  /** Joining two non-empty word lists puts one space between their joins: every selected
      description is kept, in order, separated by single spaces. */
  lemma {:induction false} JoinWordsAppend(a: seq<string>, b: seq<string>)
    requires a != [] && b != []
    ensures JoinWords(a + b) == JoinWords(a) + " " + JoinWords(b)
  {
    if |a| == 1 {
      assert (a + b)[1..] == b;
    } else {
      JoinWordsAppend(a[1..], b);
      assert (a + b)[1..] == a[1..] + b;
      assert JoinWords(a + b) == a[0] + " " + JoinWords(a[1..] + b);
      assert JoinWords(a) == a[0] + " " + JoinWords(a[1..]);
    }
  }

  /** The four cells of a precautions row, in column order. */
  function Cells(p: Precautions): (r: seq<string>)
  {
    [p.first, p.second, p.third, p.fourth]
  }

  /** The cells of the selected precaution rows, row after row. */
  function Flatten(rows: seq<Precautions>): (r: seq<string>)
    ensures |r| == 4 * |rows|
  {
    if rows == [] then []
    else
      var n := |rows| - 1;
      Flatten(rows[..n]) + Cells(rows[n])
  }

  /** Cell `k` of row `i` sits at position `4 * i + k` of the flattened list. */
  lemma {:induction false} FlattenAt(rows: seq<Precautions>, i: nat, k: nat)
    requires i < |rows| && k < 4
    ensures Flatten(rows)[4 * i + k] == Cells(rows[i])[k]
  {
    var n := |rows| - 1;
    if i < n {
      FlattenAt(rows[..n], i, k);
    }
  }

  /** Every selected cell parsed as a list, keeping the first parsed list when there is one
      and the empty list otherwise. */
  function FirstParsed(cells: seq<string>, parse: ListParser): (r: seq<string>)
    ensures cells == [] ==> r == []
    ensures cells != [] ==> r == parse(cells[0])
  {
    var parsed := if cells != [] then seq(|cells|, i requires 0 <= i < |cells| => parse(cells[i])) else [];
    if parsed != [] then parsed[0] else []
  }

  /** What `helper(des)` returns, read off the tables. */
  function Details(tables: Tables, des: string, parse: ListParser): (details: DiseaseDetails)
  {
    DiseaseDetails(
      if tables.description.Some? then JoinWords(Matching(tables.description.value, des)) else "",
      if tables.precautions.Some? then Flatten(Matching(tables.precautions.value, des)) else [],
      if tables.medications.Some? then FirstParsed(Matching(tables.medications.value, des), parse) else [],
      if tables.diets.Some? then FirstParsed(Matching(tables.diets.value, des), parse) else [],
      if tables.workout.Some? then Matching(tables.workout.value, des) else [])
  }

  /** No rows for `des`: a table that is missing, or holds no row of `des`. */
  predicate Silent<T>(table: Option<seq<Row<T>>>, des: string)
  {
    table.None? || forall i | 0 <= i < |table.value| :: table.value[i].disease != des
  }

  /** Missing data gives empty values, field by field: each part of the answer is empty when
      its own table is missing or holds no row of `des`, whatever the other tables hold. */
  lemma DetailsDefaults(tables: Tables, des: string, parse: ListParser)
    ensures Silent(tables.description, des) ==> Details(tables, des, parse).description == ""
    ensures Silent(tables.precautions, des) ==> Details(tables, des, parse).precautions == []
    ensures Silent(tables.medications, des) ==> Details(tables, des, parse).medications == []
    ensures Silent(tables.diets, des) ==> Details(tables, des, parse).diets == []
    ensures Silent(tables.workout, des) ==> Details(tables, des, parse).workouts == []
  {
    SilentSelectsNothing(tables.description, des);
    SilentSelectsNothing(tables.precautions, des);
    SilentSelectsNothing(tables.medications, des);
    SilentSelectsNothing(tables.diets, des);
    SilentSelectsNothing(tables.workout, des);
  }

  /** A silent table that was loaded selects nothing. */
  lemma SilentSelectsNothing<T>(table: Option<seq<Row<T>>>, des: string)
    ensures table.Some? && Silent(table, des) ==> Matching(table.value, des) == []
  {
    if table.Some? {
      MatchingEmpty(table.value, des);
    }
  }

  /** A disease that no loaded table knows gets the empty description and four empty lists. */
  lemma UnknownDiseaseDetails(tables: Tables, des: string, parse: ListParser)
    requires Silent(tables.description, des) && Silent(tables.precautions, des)
    requires Silent(tables.medications, des) && Silent(tables.diets, des)
    requires Silent(tables.workout, des)
    ensures Details(tables, des, parse) == DiseaseDetails("", [], [], [], [])
  {
    DetailsDefaults(tables, des, parse);
  }

  /** The description of a disease with one description row is that row's text. */
  lemma DescriptionOfOneRow(tables: Tables, des: string, parse: ListParser, i: nat)
    requires tables.description.Some?
    requires var rows := tables.description.value;
      i < |rows| && rows[i].disease == des
      && forall j | 0 <= j < |rows| && j != i :: rows[j].disease != des
    ensures Details(tables, des, parse).description == tables.description.value[i].value
  {
    MatchingSingle(tables.description.value, des, i);
  }

  /** A disease with two description rows gets both texts, in table order, joined by one
      space: duplicate rows are concatenated, not collapsed. */
  lemma DescriptionOfTwoRows(tables: Tables, des: string, parse: ListParser, i: nat, j: nat)
    requires tables.description.Some?
    requires var rows := tables.description.value;
      i < j < |rows| && rows[i].disease == des && rows[j].disease == des
      && forall k | 0 <= k < |rows| && k != i && k != j :: rows[k].disease != des
    ensures var rows := tables.description.value;
      Details(tables, des, parse).description == rows[i].value + " " + rows[j].value
  {
    var rows := tables.description.value;
    assert rows == rows[..j] + rows[j..];
    MatchingSingle(rows[..j], des, i);
    MatchingSingle(rows[j..], des, 0);
    MatchingAppend(rows[..j], rows[j..], des);
    JoinTwo(rows[i].value, rows[j].value);
  }

  /** `des` owns only row `i`: its value is all that is selected. */
  lemma MatchingSingle<T>(rows: seq<Row<T>>, des: string, i: nat)
    requires i < |rows| && rows[i].disease == des
    requires forall k | 0 <= k < |rows| && k != i :: rows[k].disease != des
    ensures Matching(rows, des) == [rows[i].value]
  {
    assert rows == rows[..i] + [rows[i]] + rows[i + 1..];
    MatchingEmpty(rows[..i], des);
    MatchingEmpty(rows[i + 1..], des);
    MatchingAppend(rows[..i] + [rows[i]], rows[i + 1..], des);
    MatchingSnoc(rows[..i], rows[i], des);
  }

  /** Two words joined by one space. */
  lemma JoinTwo(a: string, b: string)
    ensures JoinWords([a, b]) == a + " " + b
  {
    assert [a, b][1..] == [b];
    assert JoinWords([a, b]) == a + " " + JoinWords([b]);
  }

  /** Splitting the description table anywhere: when both parts hold rows of `des`, the
      description is the description of the first part, a space, and that of the second. */
  lemma DescriptionOfSplitTable(
    tables: Tables, des: string, parse: ListParser, a: seq<Row<string>>, b: seq<Row<string>>)
    requires tables.description == Some(a + b)
    requires Matching(a, des) != [] && Matching(b, des) != []
    ensures Details(tables, des, parse).description
      == JoinWords(Matching(a, des)) + " " + JoinWords(Matching(b, des))
  {
    MatchingAppend(a, b, des);
    JoinWordsAppend(Matching(a, des), Matching(b, des));
  }

  /** Every precautions row of `des` contributes its four cells, blank cells included, in
      row order. */
  lemma PrecautionsAreCells(tables: Tables, des: string, parse: ListParser, i: nat, k: nat)
    requires tables.precautions.Some?
    requires i < |Matching(tables.precautions.value, des)| && k < 4
    ensures var pre := Details(tables, des, parse).precautions;
      && |pre| == 4 * |Matching(tables.precautions.value, des)|
      && pre[4 * i + k] == Cells(Matching(tables.precautions.value, des)[i])[k]
  {
    FlattenAt(Matching(tables.precautions.value, des), i, k);
  }

  /** The medications are the parsed list of the first medications row of `des`, or empty
      when there is none. */
  lemma MedicationsOfFirstRow(tables: Tables, des: string, parse: ListParser)
    requires tables.medications.Some?
    ensures var rows := tables.medications.value;
      var med := Details(tables, des, parse).medications;
      && ((forall j | 0 <= j < |rows| :: rows[j].disease != des) ==> med == [])
      && (forall i | 0 <= i < |rows| && rows[i].disease == des
            && (forall j | 0 <= j < i :: rows[j].disease != des) :: med == parse(rows[i].value))
  {
    var rows := tables.medications.value;
    MatchingEmpty(rows, des);
    forall i | 0 <= i < |rows| && rows[i].disease == des && (forall j | 0 <= j < i :: rows[j].disease != des)
      ensures Details(tables, des, parse).medications == parse(rows[i].value)
    {
      MatchingFirst(rows, des, i);
    }
  }

  /** The diets are the parsed list of the first diets row of `des`, or empty when there is
      none. */
  lemma DietsOfFirstRow(tables: Tables, des: string, parse: ListParser)
    requires tables.diets.Some?
    ensures var rows := tables.diets.value;
      var die := Details(tables, des, parse).diets;
      && ((forall j | 0 <= j < |rows| :: rows[j].disease != des) ==> die == [])
      && (forall i | 0 <= i < |rows| && rows[i].disease == des
            && (forall j | 0 <= j < i :: rows[j].disease != des) :: die == parse(rows[i].value))
  {
    var rows := tables.diets.value;
    MatchingEmpty(rows, des);
    forall i | 0 <= i < |rows| && rows[i].disease == des && (forall j | 0 <= j < i :: rows[j].disease != des)
      ensures Details(tables, des, parse).diets == parse(rows[i].value)
    {
      MatchingFirst(rows, des, i);
    }
  }

  /** The workouts are the workouts on the rows of `des`, one per row, in table order; a
      workout is listed exactly when such a row holds it. */
  lemma WorkoutsOfDisease(tables: Tables, des: string, parse: ListParser, w: string)
    requires tables.workout.Some?
    ensures Details(tables, des, parse).workouts == Matching(tables.workout.value, des)
    ensures w in Details(tables, des, parse).workouts
      <==> exists i | 0 <= i < |tables.workout.value| ::
             tables.workout.value[i].disease == des && tables.workout.value[i].value == w
  {
    MatchingMembers(tables.workout.value, des, w);
  }

  /** Rows of other diseases change nothing: inserting them anywhere in a table leaves what is
      selected for `des` as it was. */
  lemma OtherRowsIgnored<T>(before: seq<Row<T>>, extra: seq<Row<T>>, after: seq<Row<T>>, des: string)
    requires forall i | 0 <= i < |extra| :: extra[i].disease != des
    ensures Matching(before + extra + after, des) == Matching(before + after, des)
  {
    MatchingAppend(before + extra, after, des);
    MatchingAppend(before, extra, des);
    MatchingAppend(before, after, des);
    MatchingEmpty(extra, des);
    assert Matching(before, des) + [] == Matching(before, des);
  }

  /** `helper(des)`: every part starts at its empty default and is overwritten from its table
      when that table was loaded. */
  method Helper(tables: Tables, des: string, parse: ListParser)
    returns (desc: string, pre: seq<string>, med: seq<string>, die: seq<string>, wrkout: seq<string>)
    ensures DiseaseDetails(desc, pre, med, die, wrkout) == Details(tables, des, parse)
  {
    desc := "";
    pre := [];
    med := [];
    die := [];
    wrkout := [];
    if tables.description.Some? {
      var descDf := Matching(tables.description.value, des);
      desc := JoinWords(descDf);
    }
    if tables.precautions.Some? {
      var preDf := Matching(tables.precautions.value, des);
      pre := Flatten(preDf);
    }
    if tables.medications.Some? {
      var medDf := Matching(tables.medications.value, des);
      med := FirstParsed(medDf, parse);
    }
    if tables.diets.Some? {
      var dieDf := Matching(tables.diets.value, des);
      die := FirstParsed(dieDf, parse);
    }
    if tables.workout.Some? {
      var wrkoutDf := Matching(tables.workout.value, des);
      wrkout := wrkoutDf;
    }
  }
}
