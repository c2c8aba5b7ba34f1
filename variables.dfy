/** The variables table of the main window read back into the dictionary from
    which the G-code preprocessor substitutes `#name` references. */
module VariableTable {
  import opened Outcomes
  import opened Text
  import opened Dicts

  /** One row of the table: the texts of its name and value cells, `None`
      where the cell holds no item. */
  datatype VarRow = VarRow(name: Option<string>, value: Option<string>)

  /** The name as the dictionary keys it: stripped, then every `#` dropped. */
  function VarName(text: string): (r: string)
    ensures '#' !in r
  {
    RemoveAll(Strip(text), '#')
  }

  /** The value a value cell stands for: its stripped text, `None` for a
      missing or blank cell. */
  function VarValue(cell: Option<string>): (r: Option<string>)
    ensures r.Some? <==> cell.Some? && Strip(cell.value) != []
    ensures r.Some? ==> r.value == Strip(cell.value)
  {
    if cell.None? then None
    else
      var v := Strip(cell.value);
      if v == "" then None else Some(v)
  }

  /** What one row does to the dictionary: a row without a name item is
      skipped, any other assigns its value to its name. */
  function VarEntry(row: VarRow): Outcome<Option<(string, Option<string>)>> {
    if row.name.None? then Ok(None)
    else Ok(Some((VarName(row.name.value), VarValue(row.value))))
  }

  /** Reading the table never fails. */
  lemma VarsComplete(rows: seq<VarRow>)
    ensures Fill(rows, VarEntry).Ok?
  {
    FillOk(rows, VarEntry);
  }

  /** The dictionary the rows of the table stand for. */
  function Vars(rows: seq<VarRow>): map<string, Option<string>> {
    VarsComplete(rows);
    Fill(rows, VarEntry).value
  }

  /** `_var_table_to_dict`. */
  method VarTableToDict(rows: seq<VarRow>) returns (vars: map<string, Option<string>>)
    ensures vars == Vars(rows)
  {
    vars := map[];
    for row := 0 to |rows|
      invariant Fill(rows[..row], VarEntry) == Ok(vars)
    {
      FillStep(rows, row, VarEntry);
      var cellA := rows[row].name;
      if cellA.None? {
        continue;
      }
      var key := Strip(cellA.value);
      key := RemoveAll(key, '#');
      var cellB := rows[row].value;
      var val: Option<string>;
      if cellB.Some? {
        var text := Strip(cellB.value);
        val := if text == "" then None else Some(text);
      } else {
        val := None;
      }
      vars := vars[key := val];
    }
    assert rows[..|rows|] == rows;
    VarsComplete(rows);
  }

  /** The key a row assigns is the cleaned text of its name item. */
  lemma KeyOfVar(row: VarRow)
    ensures KeyOf(VarEntry, row) == if row.name.Some? then Some(VarName(row.name.value)) else None
  {
  }

  /** A later row overwrites an earlier one of the same name: every row with
      a name item puts its name in the dictionary, and the last row of a name
      decides its value. */
  lemma VarsKeepLast(rows: seq<VarRow>, i: nat)
    requires i < |rows| && rows[i].name.Some?
    ensures VarName(rows[i].name.value) in Vars(rows)
    ensures (forall j :: i < j < |rows| && rows[j].name.Some? ==>
               VarName(rows[j].name.value) != VarName(rows[i].name.value)) ==>
      Vars(rows)[VarName(rows[i].name.value)] == VarValue(rows[i].value)
  {
    VarsComplete(rows);
    KeyOfVar(rows[i]);
    FillKeepsRow(rows, VarEntry, i);
    if forall j :: i < j < |rows| && rows[j].name.Some? ==>
         VarName(rows[j].name.value) != VarName(rows[i].name.value) {
      forall j | i < j < |rows|
        ensures KeyOf(VarEntry, rows[j]) != KeyOf(VarEntry, rows[i])
      {
        KeyOfVar(rows[j]);
      }
    }
  }

  /** Nothing but the names of the rows is loaded, and no name holds a `#`. */
  lemma VarsOnlyNames(rows: seq<VarRow>, key: string)
    requires key in Vars(rows)
    ensures '#' !in key
    ensures exists j :: 0 <= j < |rows| && rows[j].name.Some? && VarName(rows[j].name.value) == key
  {
    VarsComplete(rows);
    FillOnlyKeys(rows, VarEntry, key);
    var j :| 0 <= j < |rows| && KeyOf(VarEntry, rows[j]) == Some(key);
    KeyOfVar(rows[j]);
  }
}
