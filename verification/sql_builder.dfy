/**
  OracleSQLBuilder: text of INSERT, DELETE, UPDATE and SELECT statements
  built from a table name, column names and column-to-value dictionaries.
  Column names go through `Escape`, which writes them as C# string
  literals; it is a parameter `esc` here.  A dictionary is the sequence of
  its entries in enumeration order.
 */
module SqlBuilder {
  import opened Exceptions
  import opened Text

  /** A Dictionary<string, string>: column name to parameter name or value,
      in enumeration order. */
  type Columns = seq<(string, string)>

  /** `string.IsNullOrEmpty`. */
  predicate NullOrEmpty(s: Option<string>) {
    s.None? || s.value == ""
  }

  function Escaped(esc: string -> string, names: seq<string>): (r: seq<string>)
    ensures |r| == |names| && forall i :: 0 <= i < |names| ==> r[i] == esc(names[i])
  {
    seq(|names|, i requires 0 <= i < |names| => esc(names[i]))
  }

  /** The `:name` placeholders of the list form of BuildInsert. */
  function Placeholders(names: seq<string>): (r: seq<string>)
    ensures |r| == |names| && forall i :: 0 <= i < |names| ==> r[i] == ":" + names[i]
  {
    seq(|names|, i requires 0 <= i < |names| => ":" + names[i])
  }

  /** The `column = value` assignments of a dictionary, column escaped. */
  function Assignments(esc: string -> string, d: Columns): (r: seq<string>)
    ensures |r| == |d| && forall i :: 0 <= i < |d| ==> r[i] == esc(d[i].0) + " = " + d[i].1
  {
    seq(|d|, i requires 0 <= i < |d| => esc(d[i].0) + " = " + d[i].1)
  }

  function Keys(d: Columns): (r: seq<string>)
    ensures |r| == |d| && forall i :: 0 <= i < |d| ==> r[i] == d[i].0
  {
    seq(|d|, i requires 0 <= i < |d| => d[i].0)
  }

  function Values(d: Columns): (r: seq<string>)
    ensures |r| == |d| && forall i :: 0 <= i < |d| ==> r[i] == d[i].1
  {
    seq(|d|, i requires 0 <= i < |d| => d[i].1)
  }

  /** The private WhereClause: empty for a null or empty dictionary,
      otherwise `WHERE` and the assignments joined by AND. */
  function WhereClause(esc: string -> string, d: Option<Columns>): (r: string)
    ensures r == "" <==> d.None? || d.value == []
    ensures r != "" ==> "WHERE " <= r
  {
    if d.None? || d.value == [] then ""
    else "WHERE " + Join(" AND ", Assignments(esc, d.value))
  }

  /** Every entry of the dictionary is one condition of the clause, after
      the conditions of the entries before it and the ANDs between them. */
  lemma WhereListsEveryCondition(esc: string -> string, d: Columns, i: nat)
    requires i < |d|
    ensures var conds := Assignments(esc, d);
      "WHERE " + (if i == 0 then "" else Join(" AND ", conds[..i]) + " AND ") + conds[i]
        <= WhereClause(esc, Some(d))
  {
    var conds := Assignments(esc, d);
    var before := if i == 0 then "" else Join(" AND ", conds[..i]) + " AND ";
    JoinHasEveryPart(" AND ", conds, i);
    PrefixUnderHead("WHERE ", before + conds[i], Join(" AND ", conds));
    assert "WHERE " + before + conds[i] == "WHERE " + (before + conds[i]);
  }

  // ---------------------------------------------------------------------------
  // INSERT
  // ---------------------------------------------------------------------------

  /** The concatenated INSERT statement. */
  function InsertText(table: string, columns: string, values: string): string {
    "INSERT INTO " + table + " (" + columns + ") VALUES (" + values + ")"
  }

  /** The table follows the keywords, then the parenthesised column list;
      the VALUES list ends the statement; and the statement holds a brace
      exactly when one of its parts does. */
  lemma InsertTextShape(table: string, columns: string, values: string)
    ensures var r := InsertText(table, columns, values);
      && "INSERT INTO " + table + " (" + columns + ")" <= r
      && |r| > |values| && r[|r| - |values| - 1..] == values + ")"
      && (NoBraces(r) <==> NoBraces(table) && NoBraces(columns) && NoBraces(values))
  {
  }

  /** `BuildInsert(intoTable, IEnumerable<string> columnNames)`: a null or
      empty table or an empty column list raises ArgumentException; a null
      column list passes the `?.Count() == 0` test and then raises
      ArgumentNullException in `Select`. */
  function BuildInsert(esc: string -> string, table: Option<string>, names: Option<seq<string>>): (r: Result<string>)
    ensures NullOrEmpty(table) || names == Some([]) ==> r == Failure(ArgumentException)
    ensures !NullOrEmpty(table) && names.None? ==> r == Failure(ArgumentNullException)
    ensures r.Success? <==> !NullOrEmpty(table) && names.Some? && names.value != []
    ensures r.Success? ==>
              r.value == InsertText(table.value, Join(",", Escaped(esc, names.value)), Join(",", Placeholders(names.value)))
  {
    if NullOrEmpty(table) then Failure(ArgumentException)
    else if names == Some([]) then Failure(ArgumentException)
    else if names.None? then Failure(ArgumentNullException)
    else Success(InsertText(table.value, Join(",", Escaped(esc, names.value)), Join(",", Placeholders(names.value))))
  }

  /** The column list and the VALUES list of the list form pair up: split at
      the commas, field `i` of the first is column `i` escaped and field `i`
      of the second is its placeholder `:column`, provided no name and no
      escaped name holds a comma. */
  lemma InsertPairsColumnsWithPlaceholders(esc: string -> string, table: string, names: seq<string>)
    requires table != "" && names != []
    requires forall i :: 0 <= i < |names| ==> ',' !in names[i] && ',' !in esc(names[i])
    ensures var cols := Join(",", Escaped(esc, names));
      var vals := Join(",", Placeholders(names));
      && BuildInsert(esc, Some(table), Some(names)) == Success(InsertText(table, cols, vals))
      && Split(cols, ',') == Escaped(esc, names)
      && Split(vals, ',') == Placeholders(names)
  {
    SplitJoin(Escaped(esc, names), ',');
    var ph := Placeholders(names);
    forall i | 0 <= i < |ph| ensures ',' !in ph[i] {
      assert ph[i] == ":" + names[i];
    }
    SplitJoin(ph, ',');
  }

  /** `BuildInsert(intoTable, Dictionary<string, string> columnNames)`: the
      keys escaped, then the values as given; a null dictionary raises
      NullReferenceException on `Count`. */
  function BuildInsertFrom(esc: string -> string, table: Option<string>, d: Option<Columns>): (r: Result<string>)
    ensures NullOrEmpty(table) ==> r == Failure(ArgumentException)
    ensures !NullOrEmpty(table) && d.None? ==> r == Failure(NullReferenceException)
    ensures !NullOrEmpty(table) && d == Some([]) ==> r == Failure(ArgumentException)
    ensures r.Success? <==> !NullOrEmpty(table) && d.Some? && d.value != []
    ensures r.Success? ==>
              r.value == InsertText(table.value, Join(",", Escaped(esc, Keys(d.value))), Join(",", Values(d.value)))
  {
    if NullOrEmpty(table) then Failure(ArgumentException)
    else if d.None? then Failure(NullReferenceException)
    else if d.value == [] then Failure(ArgumentException)
    else Success(InsertText(table.value, Join(",", Escaped(esc, Keys(d.value))), Join(",", Values(d.value))))
  }

  /** The dictionary form pairs key `i` with value `i`, under the same
      no-comma proviso. */
  lemma InsertFromPairsKeysWithValues(esc: string -> string, table: string, d: Columns)
    requires table != "" && d != []
    requires forall i :: 0 <= i < |d| ==> ',' !in esc(d[i].0) && ',' !in d[i].1
    ensures var r := BuildInsertFrom(esc, Some(table), Some(d));
      && r.Success?
      && Split(Join(",", Escaped(esc, Keys(d))), ',') == Escaped(esc, Keys(d))
      && Split(Join(",", Values(d)), ',') == Values(d)
  {
    SplitJoin(Escaped(esc, Keys(d)), ',');
    SplitJoin(Values(d), ',');
  }

  // ---------------------------------------------------------------------------
  // DELETE, UPDATE, SELECT
  // ---------------------------------------------------------------------------

  /** The interpolated text of BuildDelete, with its two spaces after FROM,
      for the table and the WHERE clause `where`. */
  function DeleteText(table: string, where: string): string {
    "DELETE FROM  " + table + " " + where
  }

  /** The table follows the keywords, the WHERE clause ends the statement,
      and the statement holds a brace exactly when one of them does. */
  lemma DeleteTextShape(table: string, where: string)
    ensures var r := DeleteText(table, where);
      && "DELETE FROM  " + table + " " <= r
      && |r| >= |where| && r[|r| - |where|..] == where
      && (NoBraces(r) <==> NoBraces(table) && NoBraces(where))
  {
  }

  /** `BuildDelete(deleteFromTable, whereCol)`, as written: the interpolated
      text is passed to `string.Format` as a format string. */
  function BuildDelete(esc: string -> string, table: Option<string>, wh: Option<Columns>): (r: Result<string>)
    ensures NullOrEmpty(table) ==> r == Failure(ArgumentException)
    ensures !NullOrEmpty(table) ==> r == FormatNoArgs(DeleteText(table.value, WhereClause(esc, wh)))
  {
    if NullOrEmpty(table) then Failure(ArgumentException)
    else FormatNoArgs(DeleteText(table.value, WhereClause(esc, wh)))
  }

  /** BuildDelete returning the interpolated text itself. */
  function BuildDeleteIntended(esc: string -> string, table: Option<string>, wh: Option<Columns>): (r: Result<string>)
    ensures r.Failure? <==> NullOrEmpty(table)
    ensures r.Failure? ==> r.error == ArgumentException
    ensures r.Success? ==> "DELETE FROM  " + table.value + " " <= r.value
    ensures r.Success? ==> (wh.None? || wh.value == [] <==> r.value == "DELETE FROM  " + table.value + " ")
  {
    if NullOrEmpty(table) then Failure(ArgumentException)
    else Success(DeleteText(table.value, WhereClause(esc, wh)))
  }

  /** Without a WHERE condition the statement deletes every row; a null and
      an empty dictionary give the same statement. */
  lemma DeleteWithoutConditionIsUnrestricted(esc: string -> string, table: string)
    requires table != ""
    ensures BuildDeleteIntended(esc, Some(table), None) == BuildDeleteIntended(esc, Some(table), Some([]))
    ensures BuildDeleteIntended(esc, Some(table), None) == Success("DELETE FROM  " + table + " ")
  {
  }

  /** The interpolated UPDATE statement for the table, the SET assignments
      joined by commas (`sets`) and the WHERE clause. */
  function UpdateText(table: string, sets: string, where: string): string {
    "UPDATE " + table + " SET " + sets + (" " + where)
  }

  /** The table and the SET assignments follow the keywords, the WHERE
      clause ends the statement, and the statement holds a brace exactly
      when one of them does. */
  lemma UpdateTextShape(table: string, sets: string, where: string)
    ensures var r := UpdateText(table, sets, where);
      && "UPDATE " + table + " SET " + sets <= r
      && |r| >= |where| && r[|r| - |where|..] == where
      && (NoBraces(r) <==> NoBraces(table) && NoBraces(sets) && NoBraces(where))
  {
  }

  /** `BuildUpdate(updateTable, setCol, whereCol)`, as written: a null or
      empty table or an empty SET dictionary raises ArgumentException, a
      null one NullReferenceException, and the text goes through
      `string.Format`. */
  function BuildUpdate(esc: string -> string, table: Option<string>, setCols: Option<Columns>, wh: Option<Columns>): (r: Result<string>)
    ensures NullOrEmpty(table) ==> r == Failure(ArgumentException)
    ensures !NullOrEmpty(table) && setCols.None? ==> r == Failure(NullReferenceException)
    ensures !NullOrEmpty(table) && setCols == Some([]) ==> r == Failure(ArgumentException)
    ensures !NullOrEmpty(table) && setCols.Some? && setCols.value != [] ==>
              r == FormatNoArgs(UpdateText(table.value, Join(", ", Assignments(esc, setCols.value)), WhereClause(esc, wh)))
  {
    if NullOrEmpty(table) then Failure(ArgumentException)
    else if setCols.None? then Failure(NullReferenceException)
    else if setCols.value == [] then Failure(ArgumentException)
    else FormatNoArgs(UpdateText(table.value, Join(", ", Assignments(esc, setCols.value)), WhereClause(esc, wh)))
  }

  /** BuildUpdate returning the interpolated text itself. */
  function BuildUpdateIntended(esc: string -> string, table: Option<string>, setCols: Option<Columns>, wh: Option<Columns>): (r: Result<string>)
    ensures r.Success? <==> !NullOrEmpty(table) && setCols.Some? && setCols.value != []
    ensures r.Success? ==> "UPDATE " + table.value + " SET " <= r.value
  {
    if NullOrEmpty(table) then Failure(ArgumentException)
    else if setCols.None? then Failure(NullReferenceException)
    else if setCols.value == [] then Failure(ArgumentException)
    else Success(UpdateText(table.value, Join(", ", Assignments(esc, setCols.value)), WhereClause(esc, wh)))
  }

  /** The interpolated SELECT statement for the escaped columns joined by
      commas (`columns`), the table and the WHERE clause. */
  function SelectText(columns: string, table: string, where: string): string {
    "SELECT " + columns + " FROM " + table + " " + where
  }

  /** The columns and the table follow the keywords, the WHERE clause ends
      the statement, and the statement holds a brace exactly when one of
      them does. */
  lemma SelectTextShape(columns: string, table: string, where: string)
    ensures var r := SelectText(columns, table, where);
      && "SELECT " + columns + " FROM " + table + " " <= r
      && |r| >= |where| && r[|r| - |where|..] == where
      && (NoBraces(r) <==> NoBraces(columns) && NoBraces(table) && NoBraces(where))
  {
  }

  /** `BuildSelect(selectColumns, fromtable, whereCol_AND)`, as written: a
      null or empty column list, then a null or empty table, raise
      ArgumentException; the text goes through `string.Format`. */
  function BuildSelect(esc: string -> string, names: Option<seq<string>>, table: Option<string>, wh: Option<Columns>): (r: Result<string>)
    ensures names.None? || names.value == [] || NullOrEmpty(table) ==> r == Failure(ArgumentException)
    ensures names.Some? && names.value != [] && !NullOrEmpty(table) ==>
              r == FormatNoArgs(SelectText(Join(", ", Escaped(esc, names.value)), table.value, WhereClause(esc, wh)))
  {
    if names.None? || names.value == [] then Failure(ArgumentException)
    else if NullOrEmpty(table) then Failure(ArgumentException)
    else FormatNoArgs(SelectText(Join(", ", Escaped(esc, names.value)), table.value, WhereClause(esc, wh)))
  }

  /** BuildSelect returning the interpolated text itself. */
  function BuildSelectIntended(esc: string -> string, names: Option<seq<string>>, table: Option<string>, wh: Option<Columns>): (r: Result<string>)
    ensures r.Success? <==> names.Some? && names.value != [] && !NullOrEmpty(table)
    ensures r.Failure? ==> r.error == ArgumentException
    ensures r.Success? ==> "SELECT " <= r.value
  {
    if names.None? || names.value == [] then Failure(ArgumentException)
    else if NullOrEmpty(table) then Failure(ArgumentException)
    else Success(SelectText(Join(", ", Escaped(esc, names.value)), table.value, WhereClause(esc, wh)))
  }

  /** When nothing holds a brace, the builders as written and as intended
      agree. */
  lemma BuildersAgreeWithoutBraces(esc: string -> string, table: string, setCols: Columns,
                                                      names: seq<string>, wh: Option<Columns>)
    requires table != "" && setCols != [] && names != []
    requires NoBraces(DeleteText(table, WhereClause(esc, wh))) && NoBraces(UpdateText(table, Join(", ", Assignments(esc, setCols)), WhereClause(esc, wh)))
    requires NoBraces(SelectText(Join(", ", Escaped(esc, names)), table, WhereClause(esc, wh)))
    ensures BuildDelete(esc, Some(table), wh) == BuildDeleteIntended(esc, Some(table), wh)
    ensures BuildUpdate(esc, Some(table), Some(setCols), wh) == BuildUpdateIntended(esc, Some(table), Some(setCols), wh)
    ensures BuildSelect(esc, Some(names), Some(table), wh) == BuildSelectIntended(esc, Some(names), Some(table), wh)
  {
    FormatWithoutBraces(DeleteText(table, WhereClause(esc, wh)));
    FormatWithoutBraces(UpdateText(table, Join(", ", Assignments(esc, setCols)), WhereClause(esc, wh)));
    FormatWithoutBraces(SelectText(Join(", ", Escaped(esc, names)), table, WhereClause(esc, wh)));
  }

  /** The WHERE clause of a one-entry dictionary. */
  lemma WhereOfOne(esc: string -> string, column: string, v: string)
    ensures WhereClause(esc, Some([(column, v)])) == "WHERE " + esc(column) + " = " + v
  {
    assert Assignments(esc, [(column, v)]) == [esc(column) + " = " + v];
  }

  /** A WHERE value holding a format item, such as `'{0}'`, makes BuildDelete
      raise FormatException, where the intended builder returns the
      statement. */
  lemma BraceInValueBreaksDelete(esc: string -> string, table: string, column: string)
    requires table != "" && NoBraces(table) && NoBraces(esc(column))
    ensures BuildDelete(esc, Some(table), Some([(column, "'{0}'")])).Failure?
    ensures BuildDeleteIntended(esc, Some(table), Some([(column, "'{0}'")])).Success?
  {
    var wh := [(column, "'{0}'")];
    WhereOfOne(esc, column, "'{0}'");
    var a := "DELETE FROM  " + table + " " + "WHERE " + esc(column) + " = '";
    var b := "0}'";
    assert NoBraces(a) by {
      assert NoBraces("DELETE FROM  ") && NoBraces(" WHERE ") && NoBraces(" = '");
    }
    var text := DeleteText(table, WhereClause(esc, Some(wh)));
    assert text == a + "{" + b;
    FormatRejectsFormatItem(a, b);
    assert BuildDelete(esc, Some(table), Some(wh)) == FormatNoArgs(text);
  }
}
