/** The per-record step of `App::import_from_stdin`: one CSV record,
    aligned by position with the column list, becomes one INSERT statement.
    Field text is inserted as it is, without escaping. */
module Formatter {
  import opened Text
  import opened Schema
  import opened Classifier

  /** The statement text: lower-case keywords, the target `db.tb`, the
      names part in parentheses after a space, the values part in
      parentheses directly after `values`, and a closing `;`. */
  function Statement(db: string, tb: string, names: string, values: string): string {
    "insert into " + db + "." + tb + " (" + names + ") values(" + values + ");"
  }

  /** The statement's layout: it opens with the target table and the `(`
      of the names part, holds the names part right there, ends with `);`,
      and adds a fixed 26 characters to its four parts. */
  lemma StatementLayout(db: string, tb: string, names: string, values: string)
    ensures var sql := Statement(db, tb, names, values);
      var head := "insert into " + db + "." + tb + " (";
      && |sql| == |db| + |tb| + |names| + |values| + 26
      && head <= sql
      && sql[|head|..|head| + |names|] == names
      && sql[|sql| - 2..] == ");"
  {
    var head := "insert into " + db + "." + tb + " (";
    var sql := Statement(db, tb, names, values);
    assert sql == head + (names + (") values(" + values + ");"));
  }

  /** Column names, in column order. */
  function NamesOf(cols: seq<Column>): (names: seq<string>)
    ensures |names| == |cols|
    ensures forall i :: 0 <= i < |cols| ==> names[i] == cols[i].name
  {
    if |cols| == 0 then [] else [cols[0].name] + NamesOf(cols[1..])
  }

  /** The SQL literal of each field, paired with the column at the same
      position: wrapped in `'` exactly when that column's type is quoted,
      verbatim otherwise. */
  function LiteralsOf(cols: seq<Column>, rec: seq<string>): (lits: seq<string>)
    requires |rec| <= |cols|
    ensures |lits| == |rec|
    ensures forall i :: 0 <= i < |rec| ==>
      lits[i] == (if IsStr(cols[i].typ) then "'" + rec[i] + "'" else rec[i])
  {
    if |rec| == 0 then []
    else
      var lit := if IsStr(cols[0].typ) then "'" + rec[0] + "'" else rec[0];
      [lit] + LiteralsOf(cols[1..], rec[1..])
  }

  /** The statement for `rec`: the names of the first `|rec|` columns and
      the literals of the fields, each joined by `,`. A record may be
      shorter than the column list; a longer one makes the source panic. */
  function RecordStatement(db: string, tb: string, cols: seq<Column>, rec: seq<string>): (sql: string)
    requires |rec| <= |cols|
    ensures |rec| == 0 ==> sql == "insert into " + db + "." + tb + " () values();"
  {
    Statement(db, tb, Join(NamesOf(cols)[..|rec|], ','), Join(LiteralsOf(cols, rec), ','))
  }

  /** The per-record step as the source writes it: walk the fields with a
      running index, append each column name and (quoted or verbatim)
      field, and append a `,` to both after every field but the last. */
  method FormatRecord(db: string, tb: string, cols: seq<Column>, rec: seq<string>) returns (sql: string)
    requires |rec| <= |cols|
    ensures sql == RecordStatement(db, tb, cols, rec)
  {
    ghost var allNames := NamesOf(cols);
    ghost var allLits := LiteralsOf(cols, rec);
    var names, values := "", "";
    var idx, count := 0, |rec|;
    while idx < count
      invariant 0 <= idx <= count
      invariant names == Join(allNames[..idx], ',') + (if 0 < idx < count then [','] else [])
      invariant values == Join(allLits[..idx], ',') + (if 0 < idx < count then [','] else [])
    {
      var col := cols[idx];
      JoinPrefixStep(names, allNames, idx, count, ',');
      JoinPrefixStep(values, allLits, idx, count, ',');
      names := names + col.name;
      if IsStr(col.typ) {
        values := values + ("'" + rec[idx] + "'");
      } else {
        values := values + rec[idx];
      }
      if idx != count - 1 {
        values := values + [','];
        names := names + [','];
      }
      idx := idx + 1;
    }
    assert allNames[..count] == NamesOf(cols)[..|rec|];
    assert allLits[..count] == allLits;
    sql := Statement(db, tb, names, values);
  }

  /** When no column name and no field holds a `,`, the names part and the
      values part each split back at `,` into exactly one piece per field:
      the column names in column order and the literals in record order. */
  lemma PartsSplitBack(cols: seq<Column>, rec: seq<string>)
    requires 1 <= |rec| <= |cols|
    requires forall i :: 0 <= i < |rec| ==> ',' !in cols[i].name && ',' !in rec[i]
    ensures Split(Join(NamesOf(cols)[..|rec|], ','), ',') == NamesOf(cols)[..|rec|]
    ensures Split(Join(LiteralsOf(cols, rec), ','), ',') == LiteralsOf(cols, rec)
  {
    var lits := LiteralsOf(cols, rec);
    forall i | 0 <= i < |lits|
      ensures ',' !in lits[i]
    {
      if IsStr(cols[i].typ) {
        assert forall k :: 0 <= k < |lits[i]| ==> lits[i][k] == '\'' || lits[i][k] in rec[i];
      }
    }
    SplitJoin(NamesOf(cols)[..|rec|], ',');
    SplitJoin(lits, ',');
  }
}
