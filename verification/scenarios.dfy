/** Worked cases of the per-record step and of a whole run, on a table
    with an `int` column and a `varchar` column. */
module Scenarios {
  import opened Results
  import opened Text
  import opened Schema
  import opened Classifier
  import opened Formatter
  import opened Config
  import opened Driver

  /** The two columns of the scenarios. */
  const UsersColumns := [Column("id", "int"), Column("name", "varchar")]

  /** The statement expected for a full record of `test.users`. */
  function UsersLine(id: string, name: string): string {
    Statement("test", "users", "id,name", id + ",'" + name + "'")
  }

  /** An `int` field is written verbatim and a `varchar` field in quotes,
      whatever their text. */
  lemma UsersLiterals(id: string, name: string)
    ensures LiteralsOf(UsersColumns, [id, name]) == [id, "'" + name + "'"]
  {
    IsStrOtherNames();
  }

  /** The names part of a full record. */
  lemma UsersNames()
    ensures Join(NamesOf(UsersColumns)[..2], ',') == "id,name"
  {
    assert NamesOf(UsersColumns)[..2] == ["id", "name"];
  }

  /** Two pieces joined by a comma. */
  lemma JoinPair(a: string, b: string)
    ensures Join([a, b], ',') == a + "," + b
  {
  }

  /** The statement of a full record, for any field text. */
  lemma UsersStatement(id: string, name: string)
    ensures RecordStatement("test", "users", UsersColumns, [id, name]) == UsersLine(id, name)
  {
    UsersLiterals(id, name);
    UsersNames();
    JoinPair(id, "'" + name + "'");
    assert id + "," + ("'" + name + "'") == id + ",'" + name + "'";
  }

  /** A record shorter than the column list names only its own columns. */
  lemma UsersShortRecord(id: string)
    ensures RecordStatement("test", "users", UsersColumns, [id]) == Statement("test", "users", "id", id)
  {
    IsStrOtherNames();
    assert NamesOf(UsersColumns)[..1] == ["id"];
    assert LiteralsOf(UsersColumns, [id]) == [id];
  }

  /** A record, a reader error, and another record: three lines. */
  lemma UsersBody(items: seq<Item>, id1: string, name1: string, e: string, id2: string, name2: string)
    requires items == [Ok([id1, name1]), Err(e), Ok([id2, name2])]
    ensures Emit("test", "users", UsersColumns, items)
      == Run([UsersLine(id1, name1), e, UsersLine(id2, name2)], false)
  {
    UsersStatement(id1, name1);
    UsersStatement(id2, name2);
    assert items[3..] == [];
    EmitAt("test", "users", UsersColumns, items, 2);
    EmitAt("test", "users", UsersColumns, items, 1);
    EmitAt("test", "users", UsersColumns, items, 0);
  }

  /** With header skipping on, the first item of the stream is dropped,
      whatever it is. The reader has already taken the CSV's first line
      as its header, so that item is the first data record (Alice's); a
      reader error then prints its text, and the records after it are
      still written. */
  lemma UsersRun(items: seq<Item>)
    requires items == [Ok(["1", "Alice"]), Ok(["2", "Bob"]), Err("bad record"), Ok(["3", "Carol"])]
    ensures Output(Args("localhost", "3306", "root", "", "test", "users", true), UsersColumns, items)
      == Run([UsersLine("2", "Bob"), "bad record", UsersLine("3", "Carol")], false)
  {
    assert Skip(items, 1) == items[1..];
    UsersBody(items[1..], "2", "Bob", "bad record", "3", "Carol");
  }

  /** A record with more fields than the table has columns stops the run:
      the lines before it are out, and nothing after it is printed. */
  lemma UsersOverlong(items: seq<Item>, id1: string, name1: string, extra: seq<string>, later: seq<Item>)
    requires |extra| == 3
    requires items == [Ok([id1, name1]), Ok(extra)] + later
    ensures Emit("test", "users", UsersColumns, items) == Run([UsersLine(id1, name1)], true)
  {
    UsersStatement(id1, name1);
    EmitAt("test", "users", UsersColumns, items, 1);
    EmitAt("test", "users", UsersColumns, items, 0);
  }
}
