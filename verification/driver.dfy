/** The stream step of `App::import_from_stdin`: skip the first item of the
    stream when configured to, then print one line per remaining item of the CSV
    reader's record stream. The reader itself is not modelled; its output
    is the sequence of items. */
module Driver {
  import opened Results
  import Text
  import opened Schema
  import opened Formatter
  import opened Config

  /** One item of the record stream: a parsed record, or the text the
      reader's error displays as. */
  type Item = Result<seq<string>>

  /** `Iterator::skip`: drops the first `n` items, or all of them when
      there are fewer. */
  function Skip<T>(xs: seq<T>, n: nat): (ys: seq<T>)
    ensures |ys| == if n <= |xs| then |xs| - n else 0
    ensures forall i :: 0 <= i < |ys| ==> ys[i] == xs[n + i]
  {
    if n == 0 || |xs| == 0 then xs else Skip(xs[1..], n - 1)
  }

  /** How many leading items are skipped. */
  function HeaderCount(skipHeaders: bool): nat {
    if skipHeaders then 1 else 0
  }

  /** An item the per-record step handles without panicking: an error, or
      a record no longer than the column list. */
  predicate Fits(cols: seq<Column>, item: Item) {
    item.Err? || |item.value| <= |cols|
  }

  /** The line printed for an item that fits. */
  function Line(db: string, tb: string, cols: seq<Column>, item: Item): string
    requires Fits(cols, item)
  {
    match item
    case Ok(rec) => RecordStatement(db, tb, cols, rec)
    case Err(e) => e
  }

  /** An error prints its own text; a record prints an insert statement
      into `db.tb` that names the record's columns and ends with `);`. */
  lemma LineOfItem(db: string, tb: string, cols: seq<Column>, item: Item)
    requires Fits(cols, item)
    ensures item.Err? ==> Line(db, tb, cols, item) == item.error
    ensures item.Ok? ==> "insert into " + db + "." + tb + " (" <= Line(db, tb, cols, item)
    ensures item.Ok? ==> Line(db, tb, cols, item)[|Line(db, tb, cols, item)| - 2..] == ");"
  {
    if item.Ok? {
      var rec := item.value;
      StatementLayout(db, tb, Text.Join(NamesOf(cols)[..|rec|], ','), Text.Join(LiteralsOf(cols, rec), ','));
    }
  }

  /** What a run prints, and whether it ended in the panic an over-long
      record causes (the process stops; earlier lines are already out). */
  datatype Run = Run(lines: seq<string>, panicked: bool)

  /** Emitting a stream: one line per item, in order, until the first item
      that does not fit. An error item prints its text and the stream goes
      on. */
  function Emit(db: string, tb: string, cols: seq<Column>, items: seq<Item>): (run: Run)
    ensures |run.lines| <= |items|
    ensures run.panicked ==> |run.lines| < |items| && !Fits(cols, items[|run.lines|])
    ensures !run.panicked ==> |run.lines| == |items|
  {
    if |items| == 0 then Run([], false)
    else if !Fits(cols, items[0]) then Run([], true)
    else
      var rest := Emit(db, tb, cols, items[1..]);
      Run([Line(db, tb, cols, items[0])] + rest.lines, rest.panicked)
  }

  /** Every emitted line is the line of the item at the same position, and
      every item before the stopping point fits. */
  lemma {:induction false} EmitLines(db: string, tb: string, cols: seq<Column>, items: seq<Item>)
    ensures var run := Emit(db, tb, cols, items);
      forall i :: 0 <= i < |run.lines| ==>
        Fits(cols, items[i]) && run.lines[i] == Line(db, tb, cols, items[i])
  {
    if |items| > 0 && Fits(cols, items[0]) {
      EmitLines(db, tb, cols, items[1..]);
      var run := Emit(db, tb, cols, items);
      var rest := Emit(db, tb, cols, items[1..]);
      assert run.lines == [Line(db, tb, cols, items[0])] + rest.lines;
      forall i | 1 <= i < |run.lines|
        ensures Fits(cols, items[i]) && run.lines[i] == Line(db, tb, cols, items[i])
      {
        assert run.lines[i] == rest.lines[i - 1];
        assert items[i] == items[1..][i - 1];
      }
    }
  }

  /** The driver's output law: the first `HeaderCount` items are dropped
      whatever they are; each later item yields exactly one line, in order,
      the statement for a record and the error text for an error; only an
      over-long record stops the run, and a stopped run has printed the line
      of every item before that record. */
  function Output(args: Args, cols: seq<Column>, items: seq<Item>): (run: Run)
    ensures var k := HeaderCount(args.skipHeaders);
      forall i :: 0 <= i < |run.lines| ==>
        k + i < |items| && Fits(cols, items[k + i])
        && run.lines[i] == Line(args.db, args.tb, cols, items[k + i])
    ensures var k := HeaderCount(args.skipHeaders);
      !run.panicked <==> forall i :: k <= i < |items| ==> Fits(cols, items[i])
    ensures var k := HeaderCount(args.skipHeaders);
      !run.panicked ==> |run.lines| == if k <= |items| then |items| - k else 0
    ensures var k := HeaderCount(args.skipHeaders);
      run.panicked ==> k + |run.lines| < |items| && !Fits(cols, items[k + |run.lines|])
  {
    var k := HeaderCount(args.skipHeaders);
    var rest := Skip(items, k);
    assert forall i :: k <= i < |items| ==> items[i] == rest[i - k];
    EmitLines(args.db, args.tb, cols, rest);
    Emit(args.db, args.tb, cols, rest)
  }

  /** The stream step as the source writes it: skip, then handle each item
      in turn, stopping only when a record is longer than the column list. */
  method ImportFromStdin(args: Args, cols: seq<Column>, items: seq<Item>)
    returns (lines: seq<string>, panicked: bool)
    ensures Run(lines, panicked) == Output(args, cols, items)
  {
    var skip := if args.skipHeaders then 1 else 0;
    var start := if skip <= |items| then skip else |items|;
    ghost var rest := items[start..];
    assert rest == Skip(items, HeaderCount(args.skipHeaders));
    var i := start;
    lines, panicked := [], false;
    while i < |items| && !panicked
      invariant start <= i <= |items|
      invariant !panicked ==> Emit(args.db, args.tb, cols, rest[..i - start]) == Run(lines, false)
      invariant panicked ==> Emit(args.db, args.tb, cols, rest) == Run(lines, true)
      decreases |items| - i, if panicked then 0 else 1
    {
      assert rest[i - start] == items[i];
      var line, handled := HandleItem(args.db, args.tb, cols, items[i]);
      if handled {
        EmitSnoc(args.db, args.tb, cols, rest[..i - start], items[i]);
        assert rest[..i - start] + [items[i]] == rest[..i + 1 - start];
        lines := lines + [line];
        i := i + 1;
      } else {
        EmitStops(args.db, args.tb, cols, rest, i - start);
        panicked := true;
      }
    }
    assert !panicked ==> rest[..i - start] == rest;
  }

  /** The body of the per-item closure: the line to print, or `false` when
      the record is longer than the column list and the closure panics. */
  method HandleItem(db: string, tb: string, cols: seq<Column>, item: Item)
    returns (line: string, handled: bool)
    ensures handled <==> Fits(cols, item)
    ensures handled ==> line == Line(db, tb, cols, item)
  {
    match item {
      case Ok(record) =>
        if |record| > |cols| {
          line, handled := "", false;
        } else {
          line := FormatRecord(db, tb, cols, record);
          handled := true;
        }
      case Err(e) =>
        line, handled := e, true;
    }
  }

  /** Emitting one more item after a prefix that did not stop the run:
      its line is appended, or the run stops there. */
  lemma EmitSnoc(db: string, tb: string, cols: seq<Column>, prefix: seq<Item>, item: Item)
    requires !Emit(db, tb, cols, prefix).panicked
    ensures Fits(cols, item) ==>
      Emit(db, tb, cols, prefix + [item]) == Run(Emit(db, tb, cols, prefix).lines + [Line(db, tb, cols, item)], false)
    ensures !Fits(cols, item) ==>
      Emit(db, tb, cols, prefix + [item]) == Run(Emit(db, tb, cols, prefix).lines, true)
  {
    EmitAppend(db, tb, cols, prefix, [item]);
    if Fits(cols, item) {
      EmitCons(db, tb, cols, [item]);
      assert [item][1..] == [];
    } else {
      assert Emit(db, tb, cols, prefix).lines + [] == Emit(db, tb, cols, prefix).lines;
    }
  }

  /** The run stops at the first item that does not fit, with the lines of
      the items before it. */
  lemma EmitStops(db: string, tb: string, cols: seq<Column>, items: seq<Item>, j: nat)
    requires j < |items| && !Fits(cols, items[j])
    requires !Emit(db, tb, cols, items[..j]).panicked
    ensures Emit(db, tb, cols, items) == Run(Emit(db, tb, cols, items[..j]).lines, true)
  {
    assert items == items[..j] + items[j..];
    EmitAppend(db, tb, cols, items[..j], items[j..]);
    assert items[j..][0] == items[j];
  }

  /** Emitting from position `i`: nothing but the panic when the item there
      does not fit, otherwise its line followed by the rest. */
  lemma EmitAt(db: string, tb: string, cols: seq<Column>, items: seq<Item>, i: nat)
    requires i < |items|
    ensures !Fits(cols, items[i]) ==> Emit(db, tb, cols, items[i..]) == Run([], true)
    ensures Fits(cols, items[i]) ==>
      Emit(db, tb, cols, items[i..])
        == Run([Line(db, tb, cols, items[i])] + Emit(db, tb, cols, items[i + 1..]).lines,
               Emit(db, tb, cols, items[i + 1..]).panicked)
  {
    assert items[i..][0] == items[i];
    assert items[i..][1..] == items[i + 1..];
  }

  /** Emitting a stream whose first item fits: that item's line, then
      the rest of the stream. */
  lemma EmitCons(db: string, tb: string, cols: seq<Column>, items: seq<Item>)
    requires |items| > 0 && Fits(cols, items[0])
    ensures Emit(db, tb, cols, items)
      == Run([Line(db, tb, cols, items[0])] + Emit(db, tb, cols, items[1..]).lines,
             Emit(db, tb, cols, items[1..]).panicked)
  {
  }

  /** Emitting a concatenation emits the parts in turn when the first part
      does not stop the run. */
  lemma {:induction false} EmitAppend(db: string, tb: string, cols: seq<Column>, a: seq<Item>, b: seq<Item>)
    requires !Emit(db, tb, cols, a).panicked
    ensures Emit(db, tb, cols, a + b)
      == Run(Emit(db, tb, cols, a).lines + Emit(db, tb, cols, b).lines, Emit(db, tb, cols, b).panicked)
  {
    if |a| > 0 {
      assert Fits(cols, a[0]);
      assert (a + b)[0] == a[0] && (a + b)[1..] == a[1..] + b;
      EmitCons(db, tb, cols, a);
      EmitCons(db, tb, cols, a + b);
      EmitAppend(db, tb, cols, a[1..], b);
    } else {
      assert a + b == b;
    }
  }

  /** A reader error prints its text and the items after it are handled
      exactly as if it had not been there, apart from that line. */
  lemma ErrorDoesNotStop(db: string, tb: string, cols: seq<Column>, e: string, before: seq<Item>, after: seq<Item>)
    requires !Emit(db, tb, cols, before).panicked
    ensures Emit(db, tb, cols, before + [Err(e)] + after)
      == Run(Emit(db, tb, cols, before).lines + [e] + Emit(db, tb, cols, after).lines,
             Emit(db, tb, cols, after).panicked)
  {
    EmitAppend(db, tb, cols, before, [Err(e)] + after);
    assert before + [Err(e)] + after == before + ([Err(e)] + after);
  }

  /** Header skipping drops exactly the first item: with it on, the output
      is the output of the same run, with it off, on the stream without its
      first item. */
  lemma HeaderSkipLaw(args: Args, cols: seq<Column>, items: seq<Item>)
    requires |items| >= 1
    ensures Output(args.(skipHeaders := true), cols, items)
      == Output(args.(skipHeaders := false), cols, items[1..])
  {
  }
}
