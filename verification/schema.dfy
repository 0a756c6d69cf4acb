/** The per-row closure of `App::parse_statement`: the column list the
    generator aligns CSV fields with, derived from the rows of a `desc`
    query. The query itself and the rendering of its cells are foreign
    calls; the model starts from the rendered text. */
module Schema {
  import opened Results
  import opened Text

  /** One `desc` row after rendering: `name` is the first cell as
      `as_sql(true)` renders it, `typ` the second cell as `as_sql(false)`
      renders it (a quoted literal such as `'varchar(255)'`). */
  datatype DescRow = DescRow(name: string, typ: string)

  /** A column descriptor: normalised name and type. */
  datatype Column = Column(name: string, typ: string)

  /** The slice `s[1..end]` taken when the rendered type holds a `(` is
      defined only when that first `(` is not at index 0; otherwise the
      source panics. */
  predicate TypeSliceDefined(rendered: string) {
    |rendered| == 0 || rendered[0] != '('
  }

  /** The part of a rendered type kept before trimming: from index 1 up
      to the first `(` when there is one, the whole text otherwise. */
  function TypePrefix(rendered: string): (cut: string)
    requires TypeSliceDefined(rendered)
    ensures '(' !in cut
  {
    match Find(rendered, '(')
    case None => rendered
    case Some(p) =>
      assert forall k :: 0 <= k < p - 1 ==> rendered[1..p][k] == rendered[..p][k + 1];
      rendered[1..p]
  }

  /** Type normalisation: the kept part with `'` trimmed from both ends. */
  function NormalizeType(rendered: string): (t: string)
    requires TypeSliceDefined(rendered)
    ensures '(' !in t
    ensures t == [] || (t[0] != '\'' && t[|t| - 1] != '\'')
  {
    var cut := TypePrefix(rendered);
    TrimKeepsAbsent(cut, '\'', '(');
    TrimMatches(cut, '\'')
  }

  /** With a `(` whose first occurrence is at `p`, the type is the trim of
      the characters strictly between index 0 and `p`. */
  lemma NormalizeTypeWithParen(rendered: string, p: nat)
    requires 1 <= p < |rendered| && rendered[p] == '(' && '(' !in rendered[..p]
    ensures NormalizeType(rendered) == TrimMatches(rendered[1..p], '\'')
  {
    FindFirst(rendered, '(', p);
  }

  /** Without a `(`, the type is the rendered text with `'` trimmed. */
  lemma NormalizeTypeWithoutParen(rendered: string)
    requires '(' !in rendered
    ensures NormalizeType(rendered) == TrimMatches(rendered, '\'')
  {
  }

  /** Normalising a normalised type changes nothing. */
  lemma NormalizeTypeIdempotent(rendered: string)
    requires TypeSliceDefined(rendered)
    ensures TypeSliceDefined(NormalizeType(rendered))
    ensures NormalizeType(NormalizeType(rendered)) == NormalizeType(rendered)
  {
    var t := NormalizeType(rendered);
    TrimFixpoint(t, '\'');
  }

  /** Normalisation undoes the quoting of a rendered type: for a base type
      name `base` (no `(`, no `'` at either end), both `'base'` and
      `'base(args)'` normalise to `base`. */
  lemma NormalizeTypeUnquotes(base: string, args: string)
    requires '(' !in base
    requires base == [] || (base[0] != '\'' && base[|base| - 1] != '\'')
    ensures NormalizeType(['\''] + base + ['\'']) == base
    ensures NormalizeType(['\''] + base + ['('] + args + [')', '\'']) == base
  {
    UnquotePlain(base);
    UnquoteSized(base, args);
  }

  /** `'base'` normalises to `base`. */
  lemma UnquotePlain(base: string)
    requires '(' !in base
    requires base == [] || (base[0] != '\'' && base[|base| - 1] != '\'')
    ensures NormalizeType(['\''] + base + ['\'']) == base
  {
    var plain := ['\''] + base + ['\''];
    assert '(' !in plain by {
      assert forall k :: 0 <= k < |plain| ==> plain[k] == '\'' || plain[k] in base;
    }
    assert plain[1..1 + |base|] == base;
    TrimUnique(plain, '\'', base, 1);
    NormalizeTypeWithoutParen(plain);
  }

  /** `'base(args)'` normalises to `base`. */
  lemma UnquoteSized(base: string, args: string)
    requires '(' !in base
    requires base == [] || (base[0] != '\'' && base[|base| - 1] != '\'')
    ensures NormalizeType(['\''] + base + ['('] + args + [')', '\'']) == base
  {
    var sized := ['\''] + base + ['('] + args + [')', '\''];
    var p := |base| + 1;
    assert sized[p] == '(';
    assert sized[..p] == ['\''] + base;
    assert sized[1..p] == base;
    NormalizeTypeWithParen(sized, p);
    TrimFixpoint(base, '\'');
  }

  /** Name normalisation: every `'` becomes a backtick. */
  function NormalizeName(rendered: string): (n: string)
    ensures |n| == |rendered|
    ensures '\'' !in n
    ensures forall k :: 0 <= k < |n| ==> n[k] == (if rendered[k] == '\'' then '`' else rendered[k])
  {
    Replace(rendered, '\'', '`')
  }

  /** The closure applied to one `desc` row: the name keeps its length and
      loses every `'`; the type loses its size suffix and its quotes. */
  function NormalizeColumn(row: DescRow): (col: Column)
    requires TypeSliceDefined(row.typ)
    ensures |col.name| == |row.name| && '\'' !in col.name
    ensures '(' !in col.typ
    ensures col.typ == [] || (col.typ[0] != '\'' && col.typ[|col.typ| - 1] != '\'')
  {
    Column(NormalizeName(row.name), NormalizeType(row.typ))
  }

  /** A quoted name comes out between backticks. */
  lemma NormalizeNameUnquotes(name: string)
    requires '\'' !in name
    ensures NormalizeName(['\''] + name + ['\'']) == ['`'] + name + ['`']
  {
    var quoted := ['\''] + name + ['\''];
    var n := NormalizeName(quoted);
    assert forall k :: 0 < k < |quoted| - 1 ==> quoted[k] == name[k - 1];
    assert forall k :: 0 < k < |n| - 1 ==> n[k] == name[k - 1];
  }

  /** Normalisation undoes the rendering of a `desc` row: a quoted name
      becomes the same name between backticks, and a quoted sized type
      becomes its base name. */
  lemma NormalizeColumnUnquotes(name: string, base: string, args: string)
    requires '\'' !in name
    requires '(' !in base
    requires base == [] || (base[0] != '\'' && base[|base| - 1] != '\'')
    ensures NormalizeColumn(DescRow(['\''] + name + ['\''], ['\''] + base + ['('] + args + [')', '\'']))
      == Column(['`'] + name + ['`'], base)
  {
    NormalizeTypeUnquotes(base, args);
    NormalizeNameUnquotes(name);
  }

  /** `iter().map(f).collect()`: `f` applied to each element, in order. */
  method MapCollect<A, B>(xs: seq<A>, f: A --> B) returns (ys: seq<B>)
    requires forall i :: 0 <= i < |xs| ==> f.requires(xs[i])
    ensures |ys| == |xs|
    ensures forall i :: 0 <= i < |xs| ==> ys[i] == f(xs[i])
  {
    ys := [];
    for i := 0 to |xs|
      invariant |ys| == i
      invariant forall j :: 0 <= j < i ==> ys[j] == f(xs[j])
    {
      ys := ys + [f(xs[i])];
    }
  }

  /** The column list `parse_statement` collects: one descriptor per `desc`
      row, in the rows' order. */
  method ParseStatement(rows: seq<DescRow>) returns (cols: seq<Column>)
    requires forall i :: 0 <= i < |rows| ==> TypeSliceDefined(rows[i].typ)
    ensures |cols| == |rows|
    ensures forall i :: 0 <= i < |rows| ==> cols[i] == NormalizeColumn(rows[i])
  {
    cols := MapCollect(rows, NormalizeColumn);
  }
}
