/** The string primitives the generator is built from, each modelled on the
    Rust `str`/`String` method it stands for: `find`, `trim_matches`,
    `replace`, and joining pieces with a separator. Strings are sequences of
    characters. */
module Text {
  import opened Results

  /** Index of the first `c` in `s`, as `str::find` with a char pattern. */
  function Find(s: string, c: char): (r: Option<nat>)
    ensures r.None? <==> c !in s
    ensures r.Some? ==> r.value < |s| && s[r.value] == c && c !in s[..r.value]
  {
    if |s| == 0 then None
    else if s[0] == c then Some(0)
    else
      match Find(s[1..], c)
      case None => None
      case Some(i) =>
        assert s[..i + 1] == [s[0]] + s[1..][..i];
        Some(i + 1)
  }

  /** `Find` reports the first occurrence. */
  lemma FindFirst(s: string, c: char, p: nat)
    requires p < |s| && s[p] == c && c !in s[..p]
    ensures Find(s, c) == Some(p)
  {
    var f := Find(s, c);
    assert forall k :: 0 <= k < p ==> s[k] == s[..p][k];
    assert forall k :: 0 <= k < f.value ==> s[k] == s[..f.value][k];
  }

  /** `s` without its leading run of `c`. */
  function TrimStart(s: string, c: char): (r: string)
    ensures |r| <= |s| && r == s[|s| - |r|..]
    ensures forall k :: 0 <= k < |s| - |r| ==> s[k] == c
    ensures r == [] || r[0] != c
  {
    if |s| > 0 && s[0] == c then TrimStart(s[1..], c) else s
  }

  /** `s` without its trailing run of `c`. */
  function TrimEnd(s: string, c: char): (r: string)
    ensures |r| <= |s| && r == s[..|r|]
    ensures forall k :: |r| <= k < |s| ==> s[k] == c
    ensures r == [] || r[|r| - 1] != c
  {
    if |s| > 0 && s[|s| - 1] == c then TrimEnd(s[..|s| - 1], c) else s
  }

  /** Declarative reading of trimming `c` from both ends of `s`: `r` is the
      slice of `s` that starts at `i`, everything outside it is `c`, and `r`
      neither starts nor ends with `c`. */
  ghost predicate IsTrim(s: string, c: char, r: string, i: nat) {
    && i + |r| <= |s|
    && r == s[i..i + |r|]
    && (forall k :: 0 <= k < i ==> s[k] == c)
    && (forall k :: i + |r| <= k < |s| ==> s[k] == c)
    && (r == [] || (r[0] != c && r[|r| - 1] != c))
  }

  /** `str::trim_matches` with a char pattern: strips every leading and
      every trailing `c`. */
  function TrimMatches(s: string, c: char): (r: string)
    ensures IsTrim(s, c, r, |s| - |TrimStart(s, c)|)
  {
    var t := TrimStart(s, c);
    var r := TrimEnd(t, c);
    TrimBothEnds(s, c, t, r);
    r
  }

  /** Removing a run of `c` from the front (leaving `t`) and then a run of
      `c` from the back (leaving `r`) yields a trim of `s`. */
  lemma TrimBothEnds(s: string, c: char, t: string, r: string)
    requires |t| <= |s| && t == s[|s| - |t|..]
    requires forall k :: 0 <= k < |s| - |t| ==> s[k] == c
    requires t == [] || t[0] != c
    requires |r| <= |t| && r == t[..|r|]
    requires forall k :: |r| <= k < |t| ==> t[k] == c
    requires r == [] || r[|r| - 1] != c
    ensures IsTrim(s, c, r, |s| - |t|)
  {
    var i := |s| - |t|;
    assert r == s[i..i + |r|];
    forall k | i + |r| <= k < |s|
      ensures s[k] == c
    {
      assert t[k - i] == c;
    }
  }

  /** Trimming adds no character: one absent from `s` is absent from its
      trim. */
  lemma TrimKeepsAbsent(s: string, c: char, x: char)
    requires x !in s
    ensures x !in TrimMatches(s, c)
  {
    var r := TrimMatches(s, c);
    var i := |s| - |TrimStart(s, c)|;
    forall k | 0 <= k < |r|
      ensures r[k] != x
    {
      assert r[k] == s[i + k];
    }
  }

  /** A trim is empty exactly when `s` consists of `c` alone. */
  lemma TrimEmptyIffAll(s: string, c: char, r: string, i: nat)
    requires IsTrim(s, c, r, i)
    ensures r == [] <==> forall k :: 0 <= k < |s| ==> s[k] == c
  {
    if r != [] {
      assert s[i] == r[0];
    }
  }

  /** At most one string is a trim of `s`: any `r` meeting the declarative
      reading is the one `TrimMatches` computes. */
  lemma TrimUnique(s: string, c: char, r: string, i: nat)
    requires IsTrim(s, c, r, i)
    ensures r == TrimMatches(s, c)
  {
    var t := TrimMatches(s, c);
    var j := |s| - |TrimStart(s, c)|;
    TrimEmptyIffAll(s, c, r, i);
    TrimEmptyIffAll(s, c, t, j);
    if r != [] {
      assert s[i] == r[0] && s[j] == t[0];
      assert i == j;
      assert s[i + |r| - 1] == r[|r| - 1] && s[j + |t| - 1] == t[|t| - 1];
      assert |r| == |t|;
    }
  }

  /** A string that neither starts nor ends with `c` is left unchanged. */
  lemma TrimFixpoint(s: string, c: char)
    requires s == [] || (s[0] != c && s[|s| - 1] != c)
    ensures TrimMatches(s, c) == s
  {
    assert s[0..|s|] == s;
    TrimUnique(s, c, s, 0);
  }

  /** Trimming twice is trimming once. */
  lemma TrimIdempotent(s: string, c: char)
    ensures TrimMatches(TrimMatches(s, c), c) == TrimMatches(s, c)
  {
    TrimFixpoint(TrimMatches(s, c), c);
  }

  /** `str::replace` with single-character pattern and replacement. */
  function Replace(s: string, from: char, to: char): (r: string)
    ensures |r| == |s|
    ensures forall k :: 0 <= k < |s| ==> r[k] == (if s[k] == from then to else s[k])
  {
    if |s| == 0 then ""
    else [if s[0] == from then to else s[0]] + Replace(s[1..], from, to)
  }

  /** The pieces `xs` with `sep` between neighbours: no separator before the
      first piece or after the last. */
  function Join(xs: seq<string>, sep: char): string {
    if |xs| == 0 then ""
    else if |xs| == 1 then xs[0]
    else xs[0] + [sep] + Join(xs[1..], sep)
  }

  /** Appending a piece appends one separator and that piece. */
  lemma {:induction false} JoinSnoc(xs: seq<string>, y: string, sep: char)
    ensures Join(xs + [y], sep) == if |xs| == 0 then y else Join(xs, sep) + [sep] + y
  {
    if |xs| == 0 {
      assert xs + [y] == [y];
    } else if |xs| == 1 {
      assert (xs + [y])[1..] == [y];
    } else {
      assert (xs + [y])[1..] == xs[1..] + [y];
      JoinSnoc(xs[1..], y, sep);
    }
  }

  /** A text that holds the join of `xs` followed by a separator (none
      when `xs` is empty) becomes the join of `xs + [y]` once `y` is
      appended. */
  lemma JoinStep(acc: string, xs: seq<string>, y: string, sep: char)
    requires acc == Join(xs, sep) + (if |xs| > 0 then [sep] else [])
    ensures acc + y == Join(xs + [y], sep)
  {
    JoinSnoc(xs, y, sep);
  }

  /** One step of joining `xs[..count]` piece by piece: appending piece
      `k`, and a separator unless it is the last, to the join of the
      earlier pieces (followed by a separator when there are any). */
  lemma JoinPrefixStep(acc: string, xs: seq<string>, k: nat, count: nat, sep: char)
    requires k < count <= |xs|
    requires acc == Join(xs[..k], sep) + (if 0 < k then [sep] else [])
    ensures acc + xs[k] + (if k != count - 1 then [sep] else [])
      == Join(xs[..k + 1], sep) + (if 0 < k + 1 < count then [sep] else [])
  {
    JoinStep(acc, xs[..k], xs[k], sep);
    assert xs[..k] + [xs[k]] == xs[..k + 1];
  }

  /** The pieces of `s` between occurrences of `sep` (there is always at
      least one piece); the inverse of `Join`. */
  function Split(s: string, sep: char): (r: seq<string>)
    ensures |r| >= 1
    ensures forall k :: 0 <= k < |r| ==> sep !in r[k]
    ensures Join(r, sep) == s
    decreases |s|
  {
    match Find(s, sep)
    case None => [s]
    case Some(p) =>
      var rest := Split(s[p + 1..], sep);
      assert s == s[..p] + [sep] + s[p + 1..];
      [s[..p]] + rest
  }

  /** Splitting a join recovers the pieces when no piece holds the
      separator: the joined text has exactly `|xs|` separated parts. */
  lemma {:induction false} SplitJoin(xs: seq<string>, sep: char)
    requires |xs| >= 1
    requires forall k :: 0 <= k < |xs| ==> sep !in xs[k]
    ensures Split(Join(xs, sep), sep) == xs
  {
    if |xs| > 1 {
      var s := Join(xs, sep);
      assert s == xs[0] + [sep] + Join(xs[1..], sep);
      assert s[..|xs[0]|] == xs[0];
      assert s[|xs[0]|] == sep;
      assert Find(s, sep) == Some(|xs[0]|);
      assert s[|xs[0]| + 1..] == Join(xs[1..], sep);
      SplitJoin(xs[1..], sep);
    }
  }
}
