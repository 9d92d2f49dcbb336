/** publishedCursorPredicate: the SQL condition "strictly after the cursor", with positional
    arguments and three-valued logic.
    A cell is NULL or its rank in the sort order of its column; MySQL sorts NULL lowest. */
module KeysetPredicate {
  import opened Wrappers

  type Cell = Option<int>

  /** Truth values of SQL. */
  datatype Truth = Yes | No | Unknown

  /** A condition over the order columns; Equal, Less and Greater hold one placeholder each. */
  datatype Cond =
    | Equal(column: nat)      // column <=> ?
    | Less(column: nat)       // column < ?
    | Greater(column: nat)    // column > ?
    | IsNull(column: nat)
    | IsNotNull(column: nat)
    | And(parts: seq<Cond>)
    | Or(parts: seq<Cond>)

  /** Number of placeholders in the text of a condition. */
  function Marks(c: Cond): nat
    decreases c, 1
  {
    match c
    case Equal(_) | Less(_) | Greater(_) => 1
    case IsNull(_) | IsNotNull(_) => 0
    case And(parts) => MarksOf(parts)
    case Or(parts) => MarksOf(parts)
  }

  function MarksOf(parts: seq<Cond>): nat
    decreases parts, 0
  {
    if parts == [] then 0 else MarksOf(parts[..|parts| - 1]) + Marks(parts[|parts| - 1])
  }

  predicate Over(c: Cond, columns: nat)
    decreases c, 1
  {
    match c
    case And(parts) => forall p :: p in parts ==> Over(p, columns)
    case Or(parts) => forall p :: p in parts ==> Over(p, columns)
    case _ => c.column < columns
  }

  function Test(b: bool): Truth { if b then Yes else No }

  function Both(a: Truth, b: Truth): Truth {
    if a == No || b == No then No else if a == Yes && b == Yes then Yes else Unknown
  }

  function Either(a: Truth, b: Truth): Truth {
    if a == Yes || b == Yes then Yes else if a == No && b == No then No else Unknown
  }

  /** The value of a condition on a row; its placeholders take the arguments from position `at` on. */
  function Eval(c: Cond, row: seq<Cell>, args: seq<Cell>, at: nat): Truth
    requires Over(c, |row|) && at + Marks(c) <= |args|
    decreases c, 1
  {
    match c
    case Equal(k) => Test(row[k] == args[at])
    case Less(k) => if row[k].None? || args[at].None? then Unknown else Test(row[k].value < args[at].value)
    case Greater(k) => if row[k].None? || args[at].None? then Unknown else Test(row[k].value > args[at].value)
    case IsNull(k) => Test(row[k].None?)
    case IsNotNull(k) => Test(row[k].Some?)
    case And(parts) => EvalAnd(parts, row, args, at)
    case Or(parts) => EvalOr(parts, row, args, at)
  }

  function EvalAnd(parts: seq<Cond>, row: seq<Cell>, args: seq<Cell>, at: nat): Truth
    requires (forall p :: p in parts ==> Over(p, |row|)) && at + MarksOf(parts) <= |args|
    decreases parts, 0
  {
    if parts == [] then Yes
    else
      var front := parts[..|parts| - 1];
      Both(EvalAnd(front, row, args, at), Eval(parts[|parts| - 1], row, args, at + MarksOf(front)))
  }

  function EvalOr(parts: seq<Cond>, row: seq<Cell>, args: seq<Cell>, at: nat): Truth
    requires (forall p :: p in parts ==> Over(p, |row|)) && at + MarksOf(parts) <= |args|
    decreases parts, 0
  {
    if parts == [] then No
    else
      var front := parts[..|parts| - 1];
      Either(EvalOr(front, row, args, at), Eval(parts[|parts| - 1], row, args, at + MarksOf(front)))
  }

  // ---- the generated condition ----

  /** `descending[i]` is the direction of the i-th order column. */
  function Prefix(i: nat): (p: seq<Cond>)
    ensures |p| == i && forall j :: 0 <= j < i ==> p[j] == Equal(j)
  {
    seq(i, j requires 0 <= j < i => Equal(j))
  }

  predicate Skipped(descending: seq<bool>, values: seq<Cell>, i: nat)
    requires i < |descending| == |values|
  {
    descending[i] && values[i].None?
  }

  function Comparison(descending: seq<bool>, values: seq<Cell>, i: nat): Cond
    requires i < |descending| == |values|
  {
    if values[i].None? then IsNotNull(i)
    else if descending[i] then Or([Less(i), IsNull(i)])
    else Greater(i)
  }

  /** The disjuncts of the first `n` columns. */
  function Parts(descending: seq<bool>, values: seq<Cell>, n: nat): seq<Cond>
    requires n <= |descending| == |values|
  {
    if n == 0 then []
    else
      Parts(descending, values, n - 1) +
      (if Skipped(descending, values, n - 1) then [] else [And(Prefix(n - 1) + [Comparison(descending, values, n - 1)])])
  }

  /** The arguments of the first `n` columns: the prefix values are appended even where the column is skipped. */
  function Args(values: seq<Cell>, n: nat): seq<Cell>
    requires n <= |values|
  {
    if n == 0 then []
    else Args(values, n - 1) + values[..n - 1] + (if values[n - 1].Some? then [values[n - 1]] else [])
  }

  /** The clause and its arguments, or a refusal of the cursor. */
  function Clause(descending: seq<bool>, values: seq<Cell>): (r: Option<(Cond, seq<Cell>)>)
  {
    if |descending| != |values| || Parts(descending, values, |values|) == [] then None
    else Some((Or(Parts(descending, values, |values|)), Args(values, |values|)))
  }

  method CursorPredicate(descending: seq<bool>, values: seq<Cell>) returns (r: Option<(Cond, seq<Cell>)>)
    ensures r == Clause(descending, values)
  {
    if |descending| != |values| { return None; }
    var parts: seq<Cond> := [];
    var args: seq<Cell> := [];
    for i := 0 to |descending|
      invariant parts == Parts(descending, values, i)
      invariant args == Args(values, i)
    {
      var prefix: seq<Cond> := [];
      ghost var before := args;
      for j := 0 to i
        invariant prefix == Prefix(i)[..j]
        invariant args == before + values[..j]
      {
        prefix := prefix + [Equal(j)];
        args := args + [values[j]];
      }
      assert prefix == Prefix(i) && args == Args(values, i) + values[..i];
      if values[i].None? {
        if descending[i] {
          assert parts == Parts(descending, values, i + 1);
          continue;
        }
        prefix := prefix + [IsNotNull(i)];
      } else if descending[i] {
        args := args + [values[i]];
        prefix := prefix + [Or([Less(i), IsNull(i)])];
      } else {
        args := args + [values[i]];
        prefix := prefix + [Greater(i)];
      }
      parts := parts + [And(prefix)];
    }
    if parts == [] { return None; }
    return Some((Or(parts), args));
  }

  // ---- placeholders against arguments ----

  lemma {:induction false} MarksAppend(parts: seq<Cond>, p: Cond)
    ensures MarksOf(parts + [p]) == MarksOf(parts) + Marks(p)
  {
    assert (parts + [p])[..|parts|] == parts;
  }

  lemma {:induction false} PrefixMarks(i: nat)
    ensures MarksOf(Prefix(i)) == i
  {
    if i > 0 {
      PrefixMarks(i - 1);
      assert Prefix(i) == Prefix(i - 1) + [Equal(i - 1)];
      MarksAppend(Prefix(i - 1), Equal(i - 1));
    }
  }

  lemma PartMarks(descending: seq<bool>, values: seq<Cell>, i: nat)
    requires i < |descending| == |values|
    ensures Marks(And(Prefix(i) + [Comparison(descending, values, i)])) == i + (if values[i].Some? then 1 else 0)
  {
    PrefixMarks(i);
    MarksAppend(Prefix(i), Comparison(descending, values, i));
    assert [Less(i), IsNull(i)][..1] == [Less(i)] && [Less(i)][..0] == [];
    assert MarksOf([Less(i)]) == 1;
    assert MarksOf([Less(i), IsNull(i)]) == 1;
  }

  /** Arguments left without a placeholder: i for every skipped column i. */
  function Surplus(descending: seq<bool>, values: seq<Cell>, n: nat): nat
    requires n <= |descending| == |values|
  {
    if n == 0 then 0 else Surplus(descending, values, n - 1) + (if Skipped(descending, values, n - 1) then n - 1 else 0)
  }

  lemma {:induction false} ArgsExceedMarks(descending: seq<bool>, values: seq<Cell>, n: nat)
    requires n <= |descending| == |values|
    ensures |Args(values, n)| == MarksOf(Parts(descending, values, n)) + Surplus(descending, values, n)
  {
    if n > 0 {
      ArgsExceedMarks(descending, values, n - 1);
      PartMarks(descending, values, n - 1);
      var before := Parts(descending, values, n - 1);
      assert before + [] == before;
      MarksAppend(before, And(Prefix(n - 1) + [Comparison(descending, values, n - 1)]));
    }
  }

  /** No descending column other than the first has NULL in the cursor. */
  predicate CursorSafe(descending: seq<bool>, values: seq<Cell>)
    requires |descending| == |values|
  {
    forall i :: 0 < i < |values| ==> !Skipped(descending, values, i)
  }

  lemma {:induction false} SurplusZeroIff(descending: seq<bool>, values: seq<Cell>, n: nat)
    requires n <= |descending| == |values|
    ensures Surplus(descending, values, n) == 0 <==> forall i :: 0 < i < n ==> !Skipped(descending, values, i)
  {
    if n > 0 { SurplusZeroIff(descending, values, n - 1); }
  }

  /** Placeholders and arguments align exactly when the cursor is safe. */
  lemma AlignedIff(descending: seq<bool>, values: seq<Cell>)
    requires |descending| == |values|
    ensures MarksOf(Parts(descending, values, |values|)) == |Args(values, |values|)| <==> CursorSafe(descending, values)
  {
    ArgsExceedMarks(descending, values, |values|);
    SurplusZeroIff(descending, values, |values|);
  }

  // ---- the meaning of the condition ----

  /** In ORDER BY order, the cell `r` comes strictly after the cell `v`. */
  predicate CellAfter(descending: bool, v: Cell, r: Cell) {
    if descending then v.Some? && (r.None? || r.value < v.value)
    else r.Some? && (v.None? || v.value < r.value)
  }

  /** The row comes strictly after the cursor: the first differing column decides. */
  predicate After(descending: seq<bool>, values: seq<Cell>, row: seq<Cell>)
    requires |descending| == |values| == |row|
  {
    if |row| == 0 then false
    else if values[0] == row[0] then After(descending[1..], values[1..], row[1..])
    else CellAfter(descending[0], values[0], row[0])
  }

  predicate DecidedAt(descending: seq<bool>, values: seq<Cell>, row: seq<Cell>, i: nat)
    requires i < |descending| == |values| == |row|
  {
    row[..i] == values[..i] && CellAfter(descending[i], values[i], row[i])
  }

  lemma {:induction false} AfterIsDecided(descending: seq<bool>, values: seq<Cell>, row: seq<Cell>)
    requires |descending| == |values| == |row|
    ensures After(descending, values, row) <==> exists i :: 0 <= i < |row| && DecidedAt(descending, values, row, i)
  {
    if |row| > 0 {
      AfterIsDecided(descending[1..], values[1..], row[1..]);
      if values[0] == row[0] {
        forall i | 0 < i < |row|
          ensures DecidedAt(descending, values, row, i) <==> DecidedAt(descending[1..], values[1..], row[1..], i - 1)
        {
          assert row[..i] == [row[0]] + row[1..][..i - 1];
          assert values[..i] == [values[0]] + values[1..][..i - 1];
        }
        assert forall k :: 0 <= k < |row| - 1 ==>
          (DecidedAt(descending[1..], values[1..], row[1..], k) <==> DecidedAt(descending, values, row, k + 1));
      } else {
        assert DecidedAt(descending, values, row, 0) <==> CellAfter(descending[0], values[0], row[0]);
        assert forall i :: 0 < i < |row| && row[..i] == values[..i] ==> row[..i][0] == values[..i][0];
      }
    }
  }

  lemma {:induction false} PrefixMeaning(i: nat, row: seq<Cell>, args: seq<Cell>, at: nat)
    requires i <= |row| && at + i <= |args|
    ensures (forall p :: p in Prefix(i) ==> Over(p, |row|)) && MarksOf(Prefix(i)) == i
    ensures EvalAnd(Prefix(i), row, args, at) == Test(row[..i] == args[at..at + i])
  {
    PrefixMarks(i);
    if i > 0 {
      PrefixMeaning(i - 1, row, args, at);
      assert Prefix(i)[..i - 1] == Prefix(i - 1);
      assert row[..i] == row[..i - 1] + [row[i - 1]];
      assert args[at..at + i] == args[at..at + i - 1] + [args[at + i - 1]];
    }
  }

  lemma BelowMeaning(i: nat, row: seq<Cell>, args: seq<Cell>, at: nat)
    requires i < |row| && at < |args|
    ensures var below := Or([Less(i), IsNull(i)]);
      Over(below, |row|) && Marks(below) == 1
      && Eval(below, row, args, at) == Either(Eval(Less(i), row, args, at), Test(row[i].None?))
  {
    var parts := [Less(i), IsNull(i)];
    assert parts[..1] == [Less(i)] && [Less(i)][..0] == [];
    assert MarksOf([Less(i)]) == 1;
    assert MarksOf(parts) == MarksOf([Less(i)]) + Marks(IsNull(i));
    assert EvalOr([Less(i)], row, args, at) == Either(No, Eval(Less(i), row, args, at));
    assert EvalOr(parts, row, args, at) == Either(EvalOr([Less(i)], row, args, at), Eval(IsNull(i), row, args, at + 1));
  }

  lemma PartMeaning(descending: seq<bool>, values: seq<Cell>, row: seq<Cell>, i: nat, args: seq<Cell>, at: nat)
    requires i < |descending| == |values| == |row| && !Skipped(descending, values, i)
    requires at + i + (if values[i].Some? then 1 else 0) <= |args| && args[at..at + i] == values[..i]
    requires values[i].Some? ==> args[at + i] == values[i]
    ensures var part := And(Prefix(i) + [Comparison(descending, values, i)]);
      Over(part, |row|) && Marks(part) == i + (if values[i].Some? then 1 else 0)
      && (Eval(part, row, args, at) == Yes <==> DecidedAt(descending, values, row, i))
  {
    PrefixMeaning(i, row, args, at);
    PartMarks(descending, values, i);
    var comparison := Comparison(descending, values, i);
    var parts := Prefix(i) + [comparison];
    assert parts[..i] == Prefix(i);
    if values[i].Some? && descending[i] { BelowMeaning(i, row, args, at + i); }
    assert Over(comparison, |row|) && at + i + Marks(comparison) <= |args|;
    assert Eval(comparison, row, args, at + i) == Yes <==> CellAfter(descending[i], values[i], row[i]);
    assert EvalAnd(parts, row, args, at) == Both(EvalAnd(Prefix(i), row, args, at), Eval(comparison, row, args, at + i));
  }

  ghost predicate Decided(descending: seq<bool>, values: seq<Cell>, row: seq<Cell>, n: nat)
    requires n <= |descending| == |values| == |row|
  {
    exists i :: 0 <= i < n && DecidedAt(descending, values, row, i)
  }

  /** Where the arguments of the last column stand. */
  lemma ArgsLayout(values: seq<Cell>, i: nat, args: seq<Cell>)
    requires i < |values| && Args(values, i + 1) <= args
    ensures Args(values, i) <= args
    ensures |Args(values, i + 1)| == |Args(values, i)| + i + (if values[i].Some? then 1 else 0)
    ensures args[|Args(values, i)|..|Args(values, i)| + i] == values[..i]
    ensures values[i].Some? ==> args[|Args(values, i)| + i] == values[i]
  {
    var before := Args(values, i);
    var tail := if values[i].Some? then [values[i]] else [];
    assert Args(values, i + 1) == before + values[..i] + tail;
    assert args[..|Args(values, i + 1)|] == Args(values, i + 1);
    assert args[..|before|] == before;
    assert args[|before|..|before| + i] == Args(values, i + 1)[|before|..|before| + i] == values[..i];
  }

  /** The disjunction of the first `n` columns holds exactly when one of them decides for the row. */
  lemma {:induction false} PartsMeaning(descending: seq<bool>, values: seq<Cell>, row: seq<Cell>, n: nat,
      args: seq<Cell>)
    requires n <= |descending| == |values| == |row|
    requires forall i :: 0 < i < n ==> !Skipped(descending, values, i)
    requires Args(values, n) <= args
    ensures forall p :: p in Parts(descending, values, n) ==> Over(p, |row|)
    ensures MarksOf(Parts(descending, values, n)) == |Args(values, n)|
    ensures EvalOr(Parts(descending, values, n), row, args, 0) == Yes <==> Decided(descending, values, row, n)
  {
    if n > 0 {
      ArgsLayout(values, n - 1, args);
      PartsMeaning(descending, values, row, n - 1, args);
      PartsStep(descending, values, row, n - 1, args);
    }
  }

  lemma {:induction false} PartsStep(descending: seq<bool>, values: seq<Cell>, row: seq<Cell>, i: nat, args: seq<Cell>)
    requires i < |descending| == |values| == |row|
    requires i > 0 ==> !Skipped(descending, values, i)
    requires |Args(values, i)| + i + (if values[i].Some? then 1 else 0) <= |args|
    requires args[|Args(values, i)|..|Args(values, i)| + i] == values[..i]
    requires values[i].Some? ==> args[|Args(values, i)| + i] == values[i]
    requires forall p :: p in Parts(descending, values, i) ==> Over(p, |row|)
    requires MarksOf(Parts(descending, values, i)) == |Args(values, i)|
    requires EvalOr(Parts(descending, values, i), row, args, 0) == Yes <==> Decided(descending, values, row, i)
    ensures forall p :: p in Parts(descending, values, i + 1) ==> Over(p, |row|)
    ensures MarksOf(Parts(descending, values, i + 1)) == |Args(values, i)| + i + (if values[i].Some? then 1 else 0)
    ensures EvalOr(Parts(descending, values, i + 1), row, args, 0) == Yes <==> Decided(descending, values, row, i + 1)
  {
    var parts := Parts(descending, values, i);
    assert Decided(descending, values, row, i + 1) <==> Decided(descending, values, row, i) || DecidedAt(descending, values, row, i);
    if Skipped(descending, values, i) {
      assert parts + [] == parts;
    } else {
      var part := And(Prefix(i) + [Comparison(descending, values, i)]);
      PartMeaning(descending, values, row, i, args, |Args(values, i)|);
      LastPart(parts, part, row, args);
      assert Parts(descending, values, i + 1) == parts + [part];
    }
  }

  lemma {:induction false} LastPart(parts: seq<Cond>, last: Cond, row: seq<Cell>, args: seq<Cell>)
    requires (forall p :: p in parts ==> Over(p, |row|)) && Over(last, |row|)
    requires MarksOf(parts) + Marks(last) <= |args|
    ensures (forall p :: p in parts + [last] ==> Over(p, |row|))
    ensures MarksOf(parts + [last]) == MarksOf(parts) + Marks(last)
    ensures EvalOr(parts + [last], row, args, 0) == Either(EvalOr(parts, row, args, 0), Eval(last, row, args, MarksOf(parts)))
  {
    MarksAppend(parts, last);
    assert (parts + [last])[..|parts|] == parts;
  }

  /** Under SQL's three-valued logic the clause is TRUE for a row exactly when the row comes
      strictly after the cursor, for any number of columns in any mix of directions. */
  lemma ClauseMeansAfter(descending: seq<bool>, values: seq<Cell>, row: seq<Cell>)
    requires |descending| == |values| == |row| && CursorSafe(descending, values)
    ensures var clause := Clause(descending, values);
      && (clause.None? ==> !After(descending, values, row))
      && (clause.Some? ==>
            Over(clause.value.0, |row|) && Marks(clause.value.0) == |clause.value.1|
            && (Eval(clause.value.0, row, clause.value.1, 0) == Yes <==> After(descending, values, row)))
  {
    PartsMeaning(descending, values, row, |values|, Args(values, |values|));
    AfterIsDecided(descending, values, row);
  }

  // ---- After is a strict total order on rows ----

  lemma {:induction false} AfterIrreflexive(descending: seq<bool>, a: seq<Cell>)
    requires |descending| == |a|
    ensures !After(descending, a, a)
  {
    if |a| > 0 { AfterIrreflexive(descending[1..], a[1..]); }
  }

  lemma {:induction false} AfterTransitive(descending: seq<bool>, a: seq<Cell>, b: seq<Cell>, d: seq<Cell>)
    requires |descending| == |a| == |b| == |d| && After(descending, a, b) && After(descending, b, d)
    ensures After(descending, a, d)
  {
    if a[0] == b[0] && b[0] == d[0] { AfterTransitive(descending[1..], a[1..], b[1..], d[1..]); }
  }

  lemma {:induction false} AfterTotal(descending: seq<bool>, a: seq<Cell>, b: seq<Cell>)
    requires |descending| == |a| == |b| && a != b
    ensures After(descending, a, b) || After(descending, b, a)
  {
    if a[0] == b[0] {
      assert a == [a[0]] + a[1..] && b == [b[0]] + b[1..];
      AfterTotal(descending[1..], a[1..], b[1..]);
    }
  }
}
