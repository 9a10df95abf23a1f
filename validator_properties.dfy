/** What the validation engine guarantees, stated over the functions of module Validator. */
module ValidatorProperties {
  import opened Text
  import opened Validator

  predicate Distinct<T(==)>(s: seq<T>)
  {
    forall i, j :: 0 <= i < j < |s| ==> s[i] != s[j]
  }

  // ---------------------------------------------------------------------
  // The triple table
  // ---------------------------------------------------------------------

  lemma {:induction false} InsertAllMembers(keys: seq<Triple>, ts: seq<Triple>)
    ensures forall t :: t in InsertAll(keys, ts) <==> t in keys || t in ts
    ensures Distinct(keys) ==> Distinct(InsertAll(keys, ts))
  {
    if ts != [] {
      var n := |ts| - 1;
      InsertAllMembers(keys, ts[..n]);
      assert ts == ts[..n] + [ts[n]];
    }
  }

  lemma {:induction false} RowMembers(a: string, vectors: seq<string>, assets: seq<string>)
    ensures forall t :: t in Row(a, vectors, assets) <==> t.actor == a && t.vector in vectors && t.asset in assets
  {
    if vectors != [] {
      var n := |vectors| - 1;
      RowMembers(a, vectors[..n], assets);
      assert vectors == vectors[..n] + [vectors[n]];
      forall t: Triple | t.actor == a && t.vector in vectors && t.asset in assets
        ensures t in Row(a, vectors, assets)
      {
        var k :| 0 <= k < |assets| && assets[k] == t.asset;
        if t.vector == vectors[n] {
          assert Cell(a, vectors[n], assets)[k] == t;
        }
      }
    }
  }

  lemma {:induction false} ProductMembers(actors: seq<string>, vectors: seq<string>, assets: seq<string>)
    ensures forall t :: t in Product(actors, vectors, assets) <==>
      t.actor in actors && t.vector in vectors && t.asset in assets
  {
    if actors != [] {
      var n := |actors| - 1;
      ProductMembers(actors[..n], vectors, assets);
      RowMembers(actors[n], vectors, assets);
      assert actors == actors[..n] + [actors[n]];
    }
  }

  /** `trip_vars` has a key for exactly the triples drawn from the three catalogs, each
      key once. */
  lemma TableMembers(actors: seq<string>, vectors: seq<string>, assets: seq<string>)
    ensures forall t :: t in Table(actors, vectors, assets) <==>
      t.actor in actors && t.vector in vectors && t.asset in assets
    ensures Distinct(Table(actors, vectors, assets))
  {
    InsertAllMembers([], Product(actors, vectors, assets));
    ProductMembers(actors, vectors, assets);
  }
  /** Membership of one triple in the table. */
  lemma InTable(actors: seq<string>, vectors: seq<string>, assets: seq<string>, t: Triple)
    ensures t in Table(actors, vectors, assets) <==>
      t.actor in actors && t.vector in vectors && t.asset in assets
  {
    TableMembers(actors, vectors, assets);
  }


  lemma {:induction false} InsertAllDistinct(keys: seq<Triple>, ts: seq<Triple>)
    requires Distinct(keys + ts)
    ensures InsertAll(keys, ts) == keys + ts
  {
    if ts != [] {
      var n := |ts| - 1;
      assert keys + ts == (keys + ts[..n]) + [ts[n]];
      assert Distinct(keys + ts[..n]) by {
        forall i, j | 0 <= i < j < |keys + ts[..n]|
          ensures (keys + ts[..n])[i] != (keys + ts[..n])[j]
        {
          assert (keys + ts[..n])[i] == (keys + ts)[i];
          assert (keys + ts[..n])[j] == (keys + ts)[j];
        }
      }
      InsertAllDistinct(keys, ts[..n]);
      assert ts[n] == (keys + ts)[|keys + ts| - 1];
      assert ts[n] !in keys + ts[..n] by {
        forall i | 0 <= i < |keys + ts[..n]| ensures (keys + ts[..n])[i] != ts[n] {
          assert (keys + ts[..n])[i] == (keys + ts)[i];
        }
      }
    }
  }

  lemma DistinctConcat(s: seq<Triple>, t: seq<Triple>)
    requires Distinct(s) && Distinct(t)
    requires forall x :: x in s ==> x !in t
    ensures Distinct(s + t)
  {
    forall i, j | 0 <= i < j < |s + t| ensures (s + t)[i] != (s + t)[j] {
      if j >= |s| && i < |s| {
        assert (s + t)[i] in s;
        assert (s + t)[j] in t;
      }
    }
  }

  lemma CellMembers(a: string, v: string, assets: seq<string>)
    ensures forall t :: t in Cell(a, v, assets) ==> t.actor == a && t.vector == v
  {
  }

  lemma {:induction false} RowLength(a: string, vectors: seq<string>, assets: seq<string>)
    ensures |Row(a, vectors, assets)| == |vectors| * |assets|
  {
    if vectors != [] {
      RowLength(a, vectors[..|vectors| - 1], assets);
      Distribute(|vectors| - 1, |assets|);
    }
  }

  lemma {:induction false} ProductLength(actors: seq<string>, vectors: seq<string>, assets: seq<string>)
    ensures |Product(actors, vectors, assets)| == |actors| * (|vectors| * |assets|)
  {
    if actors != [] {
      ProductLength(actors[..|actors| - 1], vectors, assets);
      RowLength(actors[|actors| - 1], vectors, assets);
      Distribute(|actors| - 1, |vectors| * |assets|);
    }
  }

  lemma Distribute(n: nat, w: nat)
    ensures n * w + w == (n + 1) * w
  {
  }

  /** Position `i * w + r` with `r < w` lies before `n * w` whenever `i < n`. */
  lemma BlockBound(i: nat, n: nat, w: nat, r: nat)
    requires i < n && r < w
    ensures i * w + r < n * w
  {
    assert (i + 1) * w <= n * w;
  }

  lemma {:induction false} RowShape(a: string, vectors: seq<string>, assets: seq<string>, j: nat, k: nat)
    requires j < |vectors| && k < |assets|
    ensures j * |assets| + k < |Row(a, vectors, assets)|
    ensures Row(a, vectors, assets)[j * |assets| + k] == Triple(a, vectors[j], assets[k])
  {
    var n, w := |vectors| - 1, |assets|;
    var prefix := Row(a, vectors[..n], assets);
    RowLength(a, vectors[..n], assets);
    RowLength(a, vectors, assets);
    if j < n {
      RowShape(a, vectors[..n], assets, j, k);
      assert vectors[..n][j] == vectors[j];
    } else {
      assert Row(a, vectors, assets)[n * w + k] == Cell(a, vectors[n], assets)[k];
    }
  }

  /** The triple at position `i * (|vectors| * |assets|) + j * |assets| + k` of the loop
      order is `(actors[i], vectors[j], assets[k])`: actor-major, then vector, then asset. */
  lemma {:induction false} ProductShape(actors: seq<string>, vectors: seq<string>, assets: seq<string>,
                                        i: nat, j: nat, k: nat)
    requires i < |actors| && j < |vectors| && k < |assets|
    ensures |Product(actors, vectors, assets)| == |actors| * (|vectors| * |assets|)
    ensures i * (|vectors| * |assets|) + j * |assets| + k < |Product(actors, vectors, assets)|
    ensures Product(actors, vectors, assets)[i * (|vectors| * |assets|) + j * |assets| + k]
         == Triple(actors[i], vectors[j], assets[k])
  {
    var n, w := |actors| - 1, |vectors| * |assets|;
    var off := j * |assets| + k;
    RowShape(actors[n], vectors, assets, j, k);
    RowLength(actors[n], vectors, assets);
    ProductLength(actors, vectors, assets);
    BlockBound(i, |actors|, w, off);
    if i < n {
      ProductShape(actors[..n], vectors, assets, i, j, k);
      assert actors[..n][i] == actors[i];
      var idx := i * (|vectors| * |assets|) + j * |assets| + k;
      assert idx >= 0 by { NatProduct(i, w); NatProduct(j, |assets|); }
      ProductEarlier(actors, vectors, assets, idx);
    } else {
      ProductLast(actors, vectors, assets, off);
    }
  }

  lemma NatProduct(x: nat, y: nat)
    ensures x * y >= 0
  {
  }

  lemma ProductEarlier(actors: seq<string>, vectors: seq<string>, assets: seq<string>, idx: nat)
    requires actors != [] && idx < |Product(actors[..|actors| - 1], vectors, assets)|
    ensures Product(actors, vectors, assets)[idx] == Product(actors[..|actors| - 1], vectors, assets)[idx]
  {
  }

  lemma ProductLast(actors: seq<string>, vectors: seq<string>, assets: seq<string>, off: nat)
    requires actors != [] && off < |Row(actors[|actors| - 1], vectors, assets)|
    ensures (|actors| - 1) * (|vectors| * |assets|) + off < |Product(actors, vectors, assets)|
    ensures Product(actors, vectors, assets)[(|actors| - 1) * (|vectors| * |assets|) + off]
         == Row(actors[|actors| - 1], vectors, assets)[off]
  {
    var n := |actors| - 1;
    ProductLength(actors[..n], vectors, assets);
    RowLength(actors[n], vectors, assets);
  }

  /** In a duplicate-free list the last element does not occur earlier. */
  lemma LastIsNew<T>(s: seq<T>, n: nat)
    requires Distinct(s) && n < |s|
    ensures s[n] !in s[..n]
  {
    forall q | 0 <= q < n ensures s[..n][q] != s[n] {
    }
  }

  lemma {:induction false} RowDistinct(a: string, vectors: seq<string>, assets: seq<string>)
    requires Distinct(vectors) && Distinct(assets)
    ensures Distinct(Row(a, vectors, assets))
  {
    if vectors != [] {
      var n := |vectors| - 1;
      assert Distinct(vectors[..n]);
      RowDistinct(a, vectors[..n], assets);
      RowMembers(a, vectors[..n], assets);
      var cell := Cell(a, vectors[n], assets);
      CellMembers(a, vectors[n], assets);
      LastIsNew(vectors, n);
      forall x | x in Row(a, vectors[..n], assets) ensures x !in cell {
        assert x.vector != vectors[n];
      }
      DistinctConcat(Row(a, vectors[..n], assets), cell);
    }
  }

  lemma {:induction false} ProductDistinct(actors: seq<string>, vectors: seq<string>, assets: seq<string>)
    requires Distinct(actors) && Distinct(vectors) && Distinct(assets)
    ensures Distinct(Product(actors, vectors, assets))
  {
    if actors != [] {
      var n := |actors| - 1;
      assert Distinct(actors[..n]);
      ProductDistinct(actors[..n], vectors, assets);
      ProductMembers(actors[..n], vectors, assets);
      RowMembers(actors[n], vectors, assets);
      RowDistinct(actors[n], vectors, assets);
      LastIsNew(actors, n);
      forall x | x in Product(actors[..n], vectors, assets)
        ensures x !in Row(actors[n], vectors, assets)
      {
        assert x.actor != actors[n];
      }
      DistinctConcat(Product(actors[..n], vectors, assets), Row(actors[n], vectors, assets));
    }
  }

  /** With duplicate-free catalogs no insertion is a re-assignment, so the table is the
      whole product in loop order, |actors| * |vectors| * |assets| variables. */
  lemma TableIsProduct(actors: seq<string>, vectors: seq<string>, assets: seq<string>)
    requires Distinct(actors) && Distinct(vectors) && Distinct(assets)
    ensures Table(actors, vectors, assets) == Product(actors, vectors, assets)
  {
    ProductDistinct(actors, vectors, assets);
    assert [] + Product(actors, vectors, assets) == Product(actors, vectors, assets);
    InsertAllDistinct([], Product(actors, vectors, assets));
  }

  // ---------------------------------------------------------------------
  // Cardinality: only at-least-one
  // ---------------------------------------------------------------------

  /** `zip(vs, vs)` pairs each variable with itself, so `t1 is not t2` never holds and the
      "no two triples" loop adds nothing. */
  lemma {:induction false} ZipAddsNothing(s: seq<Triple>)
    ensures ZipNotBoth(s, s) == []
  {
    if s != [] {
      ZipAddsNothing(s[..|s| - 1]);
    }
  }

  /** Before any clue the solver holds exactly one constraint: some triple is true. */
  lemma CardinalityIsAtLeastOne(table: seq<Triple>)
    ensures Cardinality(table) == [AnyOf(table)]
  {
    ZipAddsNothing(table);
  }

  // ---------------------------------------------------------------------
  // The clue loop
  // ---------------------------------------------------------------------

  /** Every constraint is a negative unit literal or a positive disjunction. */
  predicate Horn(cs: seq<Constraint>)
  {
    forall i :: 0 <= i < |cs| ==> !cs[i].NotBoth?
  }

  /** A clue only appends constraints, and only of the two Horn shapes. */
  lemma StepAppends(p: Puzzle, table: seq<Triple>, st: ClueState, clue: Clue)
    requires Step(p, table, st, clue).Ok?
    ensures var s := Step(p, table, st, clue).value;
      st.cs <= s.cs && Horn(s.cs[|st.cs|..])
  {
    var s := Step(p, table, st, clue).value;
    if clue.kind == "negation" {
      NegationAddsLiterals(p, table, st, clue.text, s);
    } else if clue.kind == "affirmative" {
      var c := AffirmativeAddsKeyed(p, table, st, clue.text, s);
    } else if clue.kind == "relational" {
      var d := RelationalForbids(table, p.actors, st.parts);
      RelationalAddsLiterals(table, p.actors, st.parts, d);
      assert s.cs == st.cs + d;
    } else if clue.kind == "conditional" {
      ConditionalAddsLiterals(p, table, st, clue.text, s);
    }
    forall i | 0 <= i < |s.cs[|st.cs|..]| ensures !s.cs[|st.cs|..][i].NotBoth? {
      assert s.cs[|st.cs|..][i] == s.cs[|st.cs| + i];
      assert s.cs[|st.cs| + i] in s.cs[|st.cs|..];
    }
  }

  lemma RelationalAddsLiterals(table: seq<Triple>, actors: seq<string>, parts: Tokens,
                                d: seq<Constraint>)
    requires d == RelationalForbids(table, actors, parts)
    ensures forall i :: 0 <= i < |d| ==> d[i].Forbid?
  {
    if parts.Bound? && |parts.words| > 5 {
      var ps := parts.words;
      var v, asset := ps[5], Strip(ps[|ps| - 1], {'.'});
      assert d == ForbidActors(actors, v, asset, LeadingFound(table, actors, v, asset));
    }
  }

  lemma {:induction false} RunAppends(p: Puzzle, table: seq<Triple>, st: ClueState, clues: seq<Clue>)
    requires Run(p, table, st, clues).Ok?
    ensures var s := Run(p, table, st, clues).value;
      st.cs <= s.cs && (Horn(st.cs) ==> Horn(s.cs))
  {
    if clues != [] {
      var prefix := clues[..|clues| - 1];
      RunAppends(p, table, st, prefix);
      var mid := Run(p, table, st, prefix).value;
      StepAppends(p, table, mid, clues[|clues| - 1]);
      var s := Run(p, table, st, clues).value;
      if Horn(st.cs) {
        forall i | 0 <= i < |s.cs| ensures !s.cs[i].NotBoth? {
          if i >= |mid.cs| {
            assert s.cs[i] == s.cs[|mid.cs|..][i - |mid.cs|];
          }
        }
      }
    }
  }

  /** A successful loop also succeeded on every prefix, and the constraints of the
      prefix are a prefix of the final constraints. */
  lemma {:induction false} RunPrefix(p: Puzzle, table: seq<Triple>, st: ClueState, clues: seq<Clue>, j: nat)
    requires j <= |clues|
    requires Run(p, table, st, clues).Ok?
    ensures Run(p, table, st, clues[..j]).Ok?
    ensures Run(p, table, st, clues[..j]).value.cs <= Run(p, table, st, clues).value.cs
    decreases |clues| - j
  {
    if j == |clues| {
      assert clues[..j] == clues;
    } else {
      var n := |clues| - 1;
      assert clues[..n] == clues[..n];
      if Run(p, table, st, clues[..n]).Err? {
        assert false;
      }
      RunPrefix(p, table, st, clues[..n], j);
      assert clues[..n][..j] == clues[..j];
      StepAppends(p, table, Run(p, table, st, clues[..n]).value, clues[n]);
    }
  }

  /** The states around clue `i`: the loop state before it, the state it produces, and
      the fact that what it produces survives into the final constraints. */
  lemma ClueStates(p: Puzzle, st: ClueState, i: nat) returns (before: ClueState, after: ClueState)
    requires Compile(p) == Ok(st)
    requires i < |p.clues|
    ensures var table := Table(p.actors, p.vectors, p.assets);
      Run(p, table, ClueState(Cardinality(table), Unbound), p.clues[..i]) == Ok(before) &&
      Step(p, table, before, p.clues[i]) == Ok(after)
    ensures before.cs <= after.cs <= st.cs
    ensures before.parts == LatestParts(p.clues[..i])
  {
    var table := Table(p.actors, p.vectors, p.assets);
    var init := ClueState(Cardinality(table), Unbound);
    RunPrefix(p, table, init, p.clues, i + 1);
    RunSnoc(p, table, init, p.clues, i);
    PartsAreStale(p, table, Cardinality(table), p.clues[..i]);
    before := Run(p, table, init, p.clues[..i]).value;
    after := Run(p, table, init, p.clues[..i + 1]).value;
    StepAppends(p, table, before, p.clues[i]);
  }

  /** The compiled constraints start with the at-least-one clause and are all Horn. */
  lemma CompileShape(p: Puzzle, st: ClueState)
    requires Compile(p) == Ok(st)
    ensures |st.cs| > 0 && st.cs[0] == AnyOf(Table(p.actors, p.vectors, p.assets))
    ensures Horn(st.cs)
  {
    var table := Table(p.actors, p.vectors, p.assets);
    CardinalityIsAtLeastOne(table);
    RunAppends(p, table, ClueState(Cardinality(table), Unbound), p.clues);
  }

  // ---------------------------------------------------------------------
  // Satisfiability without a solver
  // ---------------------------------------------------------------------

  /** On a table without repeats, `true_triples` lists no triple twice. */
  lemma {:induction false} TrueTriplesDistinct(table: seq<Triple>, m: set<Triple>)
    requires Distinct(table)
    ensures Distinct(TrueTriples(table, m))
  {
    if table != [] {
      var rest := TrueTriples(table[1..], m);
      assert Distinct(table[1..]) by {
        forall i, j | 0 <= i < j < |table[1..]| ensures table[1..][i] != table[1..][j] {
          assert table[1..][i] == table[i + 1] && table[1..][j] == table[j + 1];
        }
      }
      TrueTriplesDistinct(table[1..], m);
      if table[0] in m {
        var r := [table[0]] + rest;
        assert TrueTriples(table, m) == r;
        assert table[0] !in table[1..] by {
          forall j | 0 <= j < |table[1..]| ensures table[1..][j] != table[0] {
            assert table[1..][j] == table[j + 1];
          }
        }
        forall i, j | 0 <= i < j < |r| ensures r[i] != r[j] {
          assert r[j] == rest[j - 1];
          if i > 0 {
            assert r[i] == rest[i - 1];
          } else {
            assert r[j] in rest;
          }
        }
      } else {
        assert TrueTriples(table, m) == rest;
      }
    }
  }

  /** `true_triples` keeps the table's order: its first entry is the first key the model
      makes true, the entry line 92 reads. */
  lemma {:induction false} TrueTriplesFirst(table: seq<Triple>, m: set<Triple>) returns (k: nat)
    requires TrueTriples(table, m) != []
    ensures k < |table| && table[k] == TrueTriples(table, m)[0] && table[k] in m
    ensures forall j :: 0 <= j < k ==> table[j] !in m
  {
    if table[0] in m {
      k := 0;
    } else {
      var rest := TrueTriples(table[1..], m);
      assert TrueTriples(table, m) == rest;
      var k' := TrueTriplesFirst(table[1..], m);
      k := k' + 1;
      forall j | 0 <= j < k ensures table[j] !in m {
        if j > 0 {
          assert table[j] == table[1..][j - 1];
        }
      }
    }
  }

  function Forbidden(cs: seq<Constraint>): set<Triple>
  {
    set i | 0 <= i < |cs| && cs[i].Forbid? :: cs[i].t
  }

  function Mentioned(cs: seq<Constraint>): set<Triple>
  {
    set i, k | 0 <= i < |cs| && cs[i].AnyOf? && 0 <= k < |cs[i].ts| :: cs[i].ts[k]
  }

  /** Every triple that some disjunction names and no literal forbids is set true. */
  function Canonical(cs: seq<Constraint>): set<Triple>
  {
    Mentioned(cs) - Forbidden(cs)
  }

  /** A model sets no forbidden triple true. */
  lemma ModelAvoidsForbidden(m: set<Triple>, cs: seq<Constraint>)
    requires Models(m, cs)
    ensures forall t :: t in Forbidden(cs) ==> t !in m
  {
    forall t | t in Forbidden(cs) ensures t !in m {
      var j :| 0 <= j < |cs| && cs[j].Forbid? && cs[j].t == t;
      assert Holds(m, cs[j]);
    }
  }

  /** Horn constraints of these two shapes are satisfiable exactly when the canonical
      assignment satisfies them. */
  lemma CanonicalDecides(cs: seq<Constraint>)
    requires Horn(cs)
    ensures Satisfiable(cs) <==> Models(Canonical(cs), cs)
  {
    var c := Canonical(cs);
    if Satisfiable(cs) {
      var m :| Models(m, cs);
      forall i | 0 <= i < |cs| ensures Holds(c, cs[i]) {
        match cs[i]
        case Forbid(t) =>
          assert t in Forbidden(cs);
        case AnyOf(ts) =>
          assert Holds(m, cs[i]);
          var k :| 0 <= k < |ts| && ts[k] in m;
          assert ts[k] in Mentioned(cs);
          ModelAvoidsForbidden(m, cs);
          assert ts[k] in c;
        case NotBoth(_, _) =>
      }
    } else {
      assert !Models(c, cs);
    }
  }

  /** Every model of the compiled constraints sets some table triple true, so the
      verdict never indexes an empty `true_triples`. */
  lemma SomeTripleTrue(p: Puzzle, st: ClueState, m: set<Triple>)
    requires Compile(p) == Ok(st)
    requires Models(m, st.cs)
    ensures TrueTriples(Table(p.actors, p.vectors, p.assets), m) != []
  {
    CompileShape(p, st);
    assert Holds(m, st.cs[0]);
    var table := Table(p.actors, p.vectors, p.assets);
    var k :| 0 <= k < |table| && table[k] in m;
    assert table[k] in TrueTriples(table, m);
  }

  // ---------------------------------------------------------------------
  // The verdict
  // ---------------------------------------------------------------------

  /** With a sound solver the validator raises only while reading clues. */
  lemma RaisesOnlyWhileCompiling(p: Puzzle, solve: seq<Constraint> -> Answer)
    requires Compile(p).Ok? ==> SoundAnswer(Compile(p).value.cs, solve(Compile(p).value.cs))
    ensures Validate(p, solve).Raised? <==> Compile(p).Err?
  {
    if Compile(p).Ok? {
      var st := Compile(p).value;
      if solve(st.cs).Sat? {
        SomeTripleTrue(p, st, solve(st.cs).holds);
      }
    }
  }

  /** With a sound solver the verdict is `invalid` exactly when the canonical assignment
      fails the constraints. */
  lemma InvalidIffUnsatisfiable(p: Puzzle, solve: seq<Constraint> -> Answer, st: ClueState)
    requires Compile(p) == Ok(st)
    requires SoundAnswer(st.cs, solve(st.cs))
    ensures Validate(p, solve) == Returned(Invalid(UnsatReason)) <==> !Models(Canonical(st.cs), st.cs)
    ensures Validate(p, solve).Returned? && Validate(p, solve).verdict.Invalid? ==> !Satisfiable(st.cs)
  {
    CompileShape(p, st);
    CanonicalDecides(st.cs);
    if solve(st.cs).Sat? {
      SomeTripleTrue(p, st, solve(st.cs).holds);
    }
  }

  /** What each verdict means, given a sound solver. `ambiguous` lists only triples no
      clue eliminated; `mismatch` reports a surviving triple that differs from the
      declared one; `data-not-inferable` and `valid` mean the declared triple is in the
      catalogs, survives every clue and is the model's only true triple, and `valid`
      adds that some clue text contains the declared stolen data. */
  lemma VerdictMeaning(p: Puzzle, solve: seq<Constraint> -> Answer, st: ClueState)
    requires Compile(p) == Ok(st)
    requires SoundAnswer(st.cs, solve(st.cs))
    ensures var table, out := Table(p.actors, p.vectors, p.assets), Validate(p, solve);
      out.Returned? &&
      (out.verdict.Ambiguous? ==>
        |out.verdict.solutions| > 1 &&
        forall t :: t in out.verdict.solutions ==> t in table && t !in Forbidden(st.cs)) &&
      (out.verdict.Mismatch? ==>
        out.verdict.expected == Declared(p.solution) && out.verdict.found != out.verdict.expected &&
        out.verdict.found in table && out.verdict.found !in Forbidden(st.cs)) &&
      (out.verdict.DataNotInferable? || out.verdict.Valid? ==>
        solve(st.cs).Sat? && TrueTriples(table, solve(st.cs).holds) == [Declared(p.solution)]) &&
      (out.verdict.DataNotInferable? ==>
        Declared(p.solution) in table && Declared(p.solution) !in Forbidden(st.cs) &&
        !Mentions(p.clues, p.solution.stolenData)) &&
      (out.verdict.Valid? ==>
        out.verdict.solution == p.solution &&
        Declared(p.solution) in table && Declared(p.solution) !in Forbidden(st.cs) &&
        Mentions(p.clues, p.solution.stolenData))
  {
    RaisesOnlyWhileCompiling(p, solve);
    var table := Table(p.actors, p.vectors, p.assets);
    if solve(st.cs).Sat? {
      var m := solve(st.cs).holds;
      var found := TrueTriples(table, m);
      ModelAvoidsForbidden(m, st.cs);
      if found != [] {
        assert found[0] in found;
      }
    }
  }

  /** A valid verdict names the declared triple, and that triple is a model of the
      constraints on its own: the clues admit it. */
  lemma ValidIsConsistent(p: Puzzle, solve: seq<Constraint> -> Answer, st: ClueState)
    requires Compile(p) == Ok(st)
    requires SoundAnswer(st.cs, solve(st.cs))
    requires Validate(p, solve).Returned? && Validate(p, solve).verdict.Valid?
    ensures Models({Declared(p.solution)}, st.cs)
  {
    VerdictMeaning(p, solve, st);
    CompileShape(p, st);
    var table := Table(p.actors, p.vectors, p.assets);
    CompiledKeyed(p, st);
    var m := solve(st.cs).holds;
    assert TrueTriples(table, m) == [Declared(p.solution)];
    OnlyTrueTripleModels(st.cs, table, m, Declared(p.solution));
  }

  /** If a model makes exactly one key of the table true, and that key is not forbidden,
      the singleton of that key is a model too, provided every disjunction ranges over
      keys and there is no pairwise exclusion. */
  lemma OnlyTrueTripleModels(cs: seq<Constraint>, table: seq<Triple>, m: set<Triple>, d: Triple)
    requires Horn(cs) && AnyOfsInTable(cs, table) && Models(m, cs)
    requires TrueTriples(table, m) == [d] && d !in Forbidden(cs)
    ensures Models({d}, cs)
  {
    forall i | 0 <= i < |cs| ensures Holds({d}, cs[i]) {
      assert Keyed(cs[i], table) && Holds(m, cs[i]);
      match cs[i]
      case Forbid(t) => assert t in Forbidden(cs);
      case AnyOf(ts) =>
        var k :| 0 <= k < |ts| && ts[k] in m;
        assert ts[k] in TrueTriples(table, m);
      case NotBoth(_, _) =>
    }
  }

  /** The compiled constraints only name keys of the table in their disjunctions. */
  lemma CompiledKeyed(p: Puzzle, st: ClueState)
    requires Compile(p) == Ok(st)
    ensures AnyOfsInTable(st.cs, Table(p.actors, p.vectors, p.assets))
  {
    var table := Table(p.actors, p.vectors, p.assets);
    CardinalityIsAtLeastOne(table);
    assert Keyed(AnyOf(table), table);
    assert AnyOfsInTable([AnyOf(table)], table);
    RunInTable(p, table, ClueState(Cardinality(table), Unbound), p.clues);
  }

  /** A disjunction whose every disjunct is a key of the table; literals trivially. */
  predicate Keyed(c: Constraint, table: seq<Triple>)
  {
    c.AnyOf? ==> forall k :: 0 <= k < |c.ts| ==> c.ts[k] in table
  }

  predicate AnyOfsInTable(cs: seq<Constraint>, table: seq<Triple>)
  {
    forall i :: 0 <= i < |cs| ==> Keyed(cs[i], table)
  }

  lemma {:induction false} RunInTable(p: Puzzle, table: seq<Triple>, st: ClueState, clues: seq<Clue>)
    requires Run(p, table, st, clues).Ok?
    requires AnyOfsInTable(st.cs, table)
    ensures AnyOfsInTable(Run(p, table, st, clues).value.cs, table)
  {
    if clues != [] {
      var prefix := clues[..|clues| - 1];
      RunInTable(p, table, st, prefix);
      var mid := Run(p, table, st, prefix).value;
      StepInTable(p, table, mid, clues[|clues| - 1]);
    }
  }

  /** One step keeps every disjunct a key of the table: only the affirmative branch adds a
      disjunction, and it looks every disjunct up first. */
  lemma StepInTable(p: Puzzle, table: seq<Triple>, st: ClueState, clue: Clue)
    requires Step(p, table, st, clue).Ok?
    requires AnyOfsInTable(st.cs, table)
    ensures AnyOfsInTable(Step(p, table, st, clue).value.cs, table)
  {
    var s := Step(p, table, st, clue).value;
    if clue.kind == "negation" {
      NegationAddsLiterals(p, table, st, clue.text, s);
    } else if clue.kind == "affirmative" {
      var c := AffirmativeAddsKeyed(p, table, st, clue.text, s);
    } else if clue.kind == "relational" {
      var d := RelationalForbids(table, p.actors, st.parts);
      RelationalAddsLiterals(table, p.actors, st.parts, d);
      assert s.cs == st.cs + d;
    } else if clue.kind == "conditional" {
      ConditionalAddsLiterals(p, table, st, clue.text, s);
    }
    forall i | 0 <= i < |s.cs| ensures Keyed(s.cs[i], table) {
      if i < |st.cs| {
        assert s.cs[i] == st.cs[i];
      } else {
        assert s.cs[i] in s.cs[|st.cs|..];
      }
    }
  }

  lemma NegationAddsLiterals(p: Puzzle, table: seq<Triple>, st: ClueState, text: string, s: ClueState)
    requires NegationStep(p, table, st, text) == Ok(s)
    ensures st.cs <= s.cs && forall i :: |st.cs| <= i < |s.cs| ==> s.cs[i].Forbid?
  {
  }

  lemma ConditionalAddsLiterals(p: Puzzle, table: seq<Triple>, st: ClueState, text: string, s: ClueState)
    requires ConditionalStep(p, table, st, text) == Ok(s)
    ensures st.cs <= s.cs && forall i :: |st.cs| <= i < |s.cs| ==> s.cs[i].Forbid?
  {
  }

  /** The affirmative branch appends one disjunction, built only after every disjunct was
      found in the table. */
  lemma AffirmativeAddsKeyed(p: Puzzle, table: seq<Triple>, st: ClueState, text: string, s: ClueState)
    returns (c: Constraint)
    requires AffirmativeStep(p, table, st, text) == Ok(s)
    ensures s.cs == st.cs + [c] && c.AnyOf? && Keyed(c, table)
  {
    var ps := Words(text);
    c := AnyActor(table, p.actors, ps[0], Strip(ps[|ps| - 1], {'.'})).value;
    KeyedAnyActor(table, p.actors, ps[0], Strip(ps[|ps| - 1], {'.'}), c);
  }

  lemma KeyedAnyActor(table: seq<Triple>, actors: seq<string>, v: string, asset: string, c: Constraint)
    requires AnyActor(table, actors, v, asset) == Ok(c)
    ensures c.AnyOf? && Keyed(c, table)
  {
  }

  /** The stolen-data catalog is read but plays no part in the verdict. */
  lemma StolenDataCatalogUnused(p: Puzzle, other: seq<string>, solve: seq<Constraint> -> Answer)
    ensures Validate(p, solve) == Validate(p.(stolenData := other), solve)
  {
    var q := p.(stolenData := other);
    var table := Table(p.actors, p.vectors, p.assets);
    RunIgnoresStolenData(p, q, table, ClueState(Cardinality(table), Unbound), p.clues);
  }

  lemma {:induction false} RunIgnoresStolenData(p: Puzzle, q: Puzzle, table: seq<Triple>, st: ClueState, clues: seq<Clue>)
    requires q == p.(stolenData := q.stolenData)
    ensures Run(p, table, st, clues) == Run(q, table, st, clues)
  {
    if clues != [] {
      RunIgnoresStolenData(p, q, table, st, clues[..|clues| - 1]);
    }
  }

  // ---------------------------------------------------------------------
  // What each clue type contributes
  // ---------------------------------------------------------------------

  /** A negation clue whose text says "did not use" rules out every asset for its actor
      (first token) and vector (last token without periods). */
  lemma NegationSound(p: Puzzle, st: ClueState, i: nat, ps: seq<string>, m: set<Triple>)
    requires Compile(p) == Ok(st) && Models(m, st.cs)
    requires i < |p.clues| && p.clues[i].kind == "negation"
    requires Contains(p.clues[i].text, "did not use") && ps == Words(p.clues[i].text)
    ensures ps != [] &&
      forall k :: 0 <= k < |p.assets| ==> Triple(ps[0], Strip(ps[|ps| - 1], {'.'}), p.assets[k]) !in m
  {
    var before, after := ClueStates(p, st, i);
    var d := NegationAppends(p, Table(p.actors, p.vectors, p.assets), before, after, p.clues[i], ps);
    ForbidsRuledOut(ps[0], Strip(ps[|ps| - 1], {'.'}), p.assets, d, before.cs, st.cs, m);
  }

  /** A negation step that succeeds on a "did not use" clue appends one literal per asset
      for its actor and vector. */
  lemma NegationAppends(p: Puzzle, table: seq<Triple>, before: ClueState, after: ClueState,
                         c: Clue, ps: seq<string>)
    returns (d: seq<Constraint>)
    requires c.kind == "negation" && Contains(c.text, "did not use") && ps == Words(c.text)
    requires Step(p, table, before, c) == Ok(after)
    ensures ps != [] && d == Forbids(ps[0], Strip(ps[|ps| - 1], {'.'}), p.assets)
    ensures after.cs == before.cs + d
  {
    assert NegationStep(p, table, before, c.text) == Ok(after);
    assert ps != [];
    d := Forbids(ps[0], Strip(ps[|ps| - 1], {'.'}), p.assets);
  }

  /** One literal per entry of `ts` for (a, v), appended and kept, rules each (a, v, t) out
      of every model. */
  lemma ForbidsRuledOut(a: string, v: string, ts: seq<string>, d: seq<Constraint>,
                        head: seq<Constraint>, all: seq<Constraint>, m: set<Triple>)
    requires d == Forbids(a, v, ts)
    requires head + d <= all && Models(m, all)
    ensures forall k :: 0 <= k < |ts| ==> Triple(a, v, ts[k]) !in m
  {
    AppendedForbidden(head, d, all, m);
    forall k | 0 <= k < |ts| ensures Triple(a, v, ts[k]) !in m {
      assert d[k] == Forbid(Triple(a, v, ts[k]));
    }
  }

  /** A negation clue naming an actor or vector outside the catalogs raises KeyError once
      the clues before it have been read, and no verdict is returned. */
  lemma NegationUnknownRaises(p: Puzzle, solve: seq<Constraint> -> Answer, i: nat, ps: seq<string>)
    requires p.actors != [] && p.vectors != [] && p.assets != []
    requires i < |p.clues| && p.clues[i].kind == "negation"
    requires Contains(p.clues[i].text, "did not use") && ps == Words(p.clues[i].text)
    requires Run(p, Table(p.actors, p.vectors, p.assets),
                 ClueState(Cardinality(Table(p.actors, p.vectors, p.assets)), Unbound), p.clues[..i]).Ok?
    requires ps != [] && (ps[0] !in p.actors || Strip(ps[|ps| - 1], {'.'}) !in p.vectors)
    ensures Validate(p, solve) == Raised(KeyError)
  {
    var table := Table(p.actors, p.vectors, p.assets);
    var s := Run(p, table, ClueState(Cardinality(table), Unbound), p.clues[..i]).value;
    var t := Triple(ps[0], Strip(ps[|ps| - 1], {'.'}), p.assets[0]);
    MissingKey(p, t);
    NegationUnknownStep(p, table, s, p.clues[i], ps);
    RaisedAt(p, solve, i, s, KeyError);
  }

  /** A triple whose actor or vector or asset is outside the catalogs is not a key of the
      table, and the table of non-empty catalogs is not empty. */
  lemma MissingKey(p: Puzzle, t: Triple)
    requires p.actors != [] && p.vectors != [] && p.assets != []
    requires t.actor !in p.actors || t.vector !in p.vectors || t.asset !in p.assets
    ensures t !in Table(p.actors, p.vectors, p.assets)
    ensures Table(p.actors, p.vectors, p.assets) != []
  {
    InTable(p.actors, p.vectors, p.assets, t);
    InTable(p.actors, p.vectors, p.assets, Triple(p.actors[0], p.vectors[0], p.assets[0]));
  }

  /** A negation clue without the phrase "did not use" adds nothing; it only rebinds the
      tokens. */
  lemma NegationWithoutPhraseInert(p: Puzzle, table: seq<Triple>, st: ClueState, text: string,
                                   ps: seq<string>)
    requires !Contains(text, "did not use") && ps == Words(text)
    ensures Step(p, table, st, Clue(text, "negation")) == Ok(ClueState(st.cs, Bound(ps)))
  {
  }

  /** The negation step itself: a "did not use" clue whose actor or vector is not in the
      catalogs looks up a missing key. */
  lemma NegationUnknownStep(p: Puzzle, table: seq<Triple>, st: ClueState, c: Clue, ps: seq<string>)
    requires p.assets != []
    requires c.kind == "negation" && Contains(c.text, "did not use") && ps == Words(c.text)
    requires ps != [] && Triple(ps[0], Strip(ps[|ps| - 1], {'.'}), p.assets[0]) !in table
    ensures Step(p, table, st, c) == Err(KeyError)
  {
  }

  /** A clue that raises after the clues before it were read makes the whole call raise
      the same exception. */
  lemma RaisedAt(p: Puzzle, solve: seq<Constraint> -> Answer, i: nat, s: ClueState, e: PyError)
    requires i < |p.clues|
    requires var table := Table(p.actors, p.vectors, p.assets);
      table != [] &&
      Run(p, table, ClueState(Cardinality(table), Unbound), p.clues[..i]) == Ok(s) &&
      Step(p, table, s, p.clues[i]) == Err(e)
    ensures Validate(p, solve) == Raised(e)
  {
    var table := Table(p.actors, p.vectors, p.assets);
    var init := ClueState(Cardinality(table), Unbound);
    RunSnoc(p, table, init, p.clues, i);
    RunStopsAtError(p, table, init, p.clues, i + 1);
  }

  /** An affirmative clue forces some actor to have used its vector (first token) against
      its asset (last token without periods). */
  lemma AffirmativeSound(p: Puzzle, st: ClueState, i: nat, ps: seq<string>, m: set<Triple>)
    requires Compile(p) == Ok(st) && Models(m, st.cs)
    requires i < |p.clues| && p.clues[i].kind == "affirmative" && ps == Words(p.clues[i].text)
    ensures ps != [] &&
      exists k :: 0 <= k < |p.actors| && Triple(p.actors[k], ps[0], Strip(ps[|ps| - 1], {'.'})) in m
  {
    var before, after := ClueStates(p, st, i);
    var c := AffirmativeAppends(p, Table(p.actors, p.vectors, p.assets), before, after, p.clues[i], ps);
    var j := |before.cs|;
    assert st.cs[j] == after.cs[j] == c;
    assert Holds(m, st.cs[j]);
  }

  /** An affirmative step that succeeds appends the disjunction over actors of its vector
      and asset. */
  lemma AffirmativeAppends(p: Puzzle, table: seq<Triple>, before: ClueState, after: ClueState,
                           clue: Clue, ps: seq<string>)
    returns (c: Constraint)
    requires clue.kind == "affirmative" && ps == Words(clue.text)
    requires Step(p, table, before, clue) == Ok(after)
    ensures ps != [] && after.cs == before.cs + [c]
    ensures c.AnyOf? && |c.ts| == |p.actors|
    ensures forall k :: 0 <= k < |p.actors| ==> c.ts[k] == Triple(p.actors[k], ps[0], Strip(ps[|ps| - 1], {'.'}))
  {
    assert AffirmativeStep(p, table, before, clue.text) == Ok(after);
    c := after.cs[|before.cs|];
  }

  /** An affirmative clue with empty text raises IndexError; one whose vector or asset is
      outside the catalogs raises KeyError. */
  lemma AffirmativeRaises(p: Puzzle, table: seq<Triple>, st: ClueState, text: string, ps: seq<string>)
    requires p.actors != [] && table == Table(p.actors, p.vectors, p.assets) && ps == Words(text)
    ensures ps == [] ==> Step(p, table, st, Clue(text, "affirmative")) == Err(IndexError)
    ensures ps != [] && (ps[0] !in p.vectors || Strip(ps[|ps| - 1], {'.'}) !in p.assets) ==>
      Step(p, table, st, Clue(text, "affirmative")) == Err(KeyError)
  {
    if ps != [] && (ps[0] !in p.vectors || Strip(ps[|ps| - 1], {'.'}) !in p.assets) {
      var t := Triple(p.actors[0], ps[0], Strip(ps[|ps| - 1], {'.'}));
      InTable(p.actors, p.vectors, p.assets, t);
      AffirmativeUnknownStep(p, table, st, text, ps);
    }
  }

  /** The conditional branch raises IndexError on an empty text and on an "If ... then"
      text too short for `parts[3]`; it raises KeyError when the actor or vector is unknown
      and some asset other than the named one is looked up. */
  lemma ConditionalRaises(p: Puzzle, table: seq<Triple>, st: ClueState, text: string,
                          ps: seq<string>)
    requires table == Table(p.actors, p.vectors, p.assets) && ps == Words(Remove(text, ','))
    ensures ps == [] ==> Step(p, table, st, Clue(text, "conditional")) == Err(IndexError)
    ensures ps != [] && ps[0] == "If" && "then" in ps && |ps| < 4 ==>
      Step(p, table, st, Clue(text, "conditional")) == Err(IndexError)
    ensures (|ps| >= 4 && ps[0] == "If" && "then" in ps &&
             (ps[1] !in p.actors || ps[3] !in p.vectors) &&
             exists k :: 0 <= k < |p.assets| && p.assets[k] != Strip(ps[|ps| - 1], {'.'})) ==>
      Step(p, table, st, Clue(text, "conditional")) == Err(KeyError)
  {
    if |ps| >= 4 && ps[0] == "If" && "then" in ps &&
       (ps[1] !in p.actors || ps[3] !in p.vectors) &&
       (exists k :: 0 <= k < |p.assets| && p.assets[k] != Strip(ps[|ps| - 1], {'.'})) {
      var asset := Strip(ps[|ps| - 1], {'.'});
      var k :| 0 <= k < |p.assets| && p.assets[k] != asset;
      OthersExclude(p.assets, asset);
      assert p.assets[k] in Others(p.assets, asset);
      InTable(p.actors, p.vectors, p.assets, Triple(ps[1], ps[3], p.assets[k]));
      ConditionalUnknownStep(p, table, st, text, ps, p.assets[k]);
    }
    assert Clue(text, "conditional").kind == "conditional";
  }

  /** The conditional step itself: a missing key among the other assets raises. */
  lemma ConditionalUnknownStep(p: Puzzle, table: seq<Triple>, st: ClueState, text: string,
                               ps: seq<string>, t: string)
    requires ps == Words(Remove(text, ',')) && |ps| >= 4 && ps[0] == "If" && "then" in ps
    requires t in Others(p.assets, Strip(ps[|ps| - 1], {'.'})) && Triple(ps[1], ps[3], t) !in table
    ensures ConditionalStep(p, table, st, text) == Err(KeyError)
  {
    var others := Others(p.assets, Strip(ps[|ps| - 1], {'.'}));
    ForbidAssetsMissing(table, ps[1], ps[3], others, t);
  }

  /** The asset loop raises as soon as one of its keys is missing. */
  lemma ForbidAssetsMissing(table: seq<Triple>, a: string, v: string, ts: seq<string>, t: string)
    requires t in ts && Triple(a, v, t) !in table
    ensures ForbidAssets(table, a, v, ts) == Err(KeyError)
  {
    var j :| 0 <= j < |ts| && ts[j] == t;
    assert Triple(a, v, ts[j]) !in table;
  }

  /** The affirmative step itself: the first actor's key for the clue's vector and asset
      is looked up first, so its absence raises. */
  lemma AffirmativeUnknownStep(p: Puzzle, table: seq<Triple>, st: ClueState, text: string,
                               ps: seq<string>)
    requires p.actors != [] && ps == Words(text)
    requires ps != [] && Triple(p.actors[0], ps[0], Strip(ps[|ps| - 1], {'.'})) !in table
    ensures Step(p, table, st, Clue(text, "affirmative")) == Err(KeyError)
  {
  }

  /** A relational clue never raises and never reads its own text. */
  lemma RelationalIgnoresText(p: Puzzle, table: seq<Triple>, st: ClueState, x: string, y: string)
    ensures Step(p, table, st, Clue(x, "relational")).Ok?
    ensures Step(p, table, st, Clue(x, "relational")) == Step(p, table, st, Clue(y, "relational"))
    ensures Step(p, table, st, Clue(x, "relational")).value.parts == st.parts
  {
  }

  /** The tokens a relational clue reads: those of the latest earlier negation,
      affirmative or conditional clue, or none. */
  function LatestParts(clues: seq<Clue>): Tokens
  {
    if clues == [] then Unbound
    else
      var c := clues[|clues| - 1];
      if c.kind == "negation" || c.kind == "affirmative" then Bound(Words(c.text))
      else if c.kind == "conditional" then Bound(Words(Remove(c.text, ',')))
      else LatestParts(clues[..|clues| - 1])
  }

  /** The `parts` carried between clues is exactly the token list of the most recent
      negation, affirmative or conditional clue. */
  lemma {:induction false} PartsAreStale(p: Puzzle, table: seq<Triple>, cs: seq<Constraint>, clues: seq<Clue>)
    requires Run(p, table, ClueState(cs, Unbound), clues).Ok?
    ensures Run(p, table, ClueState(cs, Unbound), clues).value.parts == LatestParts(clues)
  {
    if clues != [] {
      PartsAreStale(p, table, cs, clues[..|clues| - 1]);
    }
  }

  /** On the real table the relational loop is all or nothing: the actor does not decide
      whether a key exists. */
  lemma RelationalAllOrNothing(p: Puzzle, v: string, asset: string)
    requires p.actors != []
    ensures var n := LeadingFound(Table(p.actors, p.vectors, p.assets), p.actors, v, asset);
      (n == |p.actors| <==> v in p.vectors && asset in p.assets) &&
      (n == 0 <==> !(v in p.vectors && asset in p.assets))
  {
    var table := Table(p.actors, p.vectors, p.assets);
    var n := LeadingFound(table, p.actors, v, asset);
    if v in p.vectors && asset in p.assets {
      forall k | 0 <= k < |p.actors| ensures Triple(p.actors[k], v, asset) in table {
        InTable(p.actors, p.vectors, p.assets, Triple(p.actors[k], v, asset));
      }
    } else {
      InTable(p.actors, p.vectors, p.assets, Triple(p.actors[0], v, asset));
    }
  }

  /** When the stale tokens of the clue before a relational clue name a catalog vector at
      position 5 and a catalog asset last, every actor is ruled out for that pair. */
  lemma RelationalSound(p: Puzzle, st: ClueState, i: nat, ps: seq<string>, m: set<Triple>)
    requires Compile(p) == Ok(st) && Models(m, st.cs)
    requires i < |p.clues| && p.clues[i].kind == "relational"
    requires LatestParts(p.clues[..i]) == Bound(ps)
    requires |ps| > 5 && ps[5] in p.vectors && Strip(ps[|ps| - 1], {'.'}) in p.assets
    ensures forall k :: 0 <= k < |p.actors| ==> Triple(p.actors[k], ps[5], Strip(ps[|ps| - 1], {'.'})) !in m
  {
    var before, after := ClueStates(p, st, i);
    var v, asset := ps[5], Strip(ps[|ps| - 1], {'.'});
    RelationalCovers(p, v, asset);
    RelationalAppends(p, Table(p.actors, p.vectors, p.assets), before, after, p.clues[i], ps);
    ActorsRuledOut(p, ForbidActors(p.actors, v, asset, |p.actors|), before.cs, v, asset, st.cs, m);
  }

  /** The relational step from `before` to `after`, on tokens that name catalog entries,
      appends one literal per actor. */
  lemma RelationalAppends(p: Puzzle, table: seq<Triple>, before: ClueState, after: ClueState,
                           c: Clue, ps: seq<string>)
    requires c.kind == "relational" && before.parts == Bound(ps)
    requires |ps| > 5 && LeadingFound(table, p.actors, ps[5], Strip(ps[|ps| - 1], {'.'})) == |p.actors|
    requires Step(p, table, before, c) == Ok(after)
    ensures after.cs == before.cs + ForbidActors(p.actors, ps[5], Strip(ps[|ps| - 1], {'.'}), |p.actors|)
  {
    RelationalStep(p, table, before, c);
  }

  /** On the real table, a catalog vector and asset have a key for every actor. */
  lemma RelationalCovers(p: Puzzle, v: string, asset: string)
    requires v in p.vectors && asset in p.assets
    ensures LeadingFound(Table(p.actors, p.vectors, p.assets), p.actors, v, asset) == |p.actors|
  {
    if p.actors != [] {
      RelationalAllOrNothing(p, v, asset);
    }
  }

  /** One literal per actor for (v, asset), appended and kept, leaves no actor for that
      pair in any model. */
  lemma ActorsRuledOut(p: Puzzle, d: seq<Constraint>, head: seq<Constraint>, v: string,
                       asset: string, all: seq<Constraint>, m: set<Triple>)
    requires d == ForbidActors(p.actors, v, asset, |p.actors|)
    requires head + d <= all && Models(m, all)
    ensures forall k :: 0 <= k < |p.actors| ==> Triple(p.actors[k], v, asset) !in m
  {
    AppendedForbidden(head, d, all, m);
    forall k | 0 <= k < |p.actors| ensures Triple(p.actors[k], v, asset) !in m {
      assert d[k] == Forbid(Triple(p.actors[k], v, asset));
    }
  }

  /** A literal appended by a step rules its triple out of every model of a constraint
      list that extends the result. */
  lemma AppendedForbidden(head: seq<Constraint>, d: seq<Constraint>, all: seq<Constraint>,
                          m: set<Triple>)
    requires head + d <= all && Models(m, all)
    ensures forall k :: 0 <= k < |d| && d[k].Forbid? ==> d[k].t !in m
  {
    forall k | 0 <= k < |d| && d[k].Forbid? ensures d[k].t !in m {
      assert all[|head| + k] == (head + d)[|head| + k] == d[k];
      assert Holds(m, all[|head| + k]);
    }
  }

  /** With stale tokens that name a catalog vector at position 5 and a catalog asset last,
      a relational clue rules out that pair for every actor. */
  lemma RelationalAddsAll(p: Puzzle, ps: seq<string>)
    requires |ps| > 5 && ps[5] in p.vectors && Strip(ps[|ps| - 1], {'.'}) in p.assets
    ensures RelationalForbids(Table(p.actors, p.vectors, p.assets), p.actors, Bound(ps))
      == ForbidActors(p.actors, ps[5], Strip(ps[|ps| - 1], {'.'}), |p.actors|)
  {
    RelationalCovers(p, ps[5], Strip(ps[|ps| - 1], {'.'}));
  }

  /** A relational clue appends what `RelationalForbids` computes from the carried tokens. */
  lemma RelationalStep(p: Puzzle, table: seq<Triple>, st: ClueState, c: Clue)
    requires c.kind == "relational"
    ensures Step(p, table, st, c) ==
      Ok(ClueState(st.cs + RelationalForbids(table, p.actors, st.parts), st.parts))
  {
  }

  /** A conditional clue ("If", then "then" among the comma-free tokens) adds only
      literals that rule out its actor and vector with an asset other than the named
      one: it never forces the named triple and never touches another actor. */
  lemma ConditionalOnlyForbidsOthers(p: Puzzle, table: seq<Triple>, st: ClueState, text: string,
                                      ps: seq<string>, s: ClueState)
    requires ps == Words(Remove(text, ','))
    requires Step(p, table, st, Clue(text, "conditional")) == Ok(s)
    ensures st.cs <= s.cs &&
      (ps != [] && ps[0] == "If" && "then" in ps ==>
        forall j :: |st.cs| <= j < |s.cs| ==>
          s.cs[j].Forbid? && s.cs[j].t.actor == ps[1] && s.cs[j].t.vector == ps[3] &&
          s.cs[j].t.asset != Strip(ps[|ps| - 1], {'.'})) &&
      (!(ps != [] && ps[0] == "If" && "then" in ps) ==> s.cs == st.cs)
  {
    if ps != [] && ps[0] == "If" && "then" in ps {
      var asset := Strip(ps[|ps| - 1], {'.'});
      var others := Others(p.assets, asset);
      OthersExclude(p.assets, asset);
      assert s.cs == st.cs + Forbids(ps[1], ps[3], others);
      forall j | |st.cs| <= j < |s.cs| ensures s.cs[j].t.asset != asset {
        assert others[j - |st.cs|] in others;
      }
    }
  }

  lemma {:induction false} OthersExclude(assets: seq<string>, asset: string)
    ensures forall t :: t in Others(assets, asset) <==> t in assets && t != asset
  {
    if assets != [] {
      var n := |assets| - 1;
      OthersExclude(assets[..n], asset);
      assert assets == assets[..n] + [assets[n]];
    }
  }

  /** In every model, the actor and vector of a conditional clue are not paired with any
      asset except the named one. */
  lemma ConditionalSound(p: Puzzle, st: ClueState, i: nat, ps: seq<string>, m: set<Triple>)
    requires Compile(p) == Ok(st) && Models(m, st.cs)
    requires i < |p.clues| && p.clues[i].kind == "conditional"
    requires ps == Words(Remove(p.clues[i].text, ',')) && ps != [] && ps[0] == "If" && "then" in ps
    ensures |ps| >= 4 &&
      forall k :: 0 <= k < |p.assets| && p.assets[k] != Strip(ps[|ps| - 1], {'.'}) ==>
        Triple(ps[1], ps[3], p.assets[k]) !in m
  {
    var before, after := ClueStates(p, st, i);
    var asset := Strip(ps[|ps| - 1], {'.'});
    var d := ConditionalAppends(p, Table(p.actors, p.vectors, p.assets), before, after, p.clues[i], ps);
    OthersRuledOut(p.assets, ps[1], ps[3], asset, d, before.cs, st.cs, m);
  }

  /** One literal per asset other than `asset` for (a, v), appended and kept, leaves (a, v)
      paired with no other asset in any model. */
  lemma OthersRuledOut(assets: seq<string>, a: string, v: string, asset: string,
                       d: seq<Constraint>, head: seq<Constraint>, all: seq<Constraint>,
                       m: set<Triple>)
    requires d == Forbids(a, v, Others(assets, asset))
    requires head + d <= all && Models(m, all)
    ensures forall k :: 0 <= k < |assets| && assets[k] != asset ==> Triple(a, v, assets[k]) !in m
  {
    var others := Others(assets, asset);
    OthersExclude(assets, asset);
    ForbidsRuledOut(a, v, others, d, head, all, m);
    forall k | 0 <= k < |assets| && assets[k] != asset ensures Triple(a, v, assets[k]) !in m {
      assert assets[k] in others;
    }
  }

  /** A conditional step that succeeds on an "If ... then" clue has at least four tokens
      and appends one literal per other asset. */
  lemma ConditionalAppends(p: Puzzle, table: seq<Triple>, before: ClueState, after: ClueState,
                            c: Clue, ps: seq<string>)
    returns (d: seq<Constraint>)
    requires c.kind == "conditional"
    requires ps == Words(Remove(c.text, ',')) && ps != [] && ps[0] == "If" && "then" in ps
    requires Step(p, table, before, c) == Ok(after)
    ensures |ps| >= 4 &&
      d == Forbids(ps[1], ps[3], Others(p.assets, Strip(ps[|ps| - 1], {'.'}))) &&
      after.cs == before.cs + d
  {
    d := Forbids(ps[1], ps[3], Others(p.assets, Strip(ps[|ps| - 1], {'.'})));
  }

  /** Data-inference clues and clues of any unrecognised type add nothing and leave the
      carried tokens alone. */
  lemma OtherTypesInert(p: Puzzle, table: seq<Triple>, st: ClueState, clue: Clue)
    requires clue.kind !in {"negation", "affirmative", "relational", "conditional"}
    ensures Step(p, table, st, clue) == Ok(st)
  {
  }
}
