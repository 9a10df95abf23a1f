/** Two places where the validation engine does not do what its own comments say. Each
    is shown as written on a concrete input, beside a corrected definition with the
    intended property proved. The model of `validate_puzzle` in module Validator keeps
    the behaviour as written. */
module Findings {
  import opened Text
  import opened Validator
  import VP = ValidatorProperties
  import C = Creator
  import RT = RoundTrip

  // ---------------------------------------------------------------------
  // The relational branch
  // ---------------------------------------------------------------------

  /** As written: a relational clue that comes first is read against no tokens at all,
      so it adds nothing, and every model that pairs some actor with its vector and asset
      is still accepted, which is exactly what the clue says did not happen. */
  lemma RelationalFirstRulesOutNothing(p: Puzzle, vector: string, asset: string)
    requires p.actors != [] && vector in p.vectors && asset in p.assets
    requires p.clues == [RT.Record(C.Clue(C.RelationalText(vector, asset), C.Relational))]
    ensures Compile(p) == Ok(ClueState([AnyOf(Table(p.actors, p.vectors, p.assets))], Unbound))
    ensures forall k :: 0 <= k < |p.actors| ==>
      Models({Triple(p.actors[k], vector, asset)}, Compile(p).value.cs)
  {
    var table := Table(p.actors, p.vectors, p.assets);
    VP.InTable(p.actors, p.vectors, p.assets, Triple(p.actors[0], vector, asset));
    VP.CardinalityIsAtLeastOne(table);
    var st := ClueState([AnyOf(table)], Unbound);
    assert p.clues[..0] == [];
    assert Run(p, table, st, []) == Ok(st);
    assert p.clues[0].kind == "relational";
    assert Step(p, table, st, p.clues[0]) == Ok(ClueState(st.cs + [], Unbound));
    assert st.cs + [] == st.cs;
    forall k | 0 <= k < |p.actors|
      ensures Models({Triple(p.actors[k], vector, asset)}, [AnyOf(table)])
    {
      var t := Triple(p.actors[k], vector, asset);
      VP.InTable(p.actors, p.vectors, p.assets, t);
      var i :| 0 <= i < |table| && table[i] == t;
      assert Holds({t}, AnyOf(table));
    }
  }

  /** As written: even read against its own tokens, position 5 of the relational
      sentence is the fixed word "did", not the vector, which sits at position 4. With
      no vector named "did", the branch adds nothing on the real table. */
  lemma RelationalIndexFiveIsDid(p: Puzzle, vector: string, asset: string, ps: seq<string>)
    requires RT.Label(vector) && RT.Label(asset) && ps == Words(C.RelationalText(vector, asset))
    requires p.actors != [] && "did" !in p.vectors
    ensures |ps| == 10
    ensures ps[4] == vector && ps[5] == "did"
    ensures RelationalForbids(Table(p.actors, p.vectors, p.assets), p.actors, Bound(ps)) == []
  {
    RT.RelationalTokens(vector, asset, ps);
    VP.RelationalAllOrNothing(p, "did", Strip(ps[|ps| - 1], {'.'}));
  }

  /** Corrected: the relational branch reads its own tokens, takes the vector at
      position 4 and the asset last, and swallows a short text or a missing key as the
      source does. */
  function RelationalIntendedStep(p: Puzzle, table: seq<Triple>, st: ClueState, text: string)
    : ClueState
  {
    var parts := Words(text);
    if |parts| <= 4 then ClueState(st.cs, Bound(parts))
    else
      ClueState(st.cs + ForbidLeading(table, p.actors, parts[4], Strip(parts[|parts| - 1], {'.'})),
                Bound(parts))
  }

  /** Corrected clue loop step: the relational branch as intended, every other branch as
      written. */
  function IntendedStep(p: Puzzle, table: seq<Triple>, st: ClueState, clue: Clue): Result<ClueState>
  {
    if clue.kind == "relational" then Ok(RelationalIntendedStep(p, table, st, clue.text))
    else Step(p, table, st, clue)
  }

  /** With the correction, a relational clue the authoring tool writes from catalog labels
      forbids its vector and asset for every actor, wherever it stands in the list. */
  lemma RelationalIntendedForbidsAll(p: Puzzle, st: ClueState, vector: string, asset: string,
                                     ps: seq<string>)
    requires RT.Label(vector) && RT.Label(asset) && ps == Words(C.RelationalText(vector, asset))
    requires vector in p.vectors && asset in p.assets
    ensures IntendedStep(p, Table(p.actors, p.vectors, p.assets), st,
                         RT.Record(C.Clue(C.RelationalText(vector, asset), C.Relational)))
      == Ok(ClueState(st.cs + ForbidActors(p.actors, vector, asset, |p.actors|), Bound(ps)))
  {
    RT.RelationalTokens(vector, asset, ps);
    StripPeriod(asset);
    VP.RelationalCovers(p, vector, asset);
  }

  /** With the correction, no model that respects the added literals pairs any actor
      with the clue's vector and asset. */
  lemma RelationalIntendedSound(p: Puzzle, st: ClueState, vector: string, asset: string,
                                ps: seq<string>, m: set<Triple>)
    requires RT.Label(vector) && RT.Label(asset) && ps == Words(C.RelationalText(vector, asset))
    requires vector in p.vectors && asset in p.assets
    requires Models(m, RelationalIntendedStep(p, Table(p.actors, p.vectors, p.assets), st,
                                              C.RelationalText(vector, asset)).cs)
    ensures forall k :: 0 <= k < |p.actors| ==> Triple(p.actors[k], vector, asset) !in m
  {
    var table := Table(p.actors, p.vectors, p.assets);
    RelationalIntendedForbidsAll(p, st, vector, asset, ps);
    var d := ForbidActors(p.actors, vector, asset, |p.actors|);
    VP.ActorsRuledOut(p, d, st.cs, vector, asset, st.cs + d, m);
  }

  // ---------------------------------------------------------------------
  // The "no two triplets" loop
  // ---------------------------------------------------------------------

  /** As written: the cardinality constraints accept a model with two true triples, since
      the zip loop pairs each variable only with itself. */
  lemma TwoTriplesAccepted(t1: Triple, t2: Triple)
    requires t1 != t2
    ensures Models({t1, t2}, Cardinality([t1, t2]))
    ensures TrueTriples([t1, t2], {t1, t2}) == [t1, t2]
  {
    VP.CardinalityIsAtLeastOne([t1, t2]);
    assert [t1, t2][0] == t1;
    assert Holds({t1, t2}, AnyOf([t1, t2]));
    assert [t1, t2][1..] == [t2];
  }

  /** `Not(And(t, u))` for each `u` in `rest`. */
  function NotWith(t: Triple, rest: seq<Triple>): seq<Constraint>
  {
    seq(|rest|, j requires 0 <= j < |rest| => NotBoth(t, rest[j]))
  }

  /** Corrected: `Not(And(t1, t2))` for every pair of distinct positions of the table. */
  function AtMostOne(table: seq<Triple>): seq<Constraint>
  {
    if |table| <= 1 then [] else NotWith(table[0], table[1..]) + AtMostOne(table[1..])
  }

  /** Corrected cardinality: at least one triple and no two. */
  function ExactlyOne(table: seq<Triple>): seq<Constraint>
  {
    [AnyOf(table)] + AtMostOne(table)
  }

  /** The corrected constraints hold exactly when one entry of the table is true, as the
      comment above the loop says. */
  lemma ExactlyOneMeaning(table: seq<Triple>, m: set<Triple>)
    ensures Models(m, ExactlyOne(table)) <==> |TrueTriples(table, m)| == 1
  {
    ModelsConcat(m, [AnyOf(table)], AtMostOne(table));
    AnyOfMeaning(table, m);
    AtMostOneMeaning(table, m);
  }

  lemma ModelsConcat(m: set<Triple>, a: seq<Constraint>, b: seq<Constraint>)
    ensures Models(m, a + b) <==> Models(m, a) && Models(m, b)
  {
    if Models(m, a) && Models(m, b) {
      forall i | 0 <= i < |a + b| ensures Holds(m, (a + b)[i]) {
        if i >= |a| {
          assert (a + b)[i] == b[i - |a|];
        }
      }
    }
    if Models(m, a + b) {
      forall i | 0 <= i < |a| ensures Holds(m, a[i]) {
        assert (a + b)[i] == a[i];
      }
      forall i | 0 <= i < |b| ensures Holds(m, b[i]) {
        assert (a + b)[|a| + i] == b[i];
      }
    }
  }

  /** The disjunction holds exactly when some entry is true. */
  lemma AnyOfMeaning(table: seq<Triple>, m: set<Triple>)
    ensures Models(m, [AnyOf(table)]) <==> |TrueTriples(table, m)| >= 1
  {
    var r := TrueTriples(table, m);
    assert [AnyOf(table)][0] == AnyOf(table);
    if r != [] {
      assert r[0] in r;
      var i :| 0 <= i < |table| && table[i] == r[0];
      assert Holds(m, AnyOf(table));
    }
    if Holds(m, AnyOf(table)) {
      var i :| 0 <= i < |table| && table[i] in m;
      assert table[i] in r;
    }
  }

  /** The pairwise literals hold exactly when at most one entry is true. */
  lemma {:induction false} AtMostOneMeaning(table: seq<Triple>, m: set<Triple>)
    ensures Models(m, AtMostOne(table)) <==> |TrueTriples(table, m)| <= 1
  {
    if |table| <= 1 {
      assert |TrueTriples(table, m)| <= |table|;
    } else {
      var t, rest := table[0], table[1..];
      AtMostOneMeaning(rest, m);
      NotWithMeaning(t, rest, m);
      ModelsConcat(m, NotWith(t, rest), AtMostOne(rest));
      assert TrueTriples(table, m) == (if t in m then [t] else []) + TrueTriples(rest, m);
    }
  }

  /** The literals pairing `t` with each later entry hold exactly when `t` is false or no
      later entry is true. */
  lemma NotWithMeaning(t: Triple, rest: seq<Triple>, m: set<Triple>)
    ensures Models(m, NotWith(t, rest)) <==> !(t in m && |TrueTriples(rest, m)| >= 1)
  {
    var r := TrueTriples(rest, m);
    var d := NotWith(t, rest);
    if t in m && r != [] {
      assert r[0] in r;
      var j :| 0 <= j < |rest| && rest[j] == r[0];
      assert !Holds(m, d[j]);
    }
    if !Models(m, d) {
      var j :| 0 <= j < |d| && !Holds(m, d[j]);
      assert rest[j] in r;
    }
  }
  // ---------------------------------------------------------------------
  // The constraint-building phase with both corrections
  // ---------------------------------------------------------------------

  /** The clue loop over `clues` with the corrected relational branch. */
  function RunIntended(p: Puzzle, table: seq<Triple>, st: ClueState, clues: seq<Clue>)
    : Result<ClueState>
  {
    if clues == [] then Ok(st)
    else
      match RunIntended(p, table, st, clues[..|clues| - 1])
      case Err(e) => Err(e)
      case Ok(s) => IntendedStep(p, table, s, clues[|clues| - 1])
  }

  /** Corrected constraint building: exactly-one cardinality, then the corrected loop. */
  function CompileIntended(p: Puzzle): Result<ClueState>
  {
    var table := Table(p.actors, p.vectors, p.assets);
    if table == [] then Err(Z3Exception)
    else RunIntended(p, table, ClueState(ExactlyOne(table), Unbound), p.clues)
  }

  /** Every corrected step only appends constraints. */
  lemma IntendedStepAppends(p: Puzzle, table: seq<Triple>, st: ClueState, clue: Clue)
    requires IntendedStep(p, table, st, clue).Ok?
    ensures st.cs <= IntendedStep(p, table, st, clue).value.cs
  {
    if clue.kind != "relational" {
      VP.StepAppends(p, table, st, clue);
    }
  }

  lemma {:induction false} RunIntendedAppends(p: Puzzle, table: seq<Triple>, st: ClueState,
                                               clues: seq<Clue>)
    requires RunIntended(p, table, st, clues).Ok?
    ensures st.cs <= RunIntended(p, table, st, clues).value.cs
  {
    if clues != [] {
      var prefix := clues[..|clues| - 1];
      RunIntendedAppends(p, table, st, prefix);
      var mid := RunIntended(p, table, st, prefix).value;
      IntendedStepAppends(p, table, mid, clues[|clues| - 1]);
    }
  }

  /** With the corrections, every assignment the compiled constraints admit makes exactly
      one entry of the table true, as the comments on the cardinality loop intend. */
  lemma CompileIntendedExactlyOne(p: Puzzle, st: ClueState, m: set<Triple>)
    requires CompileIntended(p) == Ok(st) && Models(m, st.cs)
    ensures |TrueTriples(Table(p.actors, p.vectors, p.assets), m)| == 1
  {
    var table := Table(p.actors, p.vectors, p.assets);
    var head := ExactlyOne(table);
    RunIntendedAppends(p, table, ClueState(head, Unbound), p.clues);
    assert st.cs == head + st.cs[|head|..];
    ModelsConcat(m, head, st.cs[|head|..]);
    ExactlyOneMeaning(table, m);
  }
}
