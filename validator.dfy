/** The puzzle validation engine `validate_puzzle`: it builds one Boolean variable per
    (actor, vector, asset) triple, adds an at-least-one clause, turns each clue into
    constraints by splitting its text into tokens, asks a solver for a model and
    classifies the answer.

    The solver is an oracle `solve`: given the constraints it answers `Unsat` or a truth
    assignment. What the validator returns depends on which assignment it gets, so the
    model keeps `solve` as a parameter and the lemmas in ValidatorProperties assume only
    that its answer is sound. */
module Validator {
  import opened Text

  datatype Triple = Triple(actor: string, vector: string, asset: string)

  /** A constraint handed to the solver. The validator emits negative unit literals
      (`Forbid`) and positive disjunctions (`AnyOf`); `NotBoth` is the pairwise
      at-most-one shape its zip loop would add, and never does. */
  datatype Constraint =
    | Forbid(t: Triple)
    | AnyOf(ts: seq<Triple>)
    | NotBoth(t1: Triple, t2: Triple)

  /** A clue as the validator reads it: free text and its type string. */
  datatype Clue = Clue(text: string, kind: string)

  datatype Solution = Solution(actor: string, vector: string, asset: string, stolenData: string)

  datatype Puzzle = Puzzle(
    actors: seq<string>,
    vectors: seq<string>,
    assets: seq<string>,
    stolenData: seq<string>,
    solution: Solution,
    clues: seq<Clue>)

  /** The exceptions that escape `validate_puzzle`; `Z3Exception` is what z3's `Or()`
      raises when it is given no arguments. */
  datatype PyError = KeyError | IndexError | Z3Exception

  datatype Result<T> = Ok(value: T) | Err(error: PyError)

  /** The solver's answer; `holds` is the set of triples whose variable is true. */
  datatype Answer = Unsat | Sat(holds: set<Triple>)

  datatype Verdict =
    | Invalid(reason: string)
    | Ambiguous(solutions: seq<Triple>)
    | Mismatch(found: Triple, expected: Triple)
    | DataNotInferable
    | Valid(solution: Solution)

  /** A call either returns a verdict or raises. */
  datatype Outcome = Returned(verdict: Verdict) | Raised(error: PyError)

  /** The local `parts`, which is unbound until the first clue that assigns it. */
  datatype Tokens = Unbound | Bound(words: seq<string>)

  /** What the clue loop carries from one clue to the next. */
  datatype ClueState = ClueState(cs: seq<Constraint>, parts: Tokens)

  const UnsatReason := "unsatisfiable (no solutions)"

  // ---------------------------------------------------------------------
  // Meaning of the constraints
  // ---------------------------------------------------------------------

  predicate Holds(m: set<Triple>, c: Constraint)
  {
    match c
    case Forbid(t) => t !in m
    case AnyOf(ts) => exists i :: 0 <= i < |ts| && ts[i] in m
    case NotBoth(t1, t2) => !(t1 in m && t2 in m)
  }

  /** `m` satisfies every constraint in `cs`. */
  predicate Models(m: set<Triple>, cs: seq<Constraint>)
  {
    forall i :: 0 <= i < |cs| ==> Holds(m, cs[i])
  }

  ghost predicate Satisfiable(cs: seq<Constraint>)
  {
    exists m :: Models(m, cs)
  }

  /** What the solver promises: `Unsat` only for unsatisfiable constraints, otherwise an
      assignment that satisfies them all. */
  ghost predicate SoundAnswer(cs: seq<Constraint>, ans: Answer)
  {
    match ans
    case Unsat => !Satisfiable(cs)
    case Sat(m) => Models(m, cs)
  }

  // ---------------------------------------------------------------------
  // The triple table `trip_vars`
  // ---------------------------------------------------------------------

  /** The triples (a, v, t) for t in `assets`, in order. */
  function Cell(a: string, v: string, assets: seq<string>): seq<Triple>
  {
    seq(|assets|, k requires 0 <= k < |assets| => Triple(a, v, assets[k]))
  }

  /** The triples of actor `a`, vector-major. */
  function Row(a: string, vectors: seq<string>, assets: seq<string>): seq<Triple>
  {
    if vectors == [] then []
    else Row(a, vectors[..|vectors| - 1], assets) + Cell(a, vectors[|vectors| - 1], assets)
  }

  /** Every triple, in the order of the three nested loops: actor, then vector, then asset. */
  function Product(actors: seq<string>, vectors: seq<string>, assets: seq<string>): seq<Triple>
  {
    if actors == [] then []
    else Product(actors[..|actors| - 1], vectors, assets) + Row(actors[|actors| - 1], vectors, assets)
  }

  /** Dictionary assignment on the key order: a new key goes last, an old key keeps its place. */
  function Insert(keys: seq<Triple>, t: Triple): seq<Triple>
  {
    if t in keys then keys else keys + [t]
  }

  function InsertAll(keys: seq<Triple>, ts: seq<Triple>): seq<Triple>
  {
    if ts == [] then keys else Insert(InsertAll(keys, ts[..|ts| - 1]), ts[|ts| - 1])
  }

  /** The keys of `trip_vars` in insertion order. */
  function Table(actors: seq<string>, vectors: seq<string>, assets: seq<string>): seq<Triple>
  {
    InsertAll([], Product(actors, vectors, assets))
  }

  /** Fills the triple table as `validate_puzzle` fills `trip_vars`: the outer loop over
      actors; the two inner loops are InsertRow and InsertCell. */
  method BuildTable(actors: seq<string>, vectors: seq<string>, assets: seq<string>)
    returns (keys: seq<Triple>)
    ensures keys == Table(actors, vectors, assets)
  {
    keys := [];
    for i := 0 to |actors|
      invariant keys == InsertAll([], Product(actors[..i], vectors, assets))
    {
      keys := InsertRow(keys, actors[i], vectors, assets);
      InsertAllConcat([], Product(actors[..i], vectors, assets), Row(actors[i], vectors, assets));
      assert actors[..i + 1][..i] == actors[..i];
    }
    assert actors[..|actors|] == actors;
  }

  /** `for v in vectors: for t in assets: trip_vars[(a, v, t)] = ...` */
  method InsertRow(keys: seq<Triple>, a: string, vectors: seq<string>, assets: seq<string>)
    returns (r: seq<Triple>)
    ensures r == InsertAll(keys, Row(a, vectors, assets))
  {
    r := keys;
    for j := 0 to |vectors|
      invariant r == InsertAll(keys, Row(a, vectors[..j], assets))
    {
      r := InsertCell(r, a, vectors[j], assets);
      RowSnoc(a, vectors, assets, j);
      InsertAllConcat(keys, Row(a, vectors[..j], assets), Cell(a, vectors[j], assets));
    }
    assert vectors[..|vectors|] == vectors;
  }

  /** `for t in assets: trip_vars[(a, v, t)] = ...` */
  method InsertCell(keys: seq<Triple>, a: string, v: string, assets: seq<string>)
    returns (r: seq<Triple>)
    ensures r == InsertAll(keys, Cell(a, v, assets))
  {
    r := keys;
    for k := 0 to |assets|
      invariant r == InsertAll(keys, Cell(a, v, assets[..k]))
    {
      var key := Triple(a, v, assets[k]);
      CellSnoc(a, v, assets, k);
      InsertAllSnoc(keys, Cell(a, v, assets[..k]), key);
      r := Insert(r, key);
    }
    assert assets[..|assets|] == assets;
  }

  lemma {:induction false} InsertAllConcat(keys: seq<Triple>, s: seq<Triple>, t: seq<Triple>)
    ensures InsertAll(keys, s + t) == InsertAll(InsertAll(keys, s), t)
  {
    if t == [] {
      assert s + t == s;
    } else {
      var n := |t| - 1;
      assert (s + t)[..|s + t| - 1] == s + t[..n];
      InsertAllConcat(keys, s, t[..n]);
    }
  }

  lemma InsertAllSnoc(keys: seq<Triple>, s: seq<Triple>, x: Triple)
    ensures InsertAll(keys, s + [x]) == Insert(InsertAll(keys, s), x)
  {
    assert (s + [x])[..|s|] == s;
  }

  lemma CellSnoc(a: string, v: string, assets: seq<string>, k: nat)
    requires k < |assets|
    ensures Cell(a, v, assets[..k + 1]) == Cell(a, v, assets[..k]) + [Triple(a, v, assets[k])]
  {
  }

  lemma RowSnoc(a: string, vectors: seq<string>, assets: seq<string>, j: nat)
    requires j < |vectors|
    ensures Row(a, vectors[..j + 1], assets) == Row(a, vectors[..j], assets) + Cell(a, vectors[j], assets)
  {
    assert vectors[..j + 1][..j] == vectors[..j];
  }

  // ---------------------------------------------------------------------
  // The cardinality constraints
  // ---------------------------------------------------------------------

  /** The constraints of `for t1, t2 in zip(xs, ys): if t1 is not t2: add Not(And(t1, t2))`. */
  function ZipNotBoth(xs: seq<Triple>, ys: seq<Triple>): seq<Constraint>
    requires |xs| == |ys|
  {
    if xs == [] then []
    else
      var n := |xs| - 1;
      ZipNotBoth(xs[..n], ys[..n]) + (if xs[n] != ys[n] then [NotBoth(xs[n], ys[n])] else [])
  }

  /** The constraints present before any clue: at least one triple, then the zip loop. */
  function Cardinality(table: seq<Triple>): seq<Constraint>
  {
    [AnyOf(table)] + ZipNotBoth(table, table)
  }

  method AddCardinality(keys: seq<Triple>) returns (cs: seq<Constraint>)
    ensures cs == Cardinality(keys)
  {
    cs := [AnyOf(keys)];
    for i := 0 to |keys|
      invariant cs == [AnyOf(keys)] + ZipNotBoth(keys[..i], keys[..i])
    {
      var t1, t2 := keys[i], keys[i];
      assert keys[..i + 1][..i] == keys[..i];
      if t1 != t2 {
        cs := cs + [NotBoth(t1, t2)];
      }
    }
    assert keys[..|keys|] == keys;
  }

  // ---------------------------------------------------------------------
  // Clue encoding: what each branch adds
  // ---------------------------------------------------------------------

  /** `Not(trip_vars[(a, v, t)])` for each t in `ts`, in order. */
  function Forbids(a: string, v: string, ts: seq<string>): seq<Constraint>
  {
    seq(|ts|, k requires 0 <= k < |ts| => Forbid(Triple(a, v, ts[k])))
  }

  /** The loop `for t in ts: add Not(trip_vars[(a, v, t)])`; a missing key raises. */
  function ForbidAssets(table: seq<Triple>, a: string, v: string, ts: seq<string>)
    : Result<seq<Constraint>>
  {
    if forall k :: 0 <= k < |ts| ==> Triple(a, v, ts[k]) in table then Ok(Forbids(a, v, ts))
    else Err(KeyError)
  }

  /** The assets other than `asset`, in order. */
  function Others(assets: seq<string>, asset: string): (r: seq<string>)
  {
    if assets == [] then []
    else
      var n := |assets| - 1;
      Others(assets[..n], asset) + (if assets[n] != asset then [assets[n]] else [])
  }

  /** The disjunction over actors of (a, v, asset), or the KeyError of a missing key. */
  function AnyActor(table: seq<Triple>, actors: seq<string>, v: string, asset: string)
    : Result<Constraint>
  {
    if forall k :: 0 <= k < |actors| ==> Triple(actors[k], v, asset) in table
    then Ok(AnyOf(seq(|actors|, k requires 0 <= k < |actors| => Triple(actors[k], v, asset))))
    else Err(KeyError)
  }

  /** How many leading actors have their (a, v, asset) key in the table: the relational
      loop adds that many literals before a KeyError stops it. */
  function LeadingFound(table: seq<Triple>, actors: seq<string>, v: string, asset: string): (n: nat)
    ensures n <= |actors|
    ensures forall k :: 0 <= k < n ==> Triple(actors[k], v, asset) in table
    ensures n < |actors| ==> Triple(actors[n], v, asset) !in table
  {
    if actors == [] || Triple(actors[0], v, asset) !in table then 0
    else 1 + LeadingFound(table, actors[1..], v, asset)
  }

  /** `Not(trip_vars[(a, v, asset)])` for the first `n` actors a, in order. */
  function ForbidActors(actors: seq<string>, v: string, asset: string, n: nat): seq<Constraint>
    requires n <= |actors|
  {
    seq(n, k requires 0 <= k < n => Forbid(Triple(actors[k], v, asset)))
  }

  /** What the relational branch adds. It reads the stale `parts` of an earlier clue; an
      unbound `parts`, a short list or a missing key is swallowed, and the literals added
      before a missing key stay. */
  function RelationalForbids(table: seq<Triple>, actors: seq<string>, parts: Tokens)
    : seq<Constraint>
  {
    match parts
    case Unbound => []
    case Bound(ps) =>
      if |ps| <= 5 then []
      else
        ForbidLeading(table, actors, ps[5], Strip(ps[|ps| - 1], {'.'}))
  }

  /** The literals the relational loop adds for one (v, asset) before a missing key. */
  function ForbidLeading(table: seq<Triple>, actors: seq<string>, v: string, asset: string)
    : seq<Constraint>
  {
    ForbidActors(actors, v, asset, LeadingFound(table, actors, v, asset))
  }

  function NegationStep(p: Puzzle, table: seq<Triple>, st: ClueState, text: string)
    : Result<ClueState>
  {
    var parts := Words(text);
    if !Contains(text, "did not use") then Ok(ClueState(st.cs, Bound(parts)))
    // `parts[0]`; a text holding the phrase has a word, so this branch is never taken
    else if parts == [] then Err(IndexError)
    else
      var a, v := parts[0], Strip(parts[|parts| - 1], {'.'});
      match ForbidAssets(table, a, v, p.assets)
      case Err(e) => Err(e)
      case Ok(d) => Ok(ClueState(st.cs + d, Bound(parts)))
  }

  function AffirmativeStep(p: Puzzle, table: seq<Triple>, st: ClueState, text: string)
    : Result<ClueState>
  {
    var parts := Words(text);
    if parts == [] then Err(IndexError)
    else
      var v, asset := parts[0], Strip(parts[|parts| - 1], {'.'});
      match AnyActor(table, p.actors, v, asset)
      case Err(e) => Err(e)
      case Ok(c) => Ok(ClueState(st.cs + [c], Bound(parts)))
  }

  function ConditionalStep(p: Puzzle, table: seq<Triple>, st: ClueState, text: string)
    : Result<ClueState>
  {
    var parts := Words(Remove(text, ','));
    if parts == [] then Err(IndexError)
    else if !(parts[0] == "If" && "then" in parts) then Ok(ClueState(st.cs, Bound(parts)))
    else if |parts| < 4 then Err(IndexError)
    else
      var a, v, asset := parts[1], parts[3], Strip(parts[|parts| - 1], {'.'});
      match ForbidAssets(table, a, v, Others(p.assets, asset))
      case Err(e) => Err(e)
      case Ok(d) => Ok(ClueState(st.cs + d, Bound(parts)))
  }

  /** One iteration of the clue loop, dispatched on the clue's type string. */
  function Step(p: Puzzle, table: seq<Triple>, st: ClueState, clue: Clue): Result<ClueState>
  {
    if clue.kind == "negation" then NegationStep(p, table, st, clue.text)
    else if clue.kind == "affirmative" then AffirmativeStep(p, table, st, clue.text)
    else if clue.kind == "relational" then
      Ok(ClueState(st.cs + RelationalForbids(table, p.actors, st.parts), st.parts))
    else if clue.kind == "conditional" then ConditionalStep(p, table, st, clue.text)
    else Ok(st)
  }

  /** The clue loop over `clues`, in order; the first exception stops it. */
  function Run(p: Puzzle, table: seq<Triple>, st: ClueState, clues: seq<Clue>): Result<ClueState>
  {
    if clues == [] then Ok(st)
    else
      match Run(p, table, st, clues[..|clues| - 1])
      case Err(e) => Err(e)
      case Ok(s) => Step(p, table, s, clues[|clues| - 1])
  }

  /** The whole constraint-building phase. Over an empty table the at-least-one clause is
      `Or()` with no arguments, which the z3 Python binding modelled here rejects with an
      exception before any clue is read. */
  function Compile(p: Puzzle): Result<ClueState>
  {
    var table := Table(p.actors, p.vectors, p.assets);
    if table == [] then Err(Z3Exception)
    else Run(p, table, ClueState(Cardinality(table), Unbound), p.clues)
  }

  // ---------------------------------------------------------------------
  // The clue branches as the source runs them
  // ---------------------------------------------------------------------

  /** The negation loop `for t in assets: s.add(Not(trip_vars[(a, v, t)]))`. */
  method ForbidEachAsset(keys: seq<Triple>, cs: seq<Constraint>, a: string, v: string,
                         assets: seq<string>)
    returns (r: Result<seq<Constraint>>)
    ensures r == match ForbidAssets(keys, a, v, assets)
                 case Err(e) => Err(e)
                 case Ok(d) => Ok(cs + d)
  {
    var acc := cs;
    for j := 0 to |assets|
      invariant acc == cs + Forbids(a, v, assets[..j])
      invariant forall k :: 0 <= k < j ==> Triple(a, v, assets[k]) in keys
    {
      var key := Triple(a, v, assets[j]);
      if key !in keys {
        assert ForbidAssets(keys, a, v, assets) == Err(KeyError);
        return Err(KeyError);
      }
      acc := acc + [Forbid(key)];
      assert Forbids(a, v, assets[..j + 1]) == Forbids(a, v, assets[..j]) + [Forbid(key)];
    }
    assert assets[..|assets|] == assets;
    assert ForbidAssets(keys, a, v, assets) == Ok(Forbids(a, v, assets));
    r := Ok(acc);
  }

  /** The conditional loop `for t in assets: if t != asset: s.add(Implies(trip_vars[(a, v, t)], False))`. */
  method ForbidOtherAssets(keys: seq<Triple>, cs: seq<Constraint>, a: string, v: string,
                           assets: seq<string>, asset: string)
    returns (r: Result<seq<Constraint>>)
    ensures r == match ForbidAssets(keys, a, v, Others(assets, asset))
                 case Err(e) => Err(e)
                 case Ok(d) => Ok(cs + d)
  {
    var acc := cs;
    for j := 0 to |assets|
      invariant acc == cs + Forbids(a, v, Others(assets[..j], asset))
      invariant forall t :: t in Others(assets[..j], asset) ==> Triple(a, v, t) in keys
    {
      ghost var done := Others(assets[..j], asset);
      assert assets[..j + 1][..j] == assets[..j];
      if assets[j] != asset {
        var key := Triple(a, v, assets[j]);
        if key !in keys {
          assert assets == assets[..j + 1] + assets[j + 1..];
          OthersAppend(assets[..j + 1], assets[j + 1..], asset);
          assert assets[j] in Others(assets, asset);
          assert ForbidAssets(keys, a, v, Others(assets, asset)) == Err(KeyError);
          return Err(KeyError);
        }
        acc := acc + [Forbid(key)];
        assert Forbids(a, v, done + [assets[j]]) == Forbids(a, v, done) + [Forbid(key)];
      }
    }
    assert assets[..|assets|] == assets;
    ghost var targets := Others(assets, asset);
    assert forall k :: 0 <= k < |targets| ==> targets[k] in targets;
    assert ForbidAssets(keys, a, v, targets) == Ok(Forbids(a, v, targets));
    r := Ok(acc);
  }

  /** `Others` of a concatenation. */
  lemma {:induction false} OthersAppend(xs: seq<string>, ys: seq<string>, asset: string)
    ensures Others(xs + ys, asset) == Others(xs, asset) + Others(ys, asset)
  {
    if ys != [] {
      var n := |ys| - 1;
      assert (xs + ys)[..|xs + ys| - 1] == xs + ys[..n];
      OthersAppend(xs, ys[..n], asset);
    } else {
      assert xs + ys == xs;
    }
  }

  method EncodeNegation(p: Puzzle, keys: seq<Triple>, st: ClueState, text: string)
    returns (r: Result<ClueState>)
    ensures r == NegationStep(p, keys, st, text)
  {
    var parts := Words(text);
    if !Contains(text, "did not use") {
      return Ok(ClueState(st.cs, Bound(parts)));
    }
    if parts == [] {
      return Err(IndexError);
    }
    var a := parts[0];
    var v := Strip(parts[|parts| - 1], {'.'});
    var added := ForbidEachAsset(keys, st.cs, a, v, p.assets);
    match added
    case Err(e) => r := Err(e);
    case Ok(cs) => r := Ok(ClueState(cs, Bound(parts)));
  }

  method EncodeAffirmative(p: Puzzle, keys: seq<Triple>, st: ClueState, text: string)
    returns (r: Result<ClueState>)
    ensures r == AffirmativeStep(p, keys, st, text)
  {
    var parts := Words(text);
    if parts == [] {
      return Err(IndexError);
    }
    var any := RequireAnyActor(keys, p.actors, parts[0], Strip(parts[|parts| - 1], {'.'}));
    match any
    case Err(e) => r := Err(e);
    case Ok(c) => r := Ok(ClueState(st.cs + [c], Bound(parts)));
  }

  /** The affirmative loop collecting `trip_vars[(a, v, asset)]` for every actor a, in
      order, before one `Or` over them; a missing key raises. */
  method RequireAnyActor(keys: seq<Triple>, actors: seq<string>, v: string, asset: string)
    returns (r: Result<Constraint>)
    ensures r == AnyActor(keys, actors, v, asset)
  {
    var require: seq<Triple> := [];
    for i := 0 to |actors|
      invariant require == seq(i, k requires 0 <= k < i => Triple(actors[k], v, asset))
      invariant forall k :: 0 <= k < i ==> Triple(actors[k], v, asset) in keys
    {
      var key := Triple(actors[i], v, asset);
      if key !in keys {
        return Err(KeyError);
      }
      require := require + [key];
    }
    r := Ok(AnyOf(require));
  }

  method EncodeRelational(p: Puzzle, keys: seq<Triple>, st: ClueState)
    returns (r: ClueState)
    ensures r == ClueState(st.cs + RelationalForbids(keys, p.actors, st.parts), st.parts)
  {
    match st.parts
    case Unbound =>
      r := st;
    case Bound(ps) =>
      var cs := ForbidStale(keys, st.cs, p.actors, ps);
      r := ClueState(cs, st.parts);
  }

  /** The relational branch on the tokens `ps` of an earlier clue: nothing when there are
      no more than five, else the actor loop on `ps[5]` and the stripped last token. */
  method ForbidStale(keys: seq<Triple>, cs: seq<Constraint>, actors: seq<string>,
                     ps: seq<string>)
    returns (r: seq<Constraint>)
    ensures r == cs + RelationalForbids(keys, actors, Bound(ps))
  {
    if |ps| > 5 {
      r := ForbidEachActor(keys, cs, actors, ps[5], Strip(ps[|ps| - 1], {'.'}));
    } else {
      r := cs + [];
    }
  }

  /** The relational loop `for a in actors: s.add(Not(trip_vars[(a, v, asset)]))`, whose
      KeyError the surrounding `except` swallows, keeping what was added before it. */
  method ForbidEachActor(keys: seq<Triple>, cs: seq<Constraint>, actors: seq<string>,
                         v: string, asset: string)
    returns (r: seq<Constraint>)
    ensures r == cs + ForbidLeading(keys, actors, v, asset)
  {
    ghost var n := LeadingFound(keys, actors, v, asset);
    r := cs;
    for i := 0 to |actors|
      invariant i <= n
      invariant r == cs + ForbidActors(actors, v, asset, i)
    {
      var key := Triple(actors[i], v, asset);
      if key !in keys {
        assert i == n;
        return;
      }
      assert ForbidActors(actors, v, asset, i + 1) == ForbidActors(actors, v, asset, i) + [Forbid(key)];
      r := r + [Forbid(key)];
    }
    assert n == |actors|;
  }

  method EncodeConditional(p: Puzzle, keys: seq<Triple>, st: ClueState, text: string)
    returns (r: Result<ClueState>)
    ensures r == ConditionalStep(p, keys, st, text)
  {
    var parts := Words(Remove(text, ','));
    if parts == [] {
      return Err(IndexError);
    }
    if !(parts[0] == "If" && "then" in parts) {
      return Ok(ClueState(st.cs, Bound(parts)));
    }
    if |parts| < 4 {
      return Err(IndexError);
    }
    var a, v, asset := parts[1], parts[3], Strip(parts[|parts| - 1], {'.'});
    var added := ForbidOtherAssets(keys, st.cs, a, v, p.assets, asset);
    match added
    case Err(e) => r := Err(e);
    case Ok(cs) => r := Ok(ClueState(cs, Bound(parts)));
  }

  method EncodeClue(p: Puzzle, keys: seq<Triple>, st: ClueState, clue: Clue)
    returns (r: Result<ClueState>)
    ensures r == Step(p, keys, st, clue)
  {
    if clue.kind == "negation" {
      r := EncodeNegation(p, keys, st, clue.text);
    } else if clue.kind == "affirmative" {
      r := EncodeAffirmative(p, keys, st, clue.text);
    } else if clue.kind == "relational" {
      var s := EncodeRelational(p, keys, st);
      r := Ok(s);
    } else if clue.kind == "conditional" {
      r := EncodeConditional(p, keys, st, clue.text);
    } else {
      r := Ok(st);
    }
  }

  // ---------------------------------------------------------------------
  // The verdict
  // ---------------------------------------------------------------------

  /** `[trip for trip, var in trip_vars.items() if model.evaluate(var)]`. */
  function TrueTriples(table: seq<Triple>, m: set<Triple>): (r: seq<Triple>)
    ensures forall t :: t in r <==> t in table && t in m
    ensures |r| <= |table|
  {
    if table == [] then []
    else (if table[0] in m then [table[0]] else []) + TrueTriples(table[1..], m)
  }

  /** `any(ds in clue['text'] for clue in clues)`. */
  predicate Mentions(clues: seq<Clue>, ds: string)
  {
    exists i :: 0 <= i < |clues| && Contains(clues[i].text, ds)
  }

  function Declared(s: Solution): Triple
  {
    Triple(s.actor, s.vector, s.asset)
  }

  /** The straight-line tail of `validate_puzzle`; `true_triples[0]` on an empty list
      raises IndexError. */
  function Classify(p: Puzzle, table: seq<Triple>, ans: Answer): Outcome
  {
    match ans
    case Unsat => Returned(Invalid(UnsatReason))
    case Sat(m) =>
      var found := TrueTriples(table, m);
      if |found| > 1 then Returned(Ambiguous(found))
      else if found == [] then Raised(IndexError)
      else if found[0] != Declared(p.solution) then Returned(Mismatch(found[0], Declared(p.solution)))
      else if !Mentions(p.clues, p.solution.stolenData) then Returned(DataNotInferable)
      else Returned(Valid(p.solution))
  }

  /** `validate_puzzle` as a function of the puzzle and the solver. */
  function Validate(p: Puzzle, solve: seq<Constraint> -> Answer): Outcome
  {
    match Compile(p)
    case Err(e) => Raised(e)
    case Ok(st) => Classify(p, Table(p.actors, p.vectors, p.assets), solve(st.cs))
  }

  /** `validate_puzzle`: the table, the cardinality constraint, the clue loop carrying
      `parts`, and the verdict. */
  method ValidatePuzzle(p: Puzzle, solve: seq<Constraint> -> Answer) returns (r: Outcome)
    ensures r == Validate(p, solve)
  {
    var keys := BuildTable(p.actors, p.vectors, p.assets);
    var compiled := CompileClues(p, keys);
    match compiled
    case Err(e) => r := Raised(e);
    case Ok(st) => r := Classify(p, keys, solve(st.cs));
  }

  /** The cardinality constraint and the clue loop carrying `parts`; the first exception
      leaves the loop. */
  method CompileClues(p: Puzzle, keys: seq<Triple>) returns (r: Result<ClueState>)
    requires keys == Table(p.actors, p.vectors, p.assets)
    ensures r == Compile(p)
  {
    if keys == [] {
      return Err(Z3Exception);
    }
    var cs := AddCardinality(keys);
    var parts := Unbound;
    ghost var init := ClueState(cs, parts);
    for i := 0 to |p.clues|
      invariant Run(p, keys, init, p.clues[..i]) == Ok(ClueState(cs, parts))
    {
      var step := EncodeClue(p, keys, ClueState(cs, parts), p.clues[i]);
      RunSnoc(p, keys, init, p.clues, i);
      match step
      case Err(e) =>
        RunStopsAtError(p, keys, init, p.clues, i + 1);
        assert p.clues[..|p.clues|] == p.clues;
        return Err(e);
      case Ok(next) =>
        cs, parts := next.cs, next.parts;
    }
    assert p.clues[..|p.clues|] == p.clues;
    r := Ok(ClueState(cs, parts));
  }

  /** One more clue: the loop over `clues[..i + 1]` is the loop over `clues[..i]` followed
      by one step. */
  lemma RunSnoc(p: Puzzle, table: seq<Triple>, st: ClueState, clues: seq<Clue>, i: nat)
    requires i < |clues|
    ensures Run(p, table, st, clues[..i + 1]) ==
      match Run(p, table, st, clues[..i])
      case Err(e) => Err(e)
      case Ok(s) => Step(p, table, s, clues[i])
  {
    assert clues[..i + 1][..i] == clues[..i];
  }

  /** Once a clue raises, the whole loop raises the same exception. */
  lemma {:induction false} RunStopsAtError(p: Puzzle, table: seq<Triple>, st: ClueState,
                                           clues: seq<Clue>, j: nat)
    requires j <= |clues|
    requires Run(p, table, st, clues[..j]).Err?
    ensures Run(p, table, st, clues) == Run(p, table, st, clues[..j])
    decreases |clues| - j
  {
    if j < |clues| {
      assert clues[..j + 1][..j] == clues[..j];
      RunStopsAtError(p, table, st, clues, j + 1);
    } else {
      assert clues[..j] == clues;
    }
  }
}
