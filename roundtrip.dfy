/** How the validation engine reads the clues the authoring tool writes: each clue text
    splits back into the labels it was built from, the saved type string selects the
    matching branch, and so the constraints rule out what the author's sentence says. */
module RoundTrip {
  import opened Text
  import V = Validator
  import VP = ValidatorProperties
  import C = Creator

  /** A catalog label that survives being written into a clue and read back: one
      whitespace-free token, no comma, and no period at either end. */
  predicate Label(w: string)
  {
    IsWord(w) && ',' !in w && w[0] != '.' && w[|w| - 1] != '.'
  }

  /** The record handed to the validator for a clue: its text and `clue.type.value`. */
  function Record(c: C.Clue): V.Clue
  {
    V.Clue(c.text, C.Value(c.kind))
  }

  // ---------------------------------------------------------------------
  // Splitting the templates
  // ---------------------------------------------------------------------

  lemma JoinCons(w: string, rest: seq<string>, sep: string)
    requires rest != []
    ensures Join([w] + rest, sep) == w + sep + Join(rest, sep)
  {
    assert ([w] + rest)[1..] == rest;
  }

  predicate Letter(c: char) { 'a' <= c <= 'z' || 'A' <= c <= 'Z' }

  /** A fixed word of a template: letters only, so a single comma-free token. */
  lemma Fixed(w: string)
    requires w != [] && forall i :: 0 <= i < |w| ==> Letter(w[i])
    ensures IsWord(w) && ',' !in w
  {
  }

  /** A label followed by a period is still a single token. */
  lemma PeriodWord(w: string)
    requires Label(w)
    ensures IsWord(w + ".")
  {
    var s := w + ".";
    forall k | 0 <= k < |s| ensures !IsSpace(s[k]) {
      if k < |w| {
        assert s[k] == w[k];
      }
    }
  }

  /** The negation sentence splits into the actor, three fixed words and the vector
      with its period, and it holds the phrase the validator looks for. */
  lemma NegationTokens(actor: string, vector: string, ps: seq<string>)
    requires Label(actor) && Label(vector)
    requires ps == Words(C.NegationText(actor, vector))
    ensures ps == [actor, "did", "not", "use", vector + "."]
    ensures Contains(C.NegationText(actor, vector), "did not use")
  {
    var last := vector + ".";
    PeriodWord(vector);
    Fixed("did"); Fixed("not"); Fixed("use");
    WordsOfJoin([actor, "did", "not", "use", last]);
    JoinCons(actor, ["did", "not", "use", last], " ");
    Phrase3("did", "not", "use", last);
    assert C.NegationText(actor, vector) == (actor + " ") + "did not use" + (" " + last);
    ContainsAt(actor + " ", "did not use", " " + last);
  }

  /** Three words and a last one, joined by spaces. */
  lemma Phrase3(a: string, b: string, c: string, last: string)
    ensures Join([a, b, c, last], " ") == (a + " " + b + " " + c) + (" " + last)
  {
    JoinCons(a, [b, c, last], " ");
    JoinCons(b, [c, last], " ");
    JoinCons(c, [last], " ");
  }

  /** The affirmative sentence splits into the vector, four fixed words and the asset
      with its period. */
  lemma AffirmativeTokens(vector: string, asset: string, ps: seq<string>)
    requires Label(vector) && Label(asset)
    requires ps == Words(C.AffirmativeText(vector, asset))
    ensures ps == [vector, "was", "used", "against", "the", asset + "."]
  {
    PeriodWord(asset);
    Fixed("was"); Fixed("used"); Fixed("against"); Fixed("the");
    WordsOfJoin([vector, "was", "used", "against", "the", asset + "."]);
  }

  /** The relational sentence splits into four fixed words, the vector (token 4), four
      more fixed words and the asset with its period. */
  lemma RelationalTokens(vector: string, asset: string, ps: seq<string>)
    requires Label(vector) && Label(asset)
    requires ps == Words(C.RelationalText(vector, asset))
    ensures ps == ["The", "actor", "that", "used", vector, "did", "not", "access", "the", asset + "."]
  {
    PeriodWord(asset);
    Fixed("The"); Fixed("actor"); Fixed("that"); Fixed("used");
    Fixed("did"); Fixed("not"); Fixed("access"); Fixed("the");
    WordsOfJoin(["The", "actor", "that", "used", vector, "did", "not", "access", "the", asset + "."]);
  }

  /** `s.replace(c, '')` applied to each word. */
  function RemoveEach(ws: seq<string>, c: char): seq<string>
  {
    seq(|ws|, i requires 0 <= i < |ws| => Remove(ws[i], c))
  }

  /** Removing a character that is not in the separator removes it from each word. */
  lemma {:induction false} RemoveJoin(ws: seq<string>, sep: string, c: char)
    requires c !in sep
    ensures Remove(Join(ws, sep), c) == Join(RemoveEach(ws, c), sep)
  {
    if |ws| > 1 {
      RemoveJoin(ws[1..], sep, c);
      RemoveConcat(ws[0] + sep, Join(ws[1..], sep), c);
      RemoveConcat(ws[0], sep, c);
      RemoveAbsent(sep, c);
      assert RemoveEach(ws, c)[1..] == RemoveEach(ws[1..], c);
    }
  }

  /** The words of the conditional sentence once its comma is gone. */
  function ConditionalWords(actor: string, vector: string, asset: string): seq<string>
  {
    ["If", actor, "used", vector, "then", "they", "accessed", "the", asset + "."]
  }

  /** Only the word carrying the comma changes when commas are removed. */
  lemma UncommaWords(actor: string, vector: string, asset: string)
    requires Label(actor) && Label(vector) && Label(asset)
    ensures RemoveEach(["If", actor, "used", vector + ",", "then", "they", "accessed", "the", asset + "."], ',')
      == ConditionalWords(actor, vector, asset)
  {
    var a := ["If", actor, "used"];
    var b := ["then", "they", "accessed", "the", asset + "."];
    assert ["If", actor, "used", vector + ",", "then", "they", "accessed", "the", asset + "."]
      == a + [vector + ","] + b;
    assert ConditionalWords(actor, vector, asset) == a + [vector] + b;
    RemoveEachConcat(a + [vector + ","], b, ',');
    RemoveEachConcat(a, [vector + ","], ',');
    RemoveEachClean(a, ',');
    PeriodNoComma(asset);
    RemoveEachClean(b, ',');
    WithoutComma(vector);
    assert RemoveEach([vector + ","], ',') == [vector];
  }

  lemma RemoveEachConcat(a: seq<string>, b: seq<string>, c: char)
    ensures RemoveEach(a + b, c) == RemoveEach(a, c) + RemoveEach(b, c)
  {
  }

  lemma RemoveEachClean(ws: seq<string>, c: char)
    requires forall i :: 0 <= i < |ws| ==> c !in ws[i]
    ensures RemoveEach(ws, c) == ws
  {
    forall i | 0 <= i < |ws| ensures Remove(ws[i], c) == ws[i] {
      RemoveAbsent(ws[i], c);
    }
  }

  lemma WithoutComma(w: string)
    requires ',' !in w
    ensures Remove(w + ",", ',') == w
  {
    RemoveConcat(w, ",", ',');
    RemoveAbsent(w, ',');
  }

  lemma PeriodNoComma(w: string)
    requires ',' !in w
    ensures ',' !in w + "."
  {
  }

  /** The validator drops the one comma of the conditional sentence and nothing else. */
  lemma ConditionalUncomma(actor: string, vector: string, asset: string)
    requires Label(actor) && Label(vector) && Label(asset)
    ensures Remove(C.ConditionalText(actor, vector, asset), ',') == Join(ConditionalWords(actor, vector, asset), " ")
  {
    RemoveJoin(["If", actor, "used", vector + ",", "then", "they", "accessed", "the", asset + "."], " ", ',');
    UncommaWords(actor, vector, asset);
  }

  /** The comma-free conditional sentence splits into "If", the actor, "used", the
      vector, "then", three fixed words and the asset with its period. */
  lemma ConditionalTokens(actor: string, vector: string, asset: string, ps: seq<string>)
    requires Label(actor) && Label(vector) && Label(asset)
    requires ps == Words(Remove(C.ConditionalText(actor, vector, asset), ','))
    ensures ps == ConditionalWords(actor, vector, asset)
  {
    ConditionalUncomma(actor, vector, asset);
    PeriodWord(asset);
    Fixed("If"); Fixed("used"); Fixed("then"); Fixed("they"); Fixed("accessed"); Fixed("the");
    WordsOfJoin(ConditionalWords(actor, vector, asset));
  }

  // ---------------------------------------------------------------------
  // What the validator makes of each written clue
  // ---------------------------------------------------------------------

  /** A negation clue written from labels forbids its actor and vector with every asset,
      and its tokens become the carried `parts`. */
  lemma NegationClueStep(p: V.Puzzle, table: seq<V.Triple>, st: V.ClueState,
                         actor: string, vector: string, ps: seq<string>)
    requires Label(actor) && Label(vector) && ps == Words(C.NegationText(actor, vector))
    requires forall k :: 0 <= k < |p.assets| ==> V.Triple(actor, vector, p.assets[k]) in table
    ensures V.Step(p, table, st, Record(C.Clue(C.NegationText(actor, vector), C.Negation)))
      == V.Ok(V.ClueState(st.cs + V.Forbids(actor, vector, p.assets), V.Bound(ps)))
  {
    NegationTokens(actor, vector, ps);
    StripPeriod(vector);
  }

  /** An affirmative clue written from labels adds the one disjunction "some actor used
      this vector against this asset". */
  lemma AffirmativeClueStep(p: V.Puzzle, table: seq<V.Triple>, st: V.ClueState,
                            vector: string, asset: string, ps: seq<string>)
    requires Label(vector) && Label(asset) && ps == Words(C.AffirmativeText(vector, asset))
    requires forall k :: 0 <= k < |p.actors| ==> V.Triple(p.actors[k], vector, asset) in table
    ensures V.AnyActor(table, p.actors, vector, asset).Ok?
    ensures V.Step(p, table, st, Record(C.Clue(C.AffirmativeText(vector, asset), C.Affirmative)))
      == V.Ok(V.ClueState(st.cs + [V.AnyActor(table, p.actors, vector, asset).value], V.Bound(ps)))
  {
    AffirmativeTokens(vector, asset, ps);
    StripPeriod(asset);
  }

  /** A conditional clue written from labels forbids its actor and vector with every
      asset other than the named one. */
  lemma ConditionalClueStep(p: V.Puzzle, table: seq<V.Triple>, st: V.ClueState,
                            actor: string, vector: string, asset: string, ps: seq<string>)
    requires Label(actor) && Label(vector) && Label(asset)
    requires ps == Words(Remove(C.ConditionalText(actor, vector, asset), ','))
    requires var others := V.Others(p.assets, asset);
      forall k :: 0 <= k < |others| ==> V.Triple(actor, vector, others[k]) in table
    ensures V.Step(p, table, st, Record(C.Clue(C.ConditionalText(actor, vector, asset), C.Conditional)))
      == V.Ok(V.ClueState(st.cs + V.Forbids(actor, vector, V.Others(p.assets, asset)), V.Bound(ps)))
  {
    ConditionalTokens(actor, vector, asset, ps);
    ConditionalClueParts(p, table, st, C.ConditionalText(actor, vector, asset), actor, vector, asset, ps);
  }

  lemma ConditionalClueParts(p: V.Puzzle, table: seq<V.Triple>, st: V.ClueState, text: string,
                             actor: string, vector: string, asset: string, ps: seq<string>)
    requires Label(asset) && ps == Words(Remove(text, ','))
    requires ps == ConditionalWords(actor, vector, asset)
    requires var others := V.Others(p.assets, asset);
      forall k :: 0 <= k < |others| ==> V.Triple(actor, vector, others[k]) in table
    ensures V.Step(p, table, st, Record(C.Clue(text, C.Conditional)))
      == V.Ok(V.ClueState(st.cs + V.Forbids(actor, vector, V.Others(p.assets, asset)), V.Bound(ps)))
  {
    assert |ps| >= 5 && ps[0] == "If" && ps[1] == actor && ps[3] == vector && ps[4] == "then" &&
      ps[|ps| - 1] == asset + ".";
    Dispatch(p, table, st, C.Conditional, text);
    ConditionalParts(p, table, st, text, ps, actor, vector, asset);
  }

  /** The conditional branch on a text whose comma-free tokens are those of the
      template. */
  lemma ConditionalParts(p: V.Puzzle, table: seq<V.Triple>, st: V.ClueState, text: string,
                         ps: seq<string>, actor: string, vector: string, asset: string)
    requires Label(asset) && ps == Words(Remove(text, ','))
    requires |ps| >= 5 && ps[0] == "If" && ps[1] == actor && ps[3] == vector && ps[4] == "then"
    requires ps[|ps| - 1] == asset + "."
    requires var others := V.Others(p.assets, asset);
      forall k :: 0 <= k < |others| ==> V.Triple(actor, vector, others[k]) in table
    ensures V.ConditionalStep(p, table, st, text)
      == V.Ok(V.ClueState(st.cs + V.Forbids(actor, vector, V.Others(p.assets, asset)), V.Bound(ps)))
  {
    StripPeriod(asset);
  }

  /** On the real table, every asset other than the named one has a key for a catalog
      actor and vector. */
  lemma OthersInTable(p: V.Puzzle, actor: string, vector: string, asset: string)
    requires actor in p.actors && vector in p.vectors
    ensures var others := V.Others(p.assets, asset);
      forall k :: 0 <= k < |others| ==>
        V.Triple(actor, vector, others[k]) in V.Table(p.actors, p.vectors, p.assets)
  {
    var others := V.Others(p.assets, asset);
    VP.OthersExclude(p.assets, asset);
    VP.TableMembers(p.actors, p.vectors, p.assets);
    forall k | 0 <= k < |others|
      ensures V.Triple(actor, vector, others[k]) in V.Table(p.actors, p.vectors, p.assets)
    {
      assert others[k] in others;
    }
  }

  /** The saved type string of each of the first four types selects its branch. */
  lemma Dispatch(p: V.Puzzle, table: seq<V.Triple>, st: V.ClueState, t: C.ClueType, text: string)
    ensures var r := V.Step(p, table, st, Record(C.Clue(text, t)));
      match t
      case Negation => r == V.NegationStep(p, table, st, text)
      case Affirmative => r == V.AffirmativeStep(p, table, st, text)
      case Relational =>
        r == V.Ok(V.ClueState(st.cs + V.RelationalForbids(table, p.actors, st.parts), st.parts))
      case Conditional => r == V.ConditionalStep(p, table, st, text)
      case DataInference => r == V.Ok(st)
  {
  }

  /** A data-inference clue adds no constraint and leaves the carried tokens alone: the
      type string it is saved under is none the validator dispatches on. */
  lemma DataInferenceInert(p: V.Puzzle, table: seq<V.Triple>, st: V.ClueState, c: C.Clue)
    requires c.kind == C.DataInference
    ensures V.Step(p, table, st, Record(c)) == V.Ok(st)
  {
    VP.OtherTypesInert(p, table, st, Record(c));
  }

  // ---------------------------------------------------------------------
  // What the solver's models respect
  // ---------------------------------------------------------------------

  /** In every model of a compiled puzzle, the actor of a written negation clue never
      used its vector, against any asset. */
  lemma NegationClueSound(p: V.Puzzle, st: V.ClueState, i: nat, pick: Pick, m: set<V.Triple>)
    requires V.Compile(p) == V.Ok(st) && V.Models(m, st.cs)
    requires pick.kind == C.Negation && Label(pick.actor) && Label(pick.vector)
    requires i < |p.clues| && p.clues[i] == Written(pick)
    ensures forall k :: 0 <= k < |p.assets| ==> V.Triple(pick.actor, pick.vector, p.assets[k]) !in m
  {
    var actor, vector := pick.actor, pick.vector;
    WrittenRecord(pick);
    var ps := Words(C.NegationText(actor, vector));
    NegationTokens(actor, vector, ps);
    StripPeriod(vector);
    VP.NegationSound(p, st, i, ps, m);
  }

  /** In every model of a compiled puzzle, some actor used the vector of a written
      affirmative clue against its asset. */
  lemma AffirmativeClueSound(p: V.Puzzle, st: V.ClueState, i: nat, pick: Pick, m: set<V.Triple>)
    requires V.Compile(p) == V.Ok(st) && V.Models(m, st.cs)
    requires pick.kind == C.Affirmative && Label(pick.vector) && Label(pick.asset)
    requires i < |p.clues| && p.clues[i] == Written(pick)
    ensures exists k :: 0 <= k < |p.actors| && V.Triple(p.actors[k], pick.vector, pick.asset) in m
  {
    var vector, asset := pick.vector, pick.asset;
    WrittenRecord(pick);
    var ps := Words(C.AffirmativeText(vector, asset));
    AffirmativeTokens(vector, asset, ps);
    StripPeriod(asset);
    VP.AffirmativeSound(p, st, i, ps, m);
  }

  /** In every model of a compiled puzzle, the actor and vector of a written conditional
      clue go with no asset other than the named one. */
  lemma ConditionalClueSound(p: V.Puzzle, st: V.ClueState, i: nat, pick: Pick, m: set<V.Triple>)
    requires V.Compile(p) == V.Ok(st) && V.Models(m, st.cs)
    requires pick.kind == C.Conditional && Label(pick.actor) && Label(pick.vector) && Label(pick.asset)
    requires i < |p.clues| && p.clues[i] == Written(pick)
    ensures forall k :: 0 <= k < |p.assets| && p.assets[k] != pick.asset ==>
      V.Triple(pick.actor, pick.vector, p.assets[k]) !in m
  {
    WrittenRecord(pick);
    var ps := Words(Remove(C.ConditionalText(pick.actor, pick.vector, pick.asset), ','));
    ConditionalReadTokens(pick.actor, pick.vector, pick.asset, ps);
    VP.ConditionalSound(p, st, i, ps, m);
  }

  /** The tokens the validator reads from a conditional sentence: "If" first, "then"
      present, the actor and vector at 1 and 3, and the asset once the period goes. */
  lemma ConditionalReadTokens(actor: string, vector: string, asset: string, ps: seq<string>)
    requires Label(actor) && Label(vector) && Label(asset)
    requires ps == Words(Remove(C.ConditionalText(actor, vector, asset), ','))
    ensures |ps| >= 4 && ps[0] == "If" && "then" in ps
    ensures ps[1] == actor && ps[3] == vector && Strip(ps[|ps| - 1], {'.'}) == asset
  {
    ConditionalTokens(actor, vector, asset, ps);
    var ws := ConditionalWords(actor, vector, asset);
    StripPeriod(asset);
    assert |ws| == 9 && ws[4] == "then" && Strip(ws[8], {'.'}) == asset;
  }

  // ---------------------------------------------------------------------
  // Puzzles the authoring tool writes are compiled without an exception
  // ---------------------------------------------------------------------

  /** The answers the author gives for one clue: its type and the labels picked from the
      catalogs (only those the type uses matter), and the stolen-data line. */
  datatype Pick = Pick(kind: C.ClueType, actor: string, vector: string, asset: string, data: string)

  /** The record of the clue written for each type the engine reads. */
  lemma WrittenRecord(k: Pick)
    ensures k.kind == C.Negation ==>
      Written(k) == Record(C.Clue(C.NegationText(k.actor, k.vector), C.Negation))
    ensures k.kind == C.Affirmative ==>
      Written(k) == Record(C.Clue(C.AffirmativeText(k.vector, k.asset), C.Affirmative))
    ensures k.kind == C.Conditional ==>
      Written(k) == Record(C.Clue(C.ConditionalText(k.actor, k.vector, k.asset), C.Conditional))
  { }

  /** The validator's record of the clue the authoring tool writes for `k`. */
  function Written(k: Pick): V.Clue
  {
    Record(C.CreateClue(k.kind, k.actor, k.vector, k.asset, k.data))
  }

  /** Every label the engine reads from the clue written for `k` is a catalog entry of `p`
      that survives tokenising: the actor for negation and conditional clues, the vector
      for those and affirmative clues, the asset for affirmative and conditional clues.
      Relational and data-inference clues are not read, so they constrain nothing. */
  predicate FromCatalogs(p: V.Puzzle, k: Pick)
  {
    (k.kind == C.Negation || k.kind == C.Conditional ==>
      Label(k.actor) && k.actor in p.actors) &&
    (k.kind == C.Negation || k.kind == C.Affirmative || k.kind == C.Conditional ==>
      Label(k.vector) && k.vector in p.vectors) &&
    (k.kind == C.Affirmative || k.kind == C.Conditional ==>
      Label(k.asset) && k.asset in p.assets)
  }

  /** A written clue never raises in the clue loop. */
  lemma WrittenStepOk(p: V.Puzzle, st: V.ClueState, k: Pick)
    requires FromCatalogs(p, k)
    ensures V.Step(p, V.Table(p.actors, p.vectors, p.assets), st, Written(k)).Ok?
  {
    var table := V.Table(p.actors, p.vectors, p.assets);
    VP.TableMembers(p.actors, p.vectors, p.assets);
    match k.kind
    case Negation =>
      NegationClueStep(p, table, st, k.actor, k.vector, Words(C.NegationText(k.actor, k.vector)));
    case Affirmative =>
      AffirmativeClueStep(p, table, st, k.vector, k.asset, Words(C.AffirmativeText(k.vector, k.asset)));
    case Relational =>
      VP.RelationalIgnoresText(p, table, st, Written(k).text, Written(k).text);
    case Conditional =>
      OthersInTable(p, k.actor, k.vector, k.asset);
      ConditionalClueStep(p, table, st, k.actor, k.vector, k.asset,
        Words(Remove(C.ConditionalText(k.actor, k.vector, k.asset), ',')));
    case DataInference =>
      DataInferenceInert(p, table, st, C.CreateClue(k.kind, k.actor, k.vector, k.asset, k.data));
  }

  /** The clue loop over the first `n` written clues never raises. */
  lemma {:induction false} WrittenRunOk(p: V.Puzzle, picks: seq<Pick>, st: V.ClueState, n: nat)
    requires |p.clues| == |picks| && n <= |picks|
    requires forall i :: 0 <= i < |picks| ==> p.clues[i] == Written(picks[i]) && FromCatalogs(p, picks[i])
    ensures V.Run(p, V.Table(p.actors, p.vectors, p.assets), st, p.clues[..n]).Ok?
  {
    if n > 0 {
      var table := V.Table(p.actors, p.vectors, p.assets);
      WrittenRunOk(p, picks, st, n - 1);
      assert p.clues[..n][..n - 1] == p.clues[..n - 1];
      var s := V.Run(p, table, st, p.clues[..n - 1]).value;
      WrittenStepOk(p, s, picks[n - 1]);
    }
  }

  /** A puzzle whose catalogs are non-empty and whose clues the authoring tool wrote from
      catalog labels is compiled without a KeyError, IndexError or solver exception, so
      the validator always reaches a verdict stage. */
  lemma WrittenPuzzleCompiles(p: V.Puzzle, picks: seq<Pick>)
    requires p.actors != [] && p.vectors != [] && p.assets != []
    requires |p.clues| == |picks|
    requires forall i :: 0 <= i < |picks| ==> p.clues[i] == Written(picks[i]) && FromCatalogs(p, picks[i])
    ensures V.Compile(p).Ok?
  {
    VP.InTable(p.actors, p.vectors, p.assets, V.Triple(p.actors[0], p.vectors[0], p.assets[0]));
    var table := V.Table(p.actors, p.vectors, p.assets);
    WrittenRunOk(p, picks, V.ClueState(V.Cardinality(table), V.Unbound), |picks|);
    assert p.clues[..|picks|] == p.clues;
  }
}
