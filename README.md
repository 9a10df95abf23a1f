# Cyber-incident logic puzzles: validation engine and authoring rules

The puzzles have a cast of threat actors, attack vectors and target assets, plus a
declared solution: one (actor, vector, asset) triple and the stolen data. The clues are
short English sentences, each tagged with a type. This project models two parts of the
system in Dafny and proves properties of them.

- **The validation engine** (`logic_validator.py`, `validate_puzzle`):
  - It builds one Boolean variable per triple, in dictionary insertion order.
  - It adds the cardinality constraints.
  - It turns each clue into constraints by splitting the clue text into tokens.
  - It asks a solver for a model and classifies the outcome as one of:
    - invalid (unsatisfiable);
    - ambiguous;
    - mismatch;
    - data-not-inferable;
    - valid.
- **The pure rules of the authoring tool** (`puzzle_creator.py`):
  - the comma-separated list prompt and its bounds 3..6;
  - the 1-based numbered choice;
  - the clue-type menu;
  - the five clue sentence templates;
  - the numbering of saved files `web_<n>.json`.

The modules are:

- `Text`: the Python string primitives the engine relies on.
  - `str.split()` with no argument;
  - `str.strip(chars)`;
  - `str.split(",")`;
  - `in` on strings;
  - `str.replace(",", "")`;
  - `" ".join`.
- `Validator`: the engine itself.
  - Its datatypes.
  - The specification functions: `Table`, `Cardinality`, `Step`, `Run`, `Compile`, `Validate`.
  - The imperative methods that do what the source's loops do. `ValidatePuzzle` and its helpers are proved equal to those functions.
- `ValidatorProperties`: lemmas about what the compiled constraints mean and which verdicts they allow.
- `Creator`: the authoring rules.
- `RoundTrip`: connects the two sides. Given catalog labels that are single words, each sentence the authoring tool writes is tokenised by the engine into the words the template put there. The lemmas here state the constraints each such clue adds.
- `Findings`: two places where the engine does not do what its own comments say. Each is shown as written, and a corrected definition is proved.

The solver is a function parameter `solve`.

- `SoundAnswer` states what any solver promises. It may answer `Unsat` only for unsatisfiable constraints. Otherwise it gives a model that satisfies them.
- The lemmas take that promise as a hypothesis.

Python exceptions appear as values, `Raised(KeyError)` and the like:

- a name or label missing from the variable table;
- an empty token list;
- a disjunction over no variables, when a catalog is empty. This is rejected by the z3 Python binding this model follows; see "## Left out".

So no operation here has a precondition that the source does not have.

## Model

| member | source | states |
|---|---|---|
| Validator.BuildTable | logic_validator.py:16-21 | the nested loops produce the key order of the triple dictionary: each (actor, vector, asset) inserted in loop order, a repeated key keeping its first place |
| ValidatorProperties.TableMembers | logic_validator.py:16-21 | a triple is a key exactly when its actor, vector and asset are in their catalogs, and no key appears twice |
| ValidatorProperties.TableIsProduct | logic_validator.py:16-21 | for catalogs without repeats, the keys are exactly the nested-loop product, in order |
| Validator.AddCardinality | logic_validator.py:23-28 | the method builds the at-least-one disjunction followed by what the zip loop adds |
| ValidatorProperties.ZipAddsNothing | logic_validator.py:26-28 | zipping the values with themselves pairs each variable with itself, so the loop adds no constraint |
| ValidatorProperties.CardinalityIsAtLeastOne | logic_validator.py:23-28 | the cardinality part is the single at-least-one disjunction over the whole table |
| Validator.EncodeNegation | logic_validator.py:39-47 | the negation branch: no change without "did not use"; KeyError on an unknown actor or vector; otherwise one negative literal per asset |
| Validator.ForbidEachAsset | logic_validator.py:46-47 | the asset loop appends `Not(x[a,v,t])` per asset in order, and raises KeyError at the first missing key |
| ValidatorProperties.NegationSound | logic_validator.py:39-47 | in every model of the compiled constraints, the first token's actor never used the last token's vector (period stripped), against any asset |
| ValidatorProperties.NegationWithoutPhraseInert | logic_validator.py:39-42 | a negation clue whose text lacks "did not use" adds no constraint and only rebinds the tokens |
| ValidatorProperties.NegationAppends | logic_validator.py:39-47 | a successful negation clue appends exactly the literals for its actor, vector and each asset |
| ValidatorProperties.NegationUnknownRaises | logic_validator.py:42-47 | a negation clue naming an actor or vector outside the catalogs makes validation raise KeyError |
| Validator.EncodeAffirmative | logic_validator.py:48-58 | the affirmative branch: IndexError on an empty text, KeyError on a missing key, otherwise one disjunction over all actors |
| Validator.RequireAnyActor | logic_validator.py:54-57 | builds the disjunction of `x[a, v, asset]` over the actors, or raises KeyError |
| ValidatorProperties.AffirmativeSound | logic_validator.py:48-58 | every model of the compiled constraints has some actor using the first token's vector against the last token's asset |
| ValidatorProperties.AffirmativeAppends | logic_validator.py:48-58 | a successful affirmative clue appends one disjunction whose k-th disjunct is actor k with the clue's vector and asset |
| ValidatorProperties.AffirmativeRaises | logic_validator.py:50-57 | an empty text raises IndexError; a vector or asset outside the catalogs raises KeyError |
| Validator.EncodeRelational | logic_validator.py:59-69 | the relational branch reads the tokens left behind by an earlier clue, not its own text, and swallows every failure |
| Validator.ForbidEachActor | logic_validator.py:66-69 | the actor loop appends a literal per actor until the first missing key, whose KeyError is swallowed with the literals already added kept |
| ValidatorProperties.RelationalIgnoresText | logic_validator.py:59-69 | a relational clue never fails, does not depend on its own text, and leaves the token state as it found it |
| ValidatorProperties.PartsAreStale | logic_validator.py:34-80 | the tokens a relational clue sees are those of the latest negation, affirmative or conditional clue before it, or none |
| ValidatorProperties.RelationalAllOrNothing | logic_validator.py:66-69 | on the real table the actor loop either covers every actor (vector and asset both known) or adds nothing |
| ValidatorProperties.RelationalSound | logic_validator.py:59-69 | when the stale tokens name a known vector at index 5 and a known asset last, no model pairs any actor with them |
| ValidatorProperties.RelationalAddsAll | logic_validator.py:64-67 | with a known vector at index 5 and a known asset, the branch appends one literal for every actor |
| Validator.EncodeConditional | logic_validator.py:70-79 | the conditional branch: commas removed, IndexError on an empty text or on fewer than four tokens once "If" and "then" are found, no change without them, KeyError on a missing key, otherwise one literal per other asset |
| Validator.ForbidOtherAssets | logic_validator.py:77-79 | the asset loop skips the named asset and forbids the pair with every other asset |
| ValidatorProperties.OthersExclude | logic_validator.py:77-78 | the assets the loop visits are exactly the catalog assets other than the named one |
| ValidatorProperties.ConditionalRaises | logic_validator.py:72-79 | an empty text, or an "If ... then" text with fewer than four tokens, raises IndexError; an unknown actor or vector raises KeyError once some asset other than the named one is looked up |
| ValidatorProperties.ConditionalOnlyForbidsOthers | logic_validator.py:70-79 | a conditional clue appends only negative literals, all about its actor and vector and never its own asset; without "If ... then" it appends nothing |
| ValidatorProperties.ConditionalSound | logic_validator.py:70-79 | in every model, the clue's actor did not use its vector against any asset other than the named one |
| ValidatorProperties.OtherTypesInert | logic_validator.py:80 | a clue of any other type changes nothing |
| Validator.EncodeClue | logic_validator.py:34-80 | dispatch on the clue type |
| Validator.CompileClues | logic_validator.py:34-80 | the clue loop over the clues in order, stopping at the first exception |
| Validator.RunStopsAtError | logic_validator.py:34-80 | once a prefix of the clues raises, the whole loop raises that same exception |
| ValidatorProperties.StepAppends | logic_validator.py:34-80 | a clue only appends constraints, each a negative literal or a disjunction |
| ValidatorProperties.RunPrefix | logic_validator.py:34-80 | the constraints after any prefix of the clues are a prefix of the final constraints |
| ValidatorProperties.CompileShape | logic_validator.py:23-80 | the compiled constraints start with the at-least-one disjunction and never contain a pairwise exclusion |
| ValidatorProperties.RunIgnoresStolenData | logic_validator.py:6-80 | the stolen-data catalog plays no part in the clue loop |
| ValidatorProperties.StolenDataCatalogUnused | logic_validator.py:10 | the verdict does not depend on the stolen-data catalog |
| Validator.TrueTriples | logic_validator.py:87 | the true triples are exactly the table keys the model makes true, and there are no more of them than keys |
| ValidatorProperties.TrueTriplesDistinct | logic_validator.py:87 | on a table without repeats, which the triple dictionary always is, no triple is listed twice |
| ValidatorProperties.TrueTriplesFirst | logic_validator.py:87-92 | the list keeps the table's order: its first entry, the one line 92 reads, is the first key the model makes true |
| Validator.ValidatePuzzle | logic_validator.py:6-104 | the whole function: it raises while compiling, or returns the verdict the solver's answer leads to |
| ValidatorProperties.RaisesOnlyWhileCompiling | logic_validator.py:34-92 | with a sound solver, validation raises exactly when building the constraints raises |
| ValidatorProperties.InvalidIffUnsatisfiable | logic_validator.py:83-84 | with a sound solver, the verdict is "invalid" exactly when the constraints have no model |
| ValidatorProperties.CanonicalDecides | logic_validator.py:83 | for constraints of the compiled shape, satisfiability is decided by one canonical assignment |
| ValidatorProperties.SomeTripleTrue | logic_validator.py:86-92 | every model makes some table entry true, so the index `[0]` at line 92 never fails |
| ValidatorProperties.VerdictMeaning | logic_validator.py:83-104 | with a sound solver: never raises after compiling; "ambiguous" lists several allowed table triples; "mismatch" reports an allowed triple other than the declared one; "data-not-inferable" and "valid" mean the declared triple is the model's only true triple and a table key no literal forbids, with the stolen data absent from every clue text, or present in one and echoed back |
| ValidatorProperties.ValidIsConsistent | logic_validator.py:92-104 | a "valid" verdict means the declared triple alone satisfies every constraint |
| Creator.ValueInjective | puzzle_creator.py:25-31 | the five clue types have distinct stored strings |
| Creator.ParseList | puzzle_creator.py:95-110 | an empty stripped line is rejected; an accepted list has between min and max items, each non-empty, comma-free and stripped; the only rejections are empty input, too few and too many |
| Creator.ParseListOfJoin | puzzle_creator.py:95-110 | a list of 3..6 clean items joined by ", " is read back as exactly that list |
| Creator.ItemsOfClean | puzzle_creator.py:100 | the comprehension returns clean pieces unchanged |
| Creator.Choose | puzzle_creator.py:119-137 | no options is an error; a choice is accepted exactly when it lies in 1..number of options |
| Creator.ChosenIsOption | puzzle_creator.py:136-137 | an accepted choice is one of the options |
| Creator.EveryOptionReachable | puzzle_creator.py:136-137 | option i is selected by number i + 1 |
| Creator.MenuNumber | puzzle_creator.py:152-166 | each clue type has exactly one menu number, between 1 and 5 |
| Creator.DataLabel | puzzle_creator.py:206-208 | the data label is the stripped input when that is non-empty, and exactly "Unknown Data" when it is blank; either way it is stripped |
| Creator.CreateClue | puzzle_creator.py:180-214 | the clue carries the chosen type, and a data-inference clue mentions its data label |
| Creator.DataInferenceMentions | puzzle_creator.py:209 | the data-inference sentence contains the data label |
| Creator.DecimalRoundTrip | puzzle_creator.py:250-263 | the decimal spelling of a number reads back as that number |
| Creator.FileNameNumber | puzzle_creator.py:242-263 | the name saved for puzzle n matches the file pattern with number n |
| Creator.NextPuzzleNumber | puzzle_creator.py:237-255 | the result is at least 1, exceeds every number found, and is 1 or one more than the largest |
| Creator.NextNameIsFresh | puzzle_creator.py:237-263 | the file name for the next number is not among the existing names |
| RoundTrip.NegationTokens | puzzle_creator.py:186 | the negation sentence tokenises to actor, "did", "not", "use", vector + "." and contains "did not use" |
| RoundTrip.AffirmativeTokens | puzzle_creator.py:191 | the affirmative sentence tokenises to the vector first and the asset plus period last |
| RoundTrip.RelationalTokens | puzzle_creator.py:196 | the relational sentence tokenises to ten words: the vector at index 4, "did" at index 5, the asset plus period last |
| RoundTrip.ConditionalTokens | puzzle_creator.py:202 | with commas removed, the conditional sentence tokenises to "If", actor, "used", vector, "then", ..., asset + "." |
| RoundTrip.DataInferenceInert | puzzle_creator.py:31 | a data-inference clue adds no constraint in the engine |
| RoundTrip.NegationClueStep | logic_validator.py:39-47 | a written negation clue forbids its actor with its vector for every asset |
| RoundTrip.AffirmativeClueStep | logic_validator.py:48-58 | a written affirmative clue appends the disjunction over actors for its vector and asset |
| RoundTrip.ConditionalClueStep | logic_validator.py:70-79 | a written conditional clue forbids its actor and vector with every other asset |
| RoundTrip.NegationClueSound | puzzle_creator.py:183-186 | for the clue the authoring tool writes from a negation choice, no model lets the chosen actor use the chosen vector, against any asset |
| RoundTrip.AffirmativeClueSound | puzzle_creator.py:188-191 | for the clue the authoring tool writes from an affirmative choice, every model has some actor using the chosen vector against the chosen asset |
| RoundTrip.ConditionalClueSound | puzzle_creator.py:198-202 | for the clue the authoring tool writes from a conditional choice, no model lets the chosen actor use the chosen vector against any asset other than the chosen one |
| RoundTrip.ConditionalReadTokens | puzzle_creator.py:202 | the conditional sentence, commas removed, has "If" first, "then" among its words, the actor and vector at positions 1 and 3, and the asset as its last word once the period is stripped |
| RoundTrip.WrittenPuzzleCompiles | puzzle_creator.py:180-214 | with non-empty catalogs, a puzzle whose clues were all written from catalog labels compiles without an exception |
| Findings.RelationalFirstRulesOutNothing | logic_validator.py:59-69 | a relational clue that comes first adds nothing; a model pairing any actor with its vector and asset is still accepted |
| Findings.RelationalIndexFiveIsDid | logic_validator.py:64 | the template's own tokens put "did" at index 5, so the branch adds nothing even on them |
| Findings.RelationalIntendedForbidsAll | logic_validator.py:59-69 | the corrected branch forbids the clue's vector and asset for every actor |
| Findings.RelationalIntendedSound | logic_validator.py:59-69 | with the correction, no model pairs any actor with the clue's vector and asset |
| Findings.TwoTriplesAccepted | logic_validator.py:23-28 | the constraints as written accept a model with two true triples |
| Findings.ExactlyOneMeaning | logic_validator.py:23-28 | the corrected cardinality holds exactly when one table entry is true |
| Findings.AtMostOneMeaning | logic_validator.py:25-28 | the corrected pairwise exclusions hold exactly when at most one entry is true |
| Findings.CompileIntendedExactlyOne | logic_validator.py:23-80 | with both corrections, every model makes exactly one table entry true |

## Left out

- The solver is an oracle parameter. The model does not capture which model z3 returns, only what any sound solver guarantees.
- Validator.BuildTable and Validator.ValidatePuzzle assume that no two triples produce the same z3 variable name `x_{a}_{v}_{t}`. In the source, z3 returns one variable per name, so the triples ("a_b", "c", t) and ("a", "b_c", t) share the variable `x_a_b_c_t`. The model keeps them as two independent keys.
- Whitespace and digits are ASCII only. The model does no Unicode whitespace, Unicode digits or case folding.
- The console I/O is left out:
  - the retry loops;
  - the messages;
  - `KeyboardInterrupt`;
  - `prompt_continue`.
- Each prompt is modelled as one answer to one line: `Accepted` or `Rejected` with the reason.
- Creator.Choose takes the choice as an integer. Parsing it with `int()` is left out, and so is the ValueError on non-numeric input, which the prompt catches.
- `get_next_puzzle_number` does directory scanning, `mkdir` and the `is_file` filter. The existing file names are a parameter instead.
- `save_puzzle` writes JSON and so does no modelled work. Only its file name, `web_<n>.json`, is modelled.
- The `PuzzleCreator` class, `validate_and_save`, `website_generator.py`, `deploy.py`, `generate_all.py` and the tests are not part of this model.
- Validator.Compile and Validator.ValidatePuzzle assume a z3 Python binding in which `Or()` with no arguments raises. That happens when a catalog is empty. Older bindings raise "At least one of the arguments must be a Z3 expression", and the model returns `Raised(Z3Exception)`. Current bindings return `False` instead: the source then runs the clue loop and reports "unsatisfiable (no solutions)" unless a clue raises. The model does not capture that behaviour.
- The `Validator` module keeps both engine defects described under Findings, because the verdicts the source produces depend on them. The corrected definitions live in `Findings`.
- Creator.ParseList: its contract does not state the exact list returned. The exact list is stated for joined lists by Creator.ParseListOfJoin.
- The RoundTrip lemmas cover only catalog labels that are single words with no comma and no edge period. Text.Words and Validator.Step split multi-word labels just as the source does, so such clues are modelled; it is the end-to-end lemmas that stop there. The source mishandles such labels. For "GhostShell did not use SQL Injection." the engine reads the vector as "Injection" (logic_validator.py:41-44). That is not a table key, so with a non-empty asset catalog the step raises KeyError.

## Findings

| source | as written | input that shows it | evidently intended | confidence | as-written member | corrected member |
|---|---|---|---|---|---|---|
| logic_validator.py:59-69 | the relational branch reads `parts` left over from an earlier clue, and takes the vector from index 5 | a puzzle whose only clue is "The actor that used Phishing did not access the Server." (relational): no constraint is added, and an actor using Phishing against Server is accepted | tokenise the clue's own text, take the vector at index 4 and the asset last, and forbid that pair for every actor | not executed | Findings.RelationalFirstRulesOutNothing | Findings.RelationalIntendedSound |
| logic_validator.py:23-28 | zipping the value list with itself pairs each variable only with itself, so no pairwise exclusion is ever added | two distinct triples t1, t2 in the table: the model making both true satisfies every cardinality constraint | `Not(And(t1, t2))` for every pair of distinct variables, so exactly one triple is true | not executed | Findings.TwoTriplesAccepted | Findings.ExactlyOneMeaning |
