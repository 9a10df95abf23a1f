/** The pure rules of the authoring tool `puzzle_creator.py`, with its `input()` prompts
    and retry loops taken out: each prompt becomes a function from what the author typed
    to the value accepted or the reason it is refused. */
module Creator {
  import opened Text

  datatype Option<T> = None | Some(value: T)

  /** Why a prompt refuses an answer. `NoOptions` is the ValueError `prompt_choice` raises
      before prompting; every other refusal makes the prompt ask again. */
  datatype Rejection = EmptyInput | TooFew | TooMany | NoOptions | OutOfRange

  datatype Answer<T> = Accepted(value: T) | Rejected(reason: Rejection)

  // ---------------------------------------------------------------------
  // Clue types
  // ---------------------------------------------------------------------

  datatype ClueType = Negation | Affirmative | Relational | Conditional | DataInference

  /** `clue_type.value`: the string a clue's type is saved as. */
  function Value(t: ClueType): string
  {
    match t
    case Negation => "negation"
    case Affirmative => "affirmative"
    case Relational => "relational"
    case Conditional => "conditional"
    case DataInference => "data-inference"
  }

  /** Distinct clue types are saved as distinct strings. */
  lemma ValueInjective(t: ClueType, u: ClueType)
    ensures Value(t) == Value(u) <==> t == u
  {
  }

  /** The clue-type menu of `prompt_clue`, in the order it is numbered. */
  function ClueOptions(): seq<(string, ClueType)>
  {
    [("Negation", Negation), ("Affirmative", Affirmative), ("Relational", Relational),
     ("Conditional", Conditional), ("Data Inference", DataInference)]
  }

  // ---------------------------------------------------------------------
  // Comma-separated lists
  // ---------------------------------------------------------------------

  const MinItems: int := 3
  const MaxItems: int := 6

  /** An item `prompt_list` can return: non-empty, free of commas and of whitespace at
      either end. */
  predicate IsItem(w: string)
  {
    Trimmed(w) && ',' !in w
  }

  /** Non-empty, with no whitespace at either end: what `s.strip()` leaves when it leaves
      anything. */
  predicate Trimmed(w: string)
  {
    w != [] && w[0] !in Whitespace && w[|w| - 1] !in Whitespace
  }

  /** `[item.strip() for item in pieces if item.strip()]`. */
  function Items(pieces: seq<string>): (items: seq<string>)
    ensures |items| <= |pieces|
    ensures forall i :: 0 <= i < |items| ==> Trimmed(items[i])
  {
    if pieces == [] then []
    else
      var item := Strip(pieces[0], Whitespace);
      var rest := Items(pieces[1..]);
      if item != [] then assert Trimmed(item); [item] + rest else rest
  }

  /** One answer to `prompt_list`: the stripped line split on commas, each piece stripped
      and the empty ones dropped, accepted when the count lies in [minCount, maxCount]. */
  function ParseList(line: string, minCount: int, maxCount: int): (r: Answer<seq<string>>)
    ensures Strip(line, Whitespace) == [] ==> r == Rejected(EmptyInput)
    ensures r.Accepted? ==>
      minCount <= |r.value| <= maxCount && forall i :: 0 <= i < |r.value| ==> IsItem(r.value[i])
    ensures r.Rejected? ==> r.reason in {EmptyInput, TooFew, TooMany}
  {
    var s := Strip(line, Whitespace);
    if s == [] then Rejected(EmptyInput)
    else
      var pieces := SplitOn(s, ',');
      var items := Items(pieces);
      NoCommasFrom(pieces);
      ItemsFromPieces(pieces);
      AllItems(items);
      if |items| < minCount then Rejected(TooFew)
      else if |items| > maxCount then Rejected(TooMany)
      else Accepted(items)
  }

  /** No string of `ws` holds a comma. */
  predicate NoCommas(ws: seq<string>)
  {
    ws == [] || (',' !in ws[0] && NoCommas(ws[1..]))
  }

  lemma {:induction false} NoCommasFrom(ws: seq<string>)
    requires forall i :: 0 <= i < |ws| ==> ',' !in ws[i]
    ensures NoCommas(ws)
  {
    if ws != [] {
      NoCommasFrom(ws[1..]);
    }
  }

  lemma {:induction false} NoCommasAt(ws: seq<string>, i: nat)
    requires NoCommas(ws) && i < |ws|
    ensures ',' !in ws[i]
  {
    if i > 0 {
      NoCommasAt(ws[1..], i - 1);
    }
  }

  /** Trimmed comma-free strings are items. */
  lemma AllItems(ws: seq<string>)
    requires NoCommas(ws) && forall i :: 0 <= i < |ws| ==> Trimmed(ws[i])
    ensures forall i :: 0 <= i < |ws| ==> IsItem(ws[i])
  {
    forall i | 0 <= i < |ws| ensures IsItem(ws[i]) {
      NoCommasAt(ws, i);
    }
  }

  /** Items cut from comma-free pieces are themselves comma-free. */
  lemma {:induction false} ItemsFromPieces(pieces: seq<string>)
    requires NoCommas(pieces)
    ensures NoCommas(Items(pieces))
  {
    if pieces != [] {
      ItemsFromPieces(pieces[1..]);
      if Strip(pieces[0], Whitespace) != [] {
        StripSubsequence(pieces[0], Whitespace, ',');
        ItemsCons(pieces);
      }
    }
  }

  /** Stripping only removes characters, so it keeps out a character the input lacks. */
  lemma StripSubsequence(s: string, chars: set<char>, c: char)
    requires c !in s
    ensures c !in Strip(s, chars)
  {
    var l := TrimLeft(s, chars);
    assert l == s[|s| - |l|..];
    assert c !in l by {
      forall k | 0 <= k < |l| ensures l[k] != c {
        assert l[k] == s[|s| - |l| + k];
      }
    }
    var r := TrimRight(l, chars);
    assert r <= l;
    forall k | 0 <= k < |r| ensures r[k] != c {
      assert r[k] == l[k];
    }
  }

  /** Items that are already clean pass through the comprehension unchanged. */
  lemma {:induction false} ItemsOfClean(items: seq<string>)
    requires forall i :: 0 <= i < |items| ==> IsItem(items[i])
    ensures Items(items) == items
  {
    if items != [] {
      StripClean(items[0], Whitespace);
      ItemsOfClean(items[1..]);
      HeadTail(items);
    }
  }

  /** Items each preceded by one space strip back to themselves. */
  lemma {:induction false} ItemsOfSpaced(items: seq<string>)
    requires forall i :: 0 <= i < |items| ==> IsItem(items[i])
    ensures Items(Spaced(items)) == items
  {
    if items != [] {
      var w := items[0];
      var pieces := Spaced(items);
      assert pieces == [" " + w] + Spaced(items[1..]);
      StripLeadingSpace(w);
      ItemsCons(pieces);
      ItemsOfSpaced(items[1..]);
      HeadTail(items);
    }
  }

  lemma StripLeadingSpace(w: string)
    requires Trimmed(w)
    ensures Strip(" " + w, Whitespace) == w
  {
    var s := " " + w;
    assert s[0] == ' ' && s[1..] == w;
    assert TrimLeft(s, Whitespace) == TrimLeft(w, Whitespace);
    StripClean(w, Whitespace);
  }

  /** Each string preceded by one space. */
  function Spaced(ws: seq<string>): (r: seq<string>)
    ensures |r| == |ws|
  {
    if ws == [] then [] else [" " + ws[0]] + Spaced(ws[1..])
  }

  /** Joining with ", " is joining with "," the pieces after the first each led by a space. */
  lemma {:induction false} JoinCommaSpace(ws: seq<string>)
    requires |ws| >= 1
    ensures Join(ws, ", ") == Join([ws[0]] + Spaced(ws[1..]), ",")
  {
    if |ws| > 1 {
      JoinCommaSpace(ws[1..]);
      var rest := Spaced(ws[2..]);
      assert ws[1..][1..] == ws[2..];
      assert Spaced(ws[1..]) == [" " + ws[1]] + rest;
      calc {
        Join([ws[0]] + Spaced(ws[1..]), ",");
        { assert ([ws[0]] + Spaced(ws[1..]))[1..] == [" " + ws[1]] + rest; }
        ws[0] + "," + Join([" " + ws[1]] + rest, ",");
        { JoinLead(" ", ws[1], rest, ","); }
        ws[0] + "," + (" " + Join([ws[1]] + rest, ","));
        ws[0] + ", " + Join([ws[1]] + rest, ",");
        ws[0] + ", " + Join(ws[1..], ", ");
      }
    }
  }

  /** A prefix on the first piece of a join is a prefix of the join. */
  lemma JoinLead(pre: string, w: string, rest: seq<string>, sep: string)
    ensures Join([pre + w] + rest, sep) == pre + Join([w] + rest, sep)
  {
    if rest != [] {
      assert ([pre + w] + rest)[1..] == rest;
      assert ([w] + rest)[1..] == rest;
    }
  }

  /** The list an author types as "a, b, c" is read back as exactly those items, in order. */
  lemma ParseListOfJoin(items: seq<string>, minCount: int, maxCount: int)
    requires forall i :: 0 <= i < |items| ==> IsItem(items[i])
    requires 1 <= minCount <= |items| <= maxCount
    ensures ParseList(Join(items, ", "), minCount, maxCount) == Accepted(items)
  {
    var line := Join(items, ", ");
    JoinEnds(items, ", ");
    StripClean(line, Whitespace);
    var pieces := [items[0]] + Spaced(items[1..]);
    SplitCommaSpace(items, pieces);
    ItemsOfPieces(items, pieces);
  }

  /** Splitting "a, b, c" on commas gives "a", " b", " c". */
  lemma SplitCommaSpace(items: seq<string>, pieces: seq<string>)
    requires |items| >= 1 && forall i :: 0 <= i < |items| ==> IsItem(items[i])
    requires pieces == [items[0]] + Spaced(items[1..])
    ensures SplitOn(Join(items, ", "), ',') == pieces
  {
    JoinCommaSpace(items);
    forall i | 0 <= i < |pieces| ensures ',' !in pieces[i] {
      if i > 0 {
        SpacedAt(items[1..], i - 1);
      }
    }
    SplitOfJoin(pieces, ',');
  }

  /** Stripping "a", " b", " c" gives back the items. */
  lemma ItemsOfPieces(items: seq<string>, pieces: seq<string>)
    requires |items| >= 1 && forall i :: 0 <= i < |items| ==> IsItem(items[i])
    requires pieces == [items[0]] + Spaced(items[1..])
    ensures Items(pieces) == items
  {
    StripClean(items[0], Whitespace);
    calc {
      Items(pieces);
      { ItemsCons(pieces); }
      [items[0]] + Items(pieces[1..]);
      { assert pieces[1..] == Spaced(items[1..]); }
      [items[0]] + Items(Spaced(items[1..]));
      { ItemsOfSpaced(items[1..]); }
      [items[0]] + items[1..];
      { HeadTail(items); }
      items;
    }
  }

  lemma HeadTail<T>(s: seq<T>)
    requires s != []
    ensures [s[0]] + s[1..] == s
  {
  }

  /** A piece that strips to something non-empty heads the items. */
  lemma ItemsCons(pieces: seq<string>)
    requires pieces != [] && Strip(pieces[0], Whitespace) != []
    ensures Items(pieces) == [Strip(pieces[0], Whitespace)] + Items(pieces[1..])
  {
  }

  lemma {:induction false} SpacedAt(ws: seq<string>, i: nat)
    requires i < |ws|
    ensures Spaced(ws)[i] == " " + ws[i]
  {
    if i > 0 {
      SpacedAt(ws[1..], i - 1);
    }
  }

  // ---------------------------------------------------------------------
  // Choosing from a numbered menu
  // ---------------------------------------------------------------------

  /** One answer to `prompt_choice` (and to the menu of `prompt_clue`), once the line has
      been read as the integer `choice`: options are numbered from 1. */
  function Choose<T>(options: seq<T>, choice: int): (r: Answer<T>)
    ensures options == [] ==> r == Rejected(NoOptions)
    ensures r.Accepted? <==> options != [] && 1 <= choice <= |options|
  {
    if options == [] then Rejected(NoOptions)
    else if 1 <= choice <= |options| then Accepted(options[choice - 1])
    else Rejected(OutOfRange)
  }

  /** Whatever is chosen is one of the options. */
  lemma ChosenIsOption<T>(options: seq<T>, choice: int)
    requires Choose(options, choice).Accepted?
    ensures Choose(options, choice).value in options
  {
  }

  /** Every option is offered under its 1-based position. */
  lemma EveryOptionReachable<T>(options: seq<T>, i: int)
    requires 0 <= i < |options|
    ensures Choose(options, i + 1) == Accepted(options[i])
  {
  }

  /** Each clue type is picked by exactly one menu number. */
  lemma MenuNumber(t: ClueType) returns (n: int)
    ensures 1 <= n <= 5 && Choose(ClueOptions(), n).Accepted? && Choose(ClueOptions(), n).value.1 == t
    ensures forall k :: Choose(ClueOptions(), k).Accepted? && Choose(ClueOptions(), k).value.1 == t ==> k == n
  {
    n := match t
      case Negation => 1
      case Affirmative => 2
      case Relational => 3
      case Conditional => 4
      case DataInference => 5;
  }

  // ---------------------------------------------------------------------
  // Clue texts
  // ---------------------------------------------------------------------

  /** A clue as the authoring tool builds it. */
  datatype Clue = Clue(text: string, kind: ClueType)

  const UnknownData := "Unknown Data"

  /** The sentences of the five clue types. Each is its words joined by single spaces,
      the last word carrying the closing period: "{actor} did not use {vector}." */
  function NegationText(actor: string, vector: string): string
  {
    Join([actor, "did", "not", "use", vector + "."], " ")
  }

  /** "{vector} was used against the {asset}." */
  function AffirmativeText(vector: string, asset: string): string
  {
    Join([vector, "was", "used", "against", "the", asset + "."], " ")
  }

  /** "The actor that used {vector} did not access the {asset}." */
  function RelationalText(vector: string, asset: string): string
  {
    Join(["The", "actor", "that", "used", vector, "did", "not", "access", "the", asset + "."], " ")
  }

  /** "If {actor} used {vector}, then they accessed the {asset}." */
  function ConditionalText(actor: string, vector: string, asset: string): string
  {
    Join(["If", actor, "used", vector + ",", "then", "they", "accessed", "the", asset + "."], " ")
  }

  /** "Only attacks using {vector} resulted in theft of {data}." */
  function DataInferenceText(vector: string, data: string): string
  {
    Join(DataInferenceLead(vector) + [data + "."], " ")
  }

  function DataInferenceLead(vector: string): seq<string>
  {
    ["Only", "attacks", "using", vector, "resulted", "in", "theft", "of"]
  }

  /** The words before the last one, then a space, then the last word. */
  lemma {:induction false} JoinLast(ws: seq<string>, w: string, sep: string)
    requires ws != []
    ensures Join(ws + [w], sep) == Join(ws, sep) + sep + w
  {
    if |ws| == 1 {
      assert ws + [w] == [ws[0], w];
    } else {
      assert (ws + [w])[1..] == ws[1..] + [w];
      JoinLast(ws[1..], w, sep);
    }
  }

  /** The data-inference sentence names the stolen data. */
  lemma DataInferenceMentions(vector: string, data: string)
    ensures Contains(DataInferenceText(vector, data), data)
  {
    var lead := Join(DataInferenceLead(vector), " ");
    JoinLast(DataInferenceLead(vector), data + ".", " ");
    assert DataInferenceText(vector, data) == (lead + " ") + data + ".";
    ContainsAt(lead + " ", data, ".");
  }

  /** The stolen-data answer: stripped, with an empty answer replaced by "Unknown Data". */
  function DataLabel(line: string): (d: string)
    ensures Trimmed(d)
    ensures Strip(line, Whitespace) != [] ==> d == Strip(line, Whitespace)
    ensures Strip(line, Whitespace) == [] ==> d == UnknownData
  {
    var s := Strip(line, Whitespace);
    if s == [] then UnknownDataTrimmed(); UnknownData else s
  }

  lemma UnknownDataTrimmed()
    ensures Trimmed(UnknownData)
  {
  }

  /** `_create_clue_by_type` once the prompts are answered; `dataLine` is read only for a
      data-inference clue. */
  function CreateClue(t: ClueType, actor: string, vector: string, asset: string, dataLine: string)
    : (c: Clue)
    ensures c.kind == t
    ensures t == DataInference ==> Contains(c.text, DataLabel(dataLine))
  {
    match t
    case Negation => Clue(NegationText(actor, vector), t)
    case Affirmative => Clue(AffirmativeText(vector, asset), t)
    case Relational => Clue(RelationalText(vector, asset), t)
    case Conditional => Clue(ConditionalText(actor, vector, asset), t)
    case DataInference =>
      var d := DataLabel(dataLine);
      DataInferenceMentions(vector, d);
      Clue(DataInferenceText(vector, d), t)
  }

  // ---------------------------------------------------------------------
  // Puzzle numbering
  // ---------------------------------------------------------------------

  predicate IsDigit(c: char) { '0' <= c <= '9' }

  function DigitOf(c: char): nat
    requires IsDigit(c)
  {
    c as int - '0' as int
  }

  /** The longest prefix of `s` made of digits: what the greedy `\d+` takes. */
  function DigitRun(s: string): (d: string)
    ensures d <= s && forall i :: 0 <= i < |d| ==> IsDigit(d[i])
    ensures |d| < |s| ==> !IsDigit(s[|d|])
  {
    if s == [] || !IsDigit(s[0]) then [] else [s[0]] + DigitRun(s[1..])
  }

  /** `int(d)` for a string of decimal digits. */
  function DecimalValue(d: string): nat
    requires forall i :: 0 <= i < |d| ==> IsDigit(d[i])
  {
    if d == [] then 0 else 10 * DecimalValue(d[..|d| - 1]) + DigitOf(d[|d| - 1])
  }

  /** `str(n)`. */
  function Decimal(n: nat): (d: string)
    ensures d != [] && forall i :: 0 <= i < |d| ==> IsDigit(d[i])
  {
    if n < 10 then [('0' as int + n) as char]
    else Decimal(n / 10) + [('0' as int + n % 10) as char]
  }

  /** Reading back the decimal form of a number gives the number. */
  lemma {:induction false} DecimalRoundTrip(n: nat)
    ensures DecimalValue(Decimal(n)) == n
  {
    if n >= 10 {
      DecimalRoundTrip(n / 10);
      var d := Decimal(n);
      assert d[..|d| - 1] == Decimal(n / 10);
    }
  }

  const FilePrefix := "web_"
  const FileSuffix := ".json"

  /** The puzzle number in a file name matched by `web_(\d+)\.json`. `re.match` anchors the
      pattern at the start only, and the digit run must be followed by ".json"; since a
      shorter run would be followed by a digit, only the longest run can match. */
  function FileNumber(name: string): Option<nat>
  {
    if FilePrefix <= name then
      var rest := name[|FilePrefix|..];
      var d := DigitRun(rest);
      if d != [] && FileSuffix <= rest[|d|..] then Some(DecimalValue(d)) else None
    else None
  }

  /** `f"web_{n}.json"`, the name `save_puzzle` gives puzzle number `n`. */
  function FileName(n: nat): string
  {
    FilePrefix + Decimal(n) + FileSuffix
  }

  /** The name a puzzle is saved under reads back as its number. */
  lemma FileNameNumber(n: nat)
    ensures FileNumber(FileName(n)) == Some(n)
  {
    var name := FileName(n);
    var d := Decimal(n);
    assert FilePrefix <= name;
    var rest := name[|FilePrefix|..];
    assert rest == d + FileSuffix;
    DigitRunStops(d, FileSuffix);
    DecimalRoundTrip(n);
  }

  /** The digit run of digits followed by a non-digit is exactly those digits. */
  lemma {:induction false} DigitRunStops(d: string, tail: string)
    requires forall i :: 0 <= i < |d| ==> IsDigit(d[i])
    requires tail != [] && !IsDigit(tail[0])
    ensures DigitRun(d + tail) == d
  {
    if d != [] {
      assert (d + tail)[1..] == d[1..] + tail;
      DigitRunStops(d[1..], tail);
    }
  }

  /** The numbers of the matching names, in directory order. */
  function Numbers(names: seq<string>): seq<nat>
  {
    if names == [] then []
    else
      (match FileNumber(names[0]) case Some(n) => [n] case None => []) + Numbers(names[1..])
  }

  /** Every matching name contributes its number. */
  lemma {:induction false} NumbersHave(names: seq<string>, i: nat)
    requires i < |names| && FileNumber(names[i]).Some?
    ensures FileNumber(names[i]).value in Numbers(names)
  {
    if i > 0 {
      NumbersHave(names[1..], i - 1);
    }
  }

  /** `max(ns)`. */
  function Max(ns: seq<nat>): (m: nat)
    requires ns != []
    ensures m in ns && forall k :: k in ns ==> k <= m
  {
    if |ns| == 1 then ns[0]
    else
      var m := Max(ns[1..]);
      assert forall k :: k in ns ==> k == ns[0] || k in ns[1..];
      if ns[0] >= m then ns[0] else m
  }

  /** `get_next_puzzle_number` over the names of the files in the puzzles directory. */
  function NextPuzzleNumber(names: seq<string>): (n: nat)
    ensures n >= 1
    ensures forall k :: k in Numbers(names) ==> k < n
    ensures n == 1 || n - 1 in Numbers(names)
  {
    var ns := Numbers(names);
    if ns == [] then 1 else Max(ns) + 1
  }

  /** The file the next puzzle is saved under does not overwrite an existing one. */
  lemma NextNameIsFresh(names: seq<string>)
    ensures FileName(NextPuzzleNumber(names)) !in names
  {
    var n := NextPuzzleNumber(names);
    FileNameNumber(n);
    if i :| 0 <= i < |names| && names[i] == FileName(n) {
      NumbersHave(names, i);
    }
  }
}
