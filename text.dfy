/** The Python string primitives the validator and the authoring tool rely on:
    `str.split()`, `str.split(sep)`, `str.strip(chars)`, `str.replace(c, '')`,
    the substring test `sub in s`, and joining with a separator. */
module Text {

  /** The ASCII characters Python's `str.split()` and `str.strip()` treat as whitespace. */
  const Whitespace: set<char> :=
    {' ', '\t', '\n', '\U{B}', '\U{C}', '\r', '\U{1C}', '\U{1D}', '\U{1E}', '\U{1F}'}

  predicate IsSpace(c: char) { c in Whitespace }

  predicate NoSpace(w: string) { forall i :: 0 <= i < |w| ==> !IsSpace(w[i]) }

  /** A token `str.split()` can return: non-empty and free of whitespace. */
  predicate IsWord(w: string) { w != [] && NoSpace(w) }

  /** The longest whitespace-free prefix of `s`. */
  function Token(s: string): (w: string)
    ensures w <= s && NoSpace(w)
    ensures |w| < |s| ==> IsSpace(s[|w|])
  {
    if s == [] || IsSpace(s[0]) then [] else [s[0]] + Token(s[1..])
  }

  /** `s.split()`: the maximal whitespace-free runs of `s`, in order. */
  function Words(s: string): (ws: seq<string>)
    ensures forall i :: 0 <= i < |ws| ==> IsWord(ws[i])
    decreases |s|
  {
    if s == [] then []
    else if IsSpace(s[0]) then Words(s[1..])
    else var w := Token(s); [w] + Words(s[|w|..])
  }

  /** `sep.join(ws)`. */
  function Join(ws: seq<string>, sep: string): string
  {
    if |ws| == 0 then ""
    else if |ws| == 1 then ws[0]
    else ws[0] + sep + Join(ws[1..], sep)
  }

  /** Drops the leading characters of `s` that belong to `chars`. */
  function TrimLeft(s: string, chars: set<char>): (r: string)
    ensures |r| <= |s| && r == s[|s| - |r|..]
    ensures r == [] || r[0] !in chars
  {
    if s != [] && s[0] in chars then TrimLeft(s[1..], chars) else s
  }

  /** Drops the trailing characters of `s` that belong to `chars`. */
  function TrimRight(s: string, chars: set<char>): (r: string)
    ensures r <= s
    ensures r == [] || r[|r| - 1] !in chars
  {
    if s != [] && s[|s| - 1] in chars then TrimRight(s[..|s| - 1], chars) else s
  }

  /** `s.strip(chars)`; `s.strip()` is `Strip(s, Whitespace)` and `s.strip('.')` is
      `Strip(s, {'.'})`. */
  function Strip(s: string, chars: set<char>): (r: string)
    ensures r == [] || (r[0] !in chars && r[|r| - 1] !in chars)
  {
    TrimRight(TrimLeft(s, chars), chars)
  }

  /** `sub in s` on strings: `sub` occurs in `s` at some position. */
  predicate Contains(s: string, sub: string)
  {
    sub <= s || (s != [] && Contains(s[1..], sub))
  }

  /** `s.split(sep)` for a one-character separator: never empty, keeps empty pieces. */
  function SplitOn(s: string, sep: char): (r: seq<string>)
    ensures |r| >= 1
    ensures forall i :: 0 <= i < |r| ==> sep !in r[i]
  {
    if s == [] then [""]
    else
      var rest := SplitOn(s[1..], sep);
      if s[0] == sep then [""] + rest else [[s[0]] + rest[0]] + rest[1..]
  }

  /** `s.replace(c, '')`. */
  function Remove(s: string, c: char): (r: string)
    ensures c !in r
    ensures |r| <= |s|
  {
    if s == [] then [] else (if s[0] == c then [] else [s[0]]) + Remove(s[1..], c)
  }

  // ---------------------------------------------------------------------
  // Facts about the primitives
  // ---------------------------------------------------------------------

  /** A substring found at a known position is reported by `Contains`. */
  lemma {:induction false} ContainsAt(pre: string, sub: string, post: string)
    ensures Contains(pre + sub + post, sub)
  {
    if pre != [] {
      assert (pre + sub + post)[1..] == pre[1..] + sub + post;
      ContainsAt(pre[1..], sub, post);
    } else {
      assert pre + sub + post == sub + post;
    }
  }

  /** `Token` stops at the first whitespace character after a word. */
  lemma {:induction false} TokenOfWord(w: string, rest: string)
    requires NoSpace(w)
    requires rest == [] || IsSpace(rest[0])
    ensures Token(w + rest) == w
  {
    if w != [] {
      assert (w + rest)[1..] == w[1..] + rest;
      TokenOfWord(w[1..], rest);
    } else {
      assert w + rest == rest;
    }
  }

  /** A single word splits into itself. */
  lemma WordsOfWord(w: string)
    requires IsWord(w)
    ensures Words(w) == [w]
  {
    TokenOfWord(w, []);
    assert w + [] == w;
  }

  /** Splitting text made of words separated by single spaces gives back the words:
      `' '.join(ws).split() == ws`. */
  lemma {:induction false} WordsOfJoin(ws: seq<string>)
    requires forall i :: 0 <= i < |ws| ==> IsWord(ws[i])
    ensures Words(Join(ws, " ")) == ws
  {
    if |ws| == 1 {
      WordsOfWord(ws[0]);
    } else if |ws| > 1 {
      var w, tail := ws[0], Join(ws[1..], " ");
      var s := w + " " + tail;
      assert s == w + (" " + tail);
      TokenOfWord(w, " " + tail);
      assert s[|w|..] == " " + tail;
      assert (" " + tail)[1..] == tail;
      WordsOfJoin(ws[1..]);
    }
  }

  /** Stripping '.' from a word followed by one period gives back the word. */
  lemma StripPeriod(w: string)
    requires w != [] && w[0] != '.' && w[|w| - 1] != '.'
    ensures Strip(w + ".", {'.'}) == w
  {
    var s := w + ".";
    assert TrimLeft(s, {'.'}) == s;
    assert s[..|s| - 1] == w;
    assert TrimRight(w, {'.'}) == w;
  }

  /** Removing a character the text does not contain changes nothing. */
  lemma {:induction false} RemoveAbsent(s: string, c: char)
    requires c !in s
    ensures Remove(s, c) == s
  {
    if s != [] {
      RemoveAbsent(s[1..], c);
    }
  }

  /** `Remove` distributes over concatenation. */
  lemma {:induction false} RemoveConcat(a: string, b: string, c: char)
    ensures Remove(a + b, c) == Remove(a, c) + Remove(b, c)
  {
    if a != [] {
      assert (a + b)[1..] == a[1..] + b;
      RemoveConcat(a[1..], b, c);
    } else {
      assert a + b == b;
    }
  }

  /** `Strip` leaves a string whose ends are not stripped characters untouched. */
  lemma StripClean(s: string, chars: set<char>)
    requires s == [] || (s[0] !in chars && s[|s| - 1] !in chars)
    ensures Strip(s, chars) == s
  {
  }

  /** Splitting a separator-joined list of separator-free pieces gives back the pieces:
      `sep.join(ps).split(sep) == ps`. */
  lemma {:induction false} SplitOfJoin(ps: seq<string>, sep: char)
    requires |ps| >= 1
    requires forall i :: 0 <= i < |ps| ==> sep !in ps[i]
    ensures SplitOn(Join(ps, [sep]), sep) == ps
  {
    if |ps| == 1 {
      SplitNoSep(ps[0], sep);
    } else {
      var tail := Join(ps[1..], [sep]);
      SplitOfJoin(ps[1..], sep);
      SplitPrefix(ps[0], [sep] + tail, sep);
      assert ps[0] + [sep] + tail == ps[0] + ([sep] + tail);
      assert ([sep] + tail)[1..] == tail;
      assert [ps[0]] + ps[1..] == ps;
    }
  }

  /** A piece without the separator splits into itself. */
  lemma {:induction false} SplitNoSep(w: string, sep: char)
    requires sep !in w
    ensures SplitOn(w, sep) == [w]
  {
    if w != [] {
      SplitNoSep(w[1..], sep);
      assert [w[0]] + w[1..] == w;
    }
  }

  /** A separator-free prefix becomes the front of the first piece. */
  lemma {:induction false} SplitPrefix(w: string, rest: string, sep: char)
    requires sep !in w
    requires rest != [] && rest[0] == sep
    ensures SplitOn(w + rest, sep) == [w] + SplitOn(rest[1..], sep)
  {
    if w == [] {
      assert w + rest == rest;
    } else {
      assert (w + rest)[1..] == w[1..] + rest;
      SplitPrefix(w[1..], rest, sep);
      assert [w[0]] + w[1..] == w;
    }
  }

  /** The first and last characters of a join of non-empty pieces are those of the
      first and last pieces. */
  lemma {:induction false} JoinEnds(ws: seq<string>, sep: string)
    requires |ws| >= 1 && forall i :: 0 <= i < |ws| ==> ws[i] != []
    ensures var s := Join(ws, sep);
      s != [] && s[0] == ws[0][0] && s[|s| - 1] == ws[|ws| - 1][|ws[|ws| - 1]| - 1]
  {
    if |ws| > 1 {
      JoinEnds(ws[1..], sep);
    }
  }
}
