/** The Python `str` operations the scraper and the page cleaner rely on:
    `strip()`, `split()`, `sep.join(...)`, `sub in s` and `s.split(sep)[0]`,
    each with the exact whitespace set of Python's `str.isspace()`. */
module StringOps {

  /** The characters `str.strip()` and `str.split()` treat as whitespace
      (Python's `str.isspace()`). */
  predicate IsSpace(c: char)
  {
    || ('\t' <= c <= '\r')
    || ('\U{1C}' <= c <= '\U{1F}')
    || c == ' '
    || c == '\U{85}'
    || c == '\U{A0}'
    || c == '\U{1680}'
    || ('\U{2000}' <= c <= '\U{200A}')
    || c == '\U{2028}'
    || c == '\U{2029}'
    || c == '\U{202F}'
    || c == '\U{205F}'
    || c == '\U{3000}'
  }

  predicate AllSpace(s: string)
  {
    forall i :: 0 <= i < |s| ==> IsSpace(s[i])
  }

  predicate NoSpace(s: string)
  {
    forall i :: 0 <= i < |s| ==> !IsSpace(s[i])
  }

  /** Neither end is whitespace: the strings `str.strip()` can return. */
  predicate IsStripped(s: string)
  {
    s == [] || (!IsSpace(s[0]) && !IsSpace(s[|s| - 1]))
  }

  /* ---------------------------------------------------------------- strip */

  function LStrip(s: string): (r: string)
    ensures |r| <= |s| && r == s[|s| - |r|..]
    ensures AllSpace(s[..|s| - |r|])
    ensures r == [] || !IsSpace(r[0])
    decreases |s|
  {
    if s != [] && IsSpace(s[0]) then
      var r := LStrip(s[1..]);
      assert s[..|s| - |r|] == [s[0]] + s[1..][..|s| - 1 - |r|];
      r
    else
      s
  }

  function RStrip(s: string): (r: string)
    ensures |r| <= |s| && r == s[..|r|]
    ensures AllSpace(s[|r|..])
    ensures r == [] || !IsSpace(r[|r| - 1])
    decreases |s|
  {
    if s != [] && IsSpace(s[|s| - 1]) then
      var r := RStrip(s[..|s| - 1]);
      assert s[|r|..] == s[..|s| - 1][|r|..] + [s[|s| - 1]];
      r
    else
      s
  }

  /** Python's `s.strip()`. */
  function Strip(s: string): (r: string)
    ensures IsStripped(r)
    ensures |r| <= |s|
    ensures IsStripped(s) <==> r == s
  {
    var l := LStrip(s);
    var r := RStrip(l);
    assert r == [] || !IsSpace(r[0]) by {
      if r != [] { assert r[0] == l[0]; }
    }
    assert IsStripped(s) ==> r == s by {
      if IsStripped(s) && s != [] {
        assert l == s;
        assert r == l;
      }
    }
    r
  }

  /** `Strip` removes only whitespace, and only at the two ends: the input is
      the result with a run of whitespace before it and one after it. */
  lemma StripParts(s: string) returns (lead: string, trail: string)
    ensures s == lead + Strip(s) + trail
    ensures AllSpace(lead) && AllSpace(trail)
  {
    var l := LStrip(s);
    var r := RStrip(l);
    assert Strip(s) == r;
    lead := s[..|s| - |l|];
    trail := l[|r|..];
    LStripSplits(s);
    RStripSplits(l);
    assert s == lead + l;
    assert l == r + trail;
    ConcatAssoc(lead, r, trail);
  }

  lemma ConcatAssoc(a: string, b: string, c: string)
    ensures a + (b + c) == a + b + c
  {
  }

  lemma LStripSplits(s: string)
    ensures s == s[..|s| - |LStrip(s)|] + LStrip(s)
  {
  }

  lemma RStripSplits(s: string)
    ensures s == RStrip(s) + s[|RStrip(s)|..]
  {
  }

  /** Every string `Strip` returns is left alone by it. */
  lemma StripIdempotent(s: string)
    ensures Strip(Strip(s)) == Strip(s)
  {
  }

  /* ------------------------------------------------------- containment */

  /** Python's `sub in s` for two strings. */
  predicate Contains(s: string, sub: string)
    decreases |s|
  {
    |sub| <= |s| && (s[..|sub|] == sub || (s != [] && Contains(s[1..], sub)))
  }

  /** Python's `s.split(sep)[0]`: everything before the first `sep`. */
  function BeforeFirst(s: string, sep: char): (r: string)
    ensures r <= s
    ensures sep !in r
    ensures sep in s <==> |r| < |s|
    ensures |r| < |s| ==> s[|r|] == sep
  {
    if s == [] || s[0] == sep then [] else [s[0]] + BeforeFirst(s[1..], sep)
  }

  /** `(a + sep + b).split(sep)[0] == a` whenever `a` holds no `sep`. */
  lemma {:induction false} BeforeFirstOf(a: string, sep: char, b: string)
    requires sep !in a
    ensures BeforeFirst(a + [sep] + b, sep) == a
    decreases |a|
  {
    if a != [] {
      assert (a + [sep] + b)[0] == a[0];
      assert (a + [sep] + b)[1..] == a[1..] + [sep] + b;
      BeforeFirstOf(a[1..], sep, b);
    }
  }

  /* --------------------------------------------------------- split / join */

  predicate IsWord(w: string)
  {
    w != [] && NoSpace(w)
  }

  /** The longest prefix of `s` that holds no whitespace. */
  function LeadingWord(s: string): (w: string)
    ensures w <= s && NoSpace(w)
    ensures |w| < |s| ==> IsSpace(s[|w|])
    ensures s != [] && !IsSpace(s[0]) ==> w != []
  {
    if s == [] || IsSpace(s[0]) then [] else [s[0]] + LeadingWord(s[1..])
  }

  /** Python's `s.split()` with no argument: the maximal runs of
      non-whitespace characters, in order. */
  function Words(s: string): (ws: seq<string>)
    ensures forall k :: 0 <= k < |ws| ==> IsWord(ws[k])
    decreases |s|
  {
    if s == [] then []
    else if IsSpace(s[0]) then Words(s[1..])
    else
      var w := LeadingWord(s);
      [w] + Words(s[|w|..])
  }

  /** Python's `sep.join(parts)`. */
  function Join(parts: seq<string>, sep: string): string
  {
    if parts == [] then []
    else if |parts| == 1 then parts[0]
    else parts[0] + sep + Join(parts[1..], sep)
  }

  /** The words of each string, one string after another. */
  function WordsOfAll(xs: seq<string>): seq<string>
  {
    if xs == [] then [] else Words(xs[0]) + WordsOfAll(xs[1..])
  }

  /** What `' '.join(s.split())` leaves: every whitespace character is a
      plain space, never at either end and never next to another one. */
  predicate Collapsed(s: string)
  {
    && IsStripped(s)
    && (forall i :: 0 <= i < |s| && IsSpace(s[i]) ==> s[i] == ' ')
    && (forall i :: 0 <= i < |s| - 1 && IsSpace(s[i]) ==> !IsSpace(s[i + 1]))
  }

  /** Python's `' '.join(s.split())`. */
  function Collapse(s: string): (r: string)
    ensures Collapsed(r)
    ensures Words(r) == Words(s)
    ensures Collapsed(s) <==> r == s
  {
    var ws := Words(s);
    JoinOfWordsCollapsed(ws);
    WordsOfJoin(ws);
    CollapsedIsFixpoint(s);
    Join(ws, " ")
  }

  /** Collapsing twice is collapsing once. */
  lemma CollapseIdempotent(s: string)
    ensures Collapse(Collapse(s)) == Collapse(s)
  {
  }

  /* -------------------------------------------------------- word lemmas */

  lemma {:induction false} LeadingWordAppend(a: string, t: string)
    requires |LeadingWord(a)| < |a| || t == [] || IsSpace(t[0])
    ensures LeadingWord(a + t) == LeadingWord(a)
    decreases |a|
  {
    if a == [] {
      assert a + t == t;
    } else if IsSpace(a[0]) {
      assert (a + t)[0] == a[0];
    } else {
      assert (a + t)[1..] == a[1..] + t;
      LeadingWordAppend(a[1..], t);
    }
  }

  lemma {:induction false} WordsOfWord(w: string)
    requires IsWord(w)
    ensures Words(w) == [w]
  {
    LeadingWordAppend(w, []);
    assert w + [] == w;
    WordOfWord(w, []);
    assert w[|w|..] == [];
  }

  lemma {:induction false} WordOfWord(w: string, t: string)
    requires NoSpace(w) && (t == [] || IsSpace(t[0]))
    ensures LeadingWord(w + t) == w
    decreases |w|
  {
    if w == [] {
      assert w + t == t;
    } else {
      assert (w + t)[1..] == w[1..] + t;
      assert (w + t)[0] == w[0];
      WordOfWord(w[1..], t);
      assert [w[0]] + w[1..] == w;
    }
  }

  /** Joining with a single space never merges or splits words. */
  lemma {:induction false} WordsOfSpacedPair(a: string, b: string)
    ensures Words(a + " " + b) == Words(a) + Words(b)
    decreases |a|, 1
  {
    if a == [] {
      assert [] + " " + b == [' '] + b;
      assert ([' '] + b)[1..] == b;
    } else if IsSpace(a[0]) {
      SpacedPairAfterSpace(a, b);
    } else {
      SpacedPairAfterWord(a, b);
    }
  }

  lemma {:induction false} SpacedPairAfterSpace(a: string, b: string)
    requires a != [] && IsSpace(a[0])
    ensures Words(a + " " + b) == Words(a) + Words(b)
    decreases |a|, 0
  {
    assert (a + " " + b)[0] == a[0];
    assert (a + " " + b)[1..] == a[1..] + " " + b;
    WordsOfSpacedPair(a[1..], b);
  }

  lemma {:induction false} SpacedPairAfterWord(a: string, b: string)
    requires a != [] && !IsSpace(a[0])
    ensures Words(a + " " + b) == Words(a) + Words(b)
    decreases |a|, 0
  {
    var w := LeadingWord(a);
    var rest := a[|w|..];
    assert Words(a + " " + b) == [w] + Words(rest + " " + b) by {
      assert a + " " + b == a + (" " + b);
      LeadingWordAppend(a, " " + b);
      assert (a + " " + b)[0] == a[0];
      assert (a + " " + b)[|w|..] == rest + " " + b;
    }
    WordsOfSpacedPair(rest, b);
    assert Words(a) == [w] + Words(rest);
  }

  lemma {:induction false} WordsOfAllSpace(t: string)
    requires AllSpace(t)
    ensures Words(t) == []
    decreases |t|
  {
    if t != [] {
      WordsOfAllSpace(t[1..]);
    }
  }

  lemma {:induction false} WordsIgnoreLeadingSpace(l: string, a: string)
    requires AllSpace(l)
    ensures Words(l + a) == Words(a)
    decreases |l|
  {
    if l == [] {
      assert l + a == a;
    } else {
      assert (l + a)[0] == l[0];
      assert (l + a)[1..] == l[1..] + a;
      WordsIgnoreLeadingSpace(l[1..], a);
    }
  }

  lemma {:induction false} WordsIgnoreTrailingSpace(a: string, t: string)
    requires AllSpace(t)
    ensures Words(a + t) == Words(a)
    decreases |a|
  {
    if a == [] {
      assert a + t == t;
      WordsOfAllSpace(t);
    } else if IsSpace(a[0]) {
      assert (a + t)[0] == a[0];
      assert (a + t)[1..] == a[1..] + t;
      WordsIgnoreTrailingSpace(a[1..], t);
    } else {
      var w := LeadingWord(a);
      LeadingWordAppend(a, t);
      assert (a + t)[0] == a[0];
      assert (a + t)[|w|..] == a[|w|..] + t;
      WordsIgnoreTrailingSpace(a[|w|..], t);
    }
  }

  /** Stripping never changes the words of a string. */
  lemma WordsOfStrip(s: string)
    ensures Words(Strip(s)) == Words(s)
  {
    var lead, trail := StripParts(s);
    WordsIgnoreSpaceAround(lead, Strip(s), trail);
  }

  lemma WordsIgnoreSpaceAround(lead: string, a: string, trail: string)
    requires AllSpace(lead) && AllSpace(trail)
    ensures Words(lead + a + trail) == Words(a)
  {
    assert lead + a + trail == lead + (a + trail);
    WordsIgnoreLeadingSpace(lead, a + trail);
    WordsIgnoreTrailingSpace(a, trail);
  }

  /** `' '.join(ws).split() == ws` for a list of whitespace-free, non-empty words. */
  lemma {:induction false} WordsOfJoin(ws: seq<string>)
    requires forall k :: 0 <= k < |ws| ==> IsWord(ws[k])
    ensures Words(Join(ws, " ")) == ws
    decreases |ws|
  {
    if ws == [] {
    } else if |ws| == 1 {
      WordsOfWord(ws[0]);
    } else {
      WordsOfSpacedPair(ws[0], Join(ws[1..], " "));
      WordsOfWord(ws[0]);
      WordsOfJoin(ws[1..]);
      assert ws == [ws[0]] + ws[1..];
    }
  }

  /** `' '.join(xs).split()` is the words of each part in turn. */
  lemma {:induction false} WordsOfJoinAll(xs: seq<string>)
    ensures Words(Join(xs, " ")) == WordsOfAll(xs)
    decreases |xs|
  {
    if xs == [] {
    } else if |xs| == 1 {
      assert WordsOfAll(xs) == Words(xs[0]) + WordsOfAll([]);
    } else {
      WordsOfSpacedPair(xs[0], Join(xs[1..], " "));
      WordsOfJoinAll(xs[1..]);
    }
  }

  lemma {:induction false} JoinOfWordsCollapsed(ws: seq<string>)
    requires forall k :: 0 <= k < |ws| ==> IsWord(ws[k])
    ensures Collapsed(Join(ws, " "))
    ensures ws != [] ==> Join(ws, " ") != []
    decreases |ws|
  {
    if |ws| == 1 {
      assert Join(ws, " ") == ws[0];
    } else if |ws| > 1 {
      var w, j := ws[0], Join(ws[1..], " ");
      JoinOfWordsCollapsed(ws[1..]);
      var s := w + " " + j;
      assert Join(ws, " ") == s;
      assert s[0] == w[0];
      assert s[|s| - 1] == j[|j| - 1];
      forall i | 0 <= i < |s| && IsSpace(s[i])
        ensures s[i] == ' '
      {
        if i > |w| {
          assert s[i] == j[i - |w| - 1];
        }
      }
      forall i | 0 <= i < |s| - 1 && IsSpace(s[i])
        ensures !IsSpace(s[i + 1])
      {
        if i == |w| {
          assert s[i + 1] == j[0];
        } else if i > |w| {
          assert s[i] == j[i - |w| - 1];
          assert s[i + 1] == j[i - |w|];
        }
      }
    }
  }

  lemma CollapsedSuffix(s: string, k: nat)
    requires Collapsed(s) && k < |s| && !IsSpace(s[k])
    ensures Collapsed(s[k..])
  {
    var t := s[k..];
    forall i | 0 <= i < |t| && IsSpace(t[i])
      ensures t[i] == ' '
    {
      assert t[i] == s[i + k];
    }
    forall i | 0 <= i < |t| - 1 && IsSpace(t[i])
      ensures !IsSpace(t[i + 1])
    {
      assert t[i] == s[i + k] && t[i + 1] == s[i + k + 1];
    }
  }

  /** A collapsed string is exactly the space-join of its own words. */
  lemma {:induction false} CollapsedIsFixpoint(s: string)
    ensures Collapsed(s) ==> Join(Words(s), " ") == s
    decreases |s|, 1
  {
    if Collapsed(s) && s != [] {
      var w := LeadingWord(s);
      if |w| == |s| {
        assert w == s;
        WordsOfWord(s);
      } else {
        CollapsedWordThenRest(s);
      }
    }
  }

  /** A collapsed string with a space in it is its first word, one space and
      the collapsed rest. */
  lemma {:induction false} CollapsedWordThenRest(s: string)
    requires Collapsed(s) && s != [] && |LeadingWord(s)| < |s|
    ensures Join(Words(s), " ") == s
    decreases |s|, 0
  {
    var w, rest := CollapsedSplit(s);
    CollapsedIsFixpoint(rest);
    WordsOfSpacedPair(w, rest);
    WordsOfWord(w);
    var ws := Words(rest);
    assert ws != [] by {
      assert Words(rest) == [LeadingWord(rest)] + Words(rest[|LeadingWord(rest)|..]);
    }
    assert Words(s) == [w] + ws;
    JoinCons(w, ws);
  }

  lemma CollapsedSplit(s: string) returns (w: string, rest: string)
    requires Collapsed(s) && s != [] && |LeadingWord(s)| < |s|
    ensures s == w + " " + rest
    ensures IsWord(w) && Collapsed(rest) && rest != [] && !IsSpace(rest[0])
    ensures |rest| < |s|
  {
    w := LeadingWord(s);
    var k := |w| + 1;
    assert s[|w|] == ' ';
    assert k < |s| && !IsSpace(s[k]);
    rest := s[k..];
    CollapsedSuffix(s, k);
    assert s == s[..|w|] + [s[|w|]] + s[k..];
  }

  lemma JoinCons(w: string, ws: seq<string>)
    requires ws != []
    ensures Join([w] + ws, " ") == w + " " + Join(ws, " ")
  {
    assert ([w] + ws)[1..] == ws;
  }
}
