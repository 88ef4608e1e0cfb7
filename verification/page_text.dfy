/** The cleaning half of `fetch_and_clean_content`: drop the page chrome,
    keep the paragraph text (or the body text when there are no
    paragraphs), and collapse the whitespace. The page is given already
    parsed, as `html.parser` leaves it: a sequence of top-level nodes. */
module PageText {
  import opened Results
  import opened StringOps

  datatype Node = Text(content: string) | Element(tag: string, children: seq<Node>)

  /** The tags whose elements are decomposed, with everything inside them. */
  const RemovedTags: set<string> := {"script", "style", "nav", "footer", "header", "aside"}

  predicate Removed(n: Node)
  {
    n.Element? && n.tag in RemovedTags
  }

  /* ------------------------------------------------------------ pruning */

  /** No element with a removed tag, at any depth. */
  predicate Free(ns: seq<Node>)
    decreases ns, 1
  {
    ns == [] || (FreeNode(ns[0]) && Free(ns[1..]))
  }

  predicate FreeNode(n: Node)
    decreases n, 0
  {
    match n
    case Text(_) => true
    case Element(t, cs) => t !in RemovedTags && Free(cs)
  }

  /** The nodes after every removed-tag element has been decomposed. */
  function Prune(ns: seq<Node>): (r: seq<Node>)
    ensures |r| <= |ns|
    decreases ns, 1
  {
    if ns == [] then [] else PruneNode(ns[0]) + Prune(ns[1..])
  }

  function PruneNode(n: Node): (r: seq<Node>)
    ensures |r| <= 1
    ensures r == [] <==> Removed(n)
    decreases n, 0
  {
    match n
    case Text(_) => [n]
    case Element(t, cs) => if t in RemovedTags then [] else [Element(t, Prune(cs))]
  }

  /** All text in document order. */
  function Strings(ns: seq<Node>): seq<string>
    decreases ns, 1
  {
    if ns == [] then [] else NodeStrings(ns[0]) + Strings(ns[1..])
  }

  function NodeStrings(n: Node): seq<string>
    decreases n, 0
  {
    match n
    case Text(s) => [s]
    case Element(_, cs) => Strings(cs)
  }

  /** Reference definition: the text a reader sees when skipping every
      removed-tag element together with its contents. */
  function VisibleStrings(ns: seq<Node>): seq<string>
    decreases ns
  {
    if ns == [] then []
    else if Removed(ns[0]) then VisibleStrings(ns[1..])
    else
      var head := match ns[0]
        case Text(s) => [s]
        case Element(_, cs) => VisibleStrings(cs);
      head + VisibleStrings(ns[1..])
  }

  /** The contents of every `<p>` element in document order, nested ones
      included (`find_all('p')`). */
  function Paragraphs(ns: seq<Node>): seq<seq<Node>>
    decreases ns, 1
  {
    if ns == [] then [] else NodeParagraphs(ns[0]) + Paragraphs(ns[1..])
  }

  function NodeParagraphs(n: Node): seq<seq<Node>>
    decreases n, 0
  {
    match n
    case Text(_) => []
    case Element(t, cs) => (if t == "p" then [cs] else []) + Paragraphs(cs)
  }

  /** The contents of the first `<body>` element, in document order
      (`soup.body`); `html.parser` does not add one that is not written. */
  function FindBody(ns: seq<Node>): Option<seq<Node>>
    decreases ns
  {
    if ns == [] then None
    else match ns[0]
      case Text(_) => FindBody(ns[1..])
      case Element(t, cs) =>
        if t == "body" then Some(cs)
        else match FindBody(cs)
          case Some(b) => Some(b)
          case None => FindBody(ns[1..])
  }

  /* ---------------------------------------------------------- get_text */

  function Concat(ss: seq<string>): string
  {
    if ss == [] then [] else ss[0] + Concat(ss[1..])
  }

  /** The stripped strings, dropping those that strip to nothing. */
  function StrippedStrings(ss: seq<string>): (r: seq<string>)
    ensures |r| <= |ss|
  {
    if ss == [] then []
    else (if Strip(ss[0]) == [] then [] else [Strip(ss[0])]) + StrippedStrings(ss[1..])
  }

  /** `get_text(strip=True)`: the stripped strings run together. */
  function TightText(ns: seq<Node>): string
  {
    Concat(StrippedStrings(Strings(ns)))
  }

  /** `get_text(separator=' ', strip=True)`: the stripped strings, one
      space apart. */
  function SpacedText(ns: seq<Node>): string
  {
    Join(StrippedStrings(Strings(ns)), " ")
  }

  /** Each paragraph's `get_text(strip=True)`. */
  function ParagraphTexts(ps: seq<seq<Node>>): (r: seq<string>)
    ensures |r| == |ps|
    ensures forall k :: 0 <= k < |ps| ==> r[k] == TightText(ps[k])
  {
    seq(|ps|, k requires 0 <= k < |ps| => TightText(ps[k]))
  }

  /* ------------------------------------------------------------- cleaning */

  /** The exception `soup.body.get_text` raises when there is no body. */
  const NoBody: string := "'NoneType' object has no attribute 'get_text'"

  /** The cleaning as written: with no paragraph and no `<body>` it raises. */
  function CleanAsWritten(doc: seq<Node>): (r: Result<string, string>)
    ensures r.Failure? <==> Paragraphs(Prune(doc)) == [] && FindBody(Prune(doc)).None?
    ensures r.Success? ==> r.value == Clean(doc)
  {
    var page := Prune(doc);
    var ps := Paragraphs(page);
    if ps == [] then
      match FindBody(page)
      case None => Failure(NoBody)
      case Some(body) => Success(Collapse(SpacedText(body)))
    else Success(Collapse(Join(ParagraphTexts(ps), " ")))
  }

  /** The text the fallback evidently means: the body's text, or the whole
      page's when it has no `<body>`. */
  function FallbackText(page: seq<Node>): string
  {
    match FindBody(page)
    case Some(body) => SpacedText(body)
    case None => SpacedText(page)
  }

  /** The cleaning as intended: paragraphs joined by a space, or the
      fallback text, then whitespace collapsed. */
  function Clean(doc: seq<Node>): (r: string)
    ensures Collapsed(r)
    ensures var ps := Paragraphs(Prune(doc));
            ps != [] ==> Words(r) == WordsOfAll(ParagraphTexts(ps))
    ensures Paragraphs(Prune(doc)) == [] ==>
              Words(r) == WordsOfAll(StrippedStrings(Strings(
                match FindBody(Prune(doc)) case Some(body) => body case None => Prune(doc))))
  {
    var page := Prune(doc);
    var ps := Paragraphs(page);
    if ps == [] then
      WordsOfJoinAll(StrippedStrings(Strings(
        match FindBody(page) case Some(body) => body case None => page)));
      Collapse(FallbackText(page))
    else
      WordsOfJoinAll(ParagraphTexts(ps));
      Collapse(Join(ParagraphTexts(ps), " "))
  }

  /** `fetch_and_clean_content` after the fetch, as written: `None` when the
      fetch failed, the cleaned text otherwise, and the exception of the
      body fallback, which is outside the `try` and so leaves the function. */
  function FetchAndCleanAsWritten(fetched: Option<seq<Node>>): (r: Result<Option<string>, string>)
    ensures r.Failure? <==>
              fetched.Some? && Paragraphs(Prune(fetched.value)) == [] && FindBody(Prune(fetched.value)).None?
    ensures r.Failure? ==> r.error == NoBody
    ensures r == Success(None) <==> fetched.None?
    ensures r.Success? && fetched.Some? ==> r.value == Some(Clean(fetched.value))
  {
    match fetched
    case None => Success(None)
    case Some(doc) =>
      match CleanAsWritten(doc)
      case Failure(e) => Failure(e)
      case Success(text) => Success(Some(text))
  }

  /** `fetch_and_clean_content` after the fetch, as evidently intended:
      `None` when the fetch failed, otherwise the cleaned text. */
  function FetchAndClean(fetched: Option<seq<Node>>): (r: Option<string>)
    ensures r.Some? <==> fetched.Some?
    ensures r.Some? ==> Collapsed(r.value) && r.value == Clean(fetched.value)
  {
    match fetched
    case None => None
    case Some(doc) => Some(Clean(doc))
  }

  /** Where the code as written returns, it returns what the intended
      version does. */
  lemma FetchAndCleanAgrees(fetched: Option<seq<Node>>)
    requires FetchAndCleanAsWritten(fetched).Success?
    ensures FetchAndCleanAsWritten(fetched).value == FetchAndClean(fetched)
  {
  }

  /* ------------------------------------------------------------ properties */

  lemma {:induction false} PruneConcat(a: seq<Node>, b: seq<Node>)
    ensures Prune(a + b) == Prune(a) + Prune(b)
    decreases |a|
  {
    if a == [] {
      assert a + b == b;
    } else {
      assert (a + b)[0] == a[0] && (a + b)[1..] == a[1..] + b;
      PruneConcat(a[1..], b);
    }
  }

  /** After pruning no removed tag is left, at any depth. */
  lemma {:induction false} PruneFree(ns: seq<Node>)
    ensures Free(Prune(ns))
    decreases ns, 1
  {
    if ns != [] {
      PruneFree(ns[1..]);
      PruneNodeFree(ns[0]);
      FreeConcat(PruneNode(ns[0]), Prune(ns[1..]));
    }
  }

  lemma {:induction false} PruneNodeFree(n: Node)
    ensures Free(PruneNode(n))
    decreases n, 0
  {
    match n
    case Text(_) =>
      FreeSingleton(n);
    case Element(t, cs) =>
      if t !in RemovedTags {
        PruneFree(cs);
        FreeSingleton(Element(t, Prune(cs)));
      }
  }

  lemma FreeSingleton(n: Node)
    requires FreeNode(n)
    ensures Free([n])
  {
    assert [n][0] == n && [n][1..] == [];
  }

  lemma {:induction false} FreeConcat(a: seq<Node>, b: seq<Node>)
    requires Free(a) && Free(b)
    ensures Free(a + b)
    decreases |a|
  {
    if a != [] {
      assert (a + b)[0] == a[0] && (a + b)[1..] == a[1..] + b;
      FreeConcat(a[1..], b);
    } else {
      assert a + b == b;
    }
  }

  /** Pruning changes exactly the pages that hold a removed tag. */
  lemma {:induction false} PruneFixpoint(ns: seq<Node>)
    ensures Prune(ns) == ns <==> Free(ns)
    decreases ns, 1
  {
    PruneFree(ns);
    if ns != [] && Free(ns) {
      PruneFixpoint(ns[1..]);
      PruneNodeFixpoint(ns[0]);
      assert ns == [ns[0]] + ns[1..];
    }
  }

  lemma {:induction false} PruneNodeFixpoint(n: Node)
    requires FreeNode(n)
    ensures PruneNode(n) == [n]
    decreases n, 0
  {
    match n
    case Text(_) =>
    case Element(t, cs) =>
      PruneFixpoint(cs);
  }

  lemma PruneIdempotent(ns: seq<Node>)
    ensures Prune(Prune(ns)) == Prune(ns)
  {
    PruneFree(ns);
    PruneFixpoint(Prune(ns));
  }

  /** The text left after pruning is the text outside every removed
      element. */
  lemma {:induction false} StringsOfPrune(ns: seq<Node>)
    ensures Strings(Prune(ns)) == VisibleStrings(ns)
    decreases ns, 1
  {
    if ns != [] {
      StringsOfPrune(ns[1..]);
      StringsConcat(PruneNode(ns[0]), Prune(ns[1..]));
      match ns[0]
      case Text(_) =>
        assert Strings([ns[0]]) == NodeStrings(ns[0]) by { assert [ns[0]][1..] == []; }
      case Element(t, cs) =>
        if t !in RemovedTags {
          StringsOfPrune(cs);
          var e := Element(t, Prune(cs));
          assert Strings([e]) == Strings(Prune(cs)) by { assert [e][1..] == []; }
        }
    }
  }

  lemma {:induction false} StringsConcat(a: seq<Node>, b: seq<Node>)
    ensures Strings(a + b) == Strings(a) + Strings(b)
    decreases |a|
  {
    if a == [] {
      assert a + b == b;
    } else {
      assert (a + b)[0] == a[0] && (a + b)[1..] == a[1..] + b;
      StringsConcat(a[1..], b);
    }
  }

  /** A removed element disappears with all its contents, wherever it sits
      among its siblings. */
  lemma RemovedNodeInvisible(a: seq<Node>, n: Node, b: seq<Node>)
    requires Removed(n)
    ensures Prune(a + [n] + b) == Prune(a) + Prune(b)
  {
    PruneConcat(a + [n], b);
    PruneConcat(a, [n]);
    assert Prune([n]) == [] by { assert [n][1..] == []; }
  }

  /** So the cleaned text does not depend on it, nor on anything inside it. */
  lemma CleanIgnoresRemoved(a: seq<Node>, n: Node, b: seq<Node>)
    requires Removed(n)
    ensures Clean(a + [n] + b) == Clean(a + b)
    ensures CleanAsWritten(a + [n] + b) == CleanAsWritten(a + b)
  {
    RemovedNodeInvisible(a, n, b);
    PruneConcat(a, b);
  }

  /** The discrepancy: a page with neither a paragraph nor a `<body>` makes
      the code as written raise instead of falling back to its text. */
  lemma BodylessPageRaises()
    ensures CleanAsWritten([Element("div", [Text("hello")])]) == Failure(NoBody)
    ensures Clean([Element("div", [Text("hello")])]) == "hello"
    ensures FetchAndCleanAsWritten(Some([Element("div", [Text("hello")])])) == Failure(NoBody)
    ensures FetchAndClean(Some([Element("div", [Text("hello")])])) == Some("hello")
  {
    var cs := [Text("hello")];
    var doc := [Element("div", cs)];
    assert Prune(cs) == cs by { assert cs[1..] == []; }
    assert Prune(doc) == doc by { assert doc[1..] == []; }
    assert Paragraphs(cs) == [] by { assert cs[1..] == []; }
    assert Paragraphs(doc) == [] by { assert doc[1..] == []; }
    assert FindBody(cs) == None by { assert cs[1..] == []; }
    assert FindBody(doc) == None by { assert doc[1..] == []; }
    HelloStripped();
    assert Strings(cs) == ["hello"] by { assert cs[1..] == []; }
    assert Strings(doc) == ["hello"] by { assert doc[1..] == []; }
    assert StrippedStrings(["hello"]) == ["hello"] by { assert ["hello"][1..] == []; }
    assert SpacedText(doc) == "hello";
    HelloCollapsed();
  }

  lemma HelloStripped()
    ensures Strip("hello") == "hello"
  {
    assert IsStripped("hello");
  }

  lemma HelloCollapsed()
    ensures Collapse("hello") == "hello"
  {
    assert Collapsed("hello");
  }
}
