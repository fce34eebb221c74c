/** Block-level HTML handling (engine/html_block_extractor.py and
    engine/html_rebuilder.py): which elements of a chapter are sent for
    translation, and how each of them is turned into an English/Vietnamese pair.

    A chapter is the sequence of its elements in document order (the order in
    which `find_all` visits them), each with its tag name, its
    `get_text(strip=True)` and its nesting depth: the elements inside an element
    are the ones after it that are deeper than it, up to the first one that is
    not. A chosen element is referred to by its position. Unicode character
    classes are parameters. */
module HtmlBlocks {
  import opened Wrappers
  import opened Text

  datatype Node =
    /** An element as parsed: its tag name and the stripped text of everything inside it. */
    | Element(name: string, text: string, depth: nat)
    /** A block after rebuilding: a `div` holding the English and the Vietnamese text. */
    | Bilingual(en: string, vi: string, depth: nat)
    /** An element that the `clear()` of a rebuilt element around it took out of
        the document; it is no longer part of what is written. */
    | Detached(depth: nat)

  /** `str.isalpha`, `str.isupper` and "is lower- or title-case" for one character. */
  datatype CharClasses = CharClasses(
    isAlpha: char -> bool,
    isUpper: char -> bool,
    isLowerOrTitle: char -> bool)

  /** BLOCK_TAGS */
  const BlockTags: set<string> := {"p", "h1", "h2", "h3", "h4", "h5", "h6", "li", "blockquote"}

  const HeadingTags: set<string> := {"h1", "h2", "h3", "h4", "h5", "h6"}

  /** The fragments that mark markup or styling rather than prose. */
  const Blacklist: seq<string> :=
    ["svg", "path d=", "base64", "<style", "viewbox", "xmlns", "{", "}", "fill=", "stroke="]

  predicate Blacklisted(text: string) {
    exists i :: 0 <= i < |Blacklist| && Contains(Lower(text), Blacklist[i])
  }

  /** `sum(c.isalpha() for c in text)` */
  function LetterCount(text: string, isAlpha: char -> bool): (r: nat)
    ensures r <= |text|
  {
    if text == [] then 0 else (if isAlpha(text[0]) then 1 else 0) + LetterCount(text[1..], isAlpha)
  }

  /** `text.isupper()`: no lower- or title-case character and at least one
      upper-case one. */
  predicate StrIsUpper(text: string, cls: CharClasses) {
    && (forall i :: 0 <= i < |text| ==> !cls.isLowerOrTitle(text[i]))
    && (exists i :: 0 <= i < |text| && cls.isUpper(text[i]))
  }

  /** `is_translatable_block(text, tag_name)`: nothing with a blacklisted
      fragment, and enough letters — three for a heading or an all-capitals
      line, five otherwise. */
  function IsTranslatableBlock(text: string, tagName: string, cls: CharClasses): (r: bool)
    ensures r ==> !Blacklisted(text) && LetterCount(text, cls.isAlpha) >= 3
    ensures !Blacklisted(text) && LetterCount(text, cls.isAlpha) >= 5 ==> r
    ensures tagName in HeadingTags ==> (r <==> !Blacklisted(text) && LetterCount(text, cls.isAlpha) >= 3)
    ensures tagName !in HeadingTags ==>
      (r <==> !Blacklisted(text) && (LetterCount(text, cls.isAlpha) >= 5 ||
                                     (StrIsUpper(text, cls) && LetterCount(text, cls.isAlpha) >= 3)))
  {
    if Blacklisted(text) then false
    else
      var letters := LetterCount(text, cls.isAlpha);
      if tagName in HeadingTags then letters >= 3
      else if StrIsUpper(text, cls) && letters >= 3 then true
      else letters >= 5
  }

  /** The blocks the extractor keeps. */
  predicate Chosen(n: Node, cls: CharClasses) {
    n.Element? && n.name in BlockTags && n.text != "" && IsTranslatableBlock(n.text, n.name, cls)
  }

  predicate Increasing(ps: seq<nat>) {
    forall i, j :: 0 <= i < j < |ps| ==> ps[i] < ps[j]
  }

  /** `extract_html_blocks(soup)`: the text of every chosen element, in document
      order, with the positions of those elements; every element left out is
      not a block, is empty, or fails the translatability test. `find_all`
      descends into chosen elements, so a chosen element inside another one is
      listed as well, and its text is sent twice. */
  method ExtractHtmlBlocks(doc: seq<Node>, cls: CharClasses) returns (blocks: seq<string>, nodes: seq<nat>)
    ensures |blocks| == |nodes|
    ensures Increasing(nodes)
    ensures forall k :: 0 <= k < |nodes| ==>
      nodes[k] < |doc| && Chosen(doc[nodes[k]], cls) && blocks[k] == doc[nodes[k]].text
    ensures forall p :: 0 <= p < |doc| && Chosen(doc[p], cls) ==> p in nodes
  {
    blocks, nodes := [], [];
    var p := 0;
    while p < |doc|
      invariant 0 <= p <= |doc|
      invariant |blocks| == |nodes|
      invariant Increasing(nodes)
      invariant forall k :: 0 <= k < |nodes| ==>
        nodes[k] < p && Chosen(doc[nodes[k]], cls) && blocks[k] == doc[nodes[k]].text
      invariant forall q :: 0 <= q < p && Chosen(doc[q], cls) ==> q in nodes
    {
      var n := doc[p];
      if n.Element? && n.name in BlockTags {
        if n.text != "" && IsTranslatableBlock(n.text, n.name, cls) {
          blocks := blocks + [n.text];
          nodes := nodes + [p];
        }
      }
      p := p + 1;
    }
  }

  // ---------------------------------------------------------------------------
  // rebuild_html_blocks
  // ---------------------------------------------------------------------------

  datatype RebuildError =
    | Mismatch(nodes: nat, blocks: nat)   // node/block mismatch
    | EmptyBlock(index: nat)              // empty VI block at a 1-based index

  /** `not vi_text or not vi_text.strip()` */
  predicate BlankText(s: string) {
    Strip(s) == ""
  }

  /** The element at `p` lies inside the element at `q`. */
  predicate Inside(doc: seq<Node>, q: nat, p: nat) {
    q < p < |doc| && forall m :: q < m <= p ==> doc[m].depth > doc[q].depth
  }

  /** Position `p` lies inside one of the listed elements. */
  predicate Covered(doc: seq<Node>, nodes: seq<nat>, p: nat) {
    exists j :: 0 <= j < |nodes| && Inside(doc, nodes[j], p)
  }

  /** Two documents with the same depths place the same elements inside each other. */
  predicate SameShape(a: seq<Node>, b: seq<Node>) {
    |a| == |b| && forall m :: 0 <= m < |a| ==> a[m].depth == b[m].depth
  }

  /** One pass of the loop body on the element at `p`. An element still in the
      document is renamed to a `div` holding its English text and its
      translation, and `clear()` takes everything inside it out of the
      document. An element already taken out is rebuilt apart from the
      document, which does not change. */
  function RebuildAt(doc: seq<Node>, p: nat, vi: string): (r: seq<Node>)
    requires p < |doc| && !doc[p].Bilingual?
    ensures SameShape(r, doc)
    ensures forall m :: 0 <= m < |doc| && m != p ==> r[m] == doc[m] || r[m].Detached?
  {
    if doc[p].Detached? then doc
    else
      seq(|doc|, m requires 0 <= m < |doc| =>
        if m == p then Bilingual(doc[p].text, vi, doc[p].depth)
        else if Inside(doc, p, m) then Detached(doc[m].depth)
        else doc[m])
  }

  /** The positions from `k` on are still to be rebuilt: in the document and
      not yet rebuilt themselves. */
  predicate Pending(doc: seq<Node>, nodes: seq<nat>, k: nat) {
    forall i :: k <= i < |nodes| ==> nodes[i] < |doc| && !doc[nodes[i]].Bilingual?
  }

  /** The pairs from position `k` on, applied in order; the first blank
      translation raises with its 1-based index. */
  function RebuildFrom(doc: seq<Node>, nodes: seq<nat>, vi: seq<string>, k: nat): (r: Result<seq<Node>, RebuildError>)
    requires |nodes| == |vi| && k <= |nodes| && Increasing(nodes) && Pending(doc, nodes, k)
    ensures r.Ok? ==> SameShape(r.value, doc)
    decreases |nodes| - k
  {
    if k == |nodes| then Ok(doc)
    else if BlankText(vi[k]) then Err(EmptyBlock(k + 1))
    else
      var next := RebuildAt(doc, nodes[k], vi[k]);
      assert Pending(next, nodes, k + 1) by {
        forall i | k + 1 <= i < |nodes| ensures nodes[i] < |next| && !next[nodes[i]].Bilingual? {
          assert nodes[k] < nodes[i];
        }
      }
      RebuildFrom(next, nodes, vi, k + 1)
  }

  /** `rebuild_html_blocks(html_nodes, translated_blocks)`: a count mismatch is
      refused before anything changes, and a blank translation stops the
      rebuild with its 1-based position. Otherwise every listed element that
      is not inside another listed element becomes its English/Vietnamese
      pair; everything inside a listed element, listed or not, is taken out
      of the document; every other element is left as it was. Nodes are
      positions of distinct elements in document order, as the extractor
      returns them. */
  function RebuildHtmlBlocks(doc: seq<Node>, nodes: seq<nat>, vi: seq<string>): (r: Result<seq<Node>, RebuildError>)
    requires Increasing(nodes)
    requires forall i :: 0 <= i < |nodes| ==> nodes[i] < |doc| && doc[nodes[i]].Element?
    ensures |nodes| != |vi| <==> r == Err(Mismatch(|nodes|, |vi|))
    ensures r.Err? && r.error.EmptyBlock? ==>
      var k := r.error.index - 1;
      0 <= k < |vi| && BlankText(vi[k]) && forall i :: 0 <= i < k ==> !BlankText(vi[i])
    ensures r.Ok? <==> |nodes| == |vi| && forall i :: 0 <= i < |vi| ==> !BlankText(vi[i])
    ensures r.Ok? ==> |r.value| == |doc| && |vi| == |nodes| && RebuiltAll(doc, nodes, vi, r.value)
  {
    hide *;
    if |nodes| != |vi| then Err(Mismatch(|nodes|, |vi|))
    else
      RebuildSpec(doc, nodes, vi);
      RebuildFrom(doc, nodes, vi, 0)
  }

  /** The loop of `rebuild_html_blocks` once the counts agree: it fails at the
      first blank translation and otherwise leaves the rebuilt document. */
  lemma RebuildSpec(doc: seq<Node>, nodes: seq<nat>, vi: seq<string>)
    requires Increasing(nodes) && |nodes| == |vi|
    requires forall i :: 0 <= i < |nodes| ==> nodes[i] < |doc| && doc[nodes[i]].Element?
    ensures Pending(doc, nodes, 0)
    ensures var r := RebuildFrom(doc, nodes, vi, 0);
      && (r.Err? ==> r.error.EmptyBlock? && 0 <= r.error.index - 1 < |vi| && BlankText(vi[r.error.index - 1])
                     && forall i :: 0 <= i < r.error.index - 1 ==> !BlankText(vi[i]))
      && (r.Ok? <==> forall i :: 0 <= i < |vi| ==> !BlankText(vi[i]))
      && (r.Ok? ==> |r.value| == |doc| && RebuiltAll(doc, nodes, vi, r.value))
  {
    hide RebuildFrom, RebuiltAll, RebuildAt, BlankText, Covered;
    RebuildFromOutcome(doc, nodes, vi, 0);
    if RebuildFrom(doc, nodes, vi, 0).Ok? {
      RebuildContent(doc, nodes, vi);
    }
  }

  /** The rebuilt document `r` of `doc`: every listed element that is not
      inside another listed element is its English/Vietnamese pair; everything
      inside a listed element, listed or not, is out of the document; every
      other element is as it was. */
  predicate RebuiltAll(doc: seq<Node>, nodes: seq<nat>, vi: seq<string>, r: seq<Node>)
    requires |nodes| == |vi| && |r| == |doc|
    requires forall i :: 0 <= i < |nodes| ==> nodes[i] < |doc| && doc[nodes[i]].Element?
  {
    && (forall i :: 0 <= i < |nodes| && !Covered(doc, nodes, nodes[i]) ==>
          r[nodes[i]] == Bilingual(doc[nodes[i]].text, vi[i], doc[nodes[i]].depth))
    && (forall p :: 0 <= p < |doc| && Covered(doc, nodes, p) ==> r[p] == Detached(doc[p].depth))
    && (forall p :: 0 <= p < |doc| && p !in nodes && !Covered(doc, nodes, p) ==> r[p] == doc[p])
  }

  /** A completed rebuild, stated against the document it started from. */
  lemma RebuildContent(doc: seq<Node>, nodes: seq<nat>, vi: seq<string>)
    requires |nodes| == |vi| && Increasing(nodes)
    requires forall i :: 0 <= i < |nodes| ==> nodes[i] < |doc| && doc[nodes[i]].Element?
    requires RebuildFrom(doc, nodes, vi, 0).Ok?
    ensures var r := RebuildFrom(doc, nodes, vi, 0).value;
      |r| == |doc| && RebuiltAll(doc, nodes, vi, r)
  {
    hide RebuildFrom, RebuiltUpTo, Covered;
    RebuildStart(doc, nodes, vi);
    RebuildFromContent(doc, doc, nodes, vi, 0);
    RebuildEnd(doc, RebuildFrom(doc, nodes, vi, 0).value, nodes, vi);
  }

  /** Before the loop nothing is rebuilt. */
  lemma RebuildStart(doc: seq<Node>, nodes: seq<nat>, vi: seq<string>)
    requires |nodes| == |vi|
    requires forall i :: 0 <= i < |nodes| ==> nodes[i] < |doc| && doc[nodes[i]].Element?
    ensures SameShape(doc, doc) && RebuiltUpTo(doc, doc, nodes, vi, 0)
  {
    assert nodes[..0] == [];
  }

  /** After the loop, the picture covers every listed element. */
  lemma RebuildEnd(orig: seq<Node>, doc: seq<Node>, nodes: seq<nat>, vi: seq<string>)
    requires |nodes| == |vi| && SameShape(doc, orig)
    requires forall i :: 0 <= i < |nodes| ==> nodes[i] < |doc| && orig[nodes[i]].Element?
    requires RebuiltUpTo(orig, doc, nodes, vi, |nodes|)
    ensures forall i :: 0 <= i < |nodes| && !Covered(orig, nodes, nodes[i]) ==>
      doc[nodes[i]] == Bilingual(orig[nodes[i]].text, vi[i], orig[nodes[i]].depth)
    ensures forall p :: 0 <= p < |doc| && Covered(orig, nodes, p) ==> doc[p] == Detached(orig[p].depth)
    ensures forall p :: 0 <= p < |doc| && p !in nodes && !Covered(orig, nodes, p) ==> doc[p] == orig[p]
  {
    assert nodes[..|nodes|] == nodes;
    forall p | 0 <= p < |doc| ensures Covered(orig, nodes, p) <==> CoveredBy(orig, nodes, |nodes|, p) {
    }
  }

  /** Whether `RebuildFrom` succeeds depends only on the translations: it stops
      at the first blank one from position `k` on. */
  lemma {:induction false} RebuildFromOutcome(doc: seq<Node>, nodes: seq<nat>, vi: seq<string>, k: nat)
    requires |nodes| == |vi| && k <= |nodes| && Increasing(nodes) && Pending(doc, nodes, k)
    ensures var r := RebuildFrom(doc, nodes, vi, k);
      && (r.Ok? <==> forall i :: k <= i < |vi| ==> !BlankText(vi[i]))
      && (r.Err? ==> r.error.EmptyBlock? && k < r.error.index <= |vi| && BlankText(vi[r.error.index - 1])
                     && forall i :: k <= i < r.error.index - 1 ==> !BlankText(vi[i]))
    decreases |nodes| - k
  {
    hide RebuildAt;
    if k < |nodes| && !BlankText(vi[k]) {
      var next := RebuildAt(doc, nodes[k], vi[k]);
      assert Pending(next, nodes, k + 1) by {
        forall i | k + 1 <= i < |nodes| ensures nodes[i] < |next| && !next[nodes[i]].Bilingual? {
          assert nodes[k] < nodes[i];
        }
      }
      RebuildFromOutcome(next, nodes, vi, k + 1);
    }
  }

  /** Position `p` lies inside one of the first `k` listed elements. */
  predicate CoveredBy(doc: seq<Node>, nodes: seq<nat>, k: nat, p: nat) {
    exists j :: 0 <= j < k && j < |nodes| && Inside(doc, nodes[j], p)
  }

  /** What the document looks like once the first `k` listed elements are rebuilt. */
  predicate RebuiltUpTo(orig: seq<Node>, doc: seq<Node>, nodes: seq<nat>, vi: seq<string>, k: nat)
    requires |nodes| == |vi| && k <= |nodes| && SameShape(doc, orig)
    requires forall i :: 0 <= i < |nodes| ==> nodes[i] < |doc| && orig[nodes[i]].Element?
  {
    && (forall i :: 0 <= i < k && !CoveredBy(orig, nodes, k, nodes[i]) ==>
          doc[nodes[i]] == Bilingual(orig[nodes[i]].text, vi[i], orig[nodes[i]].depth))
    && (forall p :: 0 <= p < |doc| && CoveredBy(orig, nodes, k, p) ==> doc[p] == Detached(orig[p].depth))
    && (forall p :: 0 <= p < |doc| && p !in nodes[..k] && !CoveredBy(orig, nodes, k, p) ==> doc[p] == orig[p])
  }

  lemma InsideTrans(doc: seq<Node>, a: nat, b: nat, c: nat)
    requires Inside(doc, a, b) && Inside(doc, b, c)
    ensures Inside(doc, a, c)
  {
    forall m | a < m <= c ensures doc[m].depth > doc[a].depth {
      if m > b {
        assert doc[b].depth > doc[a].depth;
      }
    }
  }

  lemma InsideSameShape(a: seq<Node>, b: seq<Node>, q: nat, p: nat)
    requires SameShape(a, b)
    ensures Inside(a, q, p) <==> Inside(b, q, p)
  {
    if q < p < |a| {
      assert (forall m :: q < m <= p ==> a[m].depth > a[q].depth) <==>
             (forall m :: q < m <= p ==> b[m].depth > b[q].depth);
    }
  }

  /** Covering by the first `k + 1` listed elements adds only what lies inside the `k`-th. */
  lemma CoveredByNext(orig: seq<Node>, nodes: seq<nat>, k: nat, p: nat)
    requires k < |nodes|
    ensures CoveredBy(orig, nodes, k + 1, p) <==> CoveredBy(orig, nodes, k, p) || Inside(orig, nodes[k], p)
  {
    if CoveredBy(orig, nodes, k + 1, p) && !CoveredBy(orig, nodes, k, p) {
      var j :| 0 <= j < k + 1 && j < |nodes| && Inside(orig, nodes[j], p);
      assert j == k;
    }
  }

  /** The positions before the `k`-th listed element are not inside it. */
  lemma EarlierNotInside(orig: seq<Node>, nodes: seq<nat>, k: nat)
    requires k < |nodes| && Increasing(nodes)
    ensures forall i :: 0 <= i < k ==> nodes[i] != nodes[k] && !Inside(orig, nodes[k], nodes[i])
    ensures nodes[k] !in nodes[..k]
    ensures nodes[..k + 1] == nodes[..k] + [nodes[k]]
  {
    forall i | 0 <= i < k ensures nodes[..k][i] != nodes[k] {
      assert nodes[i] < nodes[k];
    }
  }

  /** Rebuilding the `k`-th listed element extends the picture from `k` to `k + 1`. */
  lemma RebuildStep(orig: seq<Node>, doc: seq<Node>, nodes: seq<nat>, vi: seq<string>, k: nat)
    requires |nodes| == |vi| && k < |nodes| && Increasing(nodes) && SameShape(doc, orig)
    requires forall i :: 0 <= i < |nodes| ==> nodes[i] < |doc| && orig[nodes[i]].Element?
    requires Pending(doc, nodes, k)
    requires RebuiltUpTo(orig, doc, nodes, vi, k)
    ensures SameShape(RebuildAt(doc, nodes[k], vi[k]), orig)
    ensures RebuiltUpTo(orig, RebuildAt(doc, nodes[k], vi[k]), nodes, vi, k + 1)
  {
    hide CoveredBy, Inside, RebuiltUpTo;
    EarlierNotInside(orig, nodes, k);
    forall p | 0 <= p < |doc|
      ensures CoveredBy(orig, nodes, k + 1, p) <==> CoveredBy(orig, nodes, k, p) || Inside(orig, nodes[k], p)
    {
      CoveredByNext(orig, nodes, k, p);
    }
    if doc[nodes[k]].Detached? {
      StepDetached(orig, doc, nodes, vi, k);
    } else {
      StepInPlace(orig, doc, nodes, vi, k);
    }
  }

  /** The `k`-th listed element already left the document: the document stays
      as it is, and everything inside that element was already covered. */
  lemma StepDetached(orig: seq<Node>, doc: seq<Node>, nodes: seq<nat>, vi: seq<string>, k: nat)
    requires |nodes| == |vi| && k < |nodes| && Increasing(nodes) && SameShape(doc, orig)
    requires forall i :: 0 <= i < |nodes| ==> nodes[i] < |doc| && orig[nodes[i]].Element?
    requires doc[nodes[k]].Detached?
    requires nodes[k] !in nodes[..k] && nodes[..k + 1] == nodes[..k] + [nodes[k]]
    requires RebuiltUpTo(orig, doc, nodes, vi, k)
    requires forall p :: 0 <= p < |doc| ==>
      (CoveredBy(orig, nodes, k + 1, p) <==> CoveredBy(orig, nodes, k, p) || Inside(orig, nodes[k], p))
    ensures RebuildAt(doc, nodes[k], vi[k]) == doc
    ensures RebuiltUpTo(orig, doc, nodes, vi, k + 1)
  {
    hide CoveredBy, Inside, RebuiltUpTo;
    DetachedCovers(orig, doc, nodes, vi, k);
    KeptCovered(orig, doc, nodes, vi, k);
  }

  /** Whatever lies inside an element that already left the document lies
      inside the listed element that took it out. */
  lemma DetachedCovers(orig: seq<Node>, doc: seq<Node>, nodes: seq<nat>, vi: seq<string>, k: nat)
    requires |nodes| == |vi| && k < |nodes| && SameShape(doc, orig)
    requires forall i :: 0 <= i < |nodes| ==> nodes[i] < |doc| && orig[nodes[i]].Element?
    requires doc[nodes[k]].Detached? && nodes[k] !in nodes[..k]
    requires RebuiltUpTo(orig, doc, nodes, vi, k)
    requires forall p :: 0 <= p < |doc| ==>
      (CoveredBy(orig, nodes, k + 1, p) <==> CoveredBy(orig, nodes, k, p) || Inside(orig, nodes[k], p))
    ensures forall p :: 0 <= p < |doc| ==> (CoveredBy(orig, nodes, k + 1, p) <==> CoveredBy(orig, nodes, k, p))
    ensures CoveredBy(orig, nodes, k, nodes[k])
  {
    var p0 := nodes[k];
    assert CoveredBy(orig, nodes, k, p0);
    var j :| 0 <= j < k && j < |nodes| && Inside(orig, nodes[j], p0);
    forall p | 0 <= p < |doc| && Inside(orig, p0, p) ensures CoveredBy(orig, nodes, k, p) {
      InsideTrans(orig, nodes[j], p0, p);
    }
  }

  /** When the `k`-th listed element adds nothing to what is covered, the
      picture for `k` is the picture for `k + 1`. */
  lemma KeptCovered(orig: seq<Node>, doc: seq<Node>, nodes: seq<nat>, vi: seq<string>, k: nat)
    requires |nodes| == |vi| && k < |nodes| && SameShape(doc, orig)
    requires forall i :: 0 <= i < |nodes| ==> nodes[i] < |doc| && orig[nodes[i]].Element?
    requires nodes[..k + 1] == nodes[..k] + [nodes[k]]
    requires RebuiltUpTo(orig, doc, nodes, vi, k)
    requires forall p :: 0 <= p < |doc| ==> (CoveredBy(orig, nodes, k + 1, p) <==> CoveredBy(orig, nodes, k, p))
    requires CoveredBy(orig, nodes, k, nodes[k])
    ensures RebuiltUpTo(orig, doc, nodes, vi, k + 1)
  {
    hide CoveredBy, Inside;
    forall i | 0 <= i < k + 1 && !CoveredBy(orig, nodes, k + 1, nodes[i])
      ensures doc[nodes[i]] == Bilingual(orig[nodes[i]].text, vi[i], orig[nodes[i]].depth)
    {
      assert i < k;
    }
    forall p | 0 <= p < |doc| && p !in nodes[..k + 1] && !CoveredBy(orig, nodes, k + 1, p)
      ensures doc[p] == orig[p]
    {
      assert p !in nodes[..k];
    }
  }

  /** The `k`-th listed element is still in the document: it becomes its pair
      and what lies inside it leaves the document. */
  lemma StepInPlace(orig: seq<Node>, doc: seq<Node>, nodes: seq<nat>, vi: seq<string>, k: nat)
    requires |nodes| == |vi| && k < |nodes| && Increasing(nodes) && SameShape(doc, orig)
    requires forall i :: 0 <= i < |nodes| ==> nodes[i] < |doc| && orig[nodes[i]].Element?
    requires !doc[nodes[k]].Detached? && !doc[nodes[k]].Bilingual?
    requires forall i :: 0 <= i < k ==> nodes[i] != nodes[k] && !Inside(orig, nodes[k], nodes[i])
    requires nodes[k] !in nodes[..k] && nodes[..k + 1] == nodes[..k] + [nodes[k]]
    requires RebuiltUpTo(orig, doc, nodes, vi, k)
    requires forall p :: 0 <= p < |doc| ==>
      (CoveredBy(orig, nodes, k + 1, p) <==> CoveredBy(orig, nodes, k, p) || Inside(orig, nodes[k], p))
    ensures SameShape(RebuildAt(doc, nodes[k], vi[k]), orig)
    ensures RebuiltUpTo(orig, RebuildAt(doc, nodes[k], vi[k]), nodes, vi, k + 1)
  {
    hide CoveredBy, Inside, RebuildAt;
    var p0 := nodes[k];
    var next := RebuildAt(doc, p0, vi[k]);
    assert !CoveredBy(orig, nodes, k, p0);
    assert doc[p0] == orig[p0];
    RebuildAtFacts(orig, doc, p0, vi[k]);
    forall i | 0 <= i < k + 1 && !CoveredBy(orig, nodes, k + 1, nodes[i])
      ensures next[nodes[i]] == Bilingual(orig[nodes[i]].text, vi[i], orig[nodes[i]].depth)
    {
      if i < k {
        assert !CoveredBy(orig, nodes, k, nodes[i]);
      }
    }
    forall p | 0 <= p < |doc| && CoveredBy(orig, nodes, k + 1, p) ensures next[p] == Detached(orig[p].depth) {
      if !Inside(orig, p0, p) {
        assert p != p0;
      }
    }
    forall p | 0 <= p < |doc| && p !in nodes[..k + 1] && !CoveredBy(orig, nodes, k + 1, p)
      ensures next[p] == orig[p]
    {
      assert p !in nodes[..k] && p != p0;
    }
  }

  /** Rebuilding an element still in the document, stated with the depths of
      the original document. */
  lemma RebuildAtFacts(orig: seq<Node>, doc: seq<Node>, p0: nat, vi: string)
    requires SameShape(doc, orig) && p0 < |doc| && doc[p0].Element? && doc[p0] == orig[p0]
    ensures var next := RebuildAt(doc, p0, vi);
      && SameShape(next, orig)
      && next[p0] == Bilingual(orig[p0].text, vi, orig[p0].depth)
      && (forall m :: 0 <= m < |doc| && Inside(orig, p0, m) ==> next[m] == Detached(orig[m].depth))
      && (forall m :: 0 <= m < |doc| && m != p0 && !Inside(orig, p0, m) ==> next[m] == doc[m])
      && !Inside(orig, p0, p0)
  {
    forall m | 0 <= m < |doc| ensures Inside(doc, p0, m) <==> Inside(orig, p0, m) {
      InsideSameShape(doc, orig, p0, m);
    }
  }

  /** What a successful `RebuildFrom` leaves, stated against the document
      before the rebuild began. */
  lemma {:induction false} RebuildFromContent(orig: seq<Node>, doc: seq<Node>, nodes: seq<nat>, vi: seq<string>, k: nat)
    requires |nodes| == |vi| && k <= |nodes| && Increasing(nodes) && SameShape(doc, orig)
    requires forall i :: 0 <= i < |nodes| ==> nodes[i] < |doc| && orig[nodes[i]].Element?
    requires Pending(doc, nodes, k)
    requires RebuildFrom(doc, nodes, vi, k).Ok?
    requires RebuiltUpTo(orig, doc, nodes, vi, k)
    ensures RebuiltUpTo(orig, RebuildFrom(doc, nodes, vi, k).value, nodes, vi, |nodes|)
    decreases |nodes| - k
  {
    hide RebuiltUpTo, CoveredBy, Inside;
    if k < |nodes| {
      var next := RebuildAt(doc, nodes[k], vi[k]);
      RebuildStep(orig, doc, nodes, vi, k);
      assert Pending(next, nodes, k + 1) by {
        forall i | k + 1 <= i < |nodes| ensures nodes[i] < |next| && !next[nodes[i]].Bilingual? {
          assert nodes[k] < nodes[i];
        }
      }
      RebuildFromContent(orig, next, nodes, vi, k + 1);
    }
  }

  /** A listed element inside another listed element loses its pair: the
      `li` below becomes the pair of its whole text, and the `p` inside it,
      although rebuilt, is no longer in the document. */
  lemma NestedBlockDetached()
    ensures var doc := [Element("li", "Hello world", 0), Element("p", "Hello world", 1)];
      RebuildHtmlBlocks(doc, [0, 1], ["Xin chao", "Xin chao"])
        == Ok([Bilingual("Hello world", "Xin chao", 0), Detached(1)])
  {
    var doc := [Element("li", "Hello world", 0), Element("p", "Hello world", 1)];
    var nodes: seq<nat> := [0, 1];
    assert Inside(doc, nodes[0], 1);
    assert Covered(doc, nodes, 1);
    assert !Covered(doc, nodes, 0);
    var r := RebuildHtmlBlocks(doc, nodes, ["Xin chao", "Xin chao"]);
    assert !BlankText("Xin chao") by {
      StripNoEdge("Xin chao");
    }
    assert r.Ok?;
    assert r.value[0] == Bilingual("Hello world", "Xin chao", 0);
    assert r.value[1] == Detached(1);
    assert r.value == [Bilingual("Hello world", "Xin chao", 0), Detached(1)];
  }

  /** Lies inside a chosen element. */
  predicate Nested(doc: seq<Node>, cls: CharClasses, p: nat) {
    exists q :: 0 <= q < |doc| && Chosen(doc[q], cls) && Inside(doc, q, p)
  }

  /** Extraction followed by a rebuild with a non-blank translation for every
      block: each chosen element that is not inside another chosen element
      becomes the pair of its own text and its translation, everything inside
      a chosen element leaves the document, and every other element is left as
      it was. */
  method ExtractAndRebuild(doc: seq<Node>, cls: CharClasses, translate: string -> string)
    returns (r: Result<seq<Node>, RebuildError>)
    ensures (forall p :: 0 <= p < |doc| && Chosen(doc[p], cls) ==> !BlankText(translate(doc[p].text))) ==>
      (&& r.Ok? && |r.value| == |doc|
       && (forall p :: 0 <= p < |doc| && Chosen(doc[p], cls) && !Nested(doc, cls, p) ==>
             r.value[p] == Bilingual(doc[p].text, translate(doc[p].text), doc[p].depth))
       && (forall p :: 0 <= p < |doc| && Nested(doc, cls, p) ==> r.value[p] == Detached(doc[p].depth))
       && (forall p :: 0 <= p < |doc| && !Chosen(doc[p], cls) && !Nested(doc, cls, p) ==> r.value[p] == doc[p]))
  {
    var blocks, nodes := ExtractHtmlBlocks(doc, cls);
    var vi := seq(|blocks|, i requires 0 <= i < |blocks| => translate(blocks[i]));
    r := RebuildHtmlBlocks(doc, nodes, vi);
    forall p | 0 <= p < |doc| ensures Nested(doc, cls, p) <==> Covered(doc, nodes, p) {
      if Nested(doc, cls, p) {
        var q :| 0 <= q < |doc| && Chosen(doc[q], cls) && Inside(doc, q, p);
        var j :| 0 <= j < |nodes| && nodes[j] == q;
        assert Inside(doc, nodes[j], p);
      }
      if Covered(doc, nodes, p) {
        var j :| 0 <= j < |nodes| && Inside(doc, nodes[j], p);
        assert Chosen(doc[nodes[j]], cls);
      }
    }
    if r.Ok? {
      forall p | 0 <= p < |doc| && Chosen(doc[p], cls) && !Nested(doc, cls, p)
        ensures r.value[p] == Bilingual(doc[p].text, translate(doc[p].text), doc[p].depth)
      {
        var k :| 0 <= k < |nodes| && nodes[k] == p;
      }
      forall p | 0 <= p < |doc| && !Chosen(doc[p], cls) && !Nested(doc, cls, p) ensures r.value[p] == doc[p] {
        assert p !in nodes;
      }
    }
  }
}
