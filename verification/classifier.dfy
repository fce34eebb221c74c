/** Chapter kinds (engine/chapter_classifier.py) and the index-based rule that
    main.py applies instead of `classify_chapter`. */
module Classifier {
  import opened Text

  datatype ChapterType = NonNarrative | FirstNarrative | Narrative

  predicate IsNarrative(t: ChapterType) {
    t != NonNarrative
  }

  /** `not chapter_text.strip()` */
  predicate Blank(text: string) {
    Strip(text) == ""
  }

  /** `classify_chapter(chapter_text, has_seen_narrative)` */
  function ClassifyChapter(text: string, hasSeenNarrative: bool): ChapterType {
    if Blank(text) then NonNarrative
    else if !hasSeenNarrative then FirstNarrative
    else Narrative
  }

  /** How a caller threads `has_seen_narrative` through a book: it becomes true
      once a narrative chapter has been classified. */
  function ClassifyBook(texts: seq<string>, hasSeen: bool): (r: seq<ChapterType>)
    ensures |r| == |texts|
    ensures forall i :: 0 <= i < |texts| ==> (r[i] == NonNarrative <==> Blank(texts[i]))
  {
    if texts == [] then []
    else
      var t := ClassifyChapter(texts[0], hasSeen);
      var rest := ClassifyBook(texts[1..], hasSeen || IsNarrative(t));
      assert forall i :: 1 <= i < |texts| ==> texts[i] == texts[1..][i - 1];
      [t] + rest
  }

  /** Index of the first chapter with content. */
  function FirstContent(texts: seq<string>): (r: nat)
    ensures r <= |texts|
    ensures forall j :: 0 <= j < r ==> Blank(texts[j])
    ensures r < |texts| ==> !Blank(texts[r])
  {
    if texts == [] then 0
    else if !Blank(texts[0]) then 0
    else
      var k := FirstContent(texts[1..]);
      assert forall j :: 1 <= j < k + 1 ==> texts[j] == texts[1..][j - 1];
      k + 1
  }

  /** FIRST_NARRATIVE goes to the first chapter with content and to no other,
      and to none at all once a narrative chapter was seen. */
  lemma {:induction false} FirstNarrativeOnce(texts: seq<string>, hasSeen: bool)
    ensures forall i :: 0 <= i < |texts| ==>
      (ClassifyBook(texts, hasSeen)[i] == FirstNarrative <==> !hasSeen && i == FirstContent(texts))
  {
    if texts != [] {
      var t := ClassifyChapter(texts[0], hasSeen);
      var seen := hasSeen || IsNarrative(t);
      FirstNarrativeOnce(texts[1..], seen);
      var r := ClassifyBook(texts, hasSeen);
      var rest := ClassifyBook(texts[1..], seen);
      assert r == [t] + rest;
      forall i | 0 <= i < |texts|
        ensures r[i] == FirstNarrative <==> !hasSeen && i == FirstContent(texts)
      {
        if i > 0 {
          assert r[i] == rest[i - 1];
          if Blank(texts[0]) {
            assert FirstContent(texts) == FirstContent(texts[1..]) + 1;
          } else {
            assert FirstContent(texts) == 0;
          }
        }
      }
    }
  }

  /** The rule main.py uses: chapters are classified by their position relative to
      the index entered as the first narrative chapter. */
  function ClassifyByIndex(idx: int, firstNarrative: int): (r: ChapterType)
    ensures IsNarrative(r) <==> idx >= firstNarrative
  {
    if idx < firstNarrative then NonNarrative
    else if idx == firstNarrative then FirstNarrative
    else Narrative
  }

  /** Across a run, exactly the chapter at the entered index is FIRST_NARRATIVE,
      and the non-narrative chapters are exactly those before it. */
  lemma ByIndexShape(firstNarrative: int)
    ensures forall i :: ClassifyByIndex(i, firstNarrative) == FirstNarrative <==> i == firstNarrative
    ensures forall i, j :: i <= j && IsNarrative(ClassifyByIndex(i, firstNarrative)) ==> IsNarrative(ClassifyByIndex(j, firstNarrative))
  {
  }
}
