/**
  The outline panel (src/components/SectionGenerator.tsx): one row per section, in array order,
  each with a "Generate" button whose enabling and label depend only on its section and on the
  app-wide `isGeneratingAnything` flag. Nothing here changes state.
*/
module SectionGenerator {
  import opened Types

  /** What a section's button shows. */
  datatype ButtonLabel = Spinner | Done | Generate

  /** A rendered row: the index it reports when clicked, its 1-based number, its heading and its button. */
  datatype Row = Row(index: nat, number: nat, heading: string, enabled: bool, caption: ButtonLabel)

  /** The button's `disabled` attribute. */
  predicate ButtonDisabled(section: ArticleSection, isGeneratingAnything: bool)
  {
    section.isGenerating || isGeneratingAnything || section.content != ""
  }

  predicate ButtonEnabled(section: ArticleSection, isGeneratingAnything: bool)
  {
    !ButtonDisabled(section, isGeneratingAnything)
  }

  /** The button is disabled while its section generates, while anything else generates, and once written. */
  lemma ButtonGuard(section: ArticleSection, isGeneratingAnything: bool)
    ensures section.isGenerating ==> !ButtonEnabled(section, isGeneratingAnything)
    ensures isGeneratingAnything ==> !ButtonEnabled(section, isGeneratingAnything)
    ensures section.content != "" ==> !ButtonEnabled(section, isGeneratingAnything)
    ensures ButtonEnabled(section, isGeneratingAnything) <==>
              !section.isGenerating && !isGeneratingAnything && section.content == ""
  {
  }

  /** The button's label: a spinner while generating, else "Done" once written, else "Generate". */
  function Label(section: ArticleSection): (l: ButtonLabel)
    ensures l == Spinner <==> section.isGenerating
    ensures l == Done <==> !section.isGenerating && section.content != ""
    ensures l == Generate <==> !section.isGenerating && section.content == ""
  {
    if section.isGenerating then Spinner
    else if section.content != "" then Done
    else Generate
  }

  /** An enabled button always reads "Generate"; a spinner or "Done" button is never enabled. */
  lemma LabelAgreesWithGuard(section: ArticleSection, isGeneratingAnything: bool)
    ensures ButtonEnabled(section, isGeneratingAnything) <==>
              Label(section) == Generate && !isGeneratingAnything
  {
  }

  /** The rows for `sections`, numbering the first one `first`. */
  function RowsFrom(sections: seq<ArticleSection>, isGeneratingAnything: bool, first: nat): (rows: seq<Row>)
    ensures |rows| == |sections|
    ensures forall k :: 0 <= k < |rows| ==>
              rows[k].index == first + k && rows[k].number == first + k + 1 &&
              rows[k].heading == sections[k].heading &&
              rows[k].enabled == ButtonEnabled(sections[k], isGeneratingAnything) &&
              rows[k].caption == Label(sections[k])
    decreases |sections|
  {
    if sections == [] then []
    else
      [Row(first, first + 1, sections[0].heading, ButtonEnabled(sections[0], isGeneratingAnything), Label(sections[0]))]
      + RowsFrom(sections[1..], isGeneratingAnything, first + 1)
  }

  /** `sections.map((section, index) => ...)`: row k shows section k, is numbered k + 1 and reports index k. */
  function Rows(sections: seq<ArticleSection>, isGeneratingAnything: bool): (rows: seq<Row>)
    ensures |rows| == |sections|
    ensures forall k :: 0 <= k < |rows| ==>
              rows[k].index == k && rows[k].number == k + 1 &&
              rows[k].heading == sections[k].heading &&
              rows[k].enabled == ButtonEnabled(sections[k], isGeneratingAnything) &&
              rows[k].caption == Label(sections[k])
  {
    RowsFrom(sections, isGeneratingAnything, 0)
  }

  /** The index a click on `row` passes to `onGenerateSection`. */
  function OnClick(row: Row): nat
  {
    row.index
  }

  /** Clicking row k asks for section k, whatever the sections hold. */
  lemma ClickPassesRowIndex(sections: seq<ArticleSection>, isGeneratingAnything: bool, k: nat)
    requires k < |sections|
    ensures OnClick(Rows(sections, isGeneratingAnything)[k]) == k
    ensures Rows(sections, isGeneratingAnything)[k].number == k + 1
  {
  }
}
