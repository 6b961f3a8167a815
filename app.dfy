/**
  The drafting workflow of the editor page (src/App.tsx) as values: the page state, the two
  predicates derived from it, the enabling rules of its buttons, and each request handler split
  at its `await` into a Start step (the updates before the request is sent) and a Complete step
  (the `try`/`catch`/`finally` updates once the reply is in). The generated text is opaque, so a
  Complete step takes the reply as a parameter. The class in editor.dfy performs these steps
  field by field.
*/
module App {
  import opened Types
  import SectionGenerator

  const TopicMissing: string := "Please enter a topic."
  const DefaultTopic: string := "How to build a SaaS with React and Vercel"
  const DefaultKeywords: string := "SaaS, React, Vercel, Next.js, AI, Gemini"

  /** What an awaited service call yields: its payload, or the message of the error it threw. */
  datatype Reply<+T> = Success(value: T) | Failure(message: string)

  /** A request sent to one of the three generation endpoints, with its body. */
  datatype Request =
    | OutlineRequest(topic: string, keywords: string)
    | SectionRequest(topic: string, articleTitle: string, sectionHeading: string, allHeadings: seq<string>)
    | FooterRequest(topic: string, articleTitle: string)

  /** The page's `useState` fields. */
  datatype EditorState = EditorState(
    topic: string,
    keywords: string,
    isLoading: bool,
    error: Option<string>,
    outline: Option<ArticleOutline>,
    sections: seq<ArticleSection>,
    footer: string,
    isGeneratingFooter: bool)

  /** The state of a freshly mounted page: nothing in flight, nothing drafted yet. */
  function Initial(): (r: EditorState)
    ensures r.topic == DefaultTopic && r.keywords == DefaultKeywords
    ensures !r.isLoading && !r.isGeneratingFooter && r.error.None?
    ensures r.outline.None? && r.sections == [] && r.footer == ""
  {
    EditorState(DefaultTopic, DefaultKeywords, false, None, None, [], "", false)
  }

  // ---------------------------------------------------------------------------------------------
  // Derived values (`useMemo`)

  /** `sections.some(s => s.isGenerating)` */
  function AnyGenerating(ss: seq<ArticleSection>): (r: bool)
    ensures r <==> exists k :: 0 <= k < |ss| && ss[k].isGenerating
  {
    if ss == [] then false
    else ss[0].isGenerating || AnyGenerating(ss[1..])
  }

  /** `sections.every(s => s.content !== '')` */
  function AllHaveContent(ss: seq<ArticleSection>): (r: bool)
    ensures r <==> forall k :: 0 <= k < |ss| ==> ss[k].content != ""
  {
    if ss == [] then true
    else ss[0].content != "" && AllHaveContent(ss[1..])
  }

  /** Some request of the page is in flight. */
  function IsGeneratingAnything(s: EditorState): (r: bool)
    ensures r <==> s.isLoading || s.isGeneratingFooter ||
                   exists k :: 0 <= k < |s.sections| && s.sections[k].isGenerating
  {
    s.isLoading || AnyGenerating(s.sections) || s.isGeneratingFooter
  }

  /** There is at least one section and every section has content. */
  function AllSectionsDone(ss: seq<ArticleSection>): (r: bool)
    ensures r <==> |ss| > 0 && forall k :: 0 <= k < |ss| ==> ss[k].content != ""
  {
    |ss| > 0 && AllHaveContent(ss)
  }

  // ---------------------------------------------------------------------------------------------
  // Button guards

  /** The "Generate Outline" button is enabled: no request of any kind is in flight. */
  predicate OutlineButtonEnabled(s: EditorState): (r: bool)
    ensures r <==> !s.isLoading && !s.isGeneratingFooter &&
                   forall k :: 0 <= k < |s.sections| ==> !s.sections[k].isGenerating
  {
    !IsGeneratingAnything(s)
  }

  /** The "Final Touches" panel, which holds the footer button, is shown. */
  predicate FooterPanelShown(s: EditorState): (r: bool)
    ensures r <==> |s.sections| > 0 && forall k :: 0 <= k < |s.sections| ==> s.sections[k].content != ""
  {
    AllSectionsDone(s.sections)
  }

  /** The footer button is shown and enabled. */
  predicate FooterButtonEnabled(s: EditorState): (r: bool)
    ensures r <==> FooterPanelShown(s) && OutlineButtonEnabled(s) && s.footer == ""
    ensures r ==> forall k :: 0 <= k < |s.sections| ==> s.sections[k].content != "" && !s.sections[k].isGenerating
  {
    FooterPanelShown(s) && !(IsGeneratingAnything(s) || s.footer != "")
  }

  /** Section `i` has a row whose button is enabled. */
  predicate SectionStartEnabled(s: EditorState, i: nat): (r: bool)
    ensures r <==> i < |s.sections| && s.sections[i].content == "" && OutlineButtonEnabled(s)
  {
    i < |s.sections| && SectionGenerator.ButtonEnabled(s.sections[i], IsGeneratingAnything(s))
  }

  // ---------------------------------------------------------------------------------------------
  // Per-index replacement and the sections built from an outline

  /** The fields a handler overrides in `{ ...s, ... }`: content when present, and the flag. */
  datatype SectionPatch = SectionPatch(content: Option<string>, isGenerating: bool)

  function Patched(x: ArticleSection, p: SectionPatch): ArticleSection
  {
    x.(content := if p.content.Some? then p.content.value else x.content, isGenerating := p.isGenerating)
  }

  /** `ss.map((s, i) => i === index ? { ...s, ...p } : s)`; an index out of range changes nothing. */
  function PatchAt(ss: seq<ArticleSection>, index: int, p: SectionPatch): (r: seq<ArticleSection>)
    ensures |r| == |ss|
    ensures forall k :: 0 <= k < |ss| ==> r[k] == if k == index then Patched(ss[k], p) else ss[k]
    decreases |ss|
  {
    if ss == [] then []
    else [if index == 0 then Patched(ss[0], p) else ss[0]] + PatchAt(ss[1..], index - 1, p)
  }

  /** `headings.map(heading => ({ heading, content: '', isGenerating: false }))` */
  function FreshSections(headings: seq<string>): (ss: seq<ArticleSection>)
    ensures |ss| == |headings|
    ensures forall k :: 0 <= k < |ss| ==> ss[k] == ArticleSection(headings[k], "", false)
  {
    if headings == [] then []
    else [ArticleSection(headings[0], "", false)] + FreshSections(headings[1..])
  }

  // ---------------------------------------------------------------------------------------------
  // handleGenerateOutline

  /** The request the outline handler sends: none when the topic is empty. */
  function OutlineRequestOf(s: EditorState): (r: Option<Request>)
    ensures r.None? <==> s.topic == ""
    ensures r.Some? ==> r.value == OutlineRequest(s.topic, s.keywords)
  {
    if s.topic == "" then None else Some(OutlineRequest(s.topic, s.keywords))
  }

  /** Start: an empty topic only reports an error; otherwise the draft is cleared and loading begins. */
  function OutlineStarted(s: EditorState): (t: EditorState)
    ensures t.topic == s.topic && t.keywords == s.keywords && t.isGeneratingFooter == s.isGeneratingFooter
    ensures s.topic == "" ==> t == s.(error := Some(TopicMissing))
    ensures s.topic != "" ==>
              t.isLoading && t.error.None? && t.outline.None? && t.sections == [] && t.footer == ""
  {
    if s.topic == "" then s.(error := Some(TopicMissing))
    else s.(isLoading := true, error := None, outline := None, sections := [], footer := "")
  }

  /** Complete: on success the outline and one empty section per heading; on failure the error. Loading ends either way. */
  function OutlineCompleted(s: EditorState, reply: Reply<ArticleOutline>): (t: EditorState)
    ensures !t.isLoading
    ensures t.topic == s.topic && t.keywords == s.keywords
    ensures t.footer == s.footer && t.isGeneratingFooter == s.isGeneratingFooter
    ensures reply.Success? ==>
              t.outline == Some(reply.value) && t.error == s.error &&
              |t.sections| == |reply.value.outline| &&
              forall k :: 0 <= k < |t.sections| ==>
                t.sections[k].heading == reply.value.outline[k] &&
                t.sections[k].content == "" && !t.sections[k].isGenerating
    ensures reply.Failure? ==>
              t.error == Some(reply.message) && t.outline == s.outline && t.sections == s.sections
  {
    match reply
    case Success(o) => s.(outline := Some(o), sections := FreshSections(o.outline), isLoading := false)
    case Failure(m) => s.(error := Some(m), isLoading := false)
  }

  // ---------------------------------------------------------------------------------------------
  // handleGenerateSection

  /** The request the section handler sends for index `i`: none without an outline. */
  function SectionRequestOf(s: EditorState, i: nat): (r: Option<Request>)
    requires i < |s.sections|
    ensures r.None? <==> s.outline.None?
    ensures r.Some? ==>
              r.value == SectionRequest(s.topic, s.outline.value.title, s.sections[i].heading, s.outline.value.outline)
  {
    match s.outline
    case None => None
    case Some(o) => Some(SectionRequest(s.topic, o.title, s.sections[i].heading, o.outline))
  }

  /** Start: without an outline nothing happens; otherwise only section `i` is flagged and the error cleared. */
  function SectionStarted(s: EditorState, i: nat): (t: EditorState)
    requires i < |s.sections|
    ensures s.outline.None? ==> t == s
    ensures s.outline.Some? ==>
              t.error.None? && t.(sections := s.sections, error := s.error) == s &&
              |t.sections| == |s.sections| &&
              t.sections[i] == s.sections[i].(isGenerating := true) &&
              forall k :: 0 <= k < |s.sections| && k != i ==> t.sections[k] == s.sections[k]
  {
    if s.outline.None? then s
    else s.(sections := PatchAt(s.sections, i, SectionPatch(None, true)), error := None)
  }

  /** Complete: only section `i` changes; it gets the content on success and keeps its old content on failure. */
  function SectionCompleted(s: EditorState, i: nat, reply: Reply<string>): (t: EditorState)
    requires i < |s.sections|
    ensures t.(sections := s.sections, error := s.error) == s
    ensures |t.sections| == |s.sections|
    ensures forall k :: 0 <= k < |s.sections| && k != i ==> t.sections[k] == s.sections[k]
    ensures t.sections[i].heading == s.sections[i].heading && !t.sections[i].isGenerating
    ensures reply.Success? ==> t.sections[i].content == reply.value && t.error == s.error
    ensures reply.Failure? ==> t.sections[i].content == s.sections[i].content && t.error == Some(reply.message)
  {
    match reply
    case Success(c) => s.(sections := PatchAt(s.sections, i, SectionPatch(Some(c), false)))
    case Failure(m) => s.(error := Some(m), sections := PatchAt(s.sections, i, SectionPatch(None, false)))
  }

  // ---------------------------------------------------------------------------------------------
  // handleGenerateFooter

  /** The request the footer handler sends: none without an outline. */
  function FooterRequestOf(s: EditorState): (r: Option<Request>)
    ensures r.None? <==> s.outline.None?
    ensures r.Some? ==> r.value == FooterRequest(s.topic, s.outline.value.title)
  {
    match s.outline
    case None => None
    case Some(o) => Some(FooterRequest(s.topic, o.title))
  }

  /** Start: without an outline nothing happens; otherwise the footer flag is raised and the error cleared. */
  function FooterStarted(s: EditorState): (t: EditorState)
    ensures s.outline.None? ==> t == s
    ensures s.outline.Some? ==>
              t.isGeneratingFooter && t.error.None? &&
              t.(isGeneratingFooter := s.isGeneratingFooter, error := s.error) == s
  {
    if s.outline.None? then s
    else s.(isGeneratingFooter := true, error := None)
  }

  /** Complete: the footer is written on success, the error on failure; the flag drops either way. */
  function FooterCompleted(s: EditorState, reply: Reply<string>): (t: EditorState)
    ensures !t.isGeneratingFooter
    ensures t.(isGeneratingFooter := s.isGeneratingFooter, footer := s.footer, error := s.error) == s
    ensures reply.Success? ==> t.footer == reply.value && t.error == s.error
    ensures reply.Failure? ==> t.footer == s.footer && t.error == Some(reply.message)
  {
    match reply
    case Success(c) => s.(footer := c, isGeneratingFooter := false)
    case Failure(m) => s.(error := Some(m), isGeneratingFooter := false)
  }

  // ---------------------------------------------------------------------------------------------
  // What can happen to the page: user input and the arrival of replies

  datatype Event =
    | EditTopic(topicText: string)
    | EditKeywords(keywordsText: string)
    | ClickOutline
    | ClickSectionRow(row: nat)
    | ClickFooter
    | OutlineReturned(outlineReply: Reply<ArticleOutline>)
    | SectionReturned(index: nat, sectionReply: Reply<string>)
    | FooterReturned(footerReply: Reply<string>)

  /** The rows of the outline panel as the page renders them. */
  function RowsOf(s: EditorState): seq<SectionGenerator.Row>
  {
    SectionGenerator.Rows(s.sections, IsGeneratingAnything(s))
  }

  /** A click lands only on an enabled button; a reply arrives only for the request in flight. */
  predicate Enabled(s: EditorState, e: Event)
  {
    match e
    case EditTopic(_) => true
    case EditKeywords(_) => true
    case ClickOutline => OutlineButtonEnabled(s)
    case ClickSectionRow(row) => row < |RowsOf(s)| && RowsOf(s)[row].enabled
    case ClickFooter => FooterButtonEnabled(s)
    case OutlineReturned(_) => s.isLoading
    case SectionReturned(i, _) => i < |s.sections| && s.sections[i].isGenerating
    case FooterReturned(_) => s.isGeneratingFooter
  }

  function Apply(s: EditorState, e: Event): EditorState
    requires Enabled(s, e)
  {
    match e
    case EditTopic(text) => s.(topic := text)
    case EditKeywords(text) => s.(keywords := text)
    case ClickOutline => OutlineStarted(s)
    case ClickSectionRow(row) => SectionStarted(s, SectionGenerator.OnClick(RowsOf(s)[row]))
    case ClickFooter => FooterStarted(s)
    case OutlineReturned(reply) => OutlineCompleted(s, reply)
    case SectionReturned(i, reply) => SectionCompleted(s, i, reply)
    case FooterReturned(reply) => FooterCompleted(s, reply)
  }

  /** A disabled click, or a reply nobody awaits, leaves the page as it is. */
  function Step(s: EditorState, e: Event): EditorState
  {
    if Enabled(s, e) then Apply(s, e) else s
  }

  function Run(s: EditorState, events: seq<Event>): EditorState
    decreases |events|
  {
    if events == [] then s else Run(Step(s, events[0]), events[1..])
  }

  // ---------------------------------------------------------------------------------------------
  // The invariant of the page

  /** Number of sections whose request is in flight. */
  function CountGenerating(ss: seq<ArticleSection>): nat
  {
    if ss == [] then 0
    else (if ss[0].isGenerating then 1 else 0) + CountGenerating(ss[1..])
  }

  /** Number of requests in flight: the outline's, the sections' and the footer's. */
  function InFlight(s: EditorState): nat
  {
    (if s.isLoading then 1 else 0) + CountGenerating(s.sections) + (if s.isGeneratingFooter then 1 else 0)
  }

  /** Without an outline there are no sections; with one, one section per heading, in order. */
  predicate Aligned(s: EditorState)
  {
    match s.outline
    case None => s.sections == []
    case Some(o) =>
      |s.sections| == |o.outline| &&
      forall k :: 0 <= k < |s.sections| ==> s.sections[k].heading == o.outline[k]
  }

  predicate GeneratingUnwritten(ss: seq<ArticleSection>)
  {
    forall k :: 0 <= k < |ss| && ss[k].isGenerating ==> ss[k].content == ""
  }

  predicate Inv(s: EditorState)
  {
    && Aligned(s)
    && InFlight(s) <= 1
    && GeneratingUnwritten(s.sections)
    && (s.isLoading ==> s.outline.None? && s.footer == "")
    && (s.isGeneratingFooter ==> AllSectionsDone(s.sections) && s.footer == "")
    && (s.footer != "" ==> AllSectionsDone(s.sections))
  }
}
