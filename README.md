# Article editor workflow, modelled in Dafny

This project models the client-side drafting workflow of an AI article editor. A user enters a
topic and keywords and asks for an outline. The page then offers one "Generate" button per
outline heading, and finally a footer (call-to-action) button once every section has content.
Each of the three request handlers of the page (`handleGenerateOutline`,
`handleGenerateSection`, `handleGenerateFooter` in `src/App.tsx`) is split at its `await` into
two steps:

- a Start step: the state changes made before the request goes out, plus the request it sends;
- a Complete step: the `try`/`catch`/`finally` changes once the reply, success or failure, is in.

The generated text is opaque, so every Complete step takes the reply as a parameter.

Files and modules:

- `types.dfy` (`Types`): the record shapes `ArticleOutline` and `ArticleSection` and an `Option`.
- `section_generator.dfy` (`SectionGenerator`): the outline panel of
  `src/components/SectionGenerator.tsx`. It is pure: the per-row enable guard, the index a click
  reports, the row numbering and the button label.
- `app.dfy` (`App`): the page state as a value. It holds the derived `isGeneratingAnything` and
  `allSectionsDone`, the button guards, the six transitions and the three requests. It also has
  the events a page can see (typing, clicks on enabled buttons, arriving replies), `Step`/`Run`
  over event sequences, and the page invariant `Inv`.
- `app_properties.dfy` (`AppProperties`): lemmas. Every step keeps `Inv`, so every reachable
  state keeps it. At most one request is in flight. Failed replies write no content. Failed
  sections and footers can be retried. A written section is frozen until the next outline. The
  guards never block a complete draft.
- `editor.dfy` (`AppEditor`): the page as a class `ArticleEditor`. It has the `useState` fields
  and one method per Start/Complete step, each updating the fields in place. Each method is proved
  to perform exactly the matching transition of `App` and to keep `Inv`.

Facts about the code that shape the model:

- Footer failure: on failure `footer` stays `''`, so the footer button (`src/App.tsx:141`) is
  enabled again and the footer can be retried (`FooterFailureRetryable`).
- One request at a time: every button is disabled while anything is generating
  (`src/App.tsx:126`, `src/App.tsx:141`, `src/components/SectionGenerator.tsx:30`). So at most
  one request is ever in flight (`OneRequestAtATime`, `ReachableStatesValid`), and the sequential
  Start/Complete model is faithful.
- Stale replies: the page has no guard that discards a reply to an older request. None is
  needed, because only one request can be in flight, and the model adds none.
- Empty outlines: the outline prompt asks for 8-12 headings (`api/generate_outline/route.ts:30`),
  but the page accepts any list. An empty one yields no sections, and then the footer is never
  offered.

## Model

| member | source | states |
|---|---|---|
| `SectionGenerator.ButtonGuard` | src/components/SectionGenerator.tsx:30 | A section's button is disabled while that section generates, while anything on the page generates, and once its content is non-empty. It is enabled exactly when none of the three holds. |
| `SectionGenerator.Label` | src/components/SectionGenerator.tsx:33-42 | The label is the spinner exactly while the section generates. It is "Done" exactly when the section is not generating and has content, and "Generate" otherwise. Generating takes precedence. |
| `SectionGenerator.LabelAgreesWithGuard` | src/components/SectionGenerator.tsx:30-42 | A button is enabled exactly when its label reads "Generate" and nothing on the page is generating. |
| `SectionGenerator.Rows` | src/components/SectionGenerator.tsx:24-42 | There is one row per section, in array order. Row k shows heading k, is numbered k + 1 and reports index k. Its enabling and label are those of section k. |
| `SectionGenerator.ClickPassesRowIndex` | src/components/SectionGenerator.tsx:29 | Clicking row k calls the section handler with index k. |
| `App.AnyGenerating` | src/App.tsx:21 | `sections.some(s => s.isGenerating)` holds exactly when some index has its flag set. |
| `App.AllHaveContent` | src/App.tsx:78 | `sections.every(s => s.content !== '')` holds exactly when every index has non-empty content. |
| `App.IsGeneratingAnything` | src/App.tsx:20-22 | Holds exactly when the outline is loading, the footer is generating, or some section is generating. |
| `App.AllSectionsDone` | src/App.tsx:78 | Holds exactly when there is at least one section and every section has content. |
| `App.Initial` | src/App.tsx:10-18 | The mounted page has the default topic and keywords, nothing loading or generating, no error, no outline, no sections and an empty footer. |
| `App.OutlineButtonEnabled` | src/App.tsx:124-126 | The outline button is enabled exactly when the outline is not loading, the footer is not generating and no section is generating. |
| `App.FooterPanelShown` | src/App.tsx:136 | The footer panel is shown exactly when there is at least one section and every section has content. |
| `App.FooterButtonEnabled` | src/App.tsx:136-141 | The footer button is enabled exactly when every section is done, nothing is generating and the footer is empty. |
| `App.SectionStartEnabled` | src/components/SectionGenerator.tsx:24-30 | Section i's button is enabled exactly when i is a row of the panel, section i has no content and nothing on the page is generating. |
| `App.PatchAt` | src/App.tsx:52-60 | The per-index `prev.map` replacement keeps the length. It patches exactly the element at the index and leaves every other element unchanged; an index out of range changes nothing. |
| `App.FreshSections` | src/App.tsx:37-41 | An outline yields one section per heading, in the same order, each with empty content and not generating. |
| `App.OutlineRequestOf` | src/App.tsx:25-35 | No outline request is sent when the topic is empty. Otherwise the request carries the topic and the keywords. |
| `App.OutlineStarted` | src/App.tsx:25-33 | An empty topic only sets the error to "Please enter a topic."; nothing else changes. Otherwise loading starts, the error is cleared, and outline, sections and footer are reset. |
| `App.OutlineCompleted` | src/App.tsx:34-46 | Loading ends in both cases. On success, the outline is the result and the sections are one empty, idle section per heading in order. On failure, the error holds the message and outline and sections are untouched. Topic, keywords and footer never change. |
| `App.SectionRequestOf` | src/App.tsx:50-56 | With no outline nothing is sent. Otherwise the request carries the topic, the outline title, section i's heading and the full heading list. |
| `App.SectionStarted` | src/App.tsx:49-53 | With no outline, nothing changes. Otherwise only section i is flagged as generating and the error is cleared; every other index and field is unchanged. |
| `App.SectionCompleted` | src/App.tsx:55-61 | Only index i changes and its heading stays. Its flag clears. On success its content is the reply. On failure its content is kept and the error holds the message. |
| `App.FooterRequestOf` | src/App.tsx:64-69 | With no outline nothing is sent. Otherwise the footer request carries the topic and the outline title. |
| `App.FooterStarted` | src/App.tsx:64-67 | With no outline nothing changes. Otherwise only the footer flag is raised and the error is cleared. |
| `App.FooterCompleted` | src/App.tsx:68-75 | The footer flag drops in both cases. On success the footer is the reply. On failure the footer is unchanged and the error holds the message. Nothing else changes. |
| `AppProperties.IdleIffNothingInFlight` | src/App.tsx:20-22 | `isGeneratingAnything` is false exactly when the number of requests in flight is zero. That number counts the outline flag, the generating sections and the footer flag. |
| `AppProperties.GuardsRequireIdle` | src/App.tsx:124-146 | When the outline button, the footer button or a section button is enabled, no request is in flight. |
| `AppProperties.OneRequestAtATime` | src/App.tsx:20-22 | Under the invariant, a loading outline excludes a generating footer and any generating section. A generating footer excludes any generating section. No two sections generate at once. |
| `AppProperties.InitialInv` | src/App.tsx:10-18 | The freshly mounted page satisfies the invariant. |
| `AppProperties.OutlineStartedInv` | src/App.tsx:24-33 | Starting an outline from an enabled button keeps the invariant. |
| `AppProperties.OutlineCompletedInv` | src/App.tsx:34-46 | Completing the outline request, with either outcome, keeps the invariant. |
| `AppProperties.SectionStartedInv` | src/App.tsx:49-53 | Starting a section from its enabled button keeps the invariant. |
| `AppProperties.SectionCompletedInv` | src/App.tsx:55-61 | Completing the request of a generating section, with either outcome, keeps the invariant. |
| `AppProperties.FooterStartedInv` | src/App.tsx:64-67 | Starting the footer from its enabled button keeps the invariant. |
| `AppProperties.FooterCompletedInv` | src/App.tsx:68-75 | Completing the footer request, with either outcome, keeps the invariant. |
| `AppProperties.RowEnabledIffStartEnabled` | src/App.tsx:134 | Row k of the rendered panel is enabled exactly when section k may start, and a click on it starts section k. |
| `AppProperties.StepPreservesInv` | src/App.tsx:24-76 | Every event keeps the invariant: typing, a click on an enabled button, or the reply of the request in flight. Ignored events leave the state as it is. |
| `AppProperties.RunPreservesInv` | src/App.tsx:24-76 | Every event sequence from a state satisfying the invariant ends in a state satisfying it. |
| `AppProperties.ReachableStatesValid` | src/App.tsx:9-78 | Every reachable state satisfies the invariant. With no outline there are no sections. With one, section k's heading is heading k of the outline. At most one request is in flight. A generating section has empty content. The footer is non-empty only when every section is done. |
| `AppProperties.SectionRequestNamesHeading` | src/App.tsx:56 | Under the invariant, the request for section i carries the topic, the outline title, the outline's own heading i and the full heading list. |
| `AppProperties.OutlineFailureLeavesEmpty` | src/App.tsx:42-46 | A failed outline request leaves no outline, no sections and an empty footer, and ends loading. The error holds the message; topic and keywords are unchanged. |
| `AppProperties.FailedReplyWritesNoContent` | src/App.tsx:42-75 | No failed reply, whether for outline, section or footer, changes any section's content or the footer. |
| `AppProperties.WrittenSectionIsFrozen` | src/components/SectionGenerator.tsx:30 | Until a new outline is requested, any event leaves a section with content exactly as it was. |
| `AppProperties.FrozenOverRun` | src/components/SectionGenerator.tsx:30 | Over any sequence of events with no outline click, a section with content stays exactly as it was. Content is written at most once per outline. |
| `AppProperties.SectionFailureRetryable` | src/App.tsx:58-61 | After a failed section request, the section's content is still empty and its button is enabled again. |
| `AppProperties.FooterFailureRetryable` | src/App.tsx:71-75 | After a failed footer request, the footer is still empty and the footer button is enabled again. |
| `AppProperties.WritingEverySection` | src/App.tsx:49-61 | On an idle page with an outline, clicking each unwritten row in turn and receiving one reply per row writes those replies into those sections. Nothing else changes except the cleared error. |
| `AppProperties.DraftCanBeCompleted` | src/App.tsx:24-146 | From a fresh page: the outline button, each section's button in order and then the footer button are all enabled when clicked. With non-empty replies, the draft ends with the outline, every section's content and the footer written, and nothing in flight. |
| `AppEditor.ArticleEditor.constructor` | src/App.tsx:10-18 | The page starts with the default topic and keywords, not loading, with no error, outline or sections, an empty footer and no footer being generated. |
| `AppEditor.ArticleEditor.SetTopic` | src/App.tsx:108 | Typing a topic changes only the topic and keeps the invariant. |
| `AppEditor.ArticleEditor.SetKeywords` | src/App.tsx:119 | Typing keywords changes only the keywords and keeps the invariant. |
| `AppEditor.ArticleEditor.StartOutline` | src/App.tsx:24-33 | Performs `App.OutlineStarted` on the fields and returns `App.OutlineRequestOf`, keeping the invariant. |
| `AppEditor.ArticleEditor.CompleteOutline` | src/App.tsx:34-46 | Performs `App.OutlineCompleted` on the fields, keeping the invariant. |
| `AppEditor.ArticleEditor.StartSection` | src/App.tsx:49-56 | Performs `App.SectionStarted` on the fields and returns `App.SectionRequestOf`, keeping the invariant. |
| `AppEditor.ArticleEditor.CompleteSection` | src/App.tsx:55-61 | Performs `App.SectionCompleted` on the fields, keeping the invariant. |
| `AppEditor.ArticleEditor.StartFooter` | src/App.tsx:64-69 | Performs `App.FooterStarted` on the fields and returns `App.FooterRequestOf`, keeping the invariant. |
| `AppEditor.ArticleEditor.CompleteFooter` | src/App.tsx:68-75 | Performs `App.FooterCompleted` on the fields, keeping the invariant. |

## Left out

- The three server endpoints (`api/generate_outline/route.ts`, `api/generate_section/route.ts`, `api/generate_footer/route.ts`) are not modelled. They are prompt templates around a generation SDK that cannot be seen and is nondeterministic. Their answer appears only as a success payload of the declared type, or a failure message, given to the Complete steps.
- The HTTP client (`src/services/editorService.ts`) is not modelled. It either returns the payload or throws with a prefixed message, and the Complete steps' failure branch covers both.
- Error message texts are kept abstract. The one exception is "Please enter a topic.". The fallback text "An unknown error occurred" for a non-`Error` exception is just another failure message.
- Real asynchrony, interleaving and stale replies are not modelled. The guards allow one request at a time, which `ReachableStatesValid` proves. So a reply can only be for the request in flight, and replies for anything else are ignored events.
- The `if (!outline) return` of the section and footer handlers is modelled in `App.SectionStarted` and `App.FooterStarted`, which accept any state. `AppEditor.ArticleEditor.StartSection` and `AppEditor.ArticleEditor.StartFooter` require the invariant and an enabled button. Under those, an outline always exists, so those methods have no such branch.
- An out-of-range section index is not modelled. In the source it would make `sections[index].heading` throw inside the `try`. The panel only ever passes the index of an existing row, so the section methods require one.
- Rendering is not modelled: JSX layout, styling, icons, the spinner component, the outline and footer button labels (`src/App.tsx:129`, `src/App.tsx:144`) and the HTML injected with `dangerouslySetInnerHTML` (`src/App.tsx:161`, `src/App.tsx:170`). These are presentation only.
- The condition `sections.length > 0` that shows the outline panel (`src/App.tsx:134`) is not modelled separately. With no sections there are no rows, so there is nothing to click.
- `App.OutlineCompleted`: the success payload is assumed to be a well-formed `ArticleOutline`, as the endpoint's response schema requires (`api/generate_outline/route.ts:39-52`). A payload without an `outline` array would make `src/App.tsx:37` throw after `setOutline` at line 36. The page would then have the outline set, no sections, the error set and loading ended. That state breaks the alignment part of the invariant, so `ReachableStatesValid` holds only for well-formed payloads.
