/**
  What the editor page guarantees: the invariant every reachable state keeps (sections aligned
  with the outline, at most one request in flight), what failed replies leave alone, and that a
  failed section or footer can be retried.
*/
module AppProperties {
  import opened Types
  import opened App
  import SectionGenerator

  /** 1 when `x`'s request is in flight. */
  function Bit(x: ArticleSection): nat
  {
    if x.isGenerating then 1 else 0
  }

  // ---------------------------------------------------------------------------------------------
  // Counting the sections in flight

  lemma {:induction false} CountGeneratingZero(ss: seq<ArticleSection>)
    ensures CountGenerating(ss) == 0 <==> !AnyGenerating(ss)
  {
    if ss != [] {
      CountGeneratingZero(ss[1..]);
    }
  }

  lemma CountGeneratingCons(x: ArticleSection, rest: seq<ArticleSection>)
    ensures CountGenerating([x] + rest) == Bit(x) + CountGenerating(rest)
  {
    assert ([x] + rest)[1..] == rest;
  }

  lemma {:induction false} CountGeneratingPatchAt(ss: seq<ArticleSection>, i: nat, p: SectionPatch)
    requires i < |ss|
    ensures CountGenerating(PatchAt(ss, i, p)) == CountGenerating(ss) - Bit(ss[i]) + Bit(Patched(ss[i], p))
  {
    var rest := PatchAt(ss[1..], i - 1, p);
    var head := if i == 0 then Patched(ss[0], p) else ss[0];
    assert PatchAt(ss, i, p) == [head] + rest;
    CountGeneratingCons(head, rest);
    CountGeneratingCons(ss[0], ss[1..]);
    assert ss == [ss[0]] + ss[1..];
    if i == 0 {
      assert rest == ss[1..];
    } else {
      CountGeneratingPatchAt(ss[1..], i - 1, p);
    }
  }

  lemma {:induction false} CountGeneratingTwo(ss: seq<ArticleSection>, i: nat, j: nat)
    requires i < j < |ss| && ss[i].isGenerating && ss[j].isGenerating
    ensures CountGenerating(ss) >= 2
  {
    if i == 0 {
      assert ss[1..][j - 1].isGenerating;
      CountGeneratingZero(ss[1..]);
    } else {
      CountGeneratingTwo(ss[1..], i - 1, j - 1);
    }
  }

  /** Nothing is in flight exactly when `isGeneratingAnything` is false. */
  lemma IdleIffNothingInFlight(s: EditorState)
    ensures InFlight(s) == 0 <==> !IsGeneratingAnything(s)
  {
    CountGeneratingZero(s.sections);
  }

  /** Each button guard includes `!isGeneratingAnything`, so no request is in flight when one starts. */
  lemma GuardsRequireIdle(s: EditorState, i: nat)
    ensures OutlineButtonEnabled(s) ==> InFlight(s) == 0
    ensures FooterButtonEnabled(s) ==> InFlight(s) == 0
    ensures SectionStartEnabled(s, i) ==> InFlight(s) == 0
  {
    IdleIffNothingInFlight(s);
  }

  /** Under the invariant the three kinds of request exclude one another, and so do two sections. */
  lemma OneRequestAtATime(s: EditorState)
    requires Inv(s)
    ensures s.isLoading ==> !s.isGeneratingFooter && !AnyGenerating(s.sections)
    ensures s.isGeneratingFooter ==> !s.isLoading && !AnyGenerating(s.sections)
    ensures forall i, j ::
              (0 <= i < |s.sections| && 0 <= j < |s.sections| &&
               s.sections[i].isGenerating && s.sections[j].isGenerating) ==> i == j
  {
    CountGeneratingZero(s.sections);
    forall i, j | 0 <= i < |s.sections| && 0 <= j < |s.sections| &&
                  s.sections[i].isGenerating && s.sections[j].isGenerating
      ensures i == j
    {
      if i < j {
        CountGeneratingTwo(s.sections, i, j);
      } else if j < i {
        CountGeneratingTwo(s.sections, j, i);
      }
    }
  }

  // ---------------------------------------------------------------------------------------------
  // The invariant holds initially and every step keeps it

  lemma InitialInv()
    ensures Inv(Initial())
  {
  }

  lemma OutlineStartedInv(s: EditorState)
    requires Inv(s) && OutlineButtonEnabled(s)
    ensures Inv(OutlineStarted(s))
  {
    IdleIffNothingInFlight(s);
  }

  lemma OutlineCompletedInv(s: EditorState, reply: Reply<ArticleOutline>)
    requires Inv(s) && s.isLoading
    ensures Inv(OutlineCompleted(s, reply))
  {
    if reply.Success? {
      var created := FreshSections(reply.value.outline);
      CountGeneratingZero(created);
    }
  }

  lemma SectionStartedInv(s: EditorState, i: nat)
    requires Inv(s) && SectionStartEnabled(s, i)
    ensures Inv(SectionStarted(s, i))
  {
    IdleIffNothingInFlight(s);
    var p := SectionPatch(None, true);
    var t := SectionStarted(s, i);
    assert t == s.(sections := PatchAt(s.sections, i, p), error := None);
    CountGeneratingPatchAt(s.sections, i, p);
    assert InFlight(t) == 1;
    assert Aligned(t);
    assert GeneratingUnwritten(t.sections) by {
      forall k | 0 <= k < |t.sections| && k != i ensures !t.sections[k].isGenerating {
        assert t.sections[k] == s.sections[k];
      }
    }
    assert !AllSectionsDone(t.sections) by {
      assert t.sections[i].content == "";
    }
  }

  lemma SectionCompletedInv(s: EditorState, i: nat, reply: Reply<string>)
    requires Inv(s) && i < |s.sections| && s.sections[i].isGenerating
    ensures Inv(SectionCompleted(s, i, reply))
  {
    var t := SectionCompleted(s, i, reply);
    CountGeneratingZero(s.sections);
    var p := if reply.Success? then SectionPatch(Some(reply.value), false) else SectionPatch(None, false);
    assert t.sections == PatchAt(s.sections, i, p);
    CountGeneratingPatchAt(s.sections, i, p);
    assert InFlight(t) == 0;
    assert !AllSectionsDone(s.sections);
    assert Aligned(t);
    CountGeneratingZero(t.sections);
  }

  lemma FooterStartedInv(s: EditorState)
    requires Inv(s) && FooterButtonEnabled(s)
    ensures Inv(FooterStarted(s))
  {
    IdleIffNothingInFlight(s);
  }

  lemma FooterCompletedInv(s: EditorState, reply: Reply<string>)
    requires Inv(s) && s.isGeneratingFooter
    ensures Inv(FooterCompleted(s, reply))
  {
  }

  /** A click on row `k` is possible exactly when section `k` may start, and it starts section `k`. */
  lemma RowEnabledIffStartEnabled(s: EditorState, k: nat)
    requires k < |s.sections|
    ensures |RowsOf(s)| == |s.sections|
    ensures RowsOf(s)[k].enabled <==> SectionStartEnabled(s, k)
    ensures SectionGenerator.OnClick(RowsOf(s)[k]) == k
  {
  }

  lemma StepPreservesInv(s: EditorState, e: Event)
    requires Inv(s)
    ensures Inv(Step(s, e))
  {
    if Enabled(s, e) {
      match e
      case EditTopic(_) =>
      case EditKeywords(_) =>
      case ClickOutline => OutlineStartedInv(s);
      case ClickSectionRow(row) =>
        RowEnabledIffStartEnabled(s, row);
        SectionStartedInv(s, row);
      case ClickFooter => FooterStartedInv(s);
      case OutlineReturned(reply) => OutlineCompletedInv(s, reply);
      case SectionReturned(i, reply) => SectionCompletedInv(s, i, reply);
      case FooterReturned(reply) => FooterCompletedInv(s, reply);
    }
  }

  lemma {:induction false} RunPreservesInv(s: EditorState, events: seq<Event>)
    requires Inv(s)
    ensures Inv(Run(s, events))
    decreases |events|
  {
    if events != [] {
      StepPreservesInv(s, events[0]);
      RunPreservesInv(Step(s, events[0]), events[1..]);
    }
  }

  /** Every state the page can reach keeps the invariant: sections match the outline, one request at a time. */
  lemma ReachableStatesValid(events: seq<Event>)
    ensures Inv(Run(Initial(), events))
  {
    InitialInv();
    RunPreservesInv(Initial(), events);
  }

  // ---------------------------------------------------------------------------------------------
  // What single steps promise

  /** The section request carries the topic, the title, the outline's own heading `i` and all headings. */
  lemma SectionRequestNamesHeading(s: EditorState, i: nat)
    requires Inv(s) && i < |s.sections|
    ensures s.outline.Some?
    ensures SectionRequestOf(s, i) ==
              Some(SectionRequest(s.topic, s.outline.value.title, s.outline.value.outline[i], s.outline.value.outline))
  {
  }

  /** A failed outline leaves no outline, no sections and no footer, and keeps the inputs. */
  lemma OutlineFailureLeavesEmpty(s: EditorState, message: string)
    requires Inv(s) && s.isLoading
    ensures var t := OutlineCompleted(s, Failure(message));
      && t.outline.None? && t.sections == [] && t.footer == "" && !t.isLoading
      && t.error == Some(message) && t.topic == s.topic && t.keywords == s.keywords
  {
  }

  predicate IsFailedReply(e: Event)
  {
    || (e.OutlineReturned? && e.outlineReply.Failure?)
    || (e.SectionReturned? && e.sectionReply.Failure?)
    || (e.FooterReturned? && e.footerReply.Failure?)
  }

  /** A failed request writes no section content and no footer. */
  lemma FailedReplyWritesNoContent(s: EditorState, e: Event)
    requires Inv(s) && IsFailedReply(e)
    ensures var t := Step(s, e);
      && |t.sections| == |s.sections| && t.footer == s.footer
      && forall k :: 0 <= k < |s.sections| ==> t.sections[k].content == s.sections[k].content
  {
  }

  /** Until a new outline is requested, a written section never changes again. */
  lemma WrittenSectionIsFrozen(s: EditorState, e: Event, k: nat)
    requires Inv(s) && !e.ClickOutline? && k < |s.sections| && s.sections[k].content != ""
    ensures |Step(s, e).sections| == |s.sections| && Step(s, e).sections[k] == s.sections[k]
  {
    if e.ClickSectionRow? && e.row < |s.sections| {
      RowEnabledIffStartEnabled(s, e.row);
    }
  }

  /** Over any run of events with no outline click, a written section stays exactly as it was. */
  lemma {:induction false} FrozenOverRun(s: EditorState, events: seq<Event>, k: nat)
    requires Inv(s) && k < |s.sections| && s.sections[k].content != ""
    requires forall j :: 0 <= j < |events| ==> !events[j].ClickOutline?
    ensures |Run(s, events).sections| == |s.sections| && Run(s, events).sections[k] == s.sections[k]
    decreases |events|
  {
    if events != [] {
      WrittenSectionIsFrozen(s, events[0], k);
      StepPreservesInv(s, events[0]);
      FrozenOverRun(Step(s, events[0]), events[1..], k);
    }
  }

  /** A failed section keeps its empty content and its button is enabled again. */
  lemma SectionFailureRetryable(s: EditorState, i: nat, message: string)
    requires Inv(s) && i < |s.sections| && s.sections[i].isGenerating
    ensures var t := SectionCompleted(s, i, Failure(message));
      t.sections[i].content == "" && SectionStartEnabled(t, i)
  {
    var t := SectionCompleted(s, i, Failure(message));
    SectionCompletedInv(s, i, Failure(message));
    CountGeneratingZero(s.sections);
    CountGeneratingPatchAt(s.sections, i, SectionPatch(None, false));
    assert t.sections == PatchAt(s.sections, i, SectionPatch(None, false));
    IdleIffNothingInFlight(t);
  }

  /** A failed footer leaves the footer empty, so its button is enabled again. */
  lemma FooterFailureRetryable(s: EditorState, message: string)
    requires Inv(s) && s.isGeneratingFooter
    ensures var t := FooterCompleted(s, Failure(message));
      t.footer == "" && FooterButtonEnabled(t)
  {
    var t := FooterCompleted(s, Failure(message));
    IdleIffNothingInFlight(t);
  }

  // ---------------------------------------------------------------------------------------------
  // The guards never block a draft: outline, every section and the footer can all be written

  lemma {:induction false} RunAppend(s: EditorState, a: seq<Event>, b: seq<Event>)
    ensures Run(s, a + b) == Run(Run(s, a), b)
    decreases |a|
  {
    if a != [] {
      assert (a + b)[0] == a[0];
      assert (a + b)[1..] == a[1..] + b;
      RunAppend(Step(s, a[0]), a[1..], b);
    } else {
      assert a + b == b;
    }
  }

  lemma RunTwo(s: EditorState, x: Event, y: Event, rest: seq<Event>)
    ensures Run(s, [x, y] + rest) == Run(Step(Step(s, x), y), rest)
  {
    var events := [x, y] + rest;
    assert events[0] == x && events[1..][0] == y && events[1..][1..] == rest;
  }

  /** Clicking each row from `from` on, and receiving `contents` in order. */
  function WriteAll(from: nat, contents: seq<string>): seq<Event>
    decreases |contents|
  {
    if contents == [] then []
    else [ClickSectionRow(from), SectionReturned(from, Success(contents[0]))] + WriteAll(from + 1, contents[1..])
  }

  /** Starting section `i` and receiving `c` writes `c` into it and changes nothing else but the error. */
  lemma StartThenSucceed(s: EditorState, i: nat, c: string)
    requires i < |s.sections| && s.outline.Some? && !s.sections[i].isGenerating
    ensures SectionCompleted(SectionStarted(s, i), i, Success(c)) ==
              s.(sections := s.sections[i := s.sections[i].(content := c)], error := None)
  {
    var t := SectionCompleted(SectionStarted(s, i), i, Success(c));
    var written := s.sections[i := s.sections[i].(content := c)];
    assert t.sections == written by {
      forall k | 0 <= k < |written| ensures t.sections[k] == written[k] {
      }
    }
  }

  /** A click on an enabled row starts that row's section. */
  lemma ClickStartsSection(s: EditorState, i: nat)
    requires SectionStartEnabled(s, i)
    ensures Step(s, ClickSectionRow(i)) == SectionStarted(s, i)
  {
    RowEnabledIffStartEnabled(s, i);
  }

  /** The reply for a section in flight completes that section. */
  lemma ReplyCompletesSection(s: EditorState, i: nat, reply: Reply<string>)
    requires i < |s.sections| && s.sections[i].isGenerating
    ensures Step(s, SectionReturned(i, reply)) == SectionCompleted(s, i, reply)
  {
  }

  /** On an idle page with an outline, clicking an unwritten row and receiving `c` writes exactly that section. */
  lemma WriteOne(s: EditorState, i: nat, c: string)
    requires s.outline.Some? && !IsGeneratingAnything(s) && i < |s.sections| && s.sections[i].content == ""
    ensures var t := Step(Step(s, ClickSectionRow(i)), SectionReturned(i, Success(c)));
      && t == s.(sections := s.sections[i := s.sections[i].(content := c)], error := None)
      && !IsGeneratingAnything(t)
  {
    assert !s.sections[i].isGenerating;
    ClickStartsSection(s, i);
    var s1 := SectionStarted(s, i);
    assert s1.sections[i].isGenerating;
    ReplyCompletesSection(s1, i, Success(c));
    StartThenSucceed(s, i, c);
    var written := s.sections[i := s.sections[i].(content := c)];
    assert !AnyGenerating(written) by {
      forall k | 0 <= k < |written| ensures !written[k].isGenerating {
        if k != i {
          assert written[k] == s.sections[k];
        }
      }
    }
  }

  /** `ss` with `contents` written, in order, into the sections from `from` on. */
  function Fill(ss: seq<ArticleSection>, from: nat, contents: seq<string>): seq<ArticleSection>
    requires from + |contents| == |ss|
    decreases |contents|
  {
    if contents == [] then ss
    else Fill(ss[from := ss[from].(content := contents[0])], from + 1, contents[1..])
  }

  lemma {:induction false} FillWrites(ss: seq<ArticleSection>, from: nat, contents: seq<string>)
    requires from + |contents| == |ss|
    ensures |Fill(ss, from, contents)| == |ss|
    ensures forall k :: 0 <= k < from ==> Fill(ss, from, contents)[k] == ss[k]
    ensures forall k :: from <= k < |ss| ==> Fill(ss, from, contents)[k] == ss[k].(content := contents[k - from])
    decreases |contents|
  {
    if contents != [] {
      var next := ss[from := ss[from].(content := contents[0])];
      FillWrites(next, from + 1, contents[1..]);
      forall k | from < k < |ss|
        ensures Fill(ss, from, contents)[k] == ss[k].(content := contents[k - from])
      {
        assert contents[k - from] == contents[1..][k - (from + 1)];
      }
    }
  }

  /** Clicking each row from `from` on and receiving `contents` writes exactly those sections. */
  lemma {:induction false} WritingEverySection(s: EditorState, from: nat, contents: seq<string>)
    requires s.outline.Some? && !IsGeneratingAnything(s)
    requires from + |contents| == |s.sections|
    requires forall k :: from <= k < |s.sections| ==> s.sections[k].content == ""
    ensures Run(s, WriteAll(from, contents)) ==
              s.(sections := Fill(s.sections, from, contents), error := if contents == [] then s.error else None)
    decreases |contents|
  {
    if contents != [] {
      var c := contents[0];
      var rest := WriteAll(from + 1, contents[1..]);
      var s2 := s.(sections := s.sections[from := s.sections[from].(content := c)], error := None);
      WriteOne(s, from, c);
      RunTwo(s, ClickSectionRow(from), SectionReturned(from, Success(c)), rest);
      WritingEverySection(s2, from + 1, contents[1..]);
    }
  }

  /** On a fresh page, clicking "Generate Outline" and receiving `o` yields an idle page with one empty section per heading. */
  lemma OpeningRun(o: ArticleOutline)
    ensures var t := Run(Initial(), [ClickOutline, OutlineReturned(Success(o))]);
      && Inv(t) && !IsGeneratingAnything(t) && t.outline == Some(o) && t.footer == ""
      && t.sections == FreshSections(o.outline)
  {
    InitialInv();
    OutlineStartedInv(Initial());
    var s1 := OutlineStarted(Initial());
    var t := OutlineCompleted(s1, Success(o));
    OutlineCompletedInv(s1, Success(o));
    RunTwo(Initial(), ClickOutline, OutlineReturned(Success(o)), []);
    assert [ClickOutline, OutlineReturned(Success(o))] + [] == [ClickOutline, OutlineReturned(Success(o))];
    CountGeneratingZero(t.sections);
  }

  /** With the footer button enabled, clicking it and receiving `f` writes the footer and leaves the page idle. */
  lemma ClosingRun(s: EditorState, f: string)
    requires Inv(s) && FooterButtonEnabled(s)
    ensures var t := Run(s, [ClickFooter, FooterReturned(Success(f))]);
      t == s.(footer := f, error := None) && !IsGeneratingAnything(t)
  {
    RunTwo(s, ClickFooter, FooterReturned(Success(f)), []);
    assert [ClickFooter, FooterReturned(Success(f))] + [] == [ClickFooter, FooterReturned(Success(f))];
  }

  /**
    From a freshly mounted page, an outline with headings, one non-empty reply per section in
    order and a non-empty footer reply produce the complete draft: every click lands on an
    enabled button and the page ends idle.
  */
  lemma DraftCanBeCompleted(o: ArticleOutline, contents: seq<string>, f: string)
    requires |o.outline| > 0 && |contents| == |o.outline| && f != ""
    requires forall k :: 0 <= k < |contents| ==> contents[k] != ""
    ensures var t := Run(Initial(), [ClickOutline, OutlineReturned(Success(o))] + WriteAll(0, contents)
                                    + [ClickFooter, FooterReturned(Success(f))]);
      && t.outline == Some(o) && t.footer == f && !IsGeneratingAnything(t)
      && |t.sections| == |o.outline|
      && forall k :: 0 <= k < |t.sections| ==>
           t.sections[k].heading == o.outline[k] && t.sections[k].content == contents[k]
  {
    var opening := [ClickOutline, OutlineReturned(Success(o))];
    var closing := [ClickFooter, FooterReturned(Success(f))];
    OpeningRun(o);
    var s2 := Run(Initial(), opening);
    WritingEverySection(s2, 0, contents);
    RunPreservesInv(s2, WriteAll(0, contents));
    var s3 := Run(s2, WriteAll(0, contents));
    FillWrites(s2.sections, 0, contents);
    assert !AnyGenerating(s3.sections);
    assert AllSectionsDone(s3.sections);
    ClosingRun(s3, f);
    RunAppend(Initial(), opening, WriteAll(0, contents));
    RunAppend(Initial(), opening + WriteAll(0, contents), closing);
  }
}
