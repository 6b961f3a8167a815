/**
  The editor page as an object whose fields its handlers update in place (src/App.tsx). Each
  handler is split at its `await`: a Start method makes the updates before the request and
  returns the request it sends (None when it sends nothing); a Complete method takes the reply
  and makes the `try`/`catch`/`finally` updates. Every method is proved to perform exactly the
  matching transition of module App and to keep the page invariant.
*/
module AppEditor {
  import opened Types
  import opened App
  import AppProperties

  class ArticleEditor {
    var topic: string
    var keywords: string
    var isLoading: bool
    var error: Option<string>
    var outline: Option<ArticleOutline>
    var sections: seq<ArticleSection>
    var footer: string
    var isGeneratingFooter: bool

    /** The fields as one value. */
    function State(): EditorState
      reads this
    {
      EditorState(topic, keywords, isLoading, error, outline, sections, footer, isGeneratingFooter)
    }

    ghost predicate Valid()
      reads this
    {
      Inv(State())
    }

    constructor ()
      ensures State() == Initial() && Valid()
    {
      topic := DefaultTopic;
      keywords := DefaultKeywords;
      isLoading := false;
      error := None;
      outline := None;
      sections := [];
      footer := "";
      isGeneratingFooter := false;
      AppProperties.InitialInv();
    }

    /** The topic input's `onChange`. */
    method SetTopic(text: string)
      requires Valid()
      modifies this
      ensures Valid() && State() == old(State()).(topic := text)
    {
      topic := text;
    }

    /** The keywords input's `onChange`. */
    method SetKeywords(text: string)
      requires Valid()
      modifies this
      ensures Valid() && State() == old(State()).(keywords := text)
    {
      keywords := text;
    }

    /** `handleGenerateOutline` up to its `await`. */
    method StartOutline() returns (request: Option<Request>)
      requires Valid() && OutlineButtonEnabled(State())
      modifies this
      ensures Valid()
      ensures State() == OutlineStarted(old(State()))
      ensures request == OutlineRequestOf(old(State()))
    {
      AppProperties.OutlineStartedInv(State());
      if topic == "" {
        error := Some(TopicMissing);
        request := None;
        return;
      }
      isLoading := true;
      error := None;
      outline := None;
      sections := [];
      footer := "";
      request := Some(OutlineRequest(topic, keywords));
    }

    /** `handleGenerateOutline` after its `await`. */
    method CompleteOutline(reply: Reply<ArticleOutline>)
      requires Valid() && isLoading
      modifies this
      ensures Valid()
      ensures State() == OutlineCompleted(old(State()), reply)
    {
      AppProperties.OutlineCompletedInv(State(), reply);
      match reply {
        case Success(result) =>
          outline := Some(result);
          sections := FreshSections(result.outline);
        case Failure(message) =>
          error := Some(message);
      }
      isLoading := false;
    }

    /**
      `handleGenerateSection(index)` up to its `await`. Its `if (!outline) return` never fires
      here: a section row exists only when an outline does.
    */
    method StartSection(index: nat) returns (request: Option<Request>)
      requires Valid() && SectionStartEnabled(State(), index)
      modifies this
      ensures Valid()
      ensures State() == SectionStarted(old(State()), index)
      ensures request == SectionRequestOf(old(State()), index)
    {
      AppProperties.SectionStartedInv(State(), index);
      var current := outline.value;
      request := Some(SectionRequest(topic, current.title, sections[index].heading, current.outline));
      sections := PatchAt(sections, index, SectionPatch(None, true));
      error := None;
    }

    /** `handleGenerateSection(index)` after its `await`. */
    method CompleteSection(index: nat, reply: Reply<string>)
      requires Valid() && index < |sections| && sections[index].isGenerating
      modifies this
      ensures Valid()
      ensures State() == SectionCompleted(old(State()), index, reply)
    {
      AppProperties.SectionCompletedInv(State(), index, reply);
      match reply {
        case Success(content) =>
          sections := PatchAt(sections, index, SectionPatch(Some(content), false));
        case Failure(message) =>
          error := Some(message);
          sections := PatchAt(sections, index, SectionPatch(None, false));
      }
    }

    /**
      `handleGenerateFooter` up to its `await`. Its `if (!outline) return` never fires here: the
      footer button is shown only once every section of an outline is written.
    */
    method StartFooter() returns (request: Option<Request>)
      requires Valid() && FooterButtonEnabled(State())
      modifies this
      ensures Valid()
      ensures State() == FooterStarted(old(State()))
      ensures request == FooterRequestOf(old(State()))
    {
      AppProperties.FooterStartedInv(State());
      isGeneratingFooter := true;
      error := None;
      request := Some(FooterRequest(topic, outline.value.title));
    }

    /** `handleGenerateFooter` after its `await`. */
    method CompleteFooter(reply: Reply<string>)
      requires Valid() && isGeneratingFooter
      modifies this
      ensures Valid()
      ensures State() == FooterCompleted(old(State()), reply)
    {
      AppProperties.FooterCompletedInv(State(), reply);
      match reply {
        case Success(content) =>
          footer := content;
        case Failure(message) =>
          error := Some(message);
      }
      isGeneratingFooter := false;
    }
  }
}
