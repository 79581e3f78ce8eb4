/** The primary provider's service (services/mistralService.js). Methods that catch their
    own errors return a plain value; methods that rethrow return an `Attempt`. */
module Mistral {
  import opened Outcomes
  import opened Text
  import opened EmailModel
  import opened Ai

  /** `summarizeEmail`: the greedy `{ … }` span of the trimmed reply is parsed; an
      unparsable reply gives the could-not-parse summary; a failed call is rethrown. */
  function Summarize(p: Provider, parse: string -> Option<Summary>, m: Message): (r: Attempt<Summary>)
    ensures r.Threw? <==> p(SummarizeRequest(m)).Failure?
    ensures r.Done? && parse(JsonCandidate(Trim(p(SummarizeRequest(m)).text))).Some? ==>
      r.value == parse(JsonCandidate(Trim(p(SummarizeRequest(m)).text))).value
    ensures r.Done? && parse(JsonCandidate(Trim(p(SummarizeRequest(m)).text))).None? ==>
      r.value == CouldNotParse
  {
    match p(SummarizeRequest(m))
    case Failure => Threw
    case Reply(t) => Done(parse(JsonCandidate(Trim(t))).GetOr(CouldNotParse))
  }

  /** `categorizeEmail`: the trimmed reply verbatim (no check against the four categories),
      or "To-Do" when the call fails; it never throws. */
  function Categorize(p: Provider, m: Message): (r: string)
    ensures p(CategorizeRequest(m)).Failure? ==> r == DefaultCategory
    ensures p(CategorizeRequest(m)).Reply? ==> r == Trim(p(CategorizeRequest(m)).text)
  {
    Ask(p, CategorizeRequest(m)).GetOr(DefaultCategory)
  }

  /** A reply of only white space categorises as the empty string, not as a category. */
  lemma BlankReplyCategorizesEmpty(p: Provider, m: Message)
    requires p(CategorizeRequest(m)) == Reply(" \n")
    ensures Categorize(p, m) == ""
  {
    assert LeadingSpace(" \n") == 2;
  }

  /** `extractActionItems`: the structured extractor; a failed call is rethrown. */
  function ExtractActionItems(p: Provider, parse: string -> Option<ItemFields>, body: string): (r: Attempt<seq<ActionItem>>)
    ensures r.Threw? <==> p(StructuredActionsRequest(body)).Failure?
    ensures r.Done? ==> |r.value| <= 1 && forall i :: 0 <= i < |r.value| ==> !r.value[i].completed
    ensures r.Done? ==> (|r.value| == 1 <==> parse(JsonCandidate(Trim(p(StructuredActionsRequest(body)).text))).Some?)
    ensures r.Done? && |r.value| == 1 ==>
      r.value[0].fields == parse(JsonCandidate(Trim(p(StructuredActionsRequest(body)).text))).value
  {
    StructuredExtraction(p, parse, body)
  }

  /** `extractSimpleActionItems`: one item per non-blank line of the reply; a failed call
      is rethrown. */
  function ExtractSimpleActionItems(p: Provider, body: string): (r: Attempt<seq<ActionItem>>)
    ensures r.Threw? <==> p(SimpleActionsRequest(body)).Failure?
    ensures r.Done? ==> |r.value| == |ActionLines(p(SimpleActionsRequest(body)).text)|
    ensures r.Done? ==> forall i :: 0 <= i < |r.value| ==> !r.value[i].completed
    ensures r.Done? ==> r.value == SimpleItems(p(SimpleActionsRequest(body)).text)
  {
    match p(SimpleActionsRequest(body))
    case Failure => Threw
    case Reply(t) => Done(SimpleItems(t))
  }

  /** `draftReply`: the two-stage draft, or the courtesy draft with purpose "General" when
      either call fails; it never throws and the subject is always "Re: " + subject. */
  function DraftReply(p: Provider, m: Message, now: int): (r: ReplyDraft)
    ensures r.subject == "Re: " + m.subject
    ensures r.timestamp == now
    ensures p(PurposeRequest(m)).Failure? ==> r == FallbackDraft(m, now)
    ensures ComposeDraft(p, m, now).Some? ==> r.purpose == Trim(p(PurposeRequest(m)).text)
    ensures ComposeDraft(p, m, now).None? ==> r == FallbackDraft(m, now)
    ensures ComposeDraft(p, m, now).Some? ==>
      r.body == Trim(p(ReplyRequest(r.purpose, ClassifyPurpose(r.purpose), m)).text)
  {
    ComposeDraft(p, m, now).GetOr(FallbackDraft(m, now))
  }

  /** `generateChatResponse`: the trimmed reply, or the fixed apology; it never throws. */
  function ChatResponse(p: Provider, message: string, subject: string, body: string): (r: string)
    ensures p(ChatRequest(message, subject, body)).Failure? ==> r == Apology
    ensures p(ChatRequest(message, subject, body)).Reply? ==> r == Trim(p(ChatRequest(message, subject, body)).text)
  {
    Ask(p, ChatRequest(message, subject, body)).GetOr(Apology)
  }
}
