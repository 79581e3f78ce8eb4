/** The service the controllers call (services/aiService.js): every task first awaits the
    primary provider's service and, only when that throws, makes its own call to the
    secondary provider; when that call throws too, a fixed value is returned. */
module AiService {
  import opened Outcomes
  import opened Text
  import opened EmailModel
  import opened Ai
  import Mistral

  /** The primary, then the secondary, then the fixed value: the `try { … } catch { try
      { … } catch { … } }` shape every method of the service shares. */
  function TwoTier<T>(primary: Attempt<T>, secondary: Attempt<T>, fallback: T): (r: T)
    ensures primary.Done? ==> r == primary.value
    ensures primary.Threw? && secondary.Done? ==> r == secondary.value
    ensures primary.Threw? && secondary.Threw? ==> r == fallback
  {
    match primary
    case Done(v) => v
    case Threw =>
      match secondary
      case Done(w) => w
      case Threw => fallback
  }

  /** The secondary summary: `JSON.parse` of the whole trimmed reply, with no `{ … }`
      extraction; unparsable gives the could-not-parse summary. */
  function SecondarySummarize(q: Provider, parse: string -> Option<Summary>, m: Message): (r: Attempt<Summary>)
    ensures r.Threw? <==> q(SummarizeRequest(m)).Failure?
    ensures r.Done? ==> r.value == parse(Trim(q(SummarizeRequest(m)).text)).GetOr(CouldNotParse)
  {
    match q(SummarizeRequest(m))
    case Failure => Threw
    case Reply(t) => Done(parse(Trim(t)).GetOr(CouldNotParse))
  }

  /** `summarizeEmail`: never throws. */
  function Summarize(p: Provider, q: Provider, parse: string -> Option<Summary>, m: Message): (r: Summary)
    ensures p(SummarizeRequest(m)).Reply? ==> r == Mistral.Summarize(p, parse, m).value
    ensures p(SummarizeRequest(m)).Failure? && q(SummarizeRequest(m)).Reply? ==>
      r == parse(Trim(q(SummarizeRequest(m)).text)).GetOr(CouldNotParse)
    ensures p(SummarizeRequest(m)).Failure? && q(SummarizeRequest(m)).Failure? ==> r == NeedsAttention
  {
    TwoTier(Mistral.Summarize(p, parse, m), SecondarySummarize(q, parse, m), NeedsAttention)
  }

  /** Every summary is a parsed reply of one of the two providers or one of the two fixed
      summaries; the attention summary appears exactly when both calls throw. */
  lemma SummarizeOutcomes(p: Provider, q: Provider, parse: string -> Option<Summary>, m: Message)
    ensures var r := Summarize(p, q, parse, m);
      || r == CouldNotParse
      || r == NeedsAttention
      || (p(SummarizeRequest(m)).Reply? && Some(r) == parse(JsonCandidate(Trim(p(SummarizeRequest(m)).text))))
      || (q(SummarizeRequest(m)).Reply? && Some(r) == parse(Trim(q(SummarizeRequest(m)).text)))
    ensures (forall s: string :: parse(s) != Some(NeedsAttention)) ==>
      (Summarize(p, q, parse, m) == NeedsAttention <==>
       p(SummarizeRequest(m)).Failure? && q(SummarizeRequest(m)).Failure?)
  {
  }

  /** The secondary summary does not look for the `{ … }` span: a reply with prose around
      its JSON object is "could not be parsed" there even when the primary's extraction
      would have parsed it. */
  lemma SecondaryDoesNotExtract(p: Provider, q: Provider, parse: string -> Option<Summary>, m: Message, s: Summary)
    requires p(SummarizeRequest(m)).Failure?
    requires q(SummarizeRequest(m)).Reply?
    requires parse(Trim(q(SummarizeRequest(m)).text)).None?
    requires parse(JsonCandidate(Trim(q(SummarizeRequest(m)).text))) == Some(s)
    ensures Summarize(p, q, parse, m) == CouldNotParse
  {
  }

  /** The secondary categorisation: the trimmed reply. */
  function SecondaryCategorize(q: Provider, m: Message): (r: Attempt<string>)
    ensures r.Threw? <==> q(CategorizeRequest(m)).Failure?
    ensures r.Done? ==> r.value == Trim(q(CategorizeRequest(m)).text)
  {
    match Ask(q, CategorizeRequest(m))
    case Some(t) => Done(t)
    case None => Threw
  }

  /** `categorizeEmail`. */
  function Categorize(p: Provider, q: Provider, m: Message): (r: string)
    ensures p(CategorizeRequest(m)).Reply? ==> r == Trim(p(CategorizeRequest(m)).text)
    ensures p(CategorizeRequest(m)).Failure? ==> r == DefaultCategory
  {
    TwoTier(Done(Mistral.Categorize(p, m)), SecondaryCategorize(q, m), DefaultCategory)
  }

  /** The primary categoriser catches its own errors, so the secondary provider is never
      asked: any two secondaries give the same category. */
  lemma CategorizeIgnoresSecondary(p: Provider, q1: Provider, q2: Provider, m: Message)
    ensures Categorize(p, q1, m) == Categorize(p, q2, m) == Mistral.Categorize(p, m)
  {
  }

  /** `extractActionItems`: the primary's line-per-action extractor, then the secondary's
      structured extractor, then no items. */
  function ExtractActionItems(p: Provider, q: Provider, parse: string -> Option<ItemFields>, body: string): (r: seq<ActionItem>)
    ensures p(SimpleActionsRequest(body)).Reply? ==> r == SimpleItems(p(SimpleActionsRequest(body)).text)
    ensures p(SimpleActionsRequest(body)).Failure? ==> |r| <= 1
    ensures p(SimpleActionsRequest(body)).Failure? && q(StructuredActionsRequest(body)).Reply? ==>
      r == StructuredItems(q(StructuredActionsRequest(body)).text, parse)
    ensures p(SimpleActionsRequest(body)).Failure? && q(StructuredActionsRequest(body)).Failure? ==> r == []
    ensures forall i :: 0 <= i < |r| ==> !r[i].completed
  {
    TwoTier(Mistral.ExtractSimpleActionItems(p, body), StructuredExtraction(q, parse, body), [])
  }

  /** The primary's structured extractor is not the one the service uses: a primary reply
      of one JSON object on one line gives one item holding the whole line as the action,
      not the parsed fields. */
  lemma PrimaryExtractionIsLineBased(p: Provider, q: Provider, parse: string -> Option<ItemFields>, body: string, line: string)
    requires p(SimpleActionsRequest(body)) == Reply(line)
    requires '\n' !in line && Trim(line) != ""
    ensures ExtractActionItems(p, q, parse, body) ==
      [ActionItem(ItemFields(Some(Trim(line)), None, None, None), false)]
  {
    SplitWithoutSeparator(line, '\n');
  }

  /** The secondary reply drafter: the same two-stage draft on the secondary provider. */
  function SecondaryDraftReply(q: Provider, m: Message, now: int): (r: Attempt<ReplyDraft>)
    ensures r.Threw? <==> ComposeDraft(q, m, now).None?
    ensures r.Done? ==> r.value.subject == "Re: " + m.subject
    ensures r.Done? ==> r.value.purpose == Trim(q(PurposeRequest(m)).text)
    ensures r.Done? ==>
      r.value.body == Trim(q(ReplyRequest(r.value.purpose, ClassifyPurpose(r.value.purpose), m)).text)
  {
    match ComposeDraft(q, m, now)
    case Some(d) => Done(d)
    case None => Threw
  }

  /** `draftReply`: the subject is "Re: " + subject on every path. */
  function DraftReply(p: Provider, q: Provider, m: Message, now: int): (r: ReplyDraft)
    ensures r.subject == "Re: " + m.subject && r.timestamp == now
    ensures r == Mistral.DraftReply(p, m, now)
  {
    TwoTier(Done(Mistral.DraftReply(p, m, now)), SecondaryDraftReply(q, m, now), FallbackDraft(m, now))
  }

  /** The primary drafter never throws, so the secondary drafter is unreachable: when the
      primary provider fails, the courtesy draft is returned even though the secondary could
      have drafted a real reply. */
  lemma DraftIgnoresSecondary(p: Provider, q: Provider, m: Message, now: int)
    requires p(PurposeRequest(m)).Failure?
    requires SecondaryDraftReply(q, m, now).Done?
    ensures DraftReply(p, q, m, now).body == CourtesyBody
    ensures DraftReply(p, q, m, now).purpose == FallbackPurpose
  {
  }

  /** The secondary chat answer: the trimmed reply. */
  function SecondaryChatResponse(q: Provider, message: string, subject: string, body: string): (r: Attempt<string>)
    ensures r.Threw? <==> q(ChatRequest(message, subject, body)).Failure?
    ensures r.Done? ==> r.value == Trim(q(ChatRequest(message, subject, body)).text)
  {
    match Ask(q, ChatRequest(message, subject, body))
    case Some(t) => Done(t)
    case None => Threw
  }

  /** `generateChatResponse`. */
  function ChatResponse(p: Provider, q: Provider, message: string, subject: string, body: string): (r: string)
    ensures p(ChatRequest(message, subject, body)).Reply? ==> r == Trim(p(ChatRequest(message, subject, body)).text)
    ensures p(ChatRequest(message, subject, body)).Failure? ==> r == Apology
  {
    TwoTier(Done(Mistral.ChatResponse(p, message, subject, body)),
            SecondaryChatResponse(q, message, subject, body), Apology)
  }

  /** The chat answer does not depend on the secondary provider either. */
  lemma ChatIgnoresSecondary(p: Provider, q1: Provider, q2: Provider, message: string, subject: string, body: string)
    ensures ChatResponse(p, q1, message, subject, body) == ChatResponse(p, q2, message, subject, body)
  {
  }
}
