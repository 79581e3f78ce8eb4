/** What the two AI services share: the abstract provider, the parsed result shapes, the
    fixed fallback values, the purpose table of the reply drafter, and the two ways of
    turning a reply into action items. A provider is a function from a request to an
    outcome; the request stands for the prompt, whose wording is not modelled. */
module Ai {
  import opened Outcomes
  import opened Text
  import opened EmailModel

  /** The parts of an email that prompts quote. */
  datatype Message = Message(senderName: string, senderEmail: string, subject: string, body: string)

  /** The prompt content of a stored record. */
  function AsMessage(e: Email): Message {
    Message(e.sender.name, e.sender.email, e.subject, e.body)
  }

  /** The instruction the reply drafter attaches for a recognised purpose, or the generic one. */
  datatype Instruction =
    | MeetingScheduling | Confirmation | Clarification | InformationSharing | RequestReply | FollowUp
    | Generic

  /** One call to a language model, identified by what its prompt carries. */
  datatype Request =
    | SummarizeRequest(m: Message)
    | CategorizeRequest(m: Message)
    | StructuredActionsRequest(body: string)
    | SimpleActionsRequest(body: string)
    | PurposeRequest(m: Message)
    | ReplyRequest(purpose: string, instruction: Instruction, m: Message)
    | ChatRequest(message: string, subject: string, body: string)

  /** The outcome of a call: the reply text, or an exception (network, quota, SDK error). */
  datatype Call = Reply(text: string) | Failure

  /** A language-model backend. */
  type Provider = Request -> Call

  /** What an awaited service method produced: a value, or a thrown exception. */
  datatype Attempt<+T> = Done(value: T) | Threw

  /** A summary object. */
  datatype Summary = Summary(summary: string, keyPoints: seq<string>)

  /** A generated reply draft. */
  datatype ReplyDraft = ReplyDraft(subject: string, body: string, timestamp: int, purpose: string)

  /** The summary returned when the model's reply is not JSON. */
  const CouldNotParse := Summary("Email summary could not be parsed.",
                                 ["Error occurred while processing the email summary."])

  /** The summary returned when both providers fail. */
  const NeedsAttention := Summary("This email requires your attention.",
                                  ["Email content processed.", "Please review manually."])

  /** The category used when categorisation fails. */
  const DefaultCategory := "To-Do"

  /** The reply body and purpose used when drafting fails. */
  const CourtesyBody := "Thank you for your email."
  const FallbackPurpose := "General"

  /** The chat answer used when the chat call fails. */
  const Apology := "I'm sorry, I'm having trouble processing your request right now."

  /** The trimmed reply text, or `None` when the call threw. */
  function Ask(p: Provider, req: Request): (r: Option<string>)
    ensures r.None? <==> p(req).Failure?
    ensures r.Some? ==> r.value == Trim(p(req).text)
  {
    match p(req)
    case Reply(t) => Some(Trim(t))
    case Failure => None
  }

  /** The lower-case label a recognised instruction is chosen by. */
  function Label(i: Instruction): string {
    match i
    case MeetingScheduling => "meeting scheduling"
    case Confirmation => "confirmation"
    case Clarification => "clarification"
    case InformationSharing => "information sharing"
    case RequestReply => "request"
    case FollowUp => "follow-up"
    case Generic => ""
  }

  /** The `switch (emailPurpose.toLowerCase())` table: one of six labels, compared after
      lower-casing, or the generic instruction for any other text ("Other" included). */
  function ClassifyPurpose(purpose: string): (i: Instruction)
    ensures i != Generic ==> Lower(purpose) == Label(i)
    ensures i == Generic <==> forall j: Instruction :: j != Generic ==> Lower(purpose) != Label(j)
  {
    var p := Lower(purpose);
    if p == "meeting scheduling" then MeetingScheduling
    else if p == "confirmation" then Confirmation
    else if p == "clarification" then Clarification
    else if p == "information sharing" then InformationSharing
    else if p == "request" then RequestReply
    else if p == "follow-up" then FollowUp
    else Generic
  }

  /** The table ignores case: a purpose and its lower-cased form get the same instruction. */
  lemma ClassifyIgnoresCase(purpose: string)
    ensures ClassifyPurpose(purpose) == ClassifyPurpose(Lower(purpose))
  {
    LowerIdempotent(purpose);
  }

  /** Purposes differing only in the case of their letters get the same instruction. */
  lemma ClassifySameLetters(p: string, q: string)
    requires Lower(p) == Lower(q)
    ensures ClassifyPurpose(p) == ClassifyPurpose(q)
  {
  }

  /** The model's own spellings are recognised; "Other" is not a label and falls through. */
  lemma ClassifyExamples()
    ensures ClassifyPurpose("Meeting scheduling") == MeetingScheduling
    ensures ClassifyPurpose("FOLLOW-UP") == FollowUp
    ensures ClassifyPurpose("Other") == Generic
  {
    assert Lower("Meeting scheduling") == "meeting scheduling";
    assert Lower("FOLLOW-UP") == "follow-up";
    assert Lower("Other")[0] == 'o';
  }

  /** The two-stage reply: ask for the purpose, pick the instruction for it, ask for the
      body. `None` when either call throws. The subject is always "Re: " + subject. */
  function ComposeDraft(p: Provider, m: Message, now: int): (r: Option<ReplyDraft>)
    ensures r.Some? ==> r.value.subject == "Re: " + m.subject && r.value.timestamp == now
    ensures r.Some? <==>
      && p(PurposeRequest(m)).Reply?
      && p(ReplyRequest(Trim(p(PurposeRequest(m)).text),
                        ClassifyPurpose(Trim(p(PurposeRequest(m)).text)), m)).Reply?
    ensures r.Some? ==> r.value.purpose == Trim(p(PurposeRequest(m)).text)
    ensures r.Some? ==>
      r.value.body == Trim(p(ReplyRequest(r.value.purpose, ClassifyPurpose(r.value.purpose), m)).text)
  {
    match p(PurposeRequest(m))
    case Failure => None
    case Reply(t) =>
      var purpose := Trim(t);
      match p(ReplyRequest(purpose, ClassifyPurpose(purpose), m))
      case Failure => None
      case Reply(b) => Some(ReplyDraft("Re: " + m.subject, Trim(b), now, purpose))
  }

  /** The draft used when drafting fails. */
  function FallbackDraft(m: Message, now: int): (d: ReplyDraft)
    ensures d.subject == "Re: " + m.subject && d.body == CourtesyBody && d.purpose == FallbackPurpose
  {
    ReplyDraft("Re: " + m.subject, CourtesyBody, now, FallbackPurpose)
  }

  /** The structured extraction shared by both services: `JSON.parse` of the greedy
      `{ … }` span of the trimmed reply; a parsed object becomes the only item, with
      `completed` forced to false; anything unparsable yields no items. */
  function StructuredItems(reply: string, parse: string -> Option<ItemFields>): (items: seq<ActionItem>)
    ensures |items| <= 1
    ensures |items| == 1 <==> parse(JsonCandidate(Trim(reply))).Some?
    ensures |items| == 1 ==> items[0].fields == parse(JsonCandidate(Trim(reply))).value
    ensures forall i :: 0 <= i < |items| ==> !items[i].completed
  {
    match parse(JsonCandidate(Trim(reply)))
    case Some(f) => [NewActionItem(f)]
    case None => []
  }

  /** The structured extractor as a service call: a thrown call is rethrown. */
  function StructuredExtraction(p: Provider, parse: string -> Option<ItemFields>, body: string): (r: Attempt<seq<ActionItem>>)
    ensures r.Threw? <==> p(StructuredActionsRequest(body)).Failure?
    ensures r.Done? ==> r.value == StructuredItems(p(StructuredActionsRequest(body)).text, parse)
  {
    match p(StructuredActionsRequest(body))
    case Failure => Threw
    case Reply(t) => Done(StructuredItems(t, parse))
  }

  /** No line contains a line feed. */
  predicate SingleLines(lines: seq<string>) {
    forall i :: 0 <= i < |lines| ==> '\n' !in lines[i]
  }

  /** Every line is non-empty and its own trim. */
  predicate Trimmed(lines: seq<string>) {
    forall i :: 0 <= i < |lines| ==> lines[i] != "" && Trim(lines[i]) == lines[i]
  }

  /** Both properties of lines survive concatenation. */
  lemma ConcatLines(a: seq<string>, b: seq<string>)
    requires Trimmed(a) && Trimmed(b)
    ensures Trimmed(a + b)
    ensures SingleLines(a) && SingleLines(b) ==> SingleLines(a + b)
  {
    forall i | 0 <= i < |a + b| ensures (a + b)[i] == (if i < |a| then a[i] else b[i - |a|]) {
    }
  }

  /** The trimmed lines whose trim is not empty, in order. */
  function NonBlankLines(lines: seq<string>): (r: seq<string>)
    ensures |r| <= |lines|
    ensures |lines| == 0 ==> r == []
    ensures |lines| == 1 ==> r == (if Trim(lines[0]) == "" then [] else [Trim(lines[0])])
    ensures Trimmed(r)
    ensures SingleLines(lines) ==> SingleLines(r)
  {
    if |lines| == 0 then []
    else
      var t := Trim(lines[0]);
      TrimIdempotent(lines[0]);
      var head := if t == "" then [] else [t];
      var rest := NonBlankLines(lines[1..]);
      SingleLinesSplit(lines, head);
      ConcatLines(head, rest);
      assert |lines| == 1 ==> rest == [] by { if |lines| == 1 { assert |lines[1..]| == 0; } }
      head + rest
  }

  /** A line-feed-free list keeps that property in its tail and in the trimmed first line. */
  lemma SingleLinesSplit(lines: seq<string>, head: seq<string>)
    requires |lines| > 0
    requires head == [] || head == [Trim(lines[0])]
    ensures SingleLines(lines) ==> SingleLines(lines[1..]) && SingleLines(head)
  {
    if SingleLines(lines) {
      assert forall i :: 0 <= i < |lines[1..]| ==> lines[1..][i] == lines[i + 1];
      assert '\n' !in lines[0];
    }
  }

  /** What one line contributes: its trim, unless that is empty. */
  function LineKept(line: string): seq<string> {
    if Trim(line) == "" then [] else [Trim(line)]
  }

  /** The first line contributes what `LineKept` says, ahead of the rest. */
  lemma NonBlankHead(lines: seq<string>)
    requires |lines| > 0
    ensures NonBlankLines(lines) == LineKept(lines[0]) + NonBlankLines(lines[1..])
  {
  }

  /** Filtering lines distributes over concatenation, so each line contributes on its own. */
  lemma {:induction false} NonBlankLinesAppend(a: seq<string>, b: seq<string>)
    ensures NonBlankLines(a + b) == NonBlankLines(a) + NonBlankLines(b)
  {
    if |a| > 0 {
      assert (a + b)[0] == a[0];
      assert (a + b)[1..] == a[1..] + b;
      NonBlankLinesAppend(a[1..], b);
      NonBlankHead(a);
      NonBlankHead(a + b);
      var h, x, y := LineKept(a[0]), NonBlankLines(a[1..]), NonBlankLines(b);
      assert h + (x + y) == (h + x) + y;
    } else {
      assert a + b == b;
    }
  }

  /** `content.split('\n').map(trim).filter(non-empty)`. */
  function ActionLines(text: string): seq<string> {
    NonBlankLines(Split(text, '\n'))
  }

  /** `extractSimpleActionItems` on a reply: one item per non-blank line, in order, holding
      only the trimmed line as `action_required` and `completed` false. */
  function SimpleItems(text: string): (items: seq<ActionItem>)
    ensures |items| == |ActionLines(text)|
    ensures forall i :: 0 <= i < |items| ==>
      items[i] == ActionItem(ItemFields(Some(ActionLines(text)[i]), None, None, None), false)
  {
    var lines := ActionLines(text);
    seq(|lines|, i requires 0 <= i < |lines| => ActionItem(ItemFields(Some(lines[i]), None, None, None), false))
  }

  /** Every simple item names a non-empty, trimmed, single-line action and is not completed. */
  lemma SimpleItemsWellFormed(text: string, i: nat)
    requires i < |SimpleItems(text)|
    ensures var a := SimpleItems(text)[i];
      && !a.completed && a.fields.actionRequired.Some?
      && a.fields.actionRequired.value != "" && Trim(a.fields.actionRequired.value) == a.fields.actionRequired.value
      && '\n' !in a.fields.actionRequired.value
  {
    assert SingleLines(Split(text, '\n'));
  }

  /** Five lines, two of them blank, give exactly three items: the other three lines,
      trimmed, in order, none completed. */
  lemma ThreeActionsTwoBlankLines(lines: seq<string>)
    requires |lines| == 5
    requires forall i :: 0 <= i < 5 ==> '\n' !in lines[i]
    requires Trim(lines[1]) == "" && Trim(lines[3]) == ""
    requires Trim(lines[0]) != "" && Trim(lines[2]) != "" && Trim(lines[4]) != ""
    ensures |SimpleItems(Join(lines, '\n'))| == 3
    ensures ActionLines(Join(lines, '\n')) == [Trim(lines[0]), Trim(lines[2]), Trim(lines[4])]
    ensures forall i :: 0 <= i < 3 ==> !SimpleItems(Join(lines, '\n'))[i].completed
  {
    SplitJoin(lines, '\n');
    TwoOfFiveBlank(lines);
  }

  /** The filtering step of the example above, on the lines themselves. */
  lemma TwoOfFiveBlank(l: seq<string>)
    requires |l| == 5
    requires Trim(l[1]) == "" && Trim(l[3]) == ""
    requires Trim(l[0]) != "" && Trim(l[2]) != "" && Trim(l[4]) != ""
    ensures NonBlankLines(l) == [Trim(l[0]), Trim(l[2]), Trim(l[4])]
  {
    FromLineOne(l);
    KeepLine(l, 0);
    assert l[0..] == l;
  }

  /** From the second line on, the example keeps the third and fifth lines. */
  lemma FromLineOne(l: seq<string>)
    requires |l| == 5
    requires Trim(l[1]) == "" && Trim(l[3]) == ""
    requires Trim(l[2]) != "" && Trim(l[4]) != ""
    ensures NonBlankLines(l[1..]) == [Trim(l[2]), Trim(l[4])]
  {
    FromLineThree(l);
    KeepLine(l, 2);
    DropBlank(l, 1);
  }

  /** From the fourth line on, the example keeps only the fifth line. */
  lemma FromLineThree(l: seq<string>)
    requires |l| == 5
    requires Trim(l[3]) == "" && Trim(l[4]) != ""
    ensures NonBlankLines(l[3..]) == [Trim(l[4])]
  {
    KeepLine(l, 4);
    assert NonBlankLines(l[5..]) == [];
    DropBlank(l, 3);
  }

  /** A blank line contributes nothing. */
  lemma DropBlank(lines: seq<string>, i: nat)
    requires i < |lines| && Trim(lines[i]) == ""
    ensures NonBlankLines(lines[i..]) == NonBlankLines(lines[i + 1..])
  {
    NonBlankDrop(lines, i);
  }

  /** A non-blank line contributes its trim, ahead of the lines after it. */
  lemma KeepLine(lines: seq<string>, i: nat)
    requires i < |lines| && Trim(lines[i]) != ""
    ensures NonBlankLines(lines[i..]) == [Trim(lines[i])] + NonBlankLines(lines[i + 1..])
  {
    NonBlankDrop(lines, i);
  }

  /** The line at `i` contributes its own trim, when not empty, before the lines after it. */
  lemma NonBlankDrop(lines: seq<string>, i: nat)
    requires i < |lines|
    ensures NonBlankLines(lines[i..]) ==
      (if Trim(lines[i]) == "" then [] else [Trim(lines[i])]) + NonBlankLines(lines[i + 1..])
  {
    assert lines[i..][0] == lines[i] && lines[i..][1..] == lines[i + 1..];
  }

  /** A reply split at a line break yields the items of each part, concatenated. */
  lemma SimpleItemsSplitAtLineBreak(a: string, b: string)
    ensures ActionLines(a + Char('\n') + b) == ActionLines(a) + ActionLines(b)
  {
    SplitAround(a, b, '\n');
    NonBlankLinesAppend(Split(a, '\n'), Split(b, '\n'));
  }
}
