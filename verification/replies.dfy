/** The AI endpoints of controllers/emailController.js that touch stored records or post-process
    service output: the `completed` normalisation of action items, saving action items, and
    creating a reply draft from a generated reply. */
module Replies {
  import opened Outcomes
  import opened Text
  import opened EmailModel
  import opened Views
  import opened Ai
  import AiService
  import Mistral

  /** An action item as it arrives in JSON: `completed` may be missing (`None`). */
  datatype ParsedItem = ParsedItem(fields: ItemFields, completed: Option<bool>)

  /** The shape of a stored item before normalisation. */
  function AsParsed(a: ActionItem): ParsedItem {
    ParsedItem(a.fields, Some(a.completed))
  }

  /** `completed: item.completed !== undefined ? item.completed : false`, item by item. */
  function NormalizeCompleted(items: seq<ParsedItem>): (r: seq<ActionItem>)
    ensures |r| == |items|
    ensures forall i :: 0 <= i < |r| ==> r[i].fields == items[i].fields
    ensures forall i :: 0 <= i < |r| ==> (r[i].completed <==> items[i].completed == Some(true))
  {
    seq(|items|, i requires 0 <= i < |items| => ActionItem(items[i].fields, items[i].completed.GetOr(false)))
  }

  /** Normalisation keeps every item that already says whether it is completed: it undoes
      `AsParsed`. */
  lemma NormalizeKeepsExplicit(items: seq<ActionItem>)
    ensures NormalizeCompleted(seq(|items|, i requires 0 <= i < |items| => AsParsed(items[i]))) == items
  {
  }

  /** The `extractActionItems` endpoint: the service's items, normalised. */
  function ExtractEndpoint(p: Provider, q: Provider, parse: string -> Option<ItemFields>, body: string): (r: seq<ActionItem>)
    ensures |r| == |AiService.ExtractActionItems(p, q, parse, body)|
    ensures forall i :: 0 <= i < |r| ==> !r[i].completed
  {
    var items := AiService.ExtractActionItems(p, q, parse, body);
    NormalizeCompleted(seq(|items|, i requires 0 <= i < |items| => AsParsed(items[i])))
  }

  /** The service already sets `completed` to false, so the endpoint returns its items as they are. */
  lemma ExtractEndpointIsServiceOutput(p: Provider, q: Provider, parse: string -> Option<ItemFields>, body: string)
    ensures ExtractEndpoint(p, q, parse, body) == AiService.ExtractActionItems(p, q, parse, body)
  {
    NormalizeKeepsExplicit(AiService.ExtractActionItems(p, q, parse, body));
  }

  /** The `extractSimpleActionItems` endpoint calls the primary service directly: a thrown
      call becomes an error response (`Threw`) instead of falling back. */
  function SimpleExtractEndpoint(p: Provider, body: string): (r: Attempt<seq<ActionItem>>)
    ensures r.Threw? <==> p(SimpleActionsRequest(body)).Failure?
    ensures r.Done? ==> r.value == SimpleItems(p(SimpleActionsRequest(body)).text)
  {
    match Mistral.ExtractSimpleActionItems(p, body)
    case Threw => Threw
    case Done(items) =>
      NormalizeKeepsExplicit(items);
      Done(NormalizeCompleted(seq(|items|, i requires 0 <= i < |items| => AsParsed(items[i]))))
  }

  /** When the primary provider fails, the simple endpoint answers with an error while the
      general endpoint still answers with the secondary's items. */
  lemma SimpleEndpointHasNoFallback(p: Provider, q: Provider, parse: string -> Option<ItemFields>, body: string)
    requires p(SimpleActionsRequest(body)).Failure?
    ensures SimpleExtractEndpoint(p, body).Threw?
    ensures ExtractEndpoint(p, q, parse, body) ==
      (if q(StructuredActionsRequest(body)).Reply? then StructuredItems(q(StructuredActionsRequest(body)).text, parse) else [])
  {
    ExtractEndpointIsServiceOutput(p, q, parse, body);
  }

  /** `saveActionItems`: the normalised items replace the record's items. Only existence is
      checked: no sender or recipient check is made. */
  function SaveActionItems(store: Store, id: Id, items: seq<ParsedItem>): (r: Result<Store, Failure>)
    ensures r.Err? <==> id !in store
    ensures r.Err? ==> r.error == NotFound
    ensures r.Ok? ==> r.value.Keys == store.Keys
    ensures r.Ok? ==> forall k :: k in store && k != id ==> r.value[k] == store[k]
    ensures r.Ok? ==> r.value[id].actionItems == NormalizeCompleted(items)
    ensures r.Ok? ==> r.value[id].(actionItems := store[id].actionItems) == store[id]
  {
    if id !in store then Err(NotFound)
    else Ok(store[id := store[id].(actionItems := NormalizeCompleted(items))])
  }

  /** Items that state `completed` are stored exactly as sent. */
  lemma SaveThenRead(store: Store, id: Id, items: seq<ActionItem>)
    requires id in store
    ensures SaveActionItems(store, id, seq(|items|, i requires 0 <= i < |items| => AsParsed(items[i]))).Ok?
    ensures SaveActionItems(store, id, seq(|items|, i requires 0 <= i < |items| => AsParsed(items[i]))).value[id].actionItems == items
  {
    NormalizeKeepsExplicit(items);
  }

  /** Any caller, a party to the email or not, can overwrite its action items. */
  lemma SaveActionItemsNeedsNoAccess(store: Store, id: Id, items: seq<ParsedItem>, user: string)
    requires id in store && !IsParty(store[id], user)
    ensures SaveActionItems(store, id, items).Ok?
  {
  }

  /** `createReplyDraft` and `createIntelligentDraft`: a generated reply stored as a new read
      draft from the caller to the original's sender. Only the original's existence is
      checked. `newId` is the id the store assigns. */
  function CreateReplyDraft(store: Store, id: Id, newId: Id, userName: string, userEmail: string,
                            p: Provider, q: Provider, now: int): (r: Result<Store, Failure>)
    requires newId !in store
    ensures r.Err? <==> id !in store
    ensures r.Err? ==> r.error == NotFound
    ensures r.Ok? ==> r.value.Keys == store.Keys + {newId}
    ensures r.Ok? ==> forall k :: k in store ==> r.value[k] == store[k]
    ensures r.Ok? ==> r.value[newId].sender == Party(userName, userEmail)
    ensures r.Ok? ==> r.value[newId].recipients == [store[id].sender]
    ensures r.Ok? ==> r.value[newId].subject == "Re: " + store[id].subject
    ensures r.Ok? ==> r.value[newId].body == AiService.DraftReply(p, q, AsMessage(store[id]), now).body
    ensures r.Ok? ==> r.value[newId].isDraft && r.value[newId].read && r.value[newId].parentId.None?
    ensures r.Ok? ==> r.value[newId].timestamp == now
    ensures r.Ok? ==> !r.value[newId].starred && !r.value[newId].archived && !r.value[newId].deleted
    ensures r.Ok? ==> r.value[newId].category.None? && r.value[newId].priority.None?
    ensures r.Ok? ==> r.value[newId].draftReply.None? && r.value[newId].actionItems == [] && r.value[newId].labels == []
    ensures r.Ok? ==> r.value[newId].trashedBy == [] && r.value[newId].permanentlyDeletedBy == []
  {
    if id !in store then Err(NotFound)
    else
      var original := store[id];
      var d := AiService.DraftReply(p, q, AsMessage(original), now);
      var e := NewEmail(Party(userName, userEmail), [original.sender], d.subject, d.body, now);
      Ok(store[newId := e.(isDraft := true, read := true)])
  }

  /** The reply draft is in its author's Drafts view, and in nobody's inbox until it is sent. */
  lemma ReplyDraftIsAuthorsDraft(store: Store, id: Id, newId: Id, userName: string, userEmail: string,
                                 p: Provider, q: Provider, now: int, reader: string)
    requires newId !in store && id in store
    ensures var s := CreateReplyDraft(store, id, newId, userName, userEmail, p, q, now).value;
      && newId in ViewIds(s, Drafts(None), userEmail)
      && newId !in ViewIds(s, Inbox, reader)
  {
    var d := CreateReplyDraft(store, id, newId, userName, userEmail, p, q, now).value[newId];
    FreshDraftViews(d, userEmail, reader);
  }

  /** An untrashed draft is in its sender's Drafts view and in no inbox. */
  lemma FreshDraftViews(d: Email, sender: string, reader: string)
    requires d.isDraft && d.sender.email == sender
    requires d.trashedBy == [] && d.permanentlyDeletedBy == []
    ensures InView(Drafts(None), d, sender) && !InView(Inbox, d, reader)
  {
  }

  /** The reply draft carries no `parentId`, so the corrected thread of the original does not
      include it. */
  lemma ReplyDraftIsNotThreaded(store: Store, id: Id, newId: Id, userName: string, userEmail: string,
                                p: Provider, q: Provider, now: int)
    requires newId !in store && id in store
    requires store[id].parentId != Some(newId)
    ensures var s := CreateReplyDraft(store, id, newId, userName, userEmail, p, q, now).value;
      ThreadIds(s, id).Ok? && newId !in ThreadIds(s, id).value
  {
    var s := CreateReplyDraft(store, id, newId, userName, userEmail, p, q, now).value;
    assert s == store[newId := s[newId]];
    NewRootIsNotThreaded(store, id, newId, s[newId]);
  }

  /** Anyone can have a reply drafted to any stored email, including emails they are not a
      party to, and the generated body is derived from that email. */
  lemma ReplyDraftNeedsNoAccess(store: Store, id: Id, newId: Id, userName: string, userEmail: string,
                                p: Provider, q: Provider, now: int)
    requires newId !in store && id in store && !IsParty(store[id], userEmail)
    ensures CreateReplyDraft(store, id, newId, userName, userEmail, p, q, now).Ok?
  {
  }
}
