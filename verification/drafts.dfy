/** The draft lifecycle of controllers/emailController.js: create, update, delete
    (move to trash) and send. */
module Drafts {
  import opened Outcomes
  import opened Text
  import opened EmailModel
  import opened Views
  import opened Mailbox

  /** `createDraft`: a draft from the caller, read and unsent, with `(No subject)`, an empty
      body, no recipients and no parent standing in for falsy inputs. `id` is the fresh id
      the store assigns. */
  function CreateDraft(store: Store, id: Id, userName: string, userEmail: string,
                       subject: Option<string>, body: Option<string>,
                       recipients: Option<seq<Party>>, parentId: Option<Id>, now: int): (s: Store)
    requires id !in store
    ensures s.Keys == store.Keys + {id}
    ensures forall k :: k in store ==> s[k] == store[k]
    ensures s[id].sender == Party(userName, userEmail)
    ensures s[id].isDraft && s[id].read && !s[id].starred && !s[id].archived && !s[id].deleted
    ensures s[id].subject == (if Truthy(subject) then subject.value else "(No subject)")
    ensures s[id].body == (if Truthy(body) then body.value else "")
    ensures s[id].recipients == (if recipients.Some? then recipients.value else [])
    ensures s[id].parentId == parentId && s[id].timestamp == now
    ensures s[id].trashedBy == [] && s[id].permanentlyDeletedBy == [] && s[id].category.None?
    ensures s[id].priority.None? && s[id].draftReply.None? && s[id].actionItems == [] && s[id].labels == []
  {
    var e := NewEmail(Party(userName, userEmail), recipients.GetOr([]),
                      OrElse(subject, "(No subject)"), OrElse(body, ""), now);
    store[id := e.(parentId := parentId, isDraft := true, read := true)]
  }

  /** The checks shared by update and delete: 404, then 403 unless the caller is the
      sender, then 400 unless the record is still a draft. */
  function OwnDraft(store: Store, id: Id, user: string): (r: Result<Email, Failure>)
    ensures r == Err(NotFound) <==> id !in store
    ensures r == Err(Forbidden) <==> id in store && !IsSender(store[id], user)
    ensures r == Err(NotADraft) <==> id in store && IsSender(store[id], user) && !store[id].isDraft
    ensures r.Ok? <==> id in store && IsSender(store[id], user) && store[id].isDraft
    ensures r.Ok? ==> r.value == store[id]
  {
    if id !in store then Err(NotFound)
    else if !IsSender(store[id], user) then Err(Forbidden)
    else if !store[id].isDraft then Err(NotADraft)
    else Ok(store[id])
  }

  /** `updateDraft`: subject and body change only when truthy, recipients whenever an array
      is sent (an empty one too), and `parentId` whenever the key is present, `null` included. */
  function UpdateDraft(store: Store, id: Id, user: string,
                       subject: Option<string>, body: Option<string>,
                       recipients: Option<seq<Party>>, parentId: Field<Option<Id>>): (r: Result<Store, Failure>)
    ensures r.Err? <==> OwnDraft(store, id, user).Err?
    ensures r.Err? ==> r.error == OwnDraft(store, id, user).error
    ensures r.Ok? ==> OnlyRecordChanged(store, r.value, id)
    ensures r.Ok? ==> r.value[id].subject == (if Truthy(subject) then subject.value else store[id].subject)
    ensures r.Ok? ==> r.value[id].body == (if Truthy(body) then body.value else store[id].body)
    ensures r.Ok? ==> r.value[id].recipients == (if recipients.Some? then recipients.value else store[id].recipients)
    ensures r.Ok? ==> r.value[id].parentId == (if parentId.Given? then parentId.value else store[id].parentId)
    ensures r.Ok? ==> r.value[id].(subject := store[id].subject, body := store[id].body,
                                   recipients := store[id].recipients, parentId := store[id].parentId) == store[id]
  {
    match OwnDraft(store, id, user)
    case Err(f) => Err(f)
    case Ok(d) =>
      var d' := d.(subject := OrElse(subject, d.subject),
                   body := OrElse(body, d.body),
                   recipients := recipients.GetOr(d.recipients),
                   parentId := if parentId.Given? then parentId.value else d.parentId);
      Ok(Save(store, id, d'))
  }

  /** An update that supplies nothing leaves the store as it was. */
  lemma EmptyUpdateIsNoOp(store: Store, id: Id, user: string)
    requires OwnDraft(store, id, user).Ok?
    ensures UpdateDraft(store, id, user, None, None, None, Absent) == Ok(store)
  {
    var s := UpdateDraft(store, id, user, None, None, None, Absent).value;
    assert s[id] == store[id];
    assert s == store;
  }

  /** An empty subject cannot clear the subject, yet an empty recipient list does clear the
      recipients: strings and arrays differ in truthiness. */
  lemma EmptyStringKeepsEmptyListClears(store: Store, id: Id, user: string)
    requires OwnDraft(store, id, user).Ok?
    ensures UpdateDraft(store, id, user, Some(""), None, Some([]), Absent).Ok?
    ensures UpdateDraft(store, id, user, Some(""), None, Some([]), Absent).value[id].subject == store[id].subject
    ensures UpdateDraft(store, id, user, Some(""), None, Some([]), Absent).value[id].recipients == []
  {
  }

  /** `deleteDraft`: the draft checks, then the caller joins `trashedBy` once. */
  function DeleteDraft(store: Store, id: Id, user: string): (r: Result<Store, Failure>)
    ensures r.Err? <==> OwnDraft(store, id, user).Err?
    ensures r.Err? ==> r.error == OwnDraft(store, id, user).error
    ensures r.Ok? ==> r == MoveToTrash(store, id, user)
  {
    match OwnDraft(store, id, user)
    case Err(f) => Err(f)
    case Ok(d) => Ok(Save(store, id, d.(trashedBy := AddOnce(d.trashedBy, user))))
  }

  /** `sendDraft`: 404, then 403 unless the caller is the sender; `isDraft` is not checked.
      The record stops being a draft and is re-stamped `now`; nothing else changes. */
  function SendDraft(store: Store, id: Id, user: string, now: int): (r: Result<Store, Failure>)
    ensures id !in store <==> r == Err(NotFound)
    ensures id in store && !IsSender(store[id], user) <==> r == Err(Forbidden)
    ensures r.Ok? <==> id in store && IsSender(store[id], user)
    ensures r.Ok? ==> OnlyRecordChanged(store, r.value, id)
    ensures r.Ok? ==> !r.value[id].isDraft && r.value[id].timestamp == now
    ensures r.Ok? ==> r.value[id].(isDraft := store[id].isDraft, timestamp := store[id].timestamp) == store[id]
  {
    if id !in store then Err(NotFound)
    else if !IsSender(store[id], user) then Err(Forbidden)
    else Ok(Save(store, id, store[id].(isDraft := false, timestamp := now)))
  }

  /** Because `isDraft` is not checked, "sending" an email that was already sent succeeds
      and only moves its timestamp. */
  lemma ResendOnlyRestamps(store: Store, id: Id, user: string, now: int)
    requires id in store && IsSender(store[id], user) && !store[id].isDraft
    ensures SendDraft(store, id, user, now) == Ok(store[id := store[id].(timestamp := now)])
  {
  }

  /** After sending, the record is in the sender's Sent view and in the inbox of every
      recipient who has not archived, trashed or permanently deleted it. */
  lemma SentIsDelivered(store: Store, id: Id, user: string, now: int, recipient: string)
    requires SendDraft(store, id, user, now).Ok?
    requires Kept(store[id], user)
    requires IsRecipient(store[id], recipient) && Kept(store[id], recipient) && !store[id].archived
    ensures id in ViewIds(SendDraft(store, id, user, now).value, Sent(None), user)
    ensures id in ViewIds(SendDraft(store, id, user, now).value, Inbox, recipient)
  {
    var e := SendDraft(store, id, user, now).value[id];
    assert e.recipients == store[id].recipients && e.trashedBy == store[id].trashedBy;
  }

  /** A new draft is in its author's Drafts view and in no inbox; once sent it is in the
      author's Sent view and each recipient's inbox. */
  lemma CreateThenSend(store: Store, id: Id, name: string, author: string,
                       to: Party, subject: Option<string>, body: Option<string>, t0: int, t1: int)
    requires id !in store
    ensures var s1 := CreateDraft(store, id, name, author, subject, body, Some([to]), None, t0);
      && id in ViewIds(s1, Drafts(None), author)
      && id !in ViewIds(s1, Inbox, to.email)
      && SendDraft(s1, id, author, t1).Ok?
      && id in ViewIds(SendDraft(s1, id, author, t1).value, Sent(None), author)
      && id in ViewIds(SendDraft(s1, id, author, t1).value, Inbox, to.email)
  {
    var s1 := CreateDraft(store, id, name, author, subject, body, Some([to]), None, t0);
    assert s1[id].recipients[0].email == to.email;
    SentIsDelivered(s1, id, author, t1, to.email);
  }
}
