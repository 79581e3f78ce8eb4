/** The mailbox views of controllers/emailController.js: each query filter is a
    predicate over one record and the calling user's address. */
module Views {
  import opened Outcomes
  import opened EmailModel

  /** The folders a user can list. `Sent` and `Drafts` carry the optional `parentId`
      query parameter; `None` stands for a missing or empty parameter. */
  datatype View =
    | Inbox
    | Sent(parent: Option<Id>)
    | Drafts(parent: Option<Id>)
    | Trash
    | Starred
    | NewsletterView
    | SpamView
    | TodoView

  /** Neither trashed nor permanently deleted by the user (`trashedBy: {$ne: u}`,
      `permanentlyDeletedBy: {$ne: u}`). */
  predicate Kept(e: Email, user: string) {
    user !in e.trashedBy && user !in e.permanentlyDeletedBy
  }

  /** The optional `parentId` filter, added only when a parent is supplied. */
  predicate ParentMatches(e: Email, parent: Option<Id>) {
    parent.Some? ==> e.parentId == parent
  }

  /** Membership of one record in one view for one user. Every folder lists only records
      the user is a party to and has not permanently deleted, and among those the trash
      holds exactly the ones the user has trashed. */
  predicate InView(v: View, e: Email, user: string)
    ensures InView(v, e, user) ==> IsParty(e, user) && user !in e.permanentlyDeletedBy
    ensures InView(v, e, user) ==> (v == Trash <==> user in e.trashedBy)
  {
    match v
    case Inbox => IsRecipient(e, user) && Kept(e, user) && !e.archived && !e.isDraft
    case Sent(p) => IsSender(e, user) && Kept(e, user) && !e.isDraft && ParentMatches(e, p)
    case Drafts(p) => IsSender(e, user) && e.isDraft && Kept(e, user) && ParentMatches(e, p)
    case Trash => IsParty(e, user) && user in e.trashedBy && user !in e.permanentlyDeletedBy
    case Starred => IsParty(e, user) && e.starred && Kept(e, user)
    case NewsletterView => IsParty(e, user) && e.category == Some(Newsletter) && Kept(e, user)
    case SpamView => IsParty(e, user) && e.category == Some(Spam) && Kept(e, user)
    case TodoView => IsParty(e, user) && e.category == Some(ToDo) && Kept(e, user)
  }

  /** The ids a view lists (the order by timestamp is not modelled). */
  function ViewIds(store: Store, v: View, user: string): (ids: set<Id>)
    ensures forall k :: k in ids <==> k in store && InView(v, store[k], user)
  {
    set k | k in store && InView(v, store[k], user)
  }

  /** The inbox lists an email iff the user is a recipient, it is neither a draft nor
      archived, and the user has neither trashed nor permanently deleted it. */
  lemma InboxIff(e: Email, user: string)
    ensures InView(Inbox, e, user) <==>
      && (exists i :: 0 <= i < |e.recipients| && e.recipients[i].email == user)
      && !e.isDraft && !e.archived
      && user !in e.trashedBy && user !in e.permanentlyDeletedBy
  {
  }

  /** A record is in at most one of the
      newsletter, spam and to-do folders, while starring is independent of them and of the
      inbox, so a starred email a user received is listed both as starred and in the inbox. */
  lemma FolderOverlaps(e: Email, user: string)
    ensures !(InView(NewsletterView, e, user) && InView(SpamView, e, user))
    ensures !(InView(NewsletterView, e, user) && InView(TodoView, e, user))
    ensures !(InView(SpamView, e, user) && InView(TodoView, e, user))
    ensures InView(Inbox, e, user) && e.starred ==> InView(Starred, e, user)
    ensures InView(Starred, e, user) && IsRecipient(e, user) && !e.archived && !e.isDraft ==>
      InView(Inbox, e, user)
  {
  }

  /** Every view requires standing and no permanent deletion by the user. */
  lemma ViewNeedsAccess(v: View, e: Email, user: string)
    requires InView(v, e, user)
    ensures IsParty(e, user) && user !in e.permanentlyDeletedBy
  {
  }

  /** Trash is exclusive: an email in a user's trash is in none of that user's other views. */
  lemma TrashExcludesOtherViews(v: View, e: Email, user: string)
    requires v != Trash
    ensures !(InView(Trash, e, user) && InView(v, e, user))
  {
  }

  /** Sent and Drafts never share an email, whatever parent filters are used. */
  lemma SentAndDraftsDisjoint(p: Option<Id>, q: Option<Id>, e: Email, user: string)
    ensures !(InView(Sent(p), e, user) && InView(Drafts(q), e, user))
  {
  }

  /** The parent filter only narrows: a view with a parent lists a subset of the one without. */
  lemma ParentFilterNarrows(store: Store, p: Id, user: string)
    ensures ViewIds(store, Sent(Some(p)), user) <= ViewIds(store, Sent(None), user)
    ensures ViewIds(store, Drafts(Some(p)), user) <= ViewIds(store, Drafts(None), user)
  {
  }

  /** Thread membership as written: `_id` is the anchor, `parentId` is the anchor, `_id` is
      the anchor's parent, or `parentId` equals the anchor's parent. When the anchor has no
      parent the last clause is the query `{parentId: null}`, which also matches every other
      record without a parent; the `deleted` flag excludes. */
  predicate InThreadAsWritten(k: Id, e: Email, anchorId: Id, anchor: Email)
    ensures InThreadAsWritten(k, e, anchorId, anchor) ==> !e.deleted
    ensures anchor.parentId.None? && e.parentId.None? && !e.deleted ==>
      InThreadAsWritten(k, e, anchorId, anchor)
  {
    && (|| k == anchorId
        || e.parentId == Some(anchorId)
        || Some(k) == anchor.parentId
        || e.parentId == anchor.parentId)
    && !e.deleted
  }

  /** Thread membership as intended: the parent clauses apply only when the anchor has a parent. */
  predicate InThread(k: Id, e: Email, anchorId: Id, anchor: Email) {
    && (|| k == anchorId
        || e.parentId == Some(anchorId)
        || (anchor.parentId.Some? && (Some(k) == anchor.parentId || e.parentId == anchor.parentId)))
    && !e.deleted
  }

  /** `getEmailThread`: 404 when the anchor is missing; no sender/recipient check is made. */
  function ThreadIds(store: Store, anchorId: Id): (r: Result<set<Id>, Failure>)
    ensures anchorId !in store <==> r == Err(NotFound)
    ensures r.Ok? ==> forall k :: k in r.value <==>
      k in store && InThread(k, store[k], anchorId, store[anchorId])
    ensures r.Ok? && !store[anchorId].deleted ==> anchorId in r.value
  {
    if anchorId !in store then Err(NotFound)
    else Ok(set k | k in store && InThread(k, store[k], anchorId, store[anchorId]))
  }

  /** As written, an unrelated root email, even one between two other users, joins the
      thread of any root email. */
  lemma ThreadLeaksUnrelatedRoots(anchor: Email, other: Email)
    requires anchor.parentId.None? && other.parentId.None? && !other.deleted
    ensures InThreadAsWritten(2, other, 1, anchor)
    ensures !InThread(2, other, 1, anchor)
  {
  }

  /** A new record without a parent joins no corrected thread except its own. */
  lemma NewRootIsNotThreaded(store: Store, anchorId: Id, k: Id, e: Email)
    requires anchorId in store && k !in store
    requires e.parentId.None? && store[anchorId].parentId != Some(k)
    ensures ThreadIds(store[k := e], anchorId).Ok?
    ensures k !in ThreadIds(store[k := e], anchorId).value
  {
    assert store[k := e][anchorId] == store[anchorId];
  }

  /** Every member of a corrected thread is linked to the anchor by a real parent edge:
      it is the anchor, a reply to it, its parent, or a sibling under the same parent. */
  lemma ThreadMembersAreLinked(k: Id, e: Email, anchorId: Id, anchor: Email)
    requires InThread(k, e, anchorId, anchor)
    ensures || k == anchorId
            || e.parentId == Some(anchorId)
            || (anchor.parentId.Some? && Some(k) == anchor.parentId)
            || (e.parentId.Some? && e.parentId == anchor.parentId)
  {
  }

  /** The correction only removes members: the corrected thread is part of the written one,
      and the two agree whenever the anchor has a parent. */
  lemma ThreadCorrectionOnlyRemoves(k: Id, e: Email, anchorId: Id, anchor: Email)
    ensures InThread(k, e, anchorId, anchor) ==> InThreadAsWritten(k, e, anchorId, anchor)
    ensures anchor.parentId.Some? ==>
      (InThread(k, e, anchorId, anchor) <==> InThreadAsWritten(k, e, anchorId, anchor))
  {
  }
}
