/** The per-record transitions of controllers/emailController.js: every one looks the
    record up (404 when missing), checks that the caller is sender or recipient (403),
    and only then changes one field. */
module Mailbox {
  import opened Outcomes
  import opened EmailModel
  import opened Views

  /** The shared gate: 404 for a missing record, 403 for a caller without standing. */
  function Authorize(store: Store, id: Id, user: string): (r: Result<Email, Failure>)
    ensures r == Err(NotFound) <==> id !in store
    ensures r == Err(Forbidden) <==> id in store && !IsParty(store[id], user)
    ensures r.Ok? <==> id in store && IsParty(store[id], user)
    ensures r.Ok? ==> r.value == store[id]
  {
    if id !in store then Err(NotFound)
    else if !IsParty(store[id], user) then Err(Forbidden)
    else Ok(store[id])
  }

  /** `getEmailById`: missing is 404, no standing is 403, and a record the caller has
      permanently deleted is hidden as 404 again. A trashed record is still readable. */
  function GetEmailById(store: Store, id: Id, user: string): (r: Result<Email, Failure>)
    ensures id !in store ==> r == Err(NotFound)
    ensures id in store && !IsParty(store[id], user) ==> r == Err(Forbidden)
    ensures id in store && IsParty(store[id], user) && user in store[id].permanentlyDeletedBy ==>
      r == Err(NotFound)
    ensures r.Ok? <==> id in store && IsParty(store[id], user) && user !in store[id].permanentlyDeletedBy
    ensures r.Ok? ==> r.value == store[id]
  {
    match Authorize(store, id, user)
    case Err(f) => Err(f)
    case Ok(e) => if user in e.permanentlyDeletedBy then Err(NotFound) else Ok(e)
  }

  /** Everything listed in any view can be opened by id. */
  lemma ListedIsReadable(store: Store, v: View, id: Id, user: string)
    requires id in ViewIds(store, v, user)
    ensures GetEmailById(store, id, user) == Ok(store[id])
  {
  }

  /** `store'` is `store` with the record at `id` replaced; all other records are untouched. */
  predicate OnlyRecordChanged(store: Store, store': Store, id: Id) {
    && store'.Keys == store.Keys
    && forall k :: k in store && k != id ==> store'[k] == store[k]
  }

  /** Saves one updated record after the gate passed. */
  function Save(store: Store, id: Id, e: Email): (s: Store)
    requires id in store
    ensures OnlyRecordChanged(store, s, id) && s[id] == e
  {
    store[id := e]
  }

  /** `updateEmailReadStatus`: sets `read` and nothing else. */
  function SetRead(store: Store, id: Id, user: string, value: bool): (r: Result<Store, Failure>)
    ensures r.Err? <==> Authorize(store, id, user).Err?
    ensures r.Err? ==> r.error == Authorize(store, id, user).error
    ensures r.Ok? ==> OnlyRecordChanged(store, r.value, id)
    ensures r.Ok? ==> r.value[id].read == value && r.value[id].(read := store[id].read) == store[id]
  {
    match Authorize(store, id, user)
    case Err(f) => Err(f)
    case Ok(e) => Ok(Save(store, id, e.(read := value)))
  }

  /** The read flag filters no view: marking a record read or unread changes no user's view. */
  lemma ReadStatusIsInvisible(store: Store, id: Id, user: string, value: bool, other: string, v: View)
    requires SetRead(store, id, user, value).Ok?
    ensures ViewIds(SetRead(store, id, user, value).value, v, other) == ViewIds(store, v, other)
  {
    var s := SetRead(store, id, user, value).value;
    assert InView(v, s[id], other) == InView(v, store[id], other) by {
      assert s[id].(read := store[id].read) == store[id];
    }
    ViewsAgreeOffRecord(store, s, id, v, other);
  }

  /** `toggleEmailStar`: sets `starred` to the requested value and nothing else. */
  function SetStarred(store: Store, id: Id, user: string, value: bool): (r: Result<Store, Failure>)
    ensures r.Err? <==> Authorize(store, id, user).Err?
    ensures r.Err? ==> r.error == Authorize(store, id, user).error
    ensures r.Ok? ==> OnlyRecordChanged(store, r.value, id)
    ensures r.Ok? ==> r.value[id].starred == value && r.value[id].(starred := store[id].starred) == store[id]
  {
    match Authorize(store, id, user)
    case Err(f) => Err(f)
    case Ok(e) => Ok(Save(store, id, e.(starred := value)))
  }

  /** `archiveEmail`: sets the shared `archived` flag; there is no way back. */
  function Archive(store: Store, id: Id, user: string): (r: Result<Store, Failure>)
    ensures r.Err? <==> Authorize(store, id, user).Err?
    ensures r.Err? ==> r.error == Authorize(store, id, user).error
    ensures r.Ok? ==> OnlyRecordChanged(store, r.value, id)
    ensures r.Ok? ==> r.value[id].archived && r.value[id].(archived := store[id].archived) == store[id]
  {
    match Authorize(store, id, user)
    case Err(f) => Err(f)
    case Ok(e) => Ok(Save(store, id, e.(archived := true)))
  }

  /** `moveEmailToTrash`: adds the caller to `trashedBy` unless already there. */
  function MoveToTrash(store: Store, id: Id, user: string): (r: Result<Store, Failure>)
    ensures r.Err? <==> Authorize(store, id, user).Err?
    ensures r.Err? ==> r.error == Authorize(store, id, user).error
    ensures r.Ok? ==> OnlyRecordChanged(store, r.value, id)
    ensures r.Ok? ==> user in r.value[id].trashedBy
    ensures r.Ok? ==> forall u :: u in r.value[id].trashedBy <==> u in store[id].trashedBy || u == user
    ensures r.Ok? && NoDuplicates(store[id].trashedBy) ==> NoDuplicates(r.value[id].trashedBy)
    ensures r.Ok? ==> r.value[id].(trashedBy := store[id].trashedBy) == store[id]
  {
    match Authorize(store, id, user)
    case Err(f) => Err(f)
    case Ok(e) => Ok(Save(store, id, e.(trashedBy := AddOnce(e.trashedBy, user))))
  }

  /** `restoreEmail`: removes every occurrence of the caller from `trashedBy`; the other
      users' entries keep their multiplicity. */
  function Restore(store: Store, id: Id, user: string): (r: Result<Store, Failure>)
    ensures r.Err? <==> Authorize(store, id, user).Err?
    ensures r.Err? ==> r.error == Authorize(store, id, user).error
    ensures r.Ok? ==> OnlyRecordChanged(store, r.value, id)
    ensures r.Ok? ==> user !in r.value[id].trashedBy
    ensures r.Ok? ==> forall u :: u != user ==>
      multiset(r.value[id].trashedBy)[u] == multiset(store[id].trashedBy)[u]
    ensures r.Ok? ==> r.value[id].(trashedBy := store[id].trashedBy) == store[id]
  {
    match Authorize(store, id, user)
    case Err(f) => Err(f)
    case Ok(e) => Ok(Save(store, id, e.(trashedBy := RemoveAll(e.trashedBy, user))))
  }

  /** Every party, sender and recipients alike, is listed in `deletedBy`. */
  predicate AllPartiesIn(e: Email, deletedBy: seq<string>) {
    forall u :: u in Parties(e) ==> u in deletedBy
  }

  /** `permanentlyDeleteEmail`: adds the caller to `permanentlyDeletedBy` once; the record
      leaves the store exactly when every party is then listed, and is otherwise saved
      with the longer list. */
  function PermanentlyDelete(store: Store, id: Id, user: string): (r: Result<Store, Failure>)
    ensures r.Err? <==> Authorize(store, id, user).Err?
    ensures r.Err? ==> r.error == Authorize(store, id, user).error
    ensures r.Ok? ==> forall k :: k != id ==> (k in r.value <==> k in store)
    ensures r.Ok? ==> forall k :: k in store && k != id ==> r.value[k] == store[k]
    ensures r.Ok? ==> (id !in r.value <==>
      forall u :: IsParty(store[id], u) ==> u == user || u in store[id].permanentlyDeletedBy)
    ensures r.Ok? && id in r.value ==>
      && user in r.value[id].permanentlyDeletedBy
      && (forall u :: u in r.value[id].permanentlyDeletedBy <==>
            u in store[id].permanentlyDeletedBy || u == user)
      && r.value[id].(permanentlyDeletedBy := store[id].permanentlyDeletedBy) == store[id]
    ensures r.Ok? && id in r.value && user in store[id].permanentlyDeletedBy ==>
      r.value[id].permanentlyDeletedBy == store[id].permanentlyDeletedBy
    ensures r.Ok? && id in r.value && NoDuplicates(store[id].permanentlyDeletedBy) ==>
      NoDuplicates(r.value[id].permanentlyDeletedBy)
  {
    match Authorize(store, id, user)
    case Err(f) => Err(f)
    case Ok(e) =>
      var deletedBy := AddOnce(e.permanentlyDeletedBy, user);
      if AllPartiesIn(e, deletedBy) then Ok(store - {id})
      else Ok(Save(store, id, e.(permanentlyDeletedBy := deletedBy)))
  }

  /** Trash then restore, starting from a record the caller had not trashed, gives back
      exactly the store it started from. */
  lemma TrashThenRestore(store: Store, id: Id, user: string)
    requires id in store && user !in store[id].trashedBy
    requires MoveToTrash(store, id, user).Ok?
    ensures Restore(MoveToTrash(store, id, user).value, id, user) == Ok(store)
  {
    var s1 := MoveToTrash(store, id, user).value;
    AddThenRemove(store[id].trashedBy, user);
    assert s1[id].trashedBy == AddOnce(store[id].trashedBy, user);
    var s2 := Restore(s1, id, user).value;
    assert s2[id] == store[id];
    assert s2 == store;
  }

  /** Trashing twice is trashing once. */
  lemma TrashIdempotent(store: Store, id: Id, user: string)
    requires MoveToTrash(store, id, user).Ok?
    ensures MoveToTrash(MoveToTrash(store, id, user).value, id, user) == MoveToTrash(store, id, user)
  {
    var s1 := MoveToTrash(store, id, user).value;
    assert s1[id := s1[id]] == s1;
  }

  /** Restoring twice is restoring once. */
  lemma RestoreIdempotent(store: Store, id: Id, user: string)
    requires Restore(store, id, user).Ok?
    ensures Restore(Restore(store, id, user).value, id, user) == Restore(store, id, user)
  {
    var s1 := Restore(store, id, user).value;
    RemoveAbsent(s1[id].trashedBy, user);
    assert s1[id := s1[id]] == s1;
  }

  /** Starring then un-starring leaves the record unstarred; no other field moved. */
  lemma StarThenUnstar(store: Store, id: Id, user: string)
    requires SetStarred(store, id, user, true).Ok?
    ensures SetStarred(SetStarred(store, id, user, true).value, id, user, false) ==
            Ok(store[id := store[id].(starred := false)])
  {
    var e := store[id];
    var s1 := store[id := e.(starred := true)];
    SetStarredUpdates(store, id, user, true);
    assert IsParty(s1[id], user) by {
      assert s1[id].sender == e.sender && s1[id].recipients == e.recipients;
    }
    SetStarredUpdates(s1, id, user, false);
    assert s1[id].(starred := false) == e.(starred := false);
    OverwriteTwice(store, id, e.(starred := true), e.(starred := false));
  }

  /** A permitted `toggleEmailStar` is a single record update. */
  lemma SetStarredUpdates(store: Store, id: Id, user: string, value: bool)
    requires Authorize(store, id, user).Ok?
    ensures SetStarred(store, id, user, value) == Ok(store[id := store[id].(starred := value)])
  {
  }

  /** Writing a record twice keeps the second write. */
  lemma OverwriteTwice(store: Store, id: Id, a: Email, b: Email)
    ensures store[id := a][id := b] == store[id := b]
  {
  }

  /** A view's listing changes only through the changed record. */
  lemma ViewsAgreeOffRecord(store: Store, s: Store, id: Id, v: View, user: string)
    requires id in store && OnlyRecordChanged(store, s, id)
    requires InView(v, s[id], user) == InView(v, store[id], user)
    ensures ViewIds(s, v, user) == ViewIds(store, v, user)
  {
    forall k ensures k in ViewIds(s, v, user) <==> k in ViewIds(store, v, user) {
    }
  }

  /** A record that differs only in `trashedBy`, and not in whether `user` is listed
      there, looks the same to `user` in every view. */
  lemma SameTrashStanding(e: Email, e': Email, v: View, user: string)
    requires e'.(trashedBy := e.trashedBy) == e
    requires user in e'.trashedBy <==> user in e.trashedBy
    ensures InView(v, e', user) == InView(v, e, user)
  {
  }

  /** Trashing is per user: no other user's view of any record changes. */
  lemma TrashIsPrivate(store: Store, id: Id, user: string, other: string, v: View)
    requires other != user
    requires MoveToTrash(store, id, user).Ok?
    ensures ViewIds(MoveToTrash(store, id, user).value, v, other) == ViewIds(store, v, other)
  {
    var s1 := MoveToTrash(store, id, user).value;
    SameTrashStanding(store[id], s1[id], v, other);
    ViewsAgreeOffRecord(store, s1, id, v, other);
  }

  /** Restoring is per user: no other user's view of any record changes. */
  lemma RestoreIsPrivate(store: Store, id: Id, user: string, other: string, v: View)
    requires other != user
    requires Restore(store, id, user).Ok?
    ensures ViewIds(Restore(store, id, user).value, v, other) == ViewIds(store, v, other)
  {
    var s2 := Restore(store, id, user).value;
    assert other in s2[id].trashedBy <==> other in store[id].trashedBy by {
      assert multiset(s2[id].trashedBy)[other] == multiset(store[id].trashedBy)[other];
    }
    SameTrashStanding(store[id], s2[id], v, other);
    ViewsAgreeOffRecord(store, s2, id, v, other);
  }

  /** The caller's own trash lists the record after trashing, while the sender's Sent view
      of it is unaffected when the caller is a recipient. */
  lemma TrashedByRecipientStaysSent(store: Store, id: Id, recipient: string, p: Option<Id>)
    requires id in store && IsRecipient(store[id], recipient) && !IsSender(store[id], recipient)
    requires recipient !in store[id].permanentlyDeletedBy
    ensures MoveToTrash(store, id, recipient).Ok?
    ensures id in ViewIds(MoveToTrash(store, id, recipient).value, Trash, recipient)
    ensures id in ViewIds(store, Sent(p), store[id].sender.email) <==>
            id in ViewIds(MoveToTrash(store, id, recipient).value, Sent(p), store[id].sender.email)
  {
    var s1 := MoveToTrash(store, id, recipient).value;
    assert InView(Sent(p), s1[id], store[id].sender.email) == InView(Sent(p), store[id], store[id].sender.email);
  }

  /** Permanent deletion is per user too: whether or not the record is removed, no other
      user's view changes, since a removed record was already deleted by all other parties. */
  lemma PermanentDeleteIsPrivate(store: Store, id: Id, user: string, other: string, v: View)
    requires other != user
    requires PermanentlyDelete(store, id, user).Ok?
    ensures ViewIds(PermanentlyDelete(store, id, user).value, v, other) == ViewIds(store, v, other)
  {
    var s1 := PermanentlyDelete(store, id, user).value;
    if id in s1 {
      SameDeleteStanding(store[id], s1[id], v, other);
      ViewsAgreeOffRecord(store, s1, id, v, other);
    } else {
      if InView(v, store[id], other) {
        ViewNeedsAccess(v, store[id], other);
      }
      ViewsAgreeWithoutRecord(store, s1, id, v, other);
    }
  }

  /** A record that differs only in `permanentlyDeletedBy`, and not in whether `user` is
      listed there, looks the same to `user` in every view. */
  lemma SameDeleteStanding(e: Email, e': Email, v: View, user: string)
    requires e'.(permanentlyDeletedBy := e.permanentlyDeletedBy) == e
    requires user in e'.permanentlyDeletedBy <==> user in e.permanentlyDeletedBy
    ensures InView(v, e', user) == InView(v, e, user)
  {
  }

  /** Removing a record the user cannot see leaves the user's views as they were. */
  lemma ViewsAgreeWithoutRecord(store: Store, s: Store, id: Id, v: View, user: string)
    requires id in store && id !in s && !InView(v, store[id], user)
    requires forall k :: k != id ==> (k in s <==> k in store)
    requires forall k :: k in store && k != id ==> s[k] == store[k]
    ensures ViewIds(s, v, user) == ViewIds(store, v, user)
  {
    forall k ensures k in ViewIds(s, v, user) <==> k in ViewIds(store, v, user) {
    }
  }

  /** While a record survives, every party that has not permanently deleted it can still open it. */
  lemma SurvivorsKeepAccess(store: Store, id: Id, user: string, other: string)
    requires PermanentlyDelete(store, id, user).Ok?
    requires IsParty(store[id], other) && other != user && other !in store[id].permanentlyDeletedBy
    ensures id in PermanentlyDelete(store, id, user).value
    ensures GetEmailById(PermanentlyDelete(store, id, user).value, id, other).Ok?
  {
  }

  /** Deleting for each party in turn removes the record once the last one has deleted it. */
  lemma {:induction false} DeleteByAllRemoves(store: Store, id: Id, users: seq<string>)
    requires id in store && |users| > 0
    requires forall u :: IsParty(store[id], u) ==> u in users || u in store[id].permanentlyDeletedBy
    requires forall i :: 0 <= i < |users| ==> IsParty(store[id], users[i])
    ensures id !in DeleteAll(store, id, users)
    decreases |users|
  {
    var r := PermanentlyDelete(store, id, users[0]);
    DeleteStep(store, id, users);
    assert DeleteAll(store, id, users) == DeleteAll(r.value, id, users[1..]);
    if id in r.value {
      DeleteByAllRemoves(r.value, id, users[1..]);
    } else {
      AbsentStaysAbsent(r.value, id, users[1..]);
    }
  }

  /** One step of `DeleteByAllRemoves`: the first user's deletion succeeds, and if the record
      survives, the remaining users still cover every party who has not deleted it. */
  lemma DeleteStep(store: Store, id: Id, users: seq<string>)
    requires id in store && |users| > 0
    requires forall u :: IsParty(store[id], u) ==> u in users || u in store[id].permanentlyDeletedBy
    requires forall i :: 0 <= i < |users| ==> IsParty(store[id], users[i])
    ensures PermanentlyDelete(store, id, users[0]).Ok?
    ensures var s := PermanentlyDelete(store, id, users[0]).value;
      id in s ==>
        && |users| > 1
        && (forall u :: IsParty(s[id], u) ==> u in users[1..] || u in s[id].permanentlyDeletedBy)
        && (forall i :: 0 <= i < |users[1..]| ==> IsParty(s[id], users[1..][i]))
  {
    var s := PermanentlyDelete(store, id, users[0]).value;
    if id in s {
      var e, e' := store[id], s[id];
      assert e'.sender == e.sender && e'.recipients == e.recipients by {
        assert e'.(permanentlyDeletedBy := e.permanentlyDeletedBy) == e;
      }
      var w :| IsParty(e, w) && w != users[0] && w !in e.permanentlyDeletedBy;
      CoverShrinks(e, e', users);
      PartiesStay(e, e', users);
      assert IsParty(e', w) && w !in e'.permanentlyDeletedBy;
    }
  }

  /** After the first user's deletion, the remaining users and the deleters still cover
      every party. */
  lemma CoverShrinks(e: Email, e': Email, users: seq<string>)
    requires |users| > 0
    requires e'.sender == e.sender && e'.recipients == e.recipients
    requires forall u :: IsParty(e, u) ==> u in users || u in e.permanentlyDeletedBy
    requires forall u :: u in e'.permanentlyDeletedBy <==> u in e.permanentlyDeletedBy || u == users[0]
    ensures forall u :: IsParty(e', u) ==> u in users[1..] || u in e'.permanentlyDeletedBy
  {
    forall u | IsParty(e', u) && u !in e'.permanentlyDeletedBy ensures u in users[1..] {
      assert IsParty(e, u);
      assert users == [users[0]] + users[1..];
    }
  }

  /** The remaining users are still parties of the surviving record. */
  lemma PartiesStay(e: Email, e': Email, users: seq<string>)
    requires |users| > 0
    requires e'.sender == e.sender && e'.recipients == e.recipients
    requires forall i :: 0 <= i < |users| ==> IsParty(e, users[i])
    ensures forall i :: 0 <= i < |users[1..]| ==> IsParty(e', users[1..][i])
  {
    forall i | 0 <= i < |users[1..]| ensures IsParty(e', users[1..][i]) {
      assert users[1..][i] == users[i + 1];
    }
  }

  /** Once removed, a record does not come back. */
  lemma {:induction false} AbsentStaysAbsent(store: Store, id: Id, users: seq<string>)
    requires id !in store
    ensures DeleteAll(store, id, users) == store
    decreases |users|
  {
    if |users| > 0 {
      AbsentStaysAbsent(store, id, users[1..]);
    }
  }

  /** Permanent deletion by each user of `users` in order; requests that fail leave the store. */
  function DeleteAll(store: Store, id: Id, users: seq<string>): Store
    decreases |users|
  {
    if |users| == 0 then store
    else
      match PermanentlyDelete(store, id, users[0])
      case Ok(s) => DeleteAll(s, id, users[1..])
      case Err(_) => DeleteAll(store, id, users[1..])
  }

  /** `archived` is one flag shared by all parties: a sender archiving a sent email takes it
      out of every recipient's inbox, unlike trash. */
  lemma ArchiveIsShared(store: Store, id: Id, recipient: string)
    requires id in store && IsRecipient(store[id], recipient)
    requires Archive(store, id, store[id].sender.email).Ok?
    ensures id !in ViewIds(Archive(store, id, store[id].sender.email).value, Inbox, recipient)
  {
  }

  /** A recipient of someone else's unsent draft can open it by id, since the access check
      looks only at the address lists. */
  lemma DraftReadableByRecipient(store: Store, id: Id, recipient: string)
    requires id in store && store[id].isDraft && IsRecipient(store[id], recipient)
    requires recipient !in store[id].permanentlyDeletedBy
    ensures GetEmailById(store, id, recipient) == Ok(store[id])
  {
  }
}
