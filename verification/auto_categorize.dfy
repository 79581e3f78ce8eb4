/** `autoCategorizeInbox` (controllers/emailController.js): every email the query selects is
    categorised in turn; the category is saved when the schema accepts it and the write
    succeeds, and the two counters record how many were saved and how many were not. */
module AutoCategorize {
  import opened Outcomes
  import opened EmailModel
  import opened Views
  import opened Ai
  import AiService

  /** The query: the user is a recipient and the email is not deleted, archived or a draft.
      Trash and permanent deletion are not consulted. */
  predicate Pending(e: Email, user: string)
    ensures Pending(e, user) && Kept(e, user) ==> InView(Inbox, e, user)
    ensures Pending(e, user) ==> !e.deleted && IsParty(e, user)
  {
    IsRecipient(e, user) && !e.deleted && !e.archived && !e.isDraft
  }

  /** What the loop asks of each email: a category name. */
  type Categorizer = Email -> string

  /** The service's `categorizeEmail` on the primary and secondary providers. */
  function Service(p: Provider, q: Provider): Categorizer {
    e => AiService.Categorize(p, q, AsMessage(e))
  }

  /** The category the schema accepts for the answer, if any. */
  function NewCategory(categorize: Categorizer, e: Email): Option<Category> {
    ParseCategory(categorize(e))
  }

  /** One email is saved: enum validation accepts its category and the write (`saved`) succeeds. */
  predicate Saved(e: Email, k: Id, categorize: Categorizer, saved: Id -> bool) {
    NewCategory(categorize, e).Some? && saved(k)
  }

  /** Which stored ids the loop saves. */
  function Succeeds(store: Store, categorize: Categorizer, saved: Id -> bool): Id -> bool {
    k => k in store && Saved(store[k], k, categorize, saved)
  }

  /** The record as the loop leaves it when it is saved. */
  function Recategorized(e: Email, categorize: Categorizer): (r: Email)
    ensures r.category == NewCategory(categorize, e)
    ensures r.(category := e.category) == e
  {
    e.(category := NewCategory(categorize, e))
  }

  /** The ids in `ids` that satisfy `ok`. */
  function Among(ids: seq<Id>, ok: Id -> bool): set<Id> {
    set k | k in ids && ok(k)
  }

  /** The ids in `ids` that do not satisfy `ok`. */
  function Outside(ids: seq<Id>, ok: Id -> bool): set<Id> {
    set k | k in ids && !ok(k)
  }

  /** How many entries of `ids` satisfy `ok`. */
  function CountIf(ids: seq<Id>, ok: Id -> bool): (n: nat)
    ensures n <= |ids|
    decreases |ids|
  {
    if |ids| == 0 then 0
    else CountIf(ids[..|ids| - 1], ok) + (if ok(ids[|ids| - 1]) then 1 else 0)
  }

  /** The saved ids among `ids`. */
  function SavedAmong(store: Store, ids: seq<Id>, categorize: Categorizer, saved: Id -> bool): set<Id> {
    Among(ids, Succeeds(store, categorize, saved))
  }

  /** The ids among `ids` that are not saved. */
  function FailedAmong(store: Store, ids: seq<Id>, categorize: Categorizer, saved: Id -> bool): set<Id> {
    Outside(ids, Succeeds(store, categorize, saved))
  }

  /** The store once the ids in `ids` have been handled, one after another. */
  function CategorizeAll(store: Store, ids: seq<Id>, categorize: Categorizer, saved: Id -> bool): Store
    decreases |ids|
  {
    if |ids| == 0 then store
    else
      var s := CategorizeAll(store, ids[..|ids| - 1], categorize, saved);
      var k := ids[|ids| - 1];
      if Succeeds(store, categorize, saved)(k) then s[k := Recategorized(store[k], categorize)] else s
  }

  /** Handling the ids changes exactly the saved records, each to its new category, and
      neither adds nor removes a record. */
  lemma {:induction false} CategorizeAllEffect(store: Store, ids: seq<Id>, categorize: Categorizer, saved: Id -> bool)
    ensures CategorizeAll(store, ids, categorize, saved).Keys == store.Keys
    ensures forall k :: k in store ==>
      CategorizeAll(store, ids, categorize, saved)[k] ==
        (if k in ids && Saved(store[k], k, categorize, saved) then Recategorized(store[k], categorize) else store[k])
    decreases |ids|
  {
    if |ids| > 0 {
      var init := ids[..|ids| - 1];
      CategorizeAllEffect(store, init, categorize, saved);
      assert forall k :: k in ids <==> k in init || k == ids[|ids| - 1] by {
        assert ids == init + [ids[|ids| - 1]];
      }
    }
  }

  /** One more id joins exactly one of the two sets. */
  lemma AmongStep(init: seq<Id>, k: Id, ok: Id -> bool)
    requires k !in init
    ensures k !in Among(init, ok) && k !in Outside(init, ok)
    ensures Among(init + [k], ok) == Among(init, ok) + (if ok(k) then {k} else {})
    ensures Outside(init + [k], ok) == Outside(init, ok) + (if ok(k) then {} else {k})
  {
    assert forall j :: j in init + [k] <==> j in init || j == k;
  }

  /** For distinct ids the count is the number of ids satisfying `ok`, and the rest are the
      ids that do not. */
  lemma {:induction false} CountIsCardinality(ids: seq<Id>, ok: Id -> bool)
    requires forall i, j :: 0 <= i < j < |ids| ==> ids[i] != ids[j]
    ensures CountIf(ids, ok) == |Among(ids, ok)|
    ensures |ids| - CountIf(ids, ok) == |Outside(ids, ok)|
    decreases |ids|
  {
    if |ids| == 0 {
      assert Among(ids, ok) == {};
      assert Outside(ids, ok) == {};
    } else {
      var init, k := ids[..|ids| - 1], ids[|ids| - 1];
      CountIsCardinality(init, ok);
      assert ids == init + [k];
      assert k !in init by {
        forall j | 0 <= j < |init| ensures init[j] != k {
          assert init[j] == ids[j];
        }
      }
      AmongStep(init, k, ok);
    }
  }

  /** The loop over the selected emails. `selected` is the query's answer: stored records,
      each once; `AutoCategorizeEffect` states what the loop does when it holds every
      pending record. */
  method AutoCategorizeInbox(store: Store, selected: seq<Id>, categorize: Categorizer, saved: Id -> bool)
    returns (s: Store, categorized: nat, failed: nat)
    requires forall i, j :: 0 <= i < j < |selected| ==> selected[i] != selected[j]
    requires forall i :: 0 <= i < |selected| ==> selected[i] in store
    ensures s == CategorizeAll(store, selected, categorize, saved)
    ensures categorized == |SavedAmong(store, selected, categorize, saved)|
    ensures failed == |FailedAmong(store, selected, categorize, saved)|
    ensures categorized + failed == |selected|
  {
    var ok := Succeeds(store, categorize, saved);
    s, categorized, failed := store, 0, 0;
    var i := 0;
    while i < |selected|
      invariant 0 <= i <= |selected|
      invariant s == CategorizeAll(store, selected[..i], categorize, saved)
      invariant categorized == CountIf(selected[..i], ok)
      invariant categorized + failed == i
    {
      var k := selected[i];
      assert selected[..i + 1][..i] == selected[..i];
      if NewCategory(categorize, store[k]).Some? && saved(k) {
        s := s[k := Recategorized(store[k], categorize)];
        categorized := categorized + 1;
      } else {
        failed := failed + 1;
      }
      i := i + 1;
    }
    assert selected[..|selected|] == selected;
    CountIsCardinality(selected, ok);
  }

  /** What the loop leaves behind: every pending email whose category is accepted and
      written carries it, and every other record, pending or not, is unchanged. */
  lemma AutoCategorizeEffect(store: Store, user: string, selected: seq<Id>, categorize: Categorizer, saved: Id -> bool)
    requires forall i :: 0 <= i < |selected| ==> selected[i] in store && Pending(store[selected[i]], user)
    requires forall k :: k in store && Pending(store[k], user) ==> k in selected
    ensures CategorizeAll(store, selected, categorize, saved).Keys == store.Keys
    ensures forall k :: k in store ==>
      CategorizeAll(store, selected, categorize, saved)[k] ==
        (if Pending(store[k], user) && Saved(store[k], k, categorize, saved)
         then Recategorized(store[k], categorize) else store[k])
  {
    CategorizeAllEffect(store, selected, categorize, saved);
  }

  /** The saved emails are exactly the pending emails whose category is accepted and written;
      emails outside the query are never touched. */
  lemma SavedArePending(store: Store, user: string, selected: seq<Id>, categorize: Categorizer, saved: Id -> bool, k: Id)
    requires forall i :: 0 <= i < |selected| ==> selected[i] in store && Pending(store[selected[i]], user)
    requires forall kk :: kk in store && Pending(store[kk], user) ==> kk in selected
    ensures k in SavedAmong(store, selected, categorize, saved) <==>
      k in store && Pending(store[k], user) && NewCategory(categorize, store[k]).Some? && saved(k)
  {
  }

  /** Every name the schema accepts starts with a capital letter. */
  lemma AcceptedNamesAreCapitalised(s: string)
    ensures ParseCategory(s).Some? ==> |s| > 0 && 'A' <= s[0] <= 'Z'
  {
  }

  /** An answer with no capital letter is a failure, whatever white space surrounds it: the
      blank answer and "to-do" in lower case are rejected by the schema. */
  lemma LowerCaseAnswerFails(p: Provider, q: Provider, e: Email)
    requires p(CategorizeRequest(AsMessage(e))).Reply?
    requires forall c :: c in p(CategorizeRequest(AsMessage(e))).text ==> !('A' <= c <= 'Z')
    ensures NewCategory(Service(p, q), e).None?
  {
    var text := p(CategorizeRequest(AsMessage(e))).text;
    var answer := Service(p, q)(e);
    assert answer == Text.Trim(text);
    AcceptedNamesAreCapitalised(answer);
    if |answer| > 0 {
      assert answer[0] in text;
    }
  }

  /** A primary provider that fails does not make the email fail: it is filed as To-Do. */
  lemma ProviderFailureFilesAsToDo(p: Provider, q: Provider, e: Email)
    requires p(CategorizeRequest(AsMessage(e))).Failure?
    ensures NewCategory(Service(p, q), e) == Some(ToDo)
  {
  }

  /** The query selects emails the user has moved to trash, which the inbox does not list;
      every inbox email not flagged deleted is selected. */
  lemma PendingVersusInbox(e: Email, user: string)
    ensures InView(Inbox, e, user) && !e.deleted ==> Pending(e, user)
    ensures Pending(e, user) && user in e.trashedBy ==> !InView(Inbox, e, user)
  {
  }
}
