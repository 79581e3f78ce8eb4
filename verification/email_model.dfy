/** The Email record (models/Email.js): fields, enumerations, defaults, and the
    store of records keyed by id. */
module EmailModel {
  import opened Outcomes
  import opened Text

  /** Document ids; the store hands out fresh ones. */
  type Id = nat

  /** The store: every saved Email by id. */
  type Store = map<Id, Email>

  /** Why a mailbox request is refused, with the HTTP status it answers. */
  datatype Failure = NotFound | Forbidden | NotADraft {
    function Status(): nat {
      match this
      case NotFound => 404
      case Forbidden => 403
      case NotADraft => 400
    }
  }

  /** A sender or recipient entry. */
  datatype Party = Party(name: string, email: string)

  /** The `category` enumeration. */
  datatype Category = Important | Newsletter | Spam | ToDo

  /** The `priority` enumeration. */
  datatype Priority = Low | Medium | High | Urgent

  /** The four descriptive string fields of an action item; any may be missing. */
  datatype ItemFields = ItemFields(
    actionRequired: Option<string>,
    requestedTime: Option<string>,
    from: Option<string>,
    confirmationNeeded: Option<string>)

  /** A stored action item: `completed` always has a value (default false). */
  datatype ActionItem = ActionItem(fields: ItemFields, completed: bool)

  /** The optional embedded draft reply. */
  datatype StoredDraftReply = StoredDraftReply(subject: string, body: string, timestamp: int)

  /** One message or draft. Timestamps are integers (milliseconds since the epoch). */
  datatype Email = Email(
    sender: Party,
    recipients: seq<Party>,
    subject: string,
    body: string,
    timestamp: int,
    category: Option<Category>,
    priority: Option<Priority>,
    actionItems: seq<ActionItem>,
    draftReply: Option<StoredDraftReply>,
    read: bool,
    labels: seq<string>,
    isDraft: bool,
    parentId: Option<Id>,
    archived: bool,
    deleted: bool,
    starred: bool,
    trashedBy: seq<string>,
    permanentlyDeletedBy: seq<string>)

  /** The text the schema stores for a category. */
  function CategoryName(c: Category): string {
    match c
    case Important => "Important"
    case Newsletter => "Newsletter"
    case Spam => "Spam"
    case ToDo => "To-Do"
  }

  /** Enum validation on save: a category string is accepted only if it is one of the four
      names, spelled exactly. */
  function ParseCategory(s: string): (r: Option<Category>)
    ensures r.Some? ==> CategoryName(r.value) == s
    ensures r.None? ==> forall c: Category :: CategoryName(c) != s
  {
    if s == "Important" then Some(Important)
    else if s == "Newsletter" then Some(Newsletter)
    else if s == "Spam" then Some(Spam)
    else if s == "To-Do" then Some(ToDo)
    else None
  }

  /** Every category name is accepted back as that category. */
  lemma CategoryRoundTrip(c: Category)
    ensures ParseCategory(CategoryName(c)) == Some(c)
  {
  }

  /** The text the schema stores for a priority. */
  function PriorityName(p: Priority): string {
    match p
    case Low => "Low"
    case Medium => "Medium"
    case High => "High"
    case Urgent => "Urgent"
  }

  /** Enum validation of a priority string. */
  function ParsePriority(s: string): (r: Option<Priority>)
    ensures r.Some? ==> PriorityName(r.value) == s
    ensures r.None? ==> forall p: Priority :: PriorityName(p) != s
  {
    if s == "Low" then Some(Low)
    else if s == "Medium" then Some(Medium)
    else if s == "High" then Some(High)
    else if s == "Urgent" then Some(Urgent)
    else None
  }

  /** A new action item: `completed` defaults to false. */
  function NewActionItem(fields: ItemFields): (a: ActionItem)
    ensures a.fields == fields && !a.completed
  {
    ActionItem(fields, false)
  }

  /** A new Email with the schema defaults: not read, not a draft, not archived, not
      deleted, not starred, no category, no parent, empty lists, time stamped `now`. */
  function NewEmail(sender: Party, recipients: seq<Party>, subject: string, body: string, now: int): (e: Email)
    ensures e.sender == sender && e.recipients == recipients
    ensures e.subject == subject && e.body == body && e.timestamp == now
    ensures !e.read && !e.isDraft && !e.archived && !e.deleted && !e.starred
    ensures e.category.None? && e.priority.None? && e.parentId.None? && e.draftReply.None?
    ensures e.trashedBy == [] && e.permanentlyDeletedBy == [] && e.actionItems == [] && e.labels == []
  {
    Email(sender, recipients, subject, body, now, None, None, [], None,
          false, [], false, None, false, false, false, [], [])
  }

  /** `email.sender.email === user`. */
  predicate IsSender(e: Email, user: string) {
    e.sender.email == user
  }

  /** `email.recipients.some(r => r.email === user)`. */
  predicate IsRecipient(e: Email, user: string) {
    exists i :: 0 <= i < |e.recipients| && e.recipients[i].email == user
  }

  /** The user is the sender or a recipient: the standing every access check asks for. */
  predicate IsParty(e: Email, user: string) {
    IsSender(e, user) || IsRecipient(e, user)
  }

  /** Everyone with access, sender first: `[sender.email, ...recipients.map(r => r.email)]`. */
  function Parties(e: Email): (ps: seq<string>)
    ensures |ps| == 1 + |e.recipients|
    ensures forall u :: u in ps <==> IsParty(e, u)
  {
    var ps := [e.sender.email] + seq(|e.recipients|, i requires 0 <= i < |e.recipients| => e.recipients[i].email);
    assert forall u :: IsRecipient(e, u) ==> u in ps by {
      forall u | IsRecipient(e, u) ensures u in ps {
        var i :| 0 <= i < |e.recipients| && e.recipients[i].email == u;
        assert ps[i + 1] == u;
      }
    }
    ps
  }

  /** `list.push(x)` guarded by `list.includes(x)`: the list gains `x` at the end only
      when it is absent, so a list without duplicates keeps that property. */
  function AddOnce(xs: seq<string>, x: string): (r: seq<string>)
    ensures x in r
    ensures forall y :: y in r <==> y in xs || y == x
    ensures x in xs ==> r == xs
    ensures x !in xs ==> r == xs + [x]
    ensures NoDuplicates(xs) ==> NoDuplicates(r)
  {
    if x in xs then xs else xs + [x]
  }

  /** `list.filter(y => y !== x)`: every occurrence of `x` goes, the rest stay in order. */
  function RemoveAll(xs: seq<string>, x: string): (r: seq<string>)
    ensures x !in r
    ensures forall y :: y != x ==> multiset(r)[y] == multiset(xs)[y]
    ensures |r| <= |xs|
  {
    if |xs| == 0 then []
    else
      assert xs == [xs[0]] + xs[1..];
      if xs[0] == x then RemoveAll(xs[1..], x) else [xs[0]] + RemoveAll(xs[1..], x)
  }

  /** No entry occurs twice. */
  predicate NoDuplicates(xs: seq<string>) {
    forall i, j :: 0 <= i < j < |xs| ==> xs[i] != xs[j]
  }

  /** Removing an absent user changes nothing: restoring a record one never trashed is a no-op. */
  lemma {:induction false} RemoveAbsent(xs: seq<string>, x: string)
    requires x !in xs
    ensures RemoveAll(xs, x) == xs
  {
    if |xs| > 0 {
      assert x !in xs[1..];
      RemoveAbsent(xs[1..], x);
      assert xs == [xs[0]] + xs[1..];
    }
  }

  /** Adding then removing a user who was absent gives the original list back. */
  lemma {:induction false} AddThenRemove(xs: seq<string>, x: string)
    requires x !in xs
    ensures RemoveAll(AddOnce(xs, x), x) == xs
  {
    if |xs| == 0 {
      assert AddOnce(xs, x) == [x];
      assert [x][1..] == [];
    } else {
      var ys := AddOnce(xs, x);
      assert ys[0] == xs[0];
      assert ys[1..] == xs[1..] + [x];
      assert x !in xs[1..];
      AddThenRemove(xs[1..], x);
      assert AddOnce(xs[1..], x) == xs[1..] + [x];
      assert xs == [xs[0]] + xs[1..];
    }
  }
}
