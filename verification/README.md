# Email backend core in Dafny

This project models the core of an email web backend built on Express, Mongoose and two
hosted language models. It covers:

- the mailbox controller (`controllers/emailController.js`): folder views, reading,
  starring, archiving, per-user trash and per-user permanent deletion, the draft
  lifecycle, threads, and the AI endpoints that touch stored records;
- the two AI services (`services/mistralService.js`, the primary, and
  `services/aiService.js`, which wraps it with a secondary provider);
- the profile and password updates of `controllers/userController.js`;
- the Email schema (`models/Email.js`): enumerations and defaults.

The model is functional:

- The database is a `Store = map<Id, Email>`.
- Every endpoint is a pure function from the store and the request to a
  `Result<Store, Failure>`. Its failures carry the HTTP status the code answers:
  404, 403 or 400.
- A language model is a `Provider`, a function from a request to `Reply(text)` or
  `Failure`. A `Failure` stands for any exception the SDK call raises.
- `JSON.parse` is a parameter `string -> Option<T>` (an oracle), so every result is
  stated for every possible parser.
- The write of `email.save()` in the auto-categorisation loop is a parameter
  `Id -> bool`.

JavaScript semantics are written out where they matter:

- `trim` removes the full JavaScript white-space and line-terminator set.
- `split('\n')` and `join` are defined and proved inverse.
- Truthiness: the empty string is falsy, while arrays are truthy even when empty.
- `length` counts UTF-16 code units.
- The greedy `/\{[\s\S]*\}/` match is the span from the first `{` that has a `}` after
  it to the last `}`.

Modules, one per file:

| module | file | contents |
|---|---|---|
| `Outcomes` | `outcomes.dfy` | `Option`, `Result`, and `Field` (a present-or-absent request field) |
| `Text` | `text.dfy` | the string operations above |
| `EmailModel` | `email_model.dfy` | the record, the enums, defaults, access predicates, the `trashedBy` list operations |
| `Views` | `views.dfy` | folder views; thread membership, as written and corrected |
| `Mailbox` | `mailbox.dfy` | read, star, archive, trash, restore, permanent delete |
| `Drafts` | `drafts.dfy` | create, update, delete and send drafts |
| `Ai` | `ai.dfy` | provider, requests, fixed fallbacks, purpose table, the two action-item extractors |
| `Mistral` | `mistral.dfy` | the primary service |
| `AiService` | `ai_service.dfy` | the two-tier service |
| `Replies` | `replies.dfy` | action-item endpoints and reply drafts |
| `AutoCategorize` | `auto_categorize.dfy` | the inbox categorisation loop |
| `Accounts` | `accounts.dfy` | profile and password |

Where the code and its design description disagree, the model follows the code:

- **The fallback is mostly unreachable.** `categorizeEmail`, `draftReply` and
  `generateChatResponse` of the primary service catch their own errors and, given an email
  object, never throw.
  So the secondary provider of `aiService.js` is never asked for these three tasks.
- **The service extracts action items line by line.** `aiService.extractActionItems`
  first calls the primary's *line-based* extractor, not the primary's structured one.
- **The secondary summary does no extraction.** It parses the whole trimmed reply,
  without looking for the `{ … }` span.
- **`sendDraft` does not check `isDraft`.**
- **Categories can be rejected on save.** `categorizeEmail` returns any trimmed reply,
  so the categorisation loop's failures are enum rejections on save, or failed writes.
- **Selection ignores trash.** The loop's query ignores `trashedBy` and
  `permanentlyDeletedBy`.
- **`archived` is one shared flag.** It is not a per-user flag.
- **Drafts are readable by recipients.** A recipient listed on someone else's draft can
  open it by id.
- **Some endpoints check no access.** `getEmailThread`, `saveActionItems`,
  `createReplyDraft` and `createIntelligentDraft` check only that the record exists.
- **Reply drafts are not threaded.** The reply draft carries no `parentId`.

## Model

| member | source | states |
|---|---|---|
| EmailModel.ParseCategory | models/Email.js:18-21 | a category string is accepted exactly when it spells one of the four enum names, and then as that category |
| EmailModel.CategoryRoundTrip | models/Email.js:18-21 | every category's stored name validates back to the same category |
| EmailModel.ParsePriority | models/Email.js:22-25 | a priority string is accepted exactly when it spells one of the four priority names |
| EmailModel.NewActionItem | models/Email.js:26-35 | a new action item keeps its fields and is not completed (schema default) |
| EmailModel.NewEmail | models/Email.js:14-73 | a new record has the schema defaults: unread, not a draft, not archived, deleted or starred, no category, priority or parent, empty lists |
| EmailModel.Parties | controllers/emailController.js:428-431 | the users with access are the sender and every recipient, and nobody else |
| EmailModel.AddOnce | controllers/emailController.js:389-392 | adding a user to `trashedBy` makes them a member, adds nobody else, leaves the list alone if present, and keeps the list free of duplicates |
| EmailModel.RemoveAll | controllers/emailController.js:467-468 | the filter removes every occurrence of the user and keeps every other user's entries with their multiplicity |
| EmailModel.RemoveAbsent | controllers/emailController.js:467-468 | restoring a user who is not in the list leaves the list unchanged |
| EmailModel.AddThenRemove | controllers/emailController.js:389-392 | removing a freshly added user gives the original list back |
| Text.Trim | services/mistralService.js:90 | the trimmed text is a contiguous slice of the input with no white space at either end, and only white space was cut off the end |
| Text.TrimIdempotent | services/mistralService.js:90 | trimming a trimmed string changes nothing |
| Text.Split | services/mistralService.js:327-330 | the pieces contain no separator and joining them with the separator restores the input |
| Text.SplitJoin | services/mistralService.js:327-330 | splitting a join of separator-free pieces gives the pieces back |
| Text.SplitAround | services/mistralService.js:327-330 | splitting at a separator in the middle is splitting the two halves separately |
| Text.SplitWithoutSeparator | services/mistralService.js:327-330 | a text without line breaks is a single piece |
| Text.Lower | services/mistralService.js:194 | lower-casing keeps the length, maps each ASCII capital to its small letter and leaves every other character alone |
| Text.LowerIdempotent | services/mistralService.js:194 | lower-casing twice is lower-casing once |
| Text.Utf16Length | controllers/userController.js:246 | a single character counts one code unit below U+10000 and two above; the length lies between the character count and twice it, and equals the count exactly when no character is above U+FFFF |
| Text.Utf16LengthAppend | controllers/userController.js:246 | the length of a concatenation is the sum of the lengths, so with the one-character case `length` is one unit per character below U+10000 plus two per character above |
| Text.BraceSpan | services/mistralService.js:46-47 | the greedy match exists exactly when some `{` precedes some `}`; it starts at a `{`, ends at a `}`, and covers every such pair |
| Text.JsonCandidate | services/mistralService.js:46-48 | the text handed to `JSON.parse` is exactly the slice from the greedy match's first `{` to its last `}` when a pair exists, and the whole content otherwise |
| Text.JsonCandidateIdempotent | services/mistralService.js:46-48 | extracting again from an extracted candidate gives the same candidate |
| Text.GreedyNotBalanced | services/mistralService.js:46-47 | on two separate objects the match keeps both and the text between them |
| Views.InView | controllers/emailController.js:76-248 | every folder, trash included, lists only records the user is a party to and has not permanently deleted, and a listed record is in trash exactly when the user has trashed it |
| Views.FolderOverlaps | controllers/emailController.js:155-248 | a record is in at most one of the newsletter, spam and to-do folders; starring does not remove a received email from the inbox, and an inbox email that is starred is also in the starred folder |
| Views.InboxIff | controllers/emailController.js:76-98 | the inbox lists an email iff the user is a recipient, it is neither a draft nor archived, and the user has neither trashed nor permanently deleted it |
| Views.ViewNeedsAccess | controllers/emailController.js:101-121 | every view, trash included, lists only records the user is a party to and has not permanently deleted |
| Views.TrashExcludesOtherViews | controllers/emailController.js:101-121 | a record in a user's trash is in none of that user's other views |
| Views.SentAndDraftsDisjoint | controllers/emailController.js:125-152 | Sent and Drafts never share a record, whatever parent filters are used |
| Views.ParentFilterNarrows | controllers/emailController.js:18-21 | adding the optional `parentId` filter only removes records from Sent and Drafts |
| Views.InThreadAsWritten | controllers/emailController.js:835-842 | the query as written never lists a deleted record, and lists every undeleted record without a parent when the anchor has no parent |
| Views.ThreadIds | controllers/emailController.js:823-852 | 404 iff the anchor is missing; a thread holds exactly the corrected members and contains a non-deleted anchor |
| Views.ThreadLeaksUnrelatedRoots | controllers/emailController.js:835-842 | as written, an unrelated root email joins the thread of any root email, while the corrected thread excludes it |
| Views.NewRootIsNotThreaded | controllers/emailController.js:835-842 | a new record without a parent joins no other record's corrected thread |
| Views.ThreadMembersAreLinked | controllers/emailController.js:835-842 | every corrected member is the anchor, a reply to it, its parent, or a sibling under the same real parent |
| Views.ThreadCorrectionOnlyRemoves | controllers/emailController.js:835-842 | the corrected thread is contained in the written one and equals it when the anchor has a parent |
| Mailbox.Authorize | controllers/emailController.js:414-419 | 404 iff the record is missing, 403 iff the user is neither sender nor recipient, otherwise the record |
| Mailbox.GetEmailById | controllers/emailController.js:251-282 | 404 for missing, 403 for no standing, 404 again for a record the user permanently deleted; a trashed record stays readable |
| Mailbox.ListedIsReadable | controllers/emailController.js:251-282 | anything listed in any of the user's views can be opened by id |
| Mailbox.SetRead | controllers/emailController.js:285-311 | after the access check only `read` changes, to the requested value |
| Mailbox.ReadStatusIsInvisible | controllers/emailController.js:285-311 | marking a record read or unread changes no user's view of any record |
| Mailbox.SetStarred | controllers/emailController.js:314-340 | after the access check only `starred` changes, to the requested value |
| Mailbox.StarThenUnstar | controllers/emailController.js:314-340 | starring then unstarring leaves the record unstarred with no other field moved |
| Mailbox.Archive | controllers/emailController.js:343-368 | after the access check only `archived` changes, to true |
| Mailbox.ArchiveIsShared | controllers/emailController.js:343-368 | the sender archiving removes the email from every recipient's inbox |
| Mailbox.MoveToTrash | controllers/emailController.js:371-400 | after the access check only `trashedBy` changes: it gains the user and nobody else, and stays free of duplicates |
| Mailbox.Restore | controllers/emailController.js:449-476 | after the access check only `trashedBy` changes: the user is gone and other users' entries keep their multiplicity |
| Mailbox.TrashThenRestore | controllers/emailController.js:371-476 | restoring after trashing an untrashed record returns the original store |
| Mailbox.TrashIdempotent | controllers/emailController.js:389-392 | trashing twice is trashing once |
| Mailbox.RestoreIdempotent | controllers/emailController.js:467-468 | restoring twice is restoring once |
| Mailbox.TrashIsPrivate | controllers/emailController.js:371-400 | trashing changes no other user's view of any record |
| Mailbox.RestoreIsPrivate | controllers/emailController.js:449-476 | restoring changes no other user's view of any record |
| Mailbox.TrashedByRecipientStaysSent | controllers/emailController.js:371-400 | a recipient's trashing puts the email in their trash and leaves the sender's Sent view of it as it was |
| Mailbox.PermanentlyDelete | controllers/emailController.js:403-446 | after the access check the record is removed iff every party other than the caller had already deleted it; otherwise only `permanentlyDeletedBy` gains the caller, at most once: a list already holding the caller is unchanged, and a list without duplicates stays without |
| Mailbox.PermanentDeleteIsPrivate | controllers/emailController.js:403-446 | permanent deletion, whether it removes the record or not, changes no other user's view |
| Mailbox.SurvivorsKeepAccess | controllers/emailController.js:432-440 | a party who has not deleted the record keeps it and can still open it |
| Mailbox.DeleteByAllRemoves | controllers/emailController.js:432-440 | once every party has deleted it in turn, the record is gone from the store |
| Mailbox.DraftReadableByRecipient | controllers/emailController.js:251-282 | a recipient can open someone else's unsent draft by id |
| Drafts.CreateDraft | controllers/emailController.js:639-663 | a new read draft from the caller, with `(No subject)`, empty body, no recipients for falsy inputs, the given parent, timestamp now, and every other field at its schema default (not starred, archived or deleted; no category, priority or stored reply; empty lists), and no other record changed |
| Drafts.OwnDraft | controllers/emailController.js:688-698 | the checks in order: 404 missing, 403 not the sender, 400 not a draft |
| Drafts.UpdateDraft | controllers/emailController.js:681-713 | subject and body change only when truthy, recipients whenever given (even empty), `parentId` whenever the key is present; nothing else changes |
| Drafts.EmptyUpdateIsNoOp | controllers/emailController.js:700-706 | an update that supplies nothing leaves the store as it was |
| Drafts.EmptyStringKeepsEmptyListClears | controllers/emailController.js:700-702 | an empty subject does not clear the subject but an empty recipient list clears the recipients |
| Drafts.DeleteDraft | controllers/emailController.js:716-747 | after the draft checks, deleting a draft is moving it to the caller's trash |
| Drafts.SendDraft | controllers/emailController.js:750-783 | 404, then 403 unless the caller is the sender, with no draft check; then only `isDraft` (false) and the timestamp change |
| Drafts.ResendOnlyRestamps | controllers/emailController.js:750-783 | sending an already sent email succeeds and only moves its timestamp |
| Drafts.SentIsDelivered | controllers/emailController.js:750-783 | after sending, the email is in the sender's Sent view and each remaining recipient's inbox |
| Drafts.CreateThenSend | controllers/emailController.js:639-783 | a new draft is in its author's Drafts and no inbox; once sent it is in Sent and the recipient's inbox |
| Ai.ClassifyPurpose | services/mistralService.js:194-215 | a recognised instruction is chosen exactly when the lower-cased purpose equals its label; otherwise the generic one |
| Ai.ClassifyIgnoresCase | services/mistralService.js:194 | a purpose and its lower-cased form get the same instruction |
| Ai.ClassifySameLetters | services/mistralService.js:194 | purposes equal up to letter case get the same instruction |
| Ai.ClassifyExamples | services/mistralService.js:158-166 | the model's own spellings are recognised and "Other" falls through to the generic instruction |
| Ai.ComposeDraft | services/mistralService.js:155-251 | a draft exists iff both calls reply; it has subject "Re: " + subject, the trimmed purpose, and the trimmed body of the reply asked for that purpose |
| Ai.FallbackDraft | services/mistralService.js:252-260 | the courtesy draft keeps the "Re: " subject with the fixed body and purpose "General" |
| Ai.StructuredItems | services/mistralService.js:128-146 | at most one item; one exactly when the brace-extracted trimmed reply parses, holding the parsed fields, never completed |
| Ai.StructuredExtraction | services/mistralService.js:99-152 | a failed call is rethrown; otherwise the structured items of the reply |
| Ai.NonBlankLines | services/mistralService.js:326-330 | no lines give none, one line gives its trim unless that is empty, and the kept lines are non-empty, trimmed, no more than the input, and free of line breaks when the input lines are |
| Ai.NonBlankLinesAppend | services/mistralService.js:326-330 | filtering distributes over concatenation |
| Ai.SimpleItems | services/mistralService.js:333-336 | one uncompleted item per non-blank line, in order, holding the trimmed line as the action |
| Ai.SimpleItemsWellFormed | services/mistralService.js:326-336 | every line-based item names a non-empty, trimmed, single-line action and is not completed |
| Ai.ThreeActionsTwoBlankLines | services/mistralService.js:326-336 | five lines with two blank give exactly the other three, trimmed, in order |
| Ai.SimpleItemsSplitAtLineBreak | services/mistralService.js:326-330 | the items of two texts joined at a line break are the items of each, concatenated |
| Mistral.Summarize | services/mistralService.js:12-61 | a failed call is rethrown; otherwise the parse of the brace span of the trimmed reply, or the could-not-parse summary |
| Mistral.Categorize | services/mistralService.js:64-96 | the trimmed reply, unchecked against the enum, or "To-Do" when the call fails |
| Mistral.BlankReplyCategorizesEmpty | services/mistralService.js:90 | a reply of white space categorises as the empty string |
| Mistral.ExtractActionItems | services/mistralService.js:99-152 | a failed call is rethrown; otherwise at most one uncompleted item, present iff the extracted JSON parses, and then holding exactly the parsed fields |
| Mistral.ExtractSimpleActionItems | services/mistralService.js:300-341 | a failed call is rethrown; otherwise one uncompleted item per non-blank line, each holding that trimmed line as its only field |
| Mistral.DraftReply | services/mistralService.js:155-261 | never throws for an email object; subject "Re: " + subject always; the courtesy draft whenever a call fails; otherwise the trimmed purpose reply as purpose and the trimmed reply to the purpose's instruction as body |
| Mistral.ChatResponse | services/mistralService.js:264-297 | the trimmed reply, or the fixed apology when the call fails |
| AiService.TwoTier | services/aiService.js:12-64 | the primary's value when it does not throw, otherwise the secondary's when that does not throw, otherwise the fixed value |
| AiService.SecondarySummarize | services/aiService.js:46-55 | the secondary parses the whole trimmed reply, with no brace extraction |
| AiService.Summarize | services/aiService.js:12-64 | the primary's summary, else the secondary's, else the attention summary when both calls fail |
| AiService.SummarizeOutcomes | services/aiService.js:12-64 | every summary is a parsed reply or a fixed summary; with a parser that never yields it, the attention summary appears iff both calls fail |
| AiService.SecondaryDoesNotExtract | services/aiService.js:46-55 | a secondary reply with prose around its JSON is reported as unparsable even though the brace span parses |
| AiService.SecondaryCategorize | services/aiService.js:71-103 | the secondary's trimmed reply, rethrown on failure |
| AiService.Categorize | services/aiService.js:67-105 | the primary's trimmed reply, or "To-Do" when the primary call fails |
| AiService.CategorizeIgnoresSecondary | services/aiService.js:67-105 | the category does not depend on the secondary provider at all |
| AiService.ExtractActionItems | services/aiService.js:108-164 | the primary's line-based items, else the secondary's structured item, else none; never completed |
| AiService.PrimaryExtractionIsLineBased | services/aiService.js:108-111 | a one-line JSON reply from the primary becomes one item holding the whole trimmed line, not parsed fields |
| AiService.SecondaryDraftReply | services/aiService.js:171-268 | the secondary draft exists exactly when both secondary calls reply, with the "Re: " subject, the trimmed purpose reply as purpose and the trimmed reply to that purpose's instruction as body |
| AiService.DraftReply | services/aiService.js:167-279 | the draft always has the "Re: " subject and is the primary's draft |
| AiService.DraftIgnoresSecondary | services/aiService.js:167-279 | when the primary fails, the courtesy draft is returned even though the secondary could draft |
| AiService.SecondaryChatResponse | services/aiService.js:286-319 | the secondary's trimmed reply, rethrown on failure |
| AiService.ChatResponse | services/aiService.js:282-321 | the primary's trimmed reply, or the apology when the primary call fails |
| AiService.ChatIgnoresSecondary | services/aiService.js:282-321 | the chat answer does not depend on the secondary provider |
| Replies.NormalizeCompleted | controllers/emailController.js:517-521 | items keep their fields; `completed` is true exactly when it was given as true |
| Replies.NormalizeKeepsExplicit | controllers/emailController.js:517-521 | normalisation changes nothing on items that state `completed` |
| Replies.ExtractEndpoint | controllers/emailController.js:509-528 | as many items as the service returns, none completed |
| Replies.ExtractEndpointIsServiceOutput | controllers/emailController.js:509-528 | the endpoint returns the service's items unchanged |
| Replies.SimpleExtractEndpoint | controllers/emailController.js:531-550 | an error exactly when the primary call fails, otherwise the line-based items |
| Replies.SimpleEndpointHasNoFallback | controllers/emailController.js:531-550 | when the primary fails the simple endpoint errors while the general one answers with the secondary's items |
| Replies.SaveActionItems | controllers/emailController.js:553-580 | 404 iff missing; otherwise only the record's items change, to the normalised items |
| Replies.SaveThenRead | controllers/emailController.js:553-580 | items that state `completed` are stored exactly as sent |
| Replies.SaveActionItemsNeedsNoAccess | controllers/emailController.js:553-580 | any caller, party or not, can overwrite an email's items |
| Replies.CreateReplyDraft | controllers/emailController.js:598-636 | 404 iff the original is missing; otherwise one new read draft from the caller to the original's sender with the generated subject and body and no parent, every other field at its schema default (timestamp now; not starred, archived or deleted; no category, priority or stored reply; empty lists), and no other record changes |
| Replies.ReplyDraftIsAuthorsDraft | controllers/emailController.js:598-636 | the reply draft is in its author's Drafts view and in nobody's inbox |
| Replies.ReplyDraftIsNotThreaded | controllers/emailController.js:619-628 | the reply draft is not in the original's corrected thread |
| Replies.ReplyDraftNeedsNoAccess | controllers/emailController.js:786-820 | a reply can be drafted to an email the caller is not a party to |
| AutoCategorize.Pending | controllers/emailController.js:860-865 | a selected email is undeleted and the user is a party, and it is in the user's inbox whenever the user has neither trashed nor permanently deleted it |
| AutoCategorize.Recategorized | controllers/emailController.js:882-883 | the saved record carries the accepted category and differs in nothing else |
| AutoCategorize.CountIf | controllers/emailController.js:877-890 | the count never exceeds the number of ids |
| AutoCategorize.CategorizeAllEffect | controllers/emailController.js:877-890 | the loop changes exactly the records whose category is accepted and written, and no record appears or disappears |
| AutoCategorize.CountIsCardinality | controllers/emailController.js:877-890 | for distinct ids the counter is the number of saved ids and the rest are the failed ones |
| AutoCategorize.AutoCategorizeInbox | controllers/emailController.js:855-899 | the store after the loop, `categorized` is the number of saved emails, `failed` the number of the rest, and together they are every selected email |
| AutoCategorize.AutoCategorizeEffect | controllers/emailController.js:860-890 | every pending email whose category is accepted and written carries it; every other record is unchanged |
| AutoCategorize.SavedArePending | controllers/emailController.js:860-890 | the saved emails are exactly the pending ones whose category is accepted and written |
| AutoCategorize.LowerCaseAnswerFails | controllers/emailController.js:879-889 | an answer without a capital letter, blank or "to-do" included, is rejected by the schema |
| AutoCategorize.ProviderFailureFilesAsToDo | controllers/emailController.js:879-883 | a failed primary call files the email as To-Do |
| AutoCategorize.PendingVersusInbox | controllers/emailController.js:860-865 | the query selects every non-deleted inbox email, and also emails the user trashed, which the inbox does not list |
| Accounts.UpdateProfile | controllers/userController.js:161-201 | 404 iff missing; 400 iff a truthy new address differs and is taken; success iff neither, and then name and address change only when truthy, and nothing else changes |
| Accounts.UpdateProfileKeepsEmailsUnique | controllers/userController.js:172-179 | a successful update keeps every address unique |
| Accounts.ChangePassword | controllers/userController.js:204-259 | each rejection exactly when the earlier checks pass and its own fails; on success only this password changes |
| Accounts.ChangePasswordSucceedsIff | controllers/userController.js:204-259 | success iff the current password is right, the new one is confirmed, differs and, as a string, has at least six code units |
| Accounts.ChangeThenAuthenticate | controllers/userController.js:250-252 | after a change the stored password is the new one, which differs from the current one given, and name and address stay |
| Accounts.CheckOrder | controllers/userController.js:239-248 | a wrong current password is reported before a short new one |

## Findings

| source | as written | input that shows it | evidently intended | confidence | as-written member | corrected member |
|---|---|---|---|---|---|---|
| controllers/emailController.js:835-842 | the thread query includes `{ parentId: originalEmail.parentId }`, which is `{ parentId: null }` when the email has no parent | any root email as anchor and any other root email, even between other users | the parent clauses apply only when the email has a parent | not executed | Views.InThreadAsWritten | Views.ThreadIds |

`Views.InThreadAsWritten` is the query as written, and `Views.ThreadLeaksUnrelatedRoots`
exhibits the leak on every pair of root emails. `Views.ThreadIds` answers with the
corrected membership `Views.InThread`, and `Views.ThreadCorrectionOnlyRemoves` shows that
the correction only drops members.

## Left out

- The language-model SDKs, prompt wording, model names, temperatures and token limits.
  Each call is one `Request` value answered by a `Provider` parameter.
- `userInstruction` in the body of `createReplyDraft` is read but never used, so it is
  not modelled.
- `startAgentConversation` is a pass-through to an external agent API.
- `getMockInbox` returns fixed data, and `getAllEmails` lists every undeleted record, not filtered by user.
- The `summarizeEmail`, `categorizeEmail` and `draftReply` endpoints only forward the
  service result. They are covered by the `AiService` members.
- The chat controller and the `register`, `login` and authentication middleware are
  outside this core.
- `models/User.js` is not part of this model. Accounts are a map from id to name,
  address and password.
- Accounts.ChangePassword: bcrypt hashing is modelled as equality with the stored
  password.
- Accounts.ChangePassword: the request fields are modelled as strings. A JSON number
  sent as both `newPassword` and `confirmPassword` has no `length`, so the check at
  `controllers/userController.js:246` compares `undefined < 6`, which is false, and lets
  a one-digit password through; the model cannot express that request.
- Accounts.ChangePasswordSucceedsIff: the six-unit bound is proved for string fields
  only, for the reason above.
- Mongo internals: `populate` and ObjectId casting. A malformed id answers 500 in the
  code, and here is simply an absent key.
- Ordering by timestamp is not modelled, so views and threads are sets of ids.
- Exceptions from the database other than the modelled oracles are not modelled. These
  are the 500 answers, and `actionItems.map` on a missing array.
- Fresh ids and the current time are parameters (`newId`, `now`).
- AutoCategorize.AutoCategorizeInbox: the query's answer is a parameter. The method
  requires it to be distinct stored ids, and `AutoCategorizeEffect` assumes it holds every
  pending record. The order of that answer is not modelled.
- Text.Lower: `toLowerCase` is modelled for ASCII letters only. The only non-ASCII
  characters whose JavaScript lower case contains an ASCII letter are U+212A (Kelvin
  sign, to `k`) and U+0130 (to `i` followed by the non-ASCII U+0307). No purpose label
  contains `k`, and U+0307 is in none, so a purpose matches a label under this lowering
  exactly when it does under JavaScript's.
- Mistral.DraftReply: the request's `email` is assumed to be an object. Without one, the
  catch block's own `email.subject` (services/mistralService.js:255) throws, which the
  model does not express.
- AiService.DraftReply: the request's `email` is assumed to be an object. Without one,
  the secondary prompt (services/aiService.js:185) and its catch block
  (services/aiService.js:272) throw as well, so `/draft-reply` answers 500.
- Mailbox.SetRead: the body's `read` is modelled as a boolean. The code assigns whatever
  is sent: a missing key unsets the field (read back as the schema default `false`),
  `null` is stored as `null`, and strings such as "yes" are cast to `true` by Mongoose.
- Mailbox.SetStarred: the body's `starred` is modelled as a boolean, with the same
  missing, `null` and cast cases as `read`; the response echoes the stored value. The
  starred folder asks for `starred: true`, so a missing or `null` flag lists like `false`.
- Replies.NormalizeCompleted: an explicit `completed: null` is treated like a missing
  one, whereas the code keeps `null`.
- The parsed JSON of `JSON.parse` is an oracle returning the expected shape. Other JSON
  values (numbers, arrays) are not modelled.
