# Verification of the PTV content assistant

A Dafny model of the parts of this repository where a mistake is hard to see: the proposal
and review workflow, the planning of writes to PTV (Palvelutietovaranto, the Finnish service
catalogue), the comparison behind every diff, concurrent and paged reading, timed state, and
the spreadsheet export. The model follows the code branch by branch and proves what the code
is for; where the code falls short of that, the exact condition is proved together with an
input that shows it.

`dafny verify dfyconfig.toml` checks the whole project with Dafny 4.11.

## Modules

| module | what it models |
|---|---|
| `Interleaving` | resolve and confirm calls in small steps, any number of them overlapping and stopping anywhere |
| `InterleavingGuards` | what every resolution and write rests on when calls overlap |
| `Workflow` | proposals, reviewers, review items and campaigns with each tool call as one step |
| `WorkflowRoles` | who may make which call, by name of the role, and exactly when a call is done |
| `WorkflowTables` | the same calls as methods that update tables in place, each proved to be the step of `Workflow` and to keep what holds of the tables |
| `Crc32`, `Bytes`, `Zip`, `SheetText` | the spreadsheet export: CRC-32, the stored ZIP writer with an independent reader, column and sheet names, XML text |
| `StableJson`, `DiffFields` | the comparison key and the field-by-field diff |
| `LanguageText`, `ServiceHours` | language lists and texts; service hours, their canonical form, wire form and printed ranges |
| `JsonTexts`, `HoursDiff`, `ServiceDiff` | what the diff reports after a write: service hours in their canonical form, and the texts and classifications of a service, as the JSON that is compared |
| `WorkerPool`, `Paging`, `OrganisationScope` | bounded concurrency, windows over fixed pages, the closure over sub-organisations |
| `RateLimit`, `Lockout`, `CodeNameCache` | the rate limiter, the login lockout and the two-level cache over whole call sequences |
| `ServicePut`, `Connections` | a reviewed change as the body of PTV's PUT, and what that PUT leaves |
| `Wrappers` | optional values and distinct elements |

Code that updates variables or fields step by step is a method or class here, with loop
invariants, proved against a specification function; pure code is functions and lemmas.
PTV's PUT is modelled by the rules in the code's comments: a key that is not sent keeps its
field, a delete flag clears it, a key that is sent replaces it, and the connection PUT
replaces the whole list. Clocks, members' roles, the four-eyes setting, collations and what PTV
answers are parameters.

## Where code and documentation differ

The model follows the code.

- `src/mcp/proposalQueue.ts:594-615`: an `approve_and_apply` writes PTV before anything looks at
  the proposal's status; the conditional update (`src/proposals/proposalService.ts:192-197`) keeps
  two resolutions from both succeeding, but not from both writing, and a rejected proposal can
  still be written. Exactly when: `Interleaving.WrittenOnceExactly`,
  `Interleaving.RejectedUnwrittenExactly`, `Interleaving.WrittenSettledExactly`, and with
  one call at a time `Workflow.WrittenOnceAsSeen`.
- `src/mcp/proposalQueue.ts:596-605` marks a proposal failed when its write breaks; the change may
  still have reached PTV, because a service is written before its connections
  (`src/ptv/v11/adapter.ts:462-468`) and the audit entry is written inside the same `try`
  (`src/mcp/proposalPipeline.ts:206-213`) (`Workflow.WriteResolvesExactlyPending`).
- `src/ptv/v11/connectionWrite.ts:14-19` and `58-62` promise that connections that stay keep their
  extra info. They are resent as they were read, with faxes among typed `phoneNumbers`, while the
  PUT takes faxes separately and its phone numbers have no type
  (`src/ptv/v11/connectionDetails.ts:27-30`), so faxes and text message numbers become ordinary
  phone numbers (`Connections.KeptRelation`, `Connections.FaxBecomesPhone`).
- `src/mcp/proposeChanges.ts:67-77` describes classifications as compared as sets; they are
  compared as multisets (`DiffFields.SetComparisonExactly`, `DiffFields.DuplicateIsReported`).
- `src/mcp/proposeChanges.ts:98-108` says the reviewed merge is what applying produces. Names,
  summaries and descriptions are read with a fallback to other kinds of text, so clearing a
  language can fail to show (`ServicePut.NamesReadBack`, `ServicePut.SummariesReadBack`,
  `ServicePut.DescriptionsReadBack`), and changing descriptions can change the summary that is
  read although the change does not touch it (`ServicePut.UntouchedSummaries`,
  `ServicePut.SummaryFollowsDescription`).
- `src/ptv/v11/mappers/common.ts:36-43` writes no empty text, while the diff
  (`src/mcp/proposeChanges.ts:117-132`) tells an empty text from a missing one: a change with an
  empty text is still reported after it was written (`ServiceDiff.NamesReported`,
  `ServiceDiff.EmptyNameIsReported`), so `src/mcp/proposalQueue.ts:201-210` never takes it for
  published.
- `src/mcp/proposeChanges.ts:72-77` shows a classification entry without a uri by its code. It is not
  written (`src/ptv/v11/writeMapping.ts:218-223`) except among the industrial classes, and there as
  the class's URI, so unless its code is that URI the diff still reports it after the write
  (`ServiceDiff.ListsReported`).
- `src/ptv/v11/writeMapping.ts:34-37` says an undefined value clears a field; for classification
  lists it leaves the list alone (`ServicePut.ListsAfterPut`, `ServicePut.BodyIsAcceptable`).
- `src/mcp/proposeChanges.ts:192-197` says key order does not matter; it does for keys the
  locale's collation ties (`StableJson.ExactExactlyWithoutTies`, `StableJson.TiesBreakTheKey`).
- `src/mcp/proposeChanges.ts:205`: an undefined array element leaves no trace in the key, so
  `[undefined]` and `[]` share one (`StableJson.HolesAreInvisible`).
- `src/export/xlsx.ts:22-30` keeps carriage returns, which XML readers turn into line feeds
  (`SheetText.XmlTextReadsBack`).
- `src/oidc/rateLimit.ts:16-26`: a limit below 1 still lets one request per window through, which
  is why the bound is stated with max(1, limit).

## Model

| member | source | states |
|---|---|---|
| `Interleaving.EveryInterleaving` | src/mcp/proposalQueue.ts:524-680 | Under every interleaving of any number of resolve and confirm calls: the statuses a proposal has had form one of six paths (pending to approved, rejected, applied or failed; approved to applied), it is resolved exactly when it is not pending, it gets at most one ResolveProposal entry and a ConfirmManualPublish entry only on the approved-then-applied path; every entry names the result the row went through and the user of a call of that kind that has ended, which for ResolveProposal is the resolver the row records |
| `Interleaving.EveryMoveAudited` | src/mcp/proposalQueue.ts:557-558 | Once no call is between its status update and its audit entry, every move has exactly its one entry |
| `Interleaving.NothingIsUndone` | src/proposals/proposalService.ts:157-220 | From any moment of any run to any later one: statuses are only added, the resolver stays who it is, a rejected, applied or failed proposal never changes, and a target id changes only when a new item becomes applied |
| `Interleaving.StepKeepsInv` | src/proposals/proposalService.ts:198-220 | Each single step (read, guard, write, conditional update, audit) of any call keeps what the runs above rest on |
| `Interleaving.StepKeepsCounts` | src/mcp/proposalQueue.ts:557-558 | Entries written plus calls about to write one always equal the moves made, and writes to PTV equal the calls that wrote |
| `Interleaving.WritesPerApplyingCall` | src/mcp/proposalQueue.ts:594-615 | A proposal's change reaches PTV, in a write that succeeds or one that breaks, at most once per approve_and_apply call |
| `Interleaving.BothCanWrite` | src/mcp/proposalQueue.ts:594-615 | Whatever else is submitted, any two calls that apply a proposal can both write it to PTV; the first then moves it, the second ends without moving it |
| `Interleaving.RejectedCanBeWritten` | src/mcp/proposalQueue.ts:524-615 | Whatever else is submitted, a proposal that one call applies and another rejects can end rejected with its change written to PTV |
| `Interleaving.WrittenOnceExactly` | src/mcp/proposalQueue.ts:594-615 | Every schedule of the submitted calls writes a proposal at most once if and only if at most one of them applies it |
| `Interleaving.RejectedUnwrittenExactly` | src/mcp/proposalQueue.ts:524-615 | No schedule of the submitted calls leaves a rejected proposal written if and only if they do not both apply and reject it |
| `Interleaving.WrittenSettledExactly` | src/mcp/proposalQueue.ts:524-615 | Every schedule of the submitted calls that has come to rest has what it wrote applied or failed if and only if the calls do not both apply and reject, or both apply and export, the proposal |
| `InterleavingGuards.EveryMoveGuarded` | src/mcp/proposalQueue.ts:524-680 | Under every interleaving: a resolved proposal was resolved by a call of its resolver that asked for just that and, for anything but a rejection, had found every reviewer signed off and the proposal someone else's unless two eyes are enough, and the change exportable, written or broken as the status says; a confirmed one had been found in PTV; new items have the id their call was given; and what was written was written by such a call that applies |
| `InterleavingGuards.WritesExactly` | src/mcp/proposalQueue.ts:594-615 | A step writes to PTV exactly when a call that applies takes it after its guards and the write succeeds, or breaks after it got there |
| `InterleavingGuards.ConfirmingWorks` | src/mcp/proposalQueue.ts:632-680 | Confirming an approved proposal goes through when PTV has its change, with the id for a new item |
| `Workflow.EveryReachableState` | src/reviews/reviewCampaigns.ts:234-693 | In every reachable state: the proposer is never among a proposal's reviewers and no user is listed twice; approved, applied and failed proposals have only approved sign-offs; a linked proposal has its item's tenant, campaign environment and target; a confirmed item has no pending linked proposal and a changes_proposed one has a linked proposal; each tenant, environment and organisation has at most one open campaign |
| `Workflow.RunFollows` | src/proposals/proposalService.ts:281-348 | Over whole runs: reviewers and decisions freeze once a proposal leaves pending, nobody is taken off a list, a linked proposal never moves, resolver and target stay, a closed campaign stays closed and its items never change |
| `Workflow.EveryCall` | src/mcp/tools/proposalTools.ts:58-77 | Every tool call keeps those invariants, undoes nothing, and leaves every other tenant's rows as they were |
| `Workflow.NobodyApprovesTheirOwn` | src/mcp/proposalQueue.ts:524-548 | In a tenant that never switches four-eyes off, no approved, applied or failed proposal was resolved by its proposer |
| `Workflow.TakesSomeoneElse` | src/mcp/proposalQueue.ts:539-548 | Under four-eyes a proposal that only its proposer tries to resolve stays pending or rejected and is never written to PTV, whatever else is called and however often |
| `Workflow.WithdrawingWorks` | src/mcp/proposalQueue.ts:560-569 | Any approver, the proposer included, can reject a pending proposal; it stays rejected whatever is called afterwards, and nothing is written by that |
| `Workflow.LinkingAsksReviewer` | src/reviews/reviewCampaigns.ts:490-539 | Linking someone else's proposal to an item makes the item's reviewer a required reviewer |
| `Workflow.ItemReviewerSignsFirst` | src/reviews/reviewCampaigns.ts:482-539 | After such a link, whatever is called next, the proposal is approved, applied or failed only after that reviewer has signed it off |
| `Workflow.FourEyesKeptFor` | src/mcp/proposalQueue.ts:539-548 | A proposal comes past approval only by a call that resolves it, whose caller is then its resolver, and under four-eyes not its proposer |
| `Workflow.WriteResolvesExactlyPending` | src/mcp/proposalQueue.ts:594-615 | A call that writes PTV, success or not, resolves exactly a pending proposal: as applied, or as failed when the write broke after it had reached PTV; on any other status it writes all the same and changes no row; it reports success exactly when the proposal was pending and the write succeeded |
| `Workflow.WrittenOnceExactly` | src/mcp/proposalQueue.ts:594-615 | One call at a time: at every moment of a run what has reached PTV is applied or failed and has reached it once, if and only if every write is of a pending proposal, or of an applied or failed one not written before |
| `Workflow.WrittenOnceAsSeen` | src/mcp/proposalQueue.ts:594-615 | The same with a condition callers can check: in every variant of a run that differs only in whether its broken writes had reached PTV, each change reaches it at most once and only when applied or failed, if and only if every call that may write is made on a pending proposal, or on an applied or failed one that no earlier call can have written, which the statuses and answers along the run show |
| `Workflow.LookingFirstWritesOnce` | src/mcp/proposalQueue.ts:594-615 | One call at a time, each apply call made on a pending proposal: each change reaches PTV at most once, and what has reached it is applied or failed |
| `Workflow.RejectedIsWritten` | src/mcp/proposalQueue.ts:524-615 | Without that check: three calls in sequence after which a rejected proposal has been written to PTV |
| `Workflow.ListedAfterAdding` | src/proposals/proposalService.ts:281-299 | After adding reviewers exactly the earlier and the added users are listed |
| `Workflow.AddingKeeps` | src/proposals/proposalService.ts:281-299 | Adding keeps every earlier entry with its decision and lists nobody twice |
| `Workflow.NamedUsers` | src/mcp/proposalQueue.ts:461-473 | A review request that is accepted never names the proposer |
| `WorkflowTables.Tables.InsertReviewers` | src/proposals/proposalService.ts:281-299 | The row-by-row insert that does nothing on conflict equals the specified addition |
| `WorkflowTables.Tables.RecordDecision` | src/proposals/proposalService.ts:326-348 | The decision is recorded on exactly the caller's row, and the answer says whether there was one |
| `WorkflowTables.Tables.AssignEach` | src/reviews/reviewService.ts:334-364 | The update assigns exactly the campaign's items that the selection names |
| `WorkflowTables.Tables.FindOpenCampaign` | src/reviews/reviewService.ts:204-223 | Finds an open campaign of the tenant, environment and organisation exactly when there is one |
| `WorkflowTables.Tables.QueueForReviewItem` | src/mcp/tools/proposalTools.ts:58-77 | Keeps the tables in order, undoes nothing and leaves other tenants' rows alone; on success a new pending proposal of the caller is stored and the item it answers is open, else nothing changes |
| `WorkflowTables.Tables.LinkProposalToReviewItem` | src/reviews/reviewCampaigns.ts:490-539 | Reopening and adding the reviewer leave the tables as specified |
| `WorkflowTables.Tables.AttachProposalToReviewItem` | src/reviews/reviewCampaigns.ts:546-580 | Keeps the tables in order, undoes nothing and leaves other tenants' rows alone; on success the still pending proposal answers the item, which is open, else nothing changes |
| `WorkflowTables.Tables.RequestReviewers` | src/mcp/proposalQueue.ts:445-483 | Keeps the tables in order, undoes nothing and leaves other tenants' rows alone; on success exactly the earlier and the named users are reviewers |
| `WorkflowTables.Tables.SignOffProposal` | src/mcp/proposalQueue.ts:492-522 | Keeps the tables in order, undoes nothing and leaves other tenants' rows alone; on success exactly the caller's own decision is recorded, else nothing changes |
| `WorkflowTables.Tables.ResolveProposal` | src/mcp/proposalQueue.ts:524-615 | Keeps the tables in order, undoes nothing and leaves other tenants' rows alone; only a pending proposal's row changes; on success it has the asked resolution, by the caller, and an approval has every sign-off and, under four-eyes, is not the proposer's own |
| `WorkflowTables.Tables.ConfirmManualPublish` | src/mcp/proposalQueue.ts:632-680 | Keeps the tables in order, undoes nothing and leaves other tenants' rows alone; on success an approved proposal whose change PTV holds is applied and keeps who approved it, else nothing changes |
| `WorkflowTables.Tables.StartReviewCampaign` | src/reviews/reviewCampaigns.ts:234-295 | Keeps the tables in order, undoes nothing and leaves other tenants' rows alone; on success the new campaign is the only open one of its tenant, environment and organisation and has exactly the new items, else nothing changes |
| `WorkflowTables.Tables.AssignReviewItems` | src/reviews/reviewCampaigns.ts:339-388 | Keeps the tables in order, undoes nothing and leaves other tenants' rows alone; on success exactly the selected items of an open campaign are assigned, else nothing changes |
| `WorkflowTables.Tables.CompleteReviewItem` | src/reviews/reviewCampaigns.ts:588-637 | Keeps the tables in order, undoes nothing and leaves other tenants' rows alone; on success the item is confirmed with no pending proposal left, or marked as changed with at least one proposal, by the caller; else nothing changes |
| `WorkflowTables.Tables.ReopenReviewItem` | src/reviews/reviewCampaigns.ts:640-667 | Keeps the tables in order, undoes nothing and leaves other tenants' rows alone; on success the item of an open campaign is open and unreviewed, else nothing changes |
| `WorkflowTables.Tables.CloseReviewCampaign` | src/reviews/reviewCampaigns.ts:670-693 | Keeps the tables in order, undoes nothing and leaves other tenants' rows alone; on success no campaign of its tenant, environment and organisation is open any more, so one can be started, else nothing changes |
| `WorkflowRoles.DoneExactly` | src/mcp/proposalQueue.ts:386-680 | A call is answered as done if and only if its caller is entitled to it, by name of the role (approver, publisher or administrator to resolve and confirm; publisher or administrator to write to PTV and to run campaigns; anyone above viewer to propose, ask for review and sign off; their own items and proposals, otherwise publishers), and the rows and PTV allow it |
| `WorkflowRoles.OnlyTheEntitled` | src/mcp/authorization.ts:31-41 | A call changes nothing for a caller who is not entitled to it, and only a publisher or administrator makes PTV change |
| `WorkflowRoles.RefusalsAreTrue` | src/mcp/authorization.ts:31-41 | Not authorized means not entitled to the call or its write, not found means that something it names is not of the tenant, and where the role is looked at first a lacking one is told nothing else |
| `WorkflowRoles.RightPeople` | src/auth/rbac.ts:19-33 | Over whole runs: what has left pending was resolved in a call by an approver, publisher or administrator of its tenant, who is its resolver, rejected exactly when that call rejected it; what has reached PTV was applied in a call by a publisher or administrator |
| `WorkflowRoles.ProposedRow` | src/mcp/tools/proposalTools.ts:58-77 | A queued proposal is pending, the caller's, unresolved, and has as required reviewer at most its item's assignee; a new item has no id yet |
| `WorkflowRoles.AttachedReviewers` | src/reviews/reviewCampaigns.ts:490-539 | Attaching adds exactly the item's assignee to the required reviewers, unless that is the caller or the proposer |
| `WorkflowRoles.StartedExactly` | src/reviews/reviewCampaigns.ts:234-295 | A started campaign is open and has the given items, open, nobody's and not reviewed; everything else stays |
| `WorkflowRoles.AssignedExactly` | src/reviews/reviewService.ts:334-364 | An assignment gives the reviewer exactly the named items of the campaign, kind and organisation; without names, and unless it reassigns, only those that are nobody's |
| `Workflow.LinkedAboutItem` | src/reviews/reviewCampaigns.ts:416-480 | In every reachable state a linked update is about the same service or channel as its item, a linked change of connections about an end of one |
| `Workflow.AppliedTarget` | src/proposals/proposalService.ts:157-220 | A new item that becomes applied is from then on about the id PTV gave it; anything else stays about what it was |
| `Crc32.BuildTable` | src/export/xlsx.ts:183-191 | Entry n of the table is the register that eight single-bit steps make of n |
| `Crc32.ComputeCrc` | src/export/xlsx.ts:193-197 | The table-driven CRC equals the bit-at-a-time reflected CRC-32 (section 8 of RFC 1952) of every byte sequence |
| `Crc32.PolynomialTerms` | src/export/xlsx.ts:187-187 | The register has the generator polynomial of the CRC-32 (section 8 of RFC 1952), term by term |
| `Crc32.CheckValue` | src/export/xlsx.ts:193-197 | The CRC of 123456789 is the standard's check value |
| `Crc32.TableStep` | src/export/xlsx.ts:195-195 | One table lookup does the work of eight single-bit steps |
| `Crc32.ShiftsLinear` | src/export/xlsx.ts:187-187 | The steps are linear over exclusive or, which is what lets a table stand for them |
| `Crc32.OneByteChangeDetected` | src/export/xlsx.ts:193-197 | Changing one byte anywhere always changes the CRC |
| `Zip.ZipStored` | src/export/xlsx.ts:199-254 | The writer's buffers and running offsets produce the specified archive, and a reader gets the files back from it exactly when they are within the format's limits |
| `Zip.RoundTripExactlyWithinLimits` | src/export/xlsx.ts:199-254 | A reader that starts from the end record and follows the central directory and each local header (ZIP APPNOTE sections 4.3.16, 4.3.12, 4.3.7) gets back the same names, contents, flags, dates and CRCs in order if and only if sizes and offsets are below 2^32, names and file count below 2^16 |
| `Zip.UnzipArchive` | src/export/xlsx.ts:199-254 | Within the limits the reader gets everything back |
| `Zip.UnzipNeedsLimits` | src/export/xlsx.ts:231-245 | Beyond them the truncated fields no longer lead the reader to the files |
| `Zip.JoinParts` | src/export/xlsx.ts:246-253 | The copied buffer is the concatenation of the parts |
| `Zip.WriteLocalHeader` | src/export/xlsx.ts:209-220 | The fields set at their offsets make the specified local header |
| `Zip.WriteCentralHeader` | src/export/xlsx.ts:223-235 | The fields set at their offsets make the specified central entry |
| `SheetText.ColumnName` | src/export/xlsx.ts:41-47 | The loop builds the letters of the column |
| `SheetText.ColumnsOneToOne` | src/export/xlsx.ts:40-47 | Column names and numbers are one to one, and every string of letters names a column |
| `SheetText.SheetName` | src/export/xlsx.ts:49-57 | Whatever names came before, and whatever toLowerCase does to letters, the search ends with a name of 1 to 31 characters without forbidden ones, different from all of them whatever the case; the wanted name is taken when it is free, else the first free one of its numbered forms, shortened to leave room |
| `SheetText.BaseIs` | src/export/xlsx.ts:49-51 | The wanted name is the first 31 characters with a space for each of the seven that Excel forbids, or Sheet |
| `SheetText.KeptCharacters` | src/export/xlsx.ts:23-30 | Of a text exactly the control characters other than tab, line feed and carriage return are left out, and the rest stays in order |
| `SheetText.XmlTextReadsBack` | src/export/xlsx.ts:23-38 | Escaped cell text reads back without control characters and with line feeds for line ends (section 2.11 of XML 1.0), so as it was if and only if it has neither control characters nor carriage returns; it holds nothing that could end an element or attribute |
| `StableJson.KeyIsExact` | src/mcp/proposeChanges.ts:204-213 | When the collation ties no two keys of an object in a JSON value, another value has its key text exactly when the two are equal up to member order and undefined members |
| `StableJson.ExactExactlyWithoutTies` | src/mcp/proposeChanges.ts:204-213 | For each value: all values equal to it share its key text if and only if the collation ties no two keys of an object in it |
| `StableJson.SameKeyEqual` | src/mcp/proposeChanges.ts:204-213 | Under any collation, one key text means equal values: the text is uniquely readable |
| `StableJson.KeyNeedsAntisymmetry` | src/mcp/proposeChanges.ts:208-210 | Among collations that rank every two keys, all equal values share a key text exactly when the collation ties no two different keys |
| `StableJson.TiesBreakTheKey` | src/mcp/proposeChanges.ts:208-210 | Two keys the collation ties: equal objects with different key texts |
| `DiffFields.ComputeDiff` | src/mcp/proposeChanges.ts:140-178 | The loop over the touched fields yields the specified entries in order |
| `DiffFields.DiffLocalizedField` | src/mcp/proposeChanges.ts:117-132 | The loop over both texts' languages yields the specified entries |
| `DiffFields.DiffIsExact` | src/mcp/proposeChanges.ts:140-178 | The diff names a field exactly when the change touches it and it really differs: per language for texts, as a multiset of ids or identities for lists, by its own value for a classification field that is no list, up to member order for the rest, where the collation ties no two keys of an object |
| `DiffFields.FieldReportedExactly` | src/mcp/proposeChanges.ts:149-175 | One touched field is reported exactly when it really differs |
| `DiffFields.MissingIsEmpty` | src/mcp/proposeChanges.ts:117-202 | A missing field counts as null, and where lists or texts are compared as an empty one |
| `DiffFields.LocalizedEntriesExact` | src/mcp/proposeChanges.ts:117-132 | A text's entries are exactly the languages whose texts differ, with both texts |
| `DiffFields.ListKeyIsExact` | src/mcp/proposeChanges.ts:72-77 | The list key tells two lists apart exactly when they differ as multisets |
| `DiffFields.SetComparisonExactly` | src/mcp/proposeChanges.ts:67-77 | A list is compared as a set with every duplicate-free list if and only if it has no duplicates itself |
| `DiffFields.DuplicateIsReported` | src/mcp/proposeChanges.ts:67-77 | The input that shows it: a classification listed twice against once is reported as a change although the sets are equal |
| `DiffFields.ClassificationsShownAsProposed` | src/mcp/proposeChanges.ts:84-96 | A reported classification list keeps the identities of the change; only names are added |
| `DiffFields.LexIsTotalOrder` | src/mcp/proposeChanges.ts:209-209 | There is a collation that ties no two keys, the code unit order the lists are sorted by |
| `DiffFields.ShownExactly` | src/mcp/proposeChanges.ts:140-178 | A touched field that is no localized text has exactly one entry when it really differs and none otherwise, from its current value to the change's own; of a classification list entry by entry, where names that are lacking are those of the first current entry with the same uri or code |
| `DiffFields.TextsShownExactly` | src/mcp/proposeChanges.ts:117-132 | A touched localized text has one entry for each language in which it differs, with both texts, and no other |
| `ServiceHours.HoursReadBack` | src/ptv/v11/channelFields.ts:212-268 | Hours written to v11 and read back have the same canonical form if and only if their dates have at most ten characters, their title is absent or filled, and their times are HH:mm (or no clock time at all) |
| `ServiceHours.WrittenHoursShowNoChange` | src/ptv/v11/channelFields.ts:212-268 | Lists of hours written and read back have equal canonical forms exactly when every hour is in that form |
| `ServiceHours.HoursReadAs` | src/ptv/v11/channelFields.ts:212-268 | What any hours become: type and set flags stay, dates keep ten characters, titles their filled texts, and hours without an end date are valid for now unless they say otherwise |
| `ServiceHours.SameCanonicalExactly` | src/ptv/serviceHours.ts:41-60 | Hours compare equal exactly when they agree in type, dates, set flags, titles and sorted written-out times; a missing flag counts as not set |
| `ServiceHours.DayReadExactly` | src/ptv/v11/channelFields.ts:203-206 | A day is read from its own name only |
| `ServiceHours.ShortTimeExactly` | src/ptv/v11/channelFields.ts:197-201 | A text that starts like a clock time reads as HH:mm with its hour padded; any other reads as it is |
| `ServiceHours.EchoedHoursCompareEqual` | src/ptv/v11/channelFields.ts:198-246 | The same holds whatever PTV appends to dates and clock times, with old type names and its own validForNow |
| `HoursDiff.WrittenHoursReportNothing` | src/mcp/proposeChanges.ts:149-202 | The diff of written hours against what is read back, with the canonical form as the JSON that is compared, reports nothing if and only if every hour is in domain form, under any collation |
| `HoursDiff.EchoedHoursReportNothing` | src/mcp/proposeChanges.ts:149-175 | The diff of hours with clock times and full dates against whatever PTV returns of them reports nothing |
| `ServiceHours.ExpandReadBack` | src/ptv/v11/channelFields.ts:248-268 | The times read back are the written-out times, wrap-around ranges included |
| `ServiceHours.ExpandedExactly` | src/ptv/serviceHours.ts:19-34 | Written-out times are exactly the days of the ranges, each with its range's times |
| `ServiceHours.DaysAreTheRange` | src/ptv/serviceHours.ts:26-31 | A range's days are those between its ends, around the end of the week if need be |
| `ServiceHours.NoDayTwice` | src/ptv/serviceHours.ts:26-31 | No day is written out twice for one range |
| `ServiceHours.SortTimesSorts` | src/ptv/serviceHours.ts:41-48 | Canonical times are in weekday order, and by opening time within a day |
| `ServiceHours.ListedOrderIgnored` | src/ptv/serviceHours.ts:41-48 | The listed order never matters if and only if no two different times start on one day at times the collation ties |
| `ServiceHours.GroupDays` | src/format/ptvFormat.ts:228-246 | The loop that updates the last range gives ranges that write out to exactly the sorted times, and no two neighbours could be joined |
| `ServiceHours.UngroupExpands` | src/format/ptvFormat.ts:228-246 | Writing the ranges out is expanding them as opening times |
| `ServiceHours.GroupingIsUnique` | src/format/ptvFormat.ts:228-246 | There is only one such grouping of given times |
| `ServiceHours.SettledUnchanged` | src/ptv/v11/channelFields.ts:198-201 | A time is unchanged by reading exactly when it is HH:mm or no clock time |
| `LanguageText.LanguageItemsToText` | src/ptv/v11/channelFields.ts:113-119 | The loop that fills the object gives the specified text |
| `LanguageText.ReadsFirst` | src/ptv/v11/channelFields.ts:113-119 | Each language reads as its first non-empty item, and nothing else is read |
| `LanguageText.TextReadBack` | src/ptv/v11/channelFields.ts:113-129 | A text read back is the text without empty values, and the same text exactly when it has none |
| `WorkerPool.EveryMoment` | src/ptv/http.ts:41-58 | Under every schedule and at every moment: calls were made for the first items, in order and once each, at most `concurrency` are in flight, and no schedule is longer than two steps per item and one per worker |
| `WorkerPool.EveryScheduleMaps` | src/ptv/http.ts:41-58 | When every worker has ended: the pool rejects exactly when some item's call does (given a worker), and otherwise holds fn(items[i]) at every i exactly when concurrency is at least 1 or there is nothing to do |
| `WorkerPool.StepKeepsInv` | src/ptv/http.ts:47-52 | Each stretch of a worker between two awaits keeps the invariant |
| `WorkerPool.StepsUseUpWork` | src/ptv/http.ts:47-52 | Each such stretch uses up work, so every run terminates |
| `WorkerPool.MapWithConcurrency` | src/ptv/http.ts:41-58 | The function itself, with the event loop's choice left open, returns the mapped list or rejects as above |
| `WorkerPool.Chunk` | src/ptv/http.ts:61-65 | The batches in order are the items; all but the last are full |
| `Paging.FetchIdWindow` | src/ptv/v11/pagination.ts:76-118 | Returns exactly the slice [start, start + count) of the concatenated pages, fails exactly when a page it needs cannot be read, and ends |
| `Paging.EstimateBounds` | src/ptv/v11/pagination.ts:112-117 | The estimate is never below the true total, and less than a page above it exactly when the last page is not empty |
| `Paging.PageAt` | src/ptv/v11/pagination.ts:88-91 | Page k + 1 is the stretch of the list that starts at k page sizes |
| `Paging.FetchAllPages` | src/ptv/v11/pagination.ts:18-33 | Returns all pages in order whatever order the later ones are answered in; fails exactly when one fails |
| `Paging.FetchListByIds` | src/ptv/v11/pagination.ts:48-65 | Asks for each id once and in order, 1 to 100 at a time; returns the records that exist, in the order of the ids and as often as asked for; fails exactly when a batch errors or, without notFoundAsEmpty, is not found |
| `OrganisationScope.DescendantsOf` | src/ptv/organisationContent.ts:67-79 | On every catalogue, cycles and repeated ids included, the worklist ends with the root and exactly the ids reachable downwards, each once and each after a parent |
| `OrganisationScope.OrganisationsInScope` | src/ptv/organisationContent.ts:54-80 | The same with the errors: no root, no sub-organisations wanted, an unreadable catalogue |
| `OrganisationScope.ClosedHasAll` | src/ptv/organisationContent.ts:68-78 | A set closed under children that has the root has everything below it |
| `OrganisationScope.FetchAll` | src/ptv/organisationContent.ts:34-51 | Returns the first items up to the limit, however far the reported total is above the true one |
| `RateLimit.FixedWindowRateLimiter.Allow` | src/oidc/rateLimit.ts:16-26 | Updates the entries and answers as specified, pruning included |
| `RateLimit.FixedWindowRateLimiter.Prune` | src/oidc/rateLimit.ts:28-32 | Leaves exactly the entries whose window is open |
| `RateLimit.PruningUnobservable` | src/oidc/rateLimit.ts:16-32 | For every request sequence with a clock that never goes back, the answers equal those of a limiter that never prunes |
| `RateLimit.FewerThanTwiceTheLimit` | src/oidc/rateLimit.ts:16-26 | Any half-open interval one window long lets through at most 2 * max(1, limit) - 1 requests of a key |
| `RateLimit.TwiceTheLimitLessOneHappens` | src/oidc/rateLimit.ts:16-26 | That bound is reached for every limit and every window of at least two ticks |
| `Lockout.AuthService.VerifyCredentials` | src/auth/authService.ts:163-198 | Updates the account and answers as specified, unknown emails and accounts without a password included, and keeps stored counters below five |
| `Lockout.AuthService.RecordFailedLogin` | src/auth/authService.ts:228-239 | After a failure the account is refused unseen exactly when this was the fifth and fifteen minutes have not passed since; other accounts answer as before and stored counters stay below five |
| `Lockout.AtMostFiveComparisons` | src/auth/authService.ts:163-239 | In every run without a successful sign-in to the account, right passwords tried during a lock included, its password is compared at most five times in any half-open fifteen minutes |
| `Lockout.CountersStayBelow` | src/auth/authService.ts:228-239 | Whatever is tried, stored counters stay below five and untried accounts do not change |
| `Lockout.FreshAfterSignIn` | src/auth/authService.ts:190-239 | Whatever was counted before a sign-in, up to four wrong passwords after it lock nothing, the fifth locks the account exactly until fifteen minutes after it was recorded, and otherwise the right password signs the same user in, whatever is tried on other accounts meanwhile |
| `Lockout.FreshAfterLock` | src/auth/authService.ts:163-239 | Once a lock has run out it takes five new failures to lock the account again |
| `Lockout.SignedInExactly` | src/auth/authService.ts:163-198 | An attempt signs in exactly with the right password of a known account that has one and is not locked, as that account |
| `Lockout.FifthFailureLocks` | src/auth/authService.ts:201-239 | Once the failures in a row, with those counted before, make five, an attempt is refused unseen exactly until fifteen minutes after the last; an earlier lock may have run out, only the first failure must not be refused |
| `CodeNameCache.EvictionUnobservable` | src/ptv/v12/codeNameCache.ts:52-127 | For every call sequence with a clock that never goes back, every answer, every load from the store and every save is what a plain map of the last entries with their expiry would show |
| `CodeNameCache.KeyOfInjective` | src/ptv/v12/codeNameCache.ts:129-131 | Different keys never share a place, whatever the code or URI contains |
| `CodeNameCache.CodeNames.DoGet` | src/ptv/v12/codeNameCache.ts:99-108 | Reads and evicts as specified |
| `CodeNameCache.CodeNames.DoSet` | src/ptv/v12/codeNameCache.ts:110-120 | From then on reads of the key find the entry until it expires and other keys read as before, and the next flush hands it over last |
| `CodeNameCache.CodeNames.DoPrime` | src/ptv/v12/codeNameCache.ts:67-86 | Loads exactly the missing keys, each read at its own moment, and keeps the unexpired rows |
| `CodeNameCache.CodeNames.DoFlush` | src/ptv/v12/codeNameCache.ts:88-97 | Hands over everything set since the last flush; every key reads as before and the next flush hands over nothing |
| `CodeNameCache.PtvCodeNameCacheService.Save` | src/db/ptvCodeNameCacheService.ts:43-72 | Deduplicating and saving in batches of 500 leaves the table as upserting all rows one by one would |
| `CodeNameCache.DedupUnobservable` | src/db/ptvCodeNameCacheService.ts:44-48 | Keeping only the last write per key does not show in the table |
| `CodeNameCache.UniqueIsLast` | src/db/ptvCodeNameCacheService.ts:46-48 | What is kept is the last row of each key, once, so no statement touches a row twice |
| `ServicePut.BodyBuilder.ServiceChangesToV11Body` | src/ptv/v11/writeMapping.ts:39-137 | Filling in the body step by step gives the specified body, or is refused for a status the API cannot write |
| `ServicePut.BodyBuilder.ApplyUriListField` | src/ptv/v11/writeMapping.ts:240-255 | A touched list becomes its URIs or its delete flag; nothing else of the body changes |
| `ServicePut.NamesAfterPut` | src/ptv/v11/writeMapping.ts:62-67 | After the PUT the names are the change's non-empty texts, or as before when untouched; other kinds of name keep their non-empty texts |
| `ServicePut.DescriptionsAfterPut` | src/ptv/v11/writeMapping.ts:69-83 | The same for the stored summaries and descriptions, which share a list: touching one resends the other's non-empty entries |
| `ServicePut.NamesReadBack` | src/ptv/v11/mappers/common.ts:12-34 | Every language of the names reads back as proposed (a text, an empty text or none; an undefined change counts as empty) exactly when no proposed name is empty, as those are not written, and no other kind of name stands alone in a language, as the reader falls back to it |
| `ServicePut.SummariesReadBack` | src/ptv/v11/mappers/common.ts:12-34 | The same for summaries: none is empty and no other description stands alone in a language |
| `ServicePut.DescriptionsReadBack` | src/ptv/v11/mappers/common.ts:12-34 | The same for descriptions |
| `ServicePut.UntouchedSummaries` | src/ptv/v11/mappers/common.ts:12-34 | When only descriptions are touched, a language's summary reads exactly as before, empty and missing told apart, if and only if: with summaries of its own, the first is filled; with none, its first entry of any kind is filled and, when that is a description, the first entry of a kept kind, or else the proposed description, has the same text; with no entry at all, nothing is written in it |
| `ServicePut.UntouchedDescriptions` | src/ptv/v11/mappers/common.ts:12-34 | The same for the description of a language when only summaries are touched |
| `ServicePut.SummaryFollowsDescription` | src/ptv/v11/mappers/common.ts:12-34 | The input that shows it: a service with only a description reads it as its summary, and changing the description changes the summary that is read |
| `ServiceDiff.NamesReported` | src/mcp/proposeChanges.ts:117-132 | After the PUT the diff of the names reports nothing exactly when none is empty and no other kind of name stands alone: the read-back composed with the diff that decides whether a change has reached PTV |
| `ServiceDiff.SummariesReported` | src/mcp/proposeChanges.ts:117-132 | The same for summaries |
| `ServiceDiff.DescriptionsReported` | src/mcp/proposeChanges.ts:117-132 | The same for descriptions |
| `ServiceDiff.UntouchedSummariesReported` | src/mcp/proposeChanges.ts:117-132 | When only descriptions are touched, the summaries before and after show no difference exactly when every language reads on as in UntouchedSummaries |
| `ServiceDiff.UntouchedDescriptionsReported` | src/mcp/proposeChanges.ts:117-132 | The same for descriptions when only summaries are touched |
| `ServiceDiff.EmptyNameIsReported` | src/mcp/proposalQueue.ts:201-210 | The input that shows it: names with one language left empty; only the other is written, and the diff that decides whether the change has reached PTV goes on reporting it |
| `ServiceDiff.ListsReported` | src/mcp/proposeChanges.ts:72-77 | Without inherited entries, the diff of a touched list after the PUT, which compares identities (uri, else code), reports nothing exactly when the URIs written are the identities shown, as multisets; for all lists but the industrial classes that is when every entry has a URI |
| `ServicePut.ListsAfterPut` | src/ptv/v11/writeMapping.ts:85-107 | Without inherited entries a list holds after the PUT the URIs the change stands for (an industrial class by its code, else its uri) if and only if every entry sent has a URI and a list touched without a value was empty |
| `ServicePut.FilteringIsInvisible` | src/ptv/v11/writeMapping.ts:109-119 | Leaving inherited entries out does not show where PTV adds them, and keeps them from becoming the service's own when it has an own entry |
| `ServicePut.TouchedListReadBack` | src/ptv/v11/writeMapping.ts:85-119 | What is read of a touched list while the general description stays is the change and what is inherited |
| `ServicePut.StatusReadBack` | src/ptv/v11/mappers/common.ts:82-134 | A body exists exactly when the change asks for Draft, Published or Archived or for no status; the service then reads with the status asked for, or with its own, and what is sent for it is one of the three statuses that PTV takes |
| `ServicePut.OtherFieldsAfterPut` | src/ptv/v11/writeMapping.ts:52-137 | Type, status, languages and general description become what the change says; without a key they stay |
| `ServicePut.ListWritten` | src/ptv/v11/writeMapping.ts:85-107 | A list that is given a value holds after the PUT, in order, the URIs that stand for its entries, industrial classes by the URI built for them |
| `ServicePut.IndustrialClassWritten` | src/ptv/v11/writeMapping.ts:258-276 | An industrial class is written as the URI of its code in its scheme, unless the code is a URI; without a code as its own URI of that scheme or else by its last segment; what was written is written the same again |
| `ServicePut.LastSegmentIsLast` | src/ptv/v11/writeMapping.ts:273-274 | The last segment of a URI is what follows its last slash |
| `ServicePut.BodyIsAcceptable` | src/ptv/v11/writeMapping.ts:98-134 | PTV's conditions on the PUT are met exactly when no required list is touched without a value in a service left without a general description |
| `ServicePut.OnlyTouchedSent` | src/ptv/v11/writeMapping.ts:39-137 | What the change does not touch is not sent, but for what PTV requires: the status, the type of a service that loses its general description, and the required lists |
| `ServicePut.NeverBoth` | src/ptv/v11/writeMapping.ts:282-294 | No field is both sent and cleared; the two lists that have a delete flag are cleared by it exactly when the change empties them |
| `Connections.ConnectsDesired` | src/ptv/v11/connectionWrite.ts:25-43 | After the planned PUT exactly the desired channels are connected, each once and in the order asked for; new ones have no extra info, and one that stays keeps its own, empty texts apart, if and only if all its numbers have type Phone (and its municipalities are the ones PTV tells from postal codes) |
| `Connections.PlansOnlyChanges` | src/ptv/v11/connectionWrite.ts:29-33 | No PUT is planned exactly when the desired channels are the connected ones |
| `Connections.PlanOnce` | src/ptv/v11/connectionWrite.ts:25-43 | Planning again after the PUT finds nothing to do |
| `Connections.KeptRelation` | src/ptv/v11/connectionWrite.ts:45-56 | A connection resent as it was read is stored as it was, empty texts apart, under the same condition: faxes and text message numbers become phone numbers |
| `Connections.OtherConnectionsStay` | src/ptv/v11/connectionWrite.ts:65-85 | Changing one connection's details keeps the set of connections, and each other one's extra info under the same condition |
| `Connections.ResentDetails` | src/ptv/v11/connectionWrite.ts:45-56 | A resent connection reads as the same details if and only if every number of it reads as a phone |
| `Connections.FaxBecomesPhone` | src/ptv/v11/connectionWrite.ts:45-56 | The input that shows it: connecting one more channel turns the fax of a channel already connected into a phone number |
| `Connections.DetailsPlanned` | src/ptv/v11/connectionWrite.ts:65-85 | The changed connection reads as its current details merged with the change if and only if the merged details are settled |
| `Connections.DetailsSentOrCleared` | src/ptv/v11/connectionDetails.ts:107-152 | Every field of the details is sent or has its delete flag, never both and never neither |
| `Connections.DetailsTaken` | src/ptv/v11/connectionDetails.ts:47-152 | What is sent of details is in the words the PUT takes: postal addresses of three kinds with the part of their kind only, numbers without a type, charge types, hour types and text types of its own |
| `Connections.ConnectingClearsNothing` | src/ptv/v11/connectionWrite.ts:25-56 | All connections are cleared exactly when none is listed, and of the listed ones nothing is |
| `Connections.OthersClearNothing` | src/ptv/v11/connectionWrite.ts:65-85 | Changing one connection clears nothing of the others |
| `Connections.DetailsKept` | src/ptv/v11/connectionDetails.ts:52-152 | Details written and read back compare equal exactly when texts and lists are absent or filled, hours are in domain form, numbers and addresses are ones a connection can hold, and faxes come last |
| `Connections.PhoneKept` | src/ptv/v11/channelFields.ts:146-174 | A number reads back as written exactly when it has a prefix or is a service number, and a type and charge (a fax: no details); text message numbers lose their type |
| `Connections.PhoneReadAs` | src/ptv/v11/channelFields.ts:146-174 | What any number becomes: language and number stay, prefix or service number mark, Finland's prefix for neither; a fax or else a phone; a phone keeps its filled details and charge type, Chargeable for none |
| `Connections.NumberReadAs` | src/ptv/v11/channelFields.ts:138-160 | Which type and charge a number reads with, old charge names included |
| `Connections.AddressKindRead` | src/ptv/v11/channelFields.ts:300-322 | The kind of an address is read from its sub type, a street's for one not known; another address reads as a street does, a foreign one under either name |
| `Connections.AddressReadAs` | src/ptv/v11/connectionDetails.ts:83-99 | What any address becomes: two kinds stay, all others are street addresses, each with the filled ones of its kind's fields |
| `Connections.PhonesReadBack` | src/ptv/v11/connectionDetails.ts:52-152 | The list of numbers reads back as written exactly when its numbers do and faxes come last |
| `Connections.AddressKept` | src/ptv/v11/connectionDetails.ts:83-99 | An address reads back as written exactly when it is a street, post office box or foreign address with only its own, filled fields, a street's municipality being that of its postal code |
| `Connections.TypeReadsLast` | src/ptv/v11/mappers/common.ts:49-63 | Of the entries of one type each language reads as its last non-empty one |
| `Connections.TextsReadBack` | src/ptv/v11/connectionDetails.ts:107-111 | Descriptions and charge descriptions share a list and read back as written exactly when absent or filled |

## Left out

- Fastify routes, the MCP SDK server and transport, the web UI, configuration, mail and seed scripts: plumbing.
- Postgres, drizzle and row-level security: tables are maps, and one statement is one atomic step.
- HTTP clients, DNS, JWT, Argon2, AES-GCM, OIDC and OAuth: whether a password matches, or what PTV answers, is a parameter.
- Content heuristics and field validation rules: wide but shallow; whether a change was prepared or a note fits is a parameter.
- The v12 adapter, the channel, organisation and new-service bodies, `organizationAreaToV11`, delivery addresses, accessibility and form files: the same conversions again, or none that a round trip would add to.
- `publishedInPtv`, `proposalDiffDetails` and `checkCreatedItem` (`src/mcp/proposalQueue.ts:179-245`, `682-720`): whether PTV already holds a change is an answer the confirm step is given.
- Finding a candidate by id or email, and the order candidates are listed in: a review request gets the users its names resolve to.
- Races inside the reviewer, campaign and lockout checks: those properties are stated with one call at a time; only the status transition is modelled under interleaving.
- Comments, list queries, campaign progress and the other audit entries: they change nothing the properties are about.
- Worksheet XML beyond its text, and column widths: each file of the archive is opaque bytes.
- ServiceHours.HoursReadBack: the collation of times is any relation on texts; `localeCompare` itself is not modelled.
- StableJson.KeyIsExact: arrays have no undefined elements; numbers are compared by the text JavaScript writes for them; that text is not derived from floating point.
- StableJson.ExactExactlyWithoutTies: members come in any order; JavaScript lists keys like "7" first, so for a tied pair with such a key the swapped value is not an object that can occur.
- SheetText.SheetName: toLowerCase is any function that leaves a final space and number alone; names are UTF-16 code units as in the source.
- Lockout.AtMostFiveComparisons: a successful sign-in resets the counter, so the bound is for runs without one; password resets are not modelled.
- CodeNameCache.EvictionUnobservable: a failing save loses its rows as in the source, which no later answer of the same cache shows; what the store then loads is a parameter.
- ServicePut.ListsAfterPut: stated on URIs and without inherited entries; the identities the diff shows are in ServiceDiff.ListsReported, inherited entries in FilteringIsInvisible and TouchedListReadBack.
- ServicePut.BodyBuilder.ServiceChangesToV11Body: the record the change is applied to is always given, as in the adapter's call; the optional parameter's absence is not modelled.
- Connections.DetailsPlanned: a charge type PTV may add to a fax number is not part of what is read back; the municipality PTV tells from a postal code is a parameter.
- Connections.KeptRelation: PTV is taken to ignore what its PUT has no field for (a number's type, a municipality's names); whether it refuses such a body instead is not known from the source.
- DiffFields.DiffIsExact: channel ids and the uri and code of a classification are taken to be texts, as their types say.
- Interleaving.EveryInterleaving: a service kind's write that breaks either reached PTV or did not; which of its two requests did is not told apart.
- Paging.FetchIdWindow: every page but the last is full, as PTV's fixed page size has it; a start before the list is not modelled.
