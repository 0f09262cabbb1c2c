/**
 * Proposals, required reviewers, review items and campaigns, with each tool call as
 * one step (src/mcp/proposalQueue.ts:386-680, src/proposals/proposalService.ts:91-348,
 * src/reviews/reviewCampaigns.ts:234-693, src/reviews/reviewService.ts:120-400,
 * src/mcp/tools/proposalTools.ts:58-77, src/mcp/proposalKinds.ts:295-304).
 * Tables are maps. What a call learns from outside the tables — the actor's role, the
 * four-eyes setting, what PTV answers — is part of the call.
 */
module Workflow {
  import opened Wrappers

  type Id = string
  type User = string
  type Tenant = string

  datatype Environment = Test | Production

  datatype Role = Viewer | Contributor | Approver | Publisher | TenantAdmin

  datatype TargetKind = Service | Channel | Organisation

  datatype Kind =
    | ServiceUpdate | ServiceCreate | ChannelUpdate | ChannelCreate
    | ConnectionUpdate | OrganisationUpdate | OrganisationCreate

  datatype Status = Pending | Approved | Rejected | Applied | Failed

  /** What a proposal changes: its kind, its target, and from its changes the channel and whether they edit connections. */
  datatype Draft = Draft(kind: Kind, target: Id, channel: Id, editsConnections: bool)

  datatype Proposal = Proposal(
    tenant: Tenant, environment: Environment, draft: Draft, proposer: User,
    status: Status, resolvedBy: Option<User>, reviewItem: Option<Id>)

  datatype Decision = Undecided | SignedOff | ChangesRequested

  datatype Reviewer = Reviewer(user: User, requestedBy: User, decision: Decision)

  datatype ItemStatus = Open | Confirmed | ChangesProposed

  datatype Item = Item(
    tenant: Tenant, campaign: Id, targetKind: TargetKind, target: Id, organization: Id,
    assignee: Option<User>, status: ItemStatus, reviewedBy: Option<User>)

  datatype Campaign = Campaign(tenant: Tenant, environment: Environment, organization: Id, open: bool)

  datatype State = State(
    proposals: map<Id, Proposal>,
    reviewers: map<Id, seq<Reviewer>>,
    items: map<Id, Item>,
    campaigns: map<Id, Campaign>,
    writes: seq<Id>)  // the proposals whose change reached PTV, in order

  /** Who calls: the tenant, the user, the user's role there (None: not a member), the selected environment. */
  datatype Ctx = Ctx(tenant: Tenant, actor: User, role: Option<Role>, environment: Environment)

  datatype Result = Done | NotFound | NotAuthorized | Refused

  datatype Action = ApproveAndExport | ApproveAndApply | Reject

  /**
   * How checking the export, or writing to PTV, went. A write that breaks may have reached PTV:
   * a later request of it, or recording its success, can be what fails.
   */
  datatype Work = Succeeds(createdId: Id) | NoWriteRole | Breaks(reached: bool)

  /** The items an assignment selects: named ones, or by kind and organisation; only unassigned ones unless named or reassigning. */
  datatype Selection = Selection(
    itemIds: Option<set<Id>>, targetKind: Option<TargetKind>, organization: Option<Id>, reassign: bool)

  datatype Call =
    | Propose(id: Id, draft: Draft, reviewItem: Option<Id>, prepared: bool)
    | Attach(item: Id, proposal: Id)
    | RequestReview(proposal: Id, candidates: seq<Option<User>>)
    | SignOff(proposal: Id, approve: bool, commentFits: bool)
    | Resolve(proposal: Id, action: Action, fourEyes: bool, work: Work)
    | ConfirmPublish(proposal: Id, ptvId: Id, inPtv: bool)
    | StartCampaign(id: Id, organization: Id, wellNamed: bool, items: map<Id, Item>)
    | AssignItems(campaign: Id, reviewer: Option<User>, selection: Selection)
    | CompleteItem(item: Id, confirm: bool, noteFits: bool)
    | ReopenItem(item: Id, noteFits: bool)
    | CloseCampaign(campaign: Id)

  // ----- Guards -----

  function Rank(role: Role): nat {
    match role case Viewer => 0 case Contributor => 1 case Approver => 2 case Publisher => 3 case TenantAdmin => 4
  }

  predicate AtLeast(ctx: Ctx, role: Role) {
    ctx.role.Some? && Rank(ctx.role.value) >= Rank(role)
  }

  predicate Creates(kind: Kind) {
    kind in {ServiceCreate, ChannelCreate, OrganisationCreate}
  }

  /** Which items a proposal can answer: its own target's; for new items and organisation changes, any. */
  predicate Fits(item: Item, d: Draft) {
    match d.kind
    case ServiceUpdate =>
      (item.targetKind == Channel && d.editsConnections) || (item.targetKind == Service && item.target == d.target)
    case ChannelUpdate => item.targetKind == Channel && item.target == d.target
    case ConnectionUpdate =>
      (item.targetKind == Service && item.target == d.target) || (item.targetKind == Channel && item.target == d.channel)
    case _ => true
  }

  predicate HasProposal(s: State, ctx: Ctx, p: Id) {
    p in s.proposals && s.proposals[p].tenant == ctx.tenant
  }

  predicate HasItem(s: State, ctx: Ctx, i: Id) {
    i in s.items && s.items[i].tenant == ctx.tenant
  }

  predicate HasCampaign(s: State, ctx: Ctx, c: Id) {
    c in s.campaigns && s.campaigns[c].tenant == ctx.tenant
  }

  function ReviewersOf(s: State, p: Id): seq<Reviewer> {
    if p in s.reviewers then s.reviewers[p] else []
  }

  predicate AllSignedOff(reviewers: seq<Reviewer>) {
    forall i :: 0 <= i < |reviewers| ==> reviewers[i].decision == SignedOff
  }

  predicate IsReviewer(reviewers: seq<Reviewer>, user: User) {
    exists i :: 0 <= i < |reviewers| && reviewers[i].user == user
  }

  predicate HasLinked(s: State, i: Id) {
    exists p :: p in s.proposals && s.proposals[p].reviewItem == Some(i)
  }

  predicate HasPendingLinked(s: State, i: Id) {
    exists p :: p in s.proposals && s.proposals[p].reviewItem == Some(i) && s.proposals[p].status == Pending
  }

  predicate OpenCampaignFor(s: State, tenant: Tenant, environment: Environment, organization: Id) {
    exists c :: c in s.campaigns && s.campaigns[c] == Campaign(tenant, environment, organization, true)
  }

  /** requireReviewerOf, then the rest of requireLinkableReviewItem. */
  function Linkable(s: State, ctx: Ctx, environment: Environment, i: Id, d: Draft): Result {
    if !HasItem(s, ctx, i) then NotFound
    else
      var item := s.items[i];
      if !AtLeast(ctx, Contributor) || (item.assignee != Some(ctx.actor) && !AtLeast(ctx, Publisher)) then NotAuthorized
      else if !HasCampaign(s, ctx, item.campaign) then NotFound
      else
        var campaign := s.campaigns[item.campaign];
        if !campaign.open || campaign.environment != environment
           || (item.status != Open && !AtLeast(ctx, Publisher)) || !Fits(item, d) then Refused
        else Done
  }

  // ----- Rows -----

  /** INSERT … ON CONFLICT DO NOTHING, row by row: a user already listed keeps their decision. */
  function AddReviewers(reviewers: seq<Reviewer>, users: seq<User>, requester: User): seq<Reviewer>
    decreases |users|
  {
    if users == [] then reviewers
    else
      var rest := AddReviewers(reviewers, users[..|users| - 1], requester);
      var user := users[|users| - 1];
      if IsReviewer(rest, user) then rest else rest + [Reviewer(user, requester, Undecided)]
  }

  function Decided(reviewers: seq<Reviewer>, user: User, decision: Decision): (r: seq<Reviewer>)
    ensures |r| == |reviewers|
  {
    if reviewers == [] then []
    else
      [if reviewers[0].user == user then reviewers[0].(decision := decision) else reviewers[0]]
      + Decided(reviewers[1..], user, decision)
  }

  function SetItem(s: State, i: Id, status: ItemStatus, reviewer: Option<User>): State
    requires i in s.items
  {
    s.(items := s.items[i := s.items[i].(status := status, reviewedBy := reviewer)])
  }

  /** What follows a link: a finished item is reopened, and its reviewer becomes a required reviewer of another's proposal. */
  function Link(s: State, ctx: Ctx, i: Id, p: Id): State
    requires i in s.items && p in s.proposals
  {
    var reopened := if s.items[i].status != Open then SetItem(s, i, Open, None) else s;
    var assignee := s.items[i].assignee;
    if assignee.Some? && assignee.value != ctx.actor && assignee.value != s.proposals[p].proposer then
      reopened.(reviewers := s.reviewers[p := AddReviewers(ReviewersOf(s, p), [assignee.value], ctx.actor)])
    else reopened
  }

  /** markResolved: only while the proposal is pending. */
  function MarkResolved(s: State, p: Id, status: Status, resolver: User, createdId: Id): (State, Result)
    requires p in s.proposals
  {
    var row := s.proposals[p];
    if row.status != Pending then (s, Refused)
    else
      var d := if createdId != "" then row.draft.(target := createdId) else row.draft;
      (s.(proposals := s.proposals[p := row.(status := status, resolvedBy := Some(resolver), draft := d)]), Done)
  }

  predicate Selected(item: Item, id: Id, campaign: Id, selection: Selection) {
    && item.campaign == campaign
    && (selection.itemIds.Some? ==> id in selection.itemIds.value)
    && (selection.targetKind.Some? ==> item.targetKind == selection.targetKind.value)
    && (selection.organization.Some? ==> item.organization == selection.organization.value)
    && (selection.itemIds.None? && !selection.reassign ==> item.assignee.None?)
  }

  // ----- The calls -----

  /** The stored row of a new proposal; a new item has no id yet. */
  function NewRow(ctx: Ctx, draft: Draft, reviewItem: Option<Id>): Proposal {
    Proposal(ctx.tenant, ctx.environment, if Creates(draft.kind) then draft.(target := "") else draft,
             ctx.actor, Pending, None, reviewItem)
  }

  function DoPropose(s: State, ctx: Ctx, id: Id, draft: Draft, reviewItem: Option<Id>, prepared: bool): (State, Result) {
    var linkable := if reviewItem.Some? then Linkable(s, ctx, ctx.environment, reviewItem.value, draft) else Done;
    if id in s.proposals then (s, Refused)
    else if linkable != Done then (s, linkable)
    else if !AtLeast(ctx, Contributor) then (s, NotAuthorized)
    else if !prepared then (s, Refused)
    else
      var queued := s.(proposals := s.proposals[id := NewRow(ctx, draft, reviewItem)], reviewers := s.reviewers[id := []]);
      (if reviewItem.Some? then Link(queued, ctx, reviewItem.value, id) else queued, Done)
  }

  function DoAttach(s: State, ctx: Ctx, i: Id, p: Id): (State, Result) {
    if !HasProposal(s, ctx, p) then (s, NotFound)
    else
      var row := s.proposals[p];
      if row.status != Pending || (row.reviewItem.Some? && row.reviewItem.value != i) then (s, Refused)
      else if row.proposer != ctx.actor && !AtLeast(ctx, Publisher) then (s, NotAuthorized)
      else
        var linkable := Linkable(s, ctx, row.environment, i, row.draft);
        if linkable != Done then (s, linkable)
        else (Link(s.(proposals := s.proposals[p := row.(reviewItem := Some(i))]), ctx, i, p), Done)
  }

  /** The users named, when every name is a candidate other than the proposer. */
  function Named(candidates: seq<Option<User>>, proposer: User): Option<seq<User>>
    decreases |candidates|
  {
    if candidates == [] then Some([])
    else
      var n := |candidates| - 1;
      var rest := Named(candidates[..n], proposer);
      if rest.None? || candidates[n].None? || candidates[n].value == proposer then None
      else Some(rest.value + [candidates[n].value])
  }

  function DoRequestReview(s: State, ctx: Ctx, p: Id, candidates: seq<Option<User>>): (State, Result) {
    if !AtLeast(ctx, Contributor) then (s, NotAuthorized)
    else if !HasProposal(s, ctx, p) then (s, NotFound)
    else
      var row := s.proposals[p];
      if row.status != Pending then (s, Refused)
      else if row.proposer != ctx.actor && !AtLeast(ctx, Approver) then (s, NotAuthorized)
      else
        var users := Named(candidates, row.proposer);
        if candidates == [] || users.None? then (s, Refused)
        else (s.(reviewers := s.reviewers[p := AddReviewers(ReviewersOf(s, p), Dedup(users.value), ctx.actor)]), Done)
  }

  function DoSignOff(s: State, ctx: Ctx, p: Id, approve: bool, commentFits: bool): (State, Result) {
    if !AtLeast(ctx, Contributor) then (s, NotAuthorized)
    else if !commentFits then (s, Refused)
    else if !HasProposal(s, ctx, p) then (s, NotFound)
    else if s.proposals[p].status != Pending || !IsReviewer(ReviewersOf(s, p), ctx.actor) then (s, Refused)
    else
      var decision := if approve then SignedOff else ChangesRequested;
      (s.(reviewers := s.reviewers[p := Decided(ReviewersOf(s, p), ctx.actor, decision)]), Done)
  }

  /** What comes of a write: the adapter registry turns anyone below Publisher away, unless something breaks before it is asked. */
  function Attempted(ctx: Ctx, work: Work): Work {
    if AtLeast(ctx, Publisher) then work
    else match work case Breaks(_) => Breaks(false) case _ => NoWriteRole
  }

  /** Note where the status is checked: only by the update, after PTV has been written. */
  function DoResolve(s: State, ctx: Ctx, p: Id, action: Action, fourEyes: bool, work: Work): (State, Result) {
    if !AtLeast(ctx, Approver) then (s, NotAuthorized)
    else if !HasProposal(s, ctx, p) then (s, NotFound)
    else if action == Reject then MarkResolved(s, p, Rejected, ctx.actor, "")
    else if s.proposals[p].proposer == ctx.actor && fourEyes then (s, Refused)
    else if !AllSignedOff(ReviewersOf(s, p)) then (s, Refused)
    else if action == ApproveAndExport then
      if work.Succeeds? then MarkResolved(s, p, Approved, ctx.actor, "") else (s, Refused)
    else
      match Attempted(ctx, work)
      case Succeeds(createdId) =>
        MarkResolved(s.(writes := s.writes + [p]), p, Applied, ctx.actor,
                     if Creates(s.proposals[p].draft.kind) then createdId else "")
      case NoWriteRole => (s, NotAuthorized)
      case Breaks(reached) =>
        (MarkResolved(if reached then s.(writes := s.writes + [p]) else s, p, Failed, ctx.actor, "").0, Refused)
  }

  function DoConfirmPublish(s: State, ctx: Ctx, p: Id, ptvId: Id, inPtv: bool): (State, Result) {
    if !AtLeast(ctx, Approver) then (s, NotAuthorized)
    else if !HasProposal(s, ctx, p) then (s, NotFound)
    else
      var row := s.proposals[p];
      if row.status != Approved || (Creates(row.draft.kind) && ptvId == "") || !inPtv then (s, Refused)
      else
        var d := if Creates(row.draft.kind) then row.draft.(target := ptvId) else row.draft;
        (s.(proposals := s.proposals[p := row.(status := Applied, draft := d)]), Done)
  }

  /** New items: open, unassigned, of the new campaign, each target once (repeats are not inserted). */
  predicate FreshItems(s: State, ctx: Ctx, id: Id, items: map<Id, Item>) {
    && items.Keys !! s.items.Keys
    && forall i :: i in items ==>
         items[i].tenant == ctx.tenant && items[i].campaign == id && items[i].assignee.None?
         && items[i].status == Open && items[i].reviewedBy.None?
  }

  function DoStartCampaign(s: State, ctx: Ctx, id: Id, organization: Id, wellNamed: bool, items: map<Id, Item>): (State, Result) {
    if !AtLeast(ctx, Publisher) then (s, NotAuthorized)
    else if !wellNamed || OpenCampaignFor(s, ctx.tenant, ctx.environment, organization) then (s, Refused)
    else if id in s.campaigns || !FreshItems(s, ctx, id, items) then (s, Refused)
    else (s.(campaigns := s.campaigns[id := Campaign(ctx.tenant, ctx.environment, organization, true)],
             items := s.items + items), Done)
  }

  function Assigned(items: map<Id, Item>, campaign: Id, reviewer: User, selection: Selection): map<Id, Item> {
    map i | i in items ::
      if Selected(items[i], i, campaign, selection) then items[i].(assignee := Some(reviewer)) else items[i]
  }

  function DoAssignItems(s: State, ctx: Ctx, c: Id, reviewer: Option<User>, selection: Selection): (State, Result) {
    if !AtLeast(ctx, Publisher) then (s, NotAuthorized)
    else if !HasCampaign(s, ctx, c) then (s, NotFound)
    else if !s.campaigns[c].open || reviewer.None? then (s, Refused)
    else (s.(items := Assigned(s.items, c, reviewer.value, selection)), Done)
  }

  function DoCompleteItem(s: State, ctx: Ctx, i: Id, confirm: bool, noteFits: bool): (State, Result) {
    if !HasItem(s, ctx, i) then (s, NotFound)
    else
      var item := s.items[i];
      if !AtLeast(ctx, Contributor) || (item.assignee != Some(ctx.actor) && !AtLeast(ctx, Publisher)) then (s, NotAuthorized)
      else if !HasCampaign(s, ctx, item.campaign) then (s, NotFound)
      else if !s.campaigns[item.campaign].open || !noteFits then (s, Refused)
      else if (if confirm then HasPendingLinked(s, i) else !HasLinked(s, i)) then (s, Refused)
      else (SetItem(s, i, if confirm then Confirmed else ChangesProposed, Some(ctx.actor)), Done)
  }

  function DoReopenItem(s: State, ctx: Ctx, i: Id, noteFits: bool): (State, Result) {
    if !AtLeast(ctx, Publisher) then (s, NotAuthorized)
    else if !HasItem(s, ctx, i) || !HasCampaign(s, ctx, s.items[i].campaign) then (s, NotFound)
    else if !s.campaigns[s.items[i].campaign].open || !noteFits then (s, Refused)
    else (SetItem(s, i, Open, None), Done)
  }

  function DoCloseCampaign(s: State, ctx: Ctx, c: Id): (State, Result) {
    if !AtLeast(ctx, Publisher) then (s, NotAuthorized)
    else if !HasCampaign(s, ctx, c) then (s, NotFound)
    else if !s.campaigns[c].open then (s, Refused)
    else (s.(campaigns := s.campaigns[c := s.campaigns[c].(open := false)]), Done)
  }

  function Next(s: State, ctx: Ctx, call: Call): (State, Result) {
    match call
    case Propose(id, draft, reviewItem, prepared) => DoPropose(s, ctx, id, draft, reviewItem, prepared)
    case Attach(i, p) => DoAttach(s, ctx, i, p)
    case RequestReview(p, candidates) => DoRequestReview(s, ctx, p, candidates)
    case SignOff(p, approve, commentFits) => DoSignOff(s, ctx, p, approve, commentFits)
    case Resolve(p, action, fourEyes, work) => DoResolve(s, ctx, p, action, fourEyes, work)
    case ConfirmPublish(p, ptvId, inPtv) => DoConfirmPublish(s, ctx, p, ptvId, inPtv)
    case StartCampaign(id, organization, wellNamed, items) => DoStartCampaign(s, ctx, id, organization, wellNamed, items)
    case AssignItems(c, reviewer, selection) => DoAssignItems(s, ctx, c, reviewer, selection)
    case CompleteItem(i, confirm, noteFits) => DoCompleteItem(s, ctx, i, confirm, noteFits)
    case ReopenItem(i, noteFits) => DoReopenItem(s, ctx, i, noteFits)
    case CloseCampaign(c) => DoCloseCampaign(s, ctx, c)
  }

  const EMPTY := State(map[], map[], map[], map[], [])

  function Run(s: State, calls: seq<(Ctx, Call)>): State
    decreases |calls|
  {
    if calls == [] then s else Run(Next(s, calls[0].0, calls[0].1).0, calls[1..])
  }

  // ----- What holds in every reachable state -----

  ghost predicate DistinctReviewers(reviewers: seq<Reviewer>) {
    forall i, j :: 0 <= i < j < |reviewers| ==> reviewers[i].user != reviewers[j].user
  }

  predicate PastApproval(status: Status) {
    status in {Approved, Applied, Failed}
  }

  /** The proposer is no reviewer, nobody is listed twice, and nothing is past approval without every sign-off. */
  ghost predicate ReviewOk(s: State, p: Id)
    requires p in s.proposals
  {
    var reviewers := ReviewersOf(s, p);
    && !IsReviewer(reviewers, s.proposals[p].proposer)
    && DistinctReviewers(reviewers)
    && (PastApproval(s.proposals[p].status) ==> AllSignedOff(reviewers))
    && (s.proposals[p].resolvedBy.None? <==> s.proposals[p].status == Pending)
  }

  /** A linked proposal is its item's tenant's, in its campaign's environment, about its target. */
  ghost predicate LinkOk(s: State, p: Id)
    requires p in s.proposals
  {
    var row := s.proposals[p];
    row.reviewItem.Some? ==>
      && row.reviewItem.value in s.items
      && var item := s.items[row.reviewItem.value];
         item.tenant == row.tenant && Fits(item, row.draft)
         && item.campaign in s.campaigns && s.campaigns[item.campaign].environment == row.environment
  }

  ghost predicate ItemOk(s: State, i: Id)
    requires i in s.items
  {
    && s.items[i].campaign in s.campaigns && s.campaigns[s.items[i].campaign].tenant == s.items[i].tenant
    && (s.items[i].status == Confirmed ==> !HasPendingLinked(s, i))
    && (s.items[i].status == ChangesProposed ==> HasLinked(s, i))
  }

  ghost predicate OneOpenCampaign(s: State) {
    forall c, d :: c in s.campaigns && d in s.campaigns && c != d && s.campaigns[c].open ==> s.campaigns[c] != s.campaigns[d]
  }

  ghost predicate Inv(s: State) {
    && (forall p :: p in s.proposals ==> ReviewOk(s, p))
    && (forall p :: p in s.proposals ==> LinkOk(s, p))
    && (forall i :: i in s.items ==> ItemOk(s, i))
    && OneOpenCampaign(s)
  }

  /** In this tenant nothing past approval was resolved by its own proposer. */
  ghost predicate FourEyes(s: State, tenant: Tenant) {
    forall p :: p in s.proposals && s.proposals[p].tenant == tenant && PastApproval(s.proposals[p].status) ==>
      s.proposals[p].resolvedBy != Some(s.proposals[p].proposer)
  }

  // ----- What no call undoes -----

  predicate StatusMoves(a: Status, b: Status) {
    a == b || a == Pending || (a == Approved && b == Applied)
  }

  /** Nobody is taken off a list. */
  ghost predicate KeepsReviewers(before: seq<Reviewer>, after: seq<Reviewer>) {
    forall user :: IsReviewer(before, user) ==> IsReviewer(after, user)
  }

  /** How one state can follow another. */
  ghost predicate Follows(s: State, t: State) {
    && (forall p :: p in s.proposals ==> ProposalFollows(s, t, p))
    && (forall c :: c in s.campaigns ==> CampaignFollows(s, t, c))
    && (forall i :: i in s.items ==> ItemFollows(s, t, i))
  }

  ghost predicate ProposalFollows(s: State, t: State, p: Id)
    requires p in s.proposals
  {
    p in t.proposals &&
    var a, b := s.proposals[p], t.proposals[p];
    && a.tenant == b.tenant && a.environment == b.environment && a.proposer == b.proposer && a.draft.kind == b.draft.kind
    && StatusMoves(a.status, b.status)
    && (a.status != Pending ==> ReviewersOf(s, p) == ReviewersOf(t, p) && a.resolvedBy == b.resolvedBy)
    && KeepsReviewers(ReviewersOf(s, p), ReviewersOf(t, p))
    && (a.reviewItem.Some? ==> b.reviewItem == a.reviewItem)
    && (a.draft != b.draft ==> Creates(a.draft.kind) && a.status != Applied && b.status == Applied)
  }

  ghost predicate CampaignFollows(s: State, t: State, c: Id)
    requires c in s.campaigns
  {
    c in t.campaigns && (if s.campaigns[c].open then t.campaigns[c].(open := true) == s.campaigns[c]
                         else t.campaigns[c] == s.campaigns[c])
  }

  ghost predicate ItemFollows(s: State, t: State, i: Id)
    requires i in s.items
  {
    && i in t.items
    && t.items[i].(assignee := None, status := Open, reviewedBy := None)
       == s.items[i].(assignee := None, status := Open, reviewedBy := None)
    && (s.items[i].campaign in s.campaigns && !s.campaigns[s.items[i].campaign].open ==> t.items[i] == s.items[i])
  }

  /** A call touches only its own tenant's rows. */
  ghost predicate OthersUntouched(s: State, t: State, tenant: Tenant) {
    && (forall p :: p in s.proposals && s.proposals[p].tenant != tenant ==>
          p in t.proposals && t.proposals[p] == s.proposals[p] && ReviewersOf(t, p) == ReviewersOf(s, p))
    && (forall i :: i in s.items && s.items[i].tenant != tenant ==> i in t.items && t.items[i] == s.items[i])
    && (forall c :: c in s.campaigns && s.campaigns[c].tenant != tenant ==> c in t.campaigns && t.campaigns[c] == s.campaigns[c])
  }

  // ----- Reviewer lists -----

  lemma {:induction false} ListedAfterAdding(reviewers: seq<Reviewer>, users: seq<User>, requester: User, user: User)
    ensures IsReviewer(AddReviewers(reviewers, users, requester), user) <==> IsReviewer(reviewers, user) || user in users
    decreases |users|
  {
    if users != [] {
      var n := |users| - 1;
      ListedAfterAdding(reviewers, users[..n], requester, user);
      assert users == users[..n] + [users[n]];
      ListedAppended(AddReviewers(reviewers, users[..n], requester), Reviewer(users[n], requester, Undecided), user);
      ListedAfterAdding(reviewers, users[..n], requester, users[n]);
    }
  }

  lemma ListedAppended(reviewers: seq<Reviewer>, last: Reviewer, user: User)
    ensures IsReviewer(reviewers + [last], user) <==> IsReviewer(reviewers, user) || last.user == user
  {
    var more := reviewers + [last];
    assert more[|reviewers|] == last;
    if i :| 0 <= i < |reviewers| && reviewers[i].user == user {
      assert more[i] == reviewers[i];
    }
  }

  /** Whoever was listed stays listed, with their decision. */
  lemma {:induction false} AddingKeeps(reviewers: seq<Reviewer>, users: seq<User>, requester: User)
    requires DistinctReviewers(reviewers)
    ensures DistinctReviewers(AddReviewers(reviewers, users, requester))
    ensures KeepsReviewers(reviewers, AddReviewers(reviewers, users, requester))
    ensures reviewers <= AddReviewers(reviewers, users, requester)
    decreases |users|
  {
    forall user | IsReviewer(reviewers, user)
      ensures IsReviewer(AddReviewers(reviewers, users, requester), user)
    {
      ListedAfterAdding(reviewers, users, requester, user);
    }
    if users != [] {
      AddingKeeps(reviewers, users[..|users| - 1], requester);
      var rest := AddReviewers(reviewers, users[..|users| - 1], requester);
      if !IsReviewer(rest, users[|users| - 1]) {
        assert forall i :: 0 <= i < |rest| ==> rest[i].user != users[|users| - 1];
      }
    }
  }

  lemma {:induction false} DecidingKeeps(reviewers: seq<Reviewer>, user: User, decision: Decision)
    ensures forall i :: 0 <= i < |reviewers| ==>
              Decided(reviewers, user, decision)[i]
              == if reviewers[i].user == user then reviewers[i].(decision := decision) else reviewers[i]
  {
    if reviewers != [] {
      DecidingKeeps(reviewers[1..], user, decision);
    }
  }

  lemma {:induction false} NamedUsers(candidates: seq<Option<User>>, proposer: User)
    ensures Named(candidates, proposer).Some? ==> proposer !in Named(candidates, proposer).value
    decreases |candidates|
  {
    if candidates != [] {
      NamedUsers(candidates[..|candidates| - 1], proposer);
    }
  }

  // ----- Calls that change one proposal -----

  /** Only this proposal's row and reviewers may differ. */
  ghost predicate OnlyProposal(s: State, t: State, p: Id) {
    && s.items == t.items && s.campaigns == t.campaigns
    && p in s.proposals && t.proposals.Keys == s.proposals.Keys
    && forall q :: q in s.proposals && q != p ==> t.proposals[q] == s.proposals[q] && ReviewersOf(t, q) == ReviewersOf(s, q)
  }

  /** What the new row and reviewers must satisfy for the tables to stay in order. */
  ghost predicate GoodRow(s: State, t: State, p: Id)
    requires p in s.proposals && p in t.proposals
  {
    && ReviewOk(t, p) && ProposalFollows(s, t, p)
    && t.proposals[p].reviewItem == s.proposals[p].reviewItem
    && (t.proposals[p].status == Pending ==> s.proposals[p].status == Pending)
  }

  ghost predicate Good(s: State, t: State, tenant: Tenant) {
    Inv(t) && Follows(s, t) && OthersUntouched(s, t, tenant)
  }

  /** Links to an item are the same when the rows that link to it are. */
  lemma LinksFrame(s: State, t: State, i: Id)
    requires forall p :: p in t.proposals && t.proposals[p].reviewItem == Some(i) && t.proposals[p].status == Pending ==>
               p in s.proposals && s.proposals[p].reviewItem == Some(i) && s.proposals[p].status == Pending
    requires forall p :: p in s.proposals && s.proposals[p].reviewItem == Some(i) ==>
               p in t.proposals && t.proposals[p].reviewItem == Some(i)
    ensures HasPendingLinked(t, i) ==> HasPendingLinked(s, i)
    ensures HasLinked(s, i) ==> HasLinked(t, i)
  {
    if HasPendingLinked(t, i) {
      var p :| p in t.proposals && t.proposals[p].reviewItem == Some(i) && t.proposals[p].status == Pending;
      assert p in s.proposals && s.proposals[p].reviewItem == Some(i) && s.proposals[p].status == Pending;
    }
    if HasLinked(s, i) {
      var p :| p in s.proposals && s.proposals[p].reviewItem == Some(i);
      assert p in t.proposals && t.proposals[p].reviewItem == Some(i);
    }
  }

  /** The same row in the same tables. */
  lemma RowFrame(s: State, t: State, p: Id)
    requires p in s.proposals && p in t.proposals && t.proposals[p] == s.proposals[p] && ReviewersOf(t, p) == ReviewersOf(s, p)
    requires ReviewOk(s, p)
    ensures ReviewOk(t, p) && ProposalFollows(s, t, p)
  {
  }

  lemma LinkFrame(s: State, t: State, p: Id)
    requires p in s.proposals && p in t.proposals && LinkOk(s, p)
    requires t.proposals[p].reviewItem == s.proposals[p].reviewItem && t.proposals[p].tenant == s.proposals[p].tenant
    requires t.proposals[p].environment == s.proposals[p].environment && t.proposals[p].draft.kind == s.proposals[p].draft.kind
    requires t.proposals[p].draft == s.proposals[p].draft || Creates(s.proposals[p].draft.kind)
    requires forall i :: i in s.items ==>
               i in t.items && t.items[i].(assignee := None, status := Open, reviewedBy := None)
                               == s.items[i].(assignee := None, status := Open, reviewedBy := None)
    requires forall c :: c in s.campaigns ==> c in t.campaigns && t.campaigns[c].environment == s.campaigns[c].environment
    ensures LinkOk(t, p)
  {
    if t.proposals[p].reviewItem.Some? {
      var i := t.proposals[p].reviewItem.value;
      assert t.items[i].(assignee := None, status := Open, reviewedBy := None).tenant == t.items[i].tenant;
      assert t.items[i].tenant == s.items[i].tenant && t.items[i].campaign == s.items[i].campaign
             && t.items[i].target == s.items[i].target && t.items[i].targetKind == s.items[i].targetKind by {
        SameButProgress(t.items[i], s.items[i]);
      }
    }
  }

  lemma SameButProgress(a: Item, b: Item)
    requires a.(assignee := None, status := Open, reviewedBy := None) == b.(assignee := None, status := Open, reviewedBy := None)
    ensures a.tenant == b.tenant && a.campaign == b.campaign && a.target == b.target && a.targetKind == b.targetKind
    ensures a.organization == b.organization
  {
    var x, y := a.(assignee := None, status := Open, reviewedBy := None), b.(assignee := None, status := Open, reviewedBy := None);
    assert x.tenant == a.tenant && y.tenant == b.tenant && x.campaign == a.campaign && y.campaign == b.campaign;
    assert x.target == a.target && y.target == b.target && x.targetKind == a.targetKind && y.targetKind == b.targetKind;
    assert x.organization == a.organization && y.organization == b.organization;
  }

  lemma ProposalChangedRows(s: State, t: State, p: Id)
    requires Inv(s) && OnlyProposal(s, t, p) && GoodRow(s, t, p)
    ensures forall q :: q in t.proposals ==> ReviewOk(t, q) && ProposalFollows(s, t, q) && LinkOk(t, q)
  {
    hide ReviewOk, LinkOk, ProposalFollows, HasLinked, HasPendingLinked, OneOpenCampaign;
    forall q | q in t.proposals
      ensures ReviewOk(t, q) && ProposalFollows(s, t, q) && LinkOk(t, q)
    {
      if q != p { RowFrame(s, t, q); } else { KeepsDraft(s, t, p); }
      LinkFrame(s, t, q);
    }
  }

  lemma KeepsDraft(s: State, t: State, p: Id)
    requires p in s.proposals && ProposalFollows(s, t, p)
    ensures t.proposals[p].tenant == s.proposals[p].tenant && t.proposals[p].environment == s.proposals[p].environment
    ensures t.proposals[p].draft.kind == s.proposals[p].draft.kind
    ensures t.proposals[p].draft == s.proposals[p].draft || Creates(s.proposals[p].draft.kind)
  {
  }

  lemma ProposalChangedItems(s: State, t: State, p: Id)
    requires Inv(s) && OnlyProposal(s, t, p) && GoodRow(s, t, p)
    ensures forall i :: i in t.items ==> ItemOk(t, i)
  {
    hide ReviewOk, LinkOk, ProposalFollows;
    forall i | i in t.items
      ensures ItemOk(t, i)
    {
      assert ItemOk(s, i);
      LinksFrame(s, t, i);
    }
  }

  lemma ProposalChangedInv(s: State, t: State, p: Id)
    requires Inv(s) && OnlyProposal(s, t, p) && GoodRow(s, t, p)
    ensures Inv(t)
  {
    ProposalChangedRows(s, t, p);
    ProposalChangedItems(s, t, p);
    hide ReviewOk, LinkOk, ProposalFollows, ItemOk;
  }

  lemma ProposalChangedOthers(s: State, t: State, p: Id)
    requires OnlyProposal(s, t, p)
    ensures OthersUntouched(s, t, s.proposals[p].tenant)
    ensures forall c :: c in s.campaigns ==> CampaignFollows(s, t, c)
    ensures forall i :: i in s.items ==> ItemFollows(s, t, i)
  {
  }

  lemma ProposalChanged(s: State, t: State, p: Id)
    requires Inv(s) && OnlyProposal(s, t, p) && GoodRow(s, t, p)
    ensures Good(s, t, s.proposals[p].tenant)
  {
    ProposalChangedRows(s, t, p);
    ProposalChangedInv(s, t, p);
    ProposalChangedOthers(s, t, p);
    assert t.proposals.Keys == s.proposals.Keys;
    hide ReviewOk, LinkOk, ProposalFollows, ItemOk, Inv, GoodRow, OnlyProposal, OthersUntouched, CampaignFollows, ItemFollows;
  }

  /** Nothing but the log of writes may differ. */
  lemma NothingChanged(s: State, t: State, tenant: Tenant)
    requires Inv(s) && t == s.(writes := t.writes)
    ensures Good(s, t, tenant)
  {
    hide ReviewOk, LinkOk, ItemOk, ProposalFollows;
    forall p | p in s.proposals
      ensures ReviewOk(t, p) && ProposalFollows(s, t, p) && LinkOk(t, p)
    {
      RowFrame(s, t, p);
      LinkFrame(s, t, p);
    }
    forall i | i in s.items
      ensures ItemOk(t, i)
    {
      SameItem(s, t, i);
    }
  }

  lemma SameItem(s: State, t: State, i: Id)
    requires i in s.items && ItemOk(s, i) && t == s.(writes := t.writes)
    ensures ItemOk(t, i)
  {
    LinksFrame(s, t, i);
  }

  lemma MarkedRow(s: State, p: Id, status: Status, resolver: User, createdId: Id)
    requires p in s.proposals && s.proposals[p].status == Pending && status != Pending && ReviewOk(s, p)
    requires PastApproval(status) ==> AllSignedOff(ReviewersOf(s, p))
    requires createdId != "" ==> Creates(s.proposals[p].draft.kind) && status == Applied
    ensures var t := MarkResolved(s, p, status, resolver, createdId).0; OnlyProposal(s, t, p) && GoodRow(s, t, p)
  {
    hide DistinctReviewers, IsReviewer, AllSignedOff;
  }

  lemma MarkedOk(s: State, p: Id, status: Status, resolver: User, createdId: Id)
    requires Inv(s) && p in s.proposals && status != Pending
    requires PastApproval(status) ==> AllSignedOff(ReviewersOf(s, p))
    requires createdId != "" ==> Creates(s.proposals[p].draft.kind) && status == Applied
    ensures Good(s, MarkResolved(s, p, status, resolver, createdId).0, s.proposals[p].tenant)
  {
    if s.proposals[p].status != Pending {
      NothingChanged(s, s, s.proposals[p].tenant);
    } else {
      assert ReviewOk(s, p);
      MarkedRow(s, p, status, resolver, createdId);
      hide MarkResolved, OnlyProposal, GoodRow, Inv, Good;
      ProposalChanged(s, MarkResolved(s, p, status, resolver, createdId).0, p);
    }
  }

  lemma WrittenToo(s: State, w: State, t: State, tenant: Tenant)
    requires w == s.(writes := w.writes) && Good(w, t, tenant)
    ensures Good(s, t, tenant)
  {
    forall p | p in s.proposals
      ensures ProposalFollows(s, t, p)
    {
      assert ProposalFollows(w, t, p);
    }
    forall c | c in s.campaigns
      ensures CampaignFollows(s, t, c)
    {
      assert CampaignFollows(w, t, c);
    }
    forall i | i in s.items
      ensures ItemFollows(s, t, i)
    {
      assert ItemFollows(w, t, i);
    }
  }

  lemma WriteMarkedOk(s: State, p: Id, status: Status, resolver: User, createdId: Id)
    requires Inv(s) && p in s.proposals && status in {Applied, Failed} && AllSignedOff(ReviewersOf(s, p))
    requires createdId != "" ==> Creates(s.proposals[p].draft.kind) && status == Applied
    ensures Good(s, MarkResolved(s.(writes := s.writes + [p]), p, status, resolver, createdId).0, s.proposals[p].tenant)
  {
    hide Inv, Good, MarkResolved, AllSignedOff;
    var w := s.(writes := s.writes + [p]);
    NothingChanged(s, w, s.proposals[p].tenant);
    assert Inv(w) by { GoodInv(s, w, s.proposals[p].tenant); }
    assert ReviewersOf(w, p) == ReviewersOf(s, p);
    MarkedOk(w, p, status, resolver, createdId);
    WrittenToo(s, w, MarkResolved(w, p, status, resolver, createdId).0, s.proposals[p].tenant);
  }

  lemma ResolveOk(s: State, ctx: Ctx, p: Id, action: Action, fourEyes: bool, work: Work)
    requires Inv(s)
    ensures Good(s, DoResolve(s, ctx, p, action, fourEyes, work).0, ctx.tenant)
  {
    hide Inv, Good, MarkResolved;
    NothingChanged(s, s, ctx.tenant);
    if HasProposal(s, ctx, p) {
      if action == Reject {
        MarkedOk(s, p, Rejected, ctx.actor, "");
      } else if AllSignedOff(ReviewersOf(s, p)) {
        MarkedOk(s, p, Approved, ctx.actor, "");
        if work.Succeeds? {
          WriteMarkedOk(s, p, Applied, ctx.actor, if Creates(s.proposals[p].draft.kind) then work.createdId else "");
        } else {
          MarkedOk(s, p, Failed, ctx.actor, "");
          WriteMarkedOk(s, p, Failed, ctx.actor, "");
        }
      }
    }
  }

  lemma GoodInv(s: State, t: State, tenant: Tenant)
    requires Good(s, t, tenant)
    ensures Inv(t)
  {
  }

  lemma ConfirmPublishRow(s: State, ctx: Ctx, p: Id, ptvId: Id, inPtv: bool)
    requires DoConfirmPublish(s, ctx, p, ptvId, inPtv).1 == Done && ReviewOk(s, p)
    ensures var t := DoConfirmPublish(s, ctx, p, ptvId, inPtv).0; OnlyProposal(s, t, p) && GoodRow(s, t, p)
  {
    hide DistinctReviewers, IsReviewer, AllSignedOff;
  }

  lemma ConfirmPublishOk(s: State, ctx: Ctx, p: Id, ptvId: Id, inPtv: bool)
    requires Inv(s)
    ensures Good(s, DoConfirmPublish(s, ctx, p, ptvId, inPtv).0, ctx.tenant)
  {
    if DoConfirmPublish(s, ctx, p, ptvId, inPtv).1 != Done {
      NothingChanged(s, s, ctx.tenant);
    } else {
      assert ReviewOk(s, p);
      ConfirmPublishRow(s, ctx, p, ptvId, inPtv);
      assert s.proposals[p].tenant == ctx.tenant;
      hide DoConfirmPublish, OnlyProposal, GoodRow, Inv, Good;
      ProposalChanged(s, DoConfirmPublish(s, ctx, p, ptvId, inPtv).0, p);
    }
  }

  /** A pending proposal's list of reviewers is replaced by a longer or decided one. */
  lemma ReviewersReplaced(s: State, t: State, p: Id, after: seq<Reviewer>)
    requires p in s.proposals && t == s.(reviewers := s.reviewers[p := after])
    requires s.proposals[p].status == Pending && ReviewOk(s, p)
    requires DistinctReviewers(after) && !IsReviewer(after, s.proposals[p].proposer) && KeepsReviewers(ReviewersOf(s, p), after)
    ensures OnlyProposal(s, t, p) && GoodRow(s, t, p)
  {
    hide DistinctReviewers, IsReviewer, AllSignedOff, KeepsReviewers;
  }

  lemma RequestReviewRow(s: State, ctx: Ctx, p: Id, candidates: seq<Option<User>>)
    requires DoRequestReview(s, ctx, p, candidates).1 == Done && ReviewOk(s, p)
    ensures var t := DoRequestReview(s, ctx, p, candidates).0; OnlyProposal(s, t, p) && GoodRow(s, t, p)
  {
    var row := s.proposals[p];
    var users := Dedup(Named(candidates, row.proposer).value);
    var after := AddReviewers(ReviewersOf(s, p), users, ctx.actor);
    NamedUsers(candidates, row.proposer);
    AddingKeeps(ReviewersOf(s, p), users, ctx.actor);
    ListedAfterAdding(ReviewersOf(s, p), users, ctx.actor, row.proposer);
    hide DistinctReviewers, IsReviewer, AllSignedOff, AddReviewers, Named, KeepsReviewers, OnlyProposal, GoodRow;
    ReviewersReplaced(s, DoRequestReview(s, ctx, p, candidates).0, p, after);
  }

  lemma RequestReviewOk(s: State, ctx: Ctx, p: Id, candidates: seq<Option<User>>)
    requires Inv(s)
    ensures Good(s, DoRequestReview(s, ctx, p, candidates).0, ctx.tenant)
  {
    if DoRequestReview(s, ctx, p, candidates).1 != Done {
      NothingChanged(s, s, ctx.tenant);
    } else {
      assert ReviewOk(s, p);
      RequestReviewRow(s, ctx, p, candidates);
      assert s.proposals[p].tenant == ctx.tenant;
      hide DoRequestReview, OnlyProposal, GoodRow, Inv, Good;
      ProposalChanged(s, DoRequestReview(s, ctx, p, candidates).0, p);
    }
  }

  lemma DecidedReview(before: seq<Reviewer>, user: User, decision: Decision, proposer: User)
    requires DistinctReviewers(before) && !IsReviewer(before, proposer)
    ensures DistinctReviewers(Decided(before, user, decision)) && !IsReviewer(Decided(before, user, decision), proposer)
    ensures KeepsReviewers(before, Decided(before, user, decision))
  {
    hide Decided;
    DecidingKeeps(before, user, decision);
    var after := Decided(before, user, decision);
    assert forall i :: 0 <= i < |after| ==> after[i].user == before[i].user;
    forall u | IsReviewer(before, u)
      ensures IsReviewer(after, u)
    {
      var i :| 0 <= i < |before| && before[i].user == u;
      assert after[i].user == u;
    }
  }

  lemma SignOffRow(s: State, ctx: Ctx, p: Id, approve: bool, commentFits: bool)
    requires DoSignOff(s, ctx, p, approve, commentFits).1 == Done && ReviewOk(s, p)
    ensures var t := DoSignOff(s, ctx, p, approve, commentFits).0; OnlyProposal(s, t, p) && GoodRow(s, t, p)
  {
    var decision := if approve then SignedOff else ChangesRequested;
    DecidedReview(ReviewersOf(s, p), ctx.actor, decision, s.proposals[p].proposer);
    hide DistinctReviewers, IsReviewer, AllSignedOff, Decided, KeepsReviewers, OnlyProposal, GoodRow;
    ReviewersReplaced(s, DoSignOff(s, ctx, p, approve, commentFits).0, p, Decided(ReviewersOf(s, p), ctx.actor, decision));
  }

  lemma SignOffOk(s: State, ctx: Ctx, p: Id, approve: bool, commentFits: bool)
    requires Inv(s)
    ensures Good(s, DoSignOff(s, ctx, p, approve, commentFits).0, ctx.tenant)
  {
    if DoSignOff(s, ctx, p, approve, commentFits).1 != Done {
      NothingChanged(s, s, ctx.tenant);
    } else {
      assert ReviewOk(s, p);
      SignOffRow(s, ctx, p, approve, commentFits);
      assert s.proposals[p].tenant == ctx.tenant;
      hide DoSignOff, OnlyProposal, GoodRow, Inv, Good;
      ProposalChanged(s, DoSignOff(s, ctx, p, approve, commentFits).0, p);
    }
  }

  // ----- Calls that change items -----

  /** Only items may differ, and of those who reviews them and how far they are. */
  ghost predicate OnlyItems(s: State, t: State) {
    && t.proposals == s.proposals && t.reviewers == s.reviewers && t.campaigns == s.campaigns && t.items.Keys == s.items.Keys
    && forall i :: i in s.items ==> ItemFollows(s, t, i) && ItemProgress(s, t, i)
  }

  /** A status that fits what is linked. */
  ghost predicate ItemProgress(s: State, t: State, i: Id)
    requires i in s.items && i in t.items
  {
    || t.items[i].status == s.items[i].status
    || t.items[i].status == Open
    || (t.items[i].status == Confirmed && !HasPendingLinked(s, i))
    || (t.items[i].status == ChangesProposed && HasLinked(s, i))
  }

  lemma ItemStaysOk(s: State, t: State, i: Id)
    requires OnlyItems(s, t) && i in s.items && ItemOk(s, i)
    ensures ItemOk(t, i)
  {
    SameButProgress(t.items[i], s.items[i]);
    LinksFrame(s, t, i);
  }

  lemma RowsStayOk(s: State, t: State, p: Id)
    requires OnlyItems(s, t) && p in s.proposals && ReviewOk(s, p) && LinkOk(s, p)
    ensures ReviewOk(t, p) && LinkOk(t, p) && ProposalFollows(s, t, p)
  {
    RowFrame(s, t, p);
    hide ReviewOk, LinkOk, ProposalFollows, ItemProgress;
    LinkFrame(s, t, p);
  }

  lemma ItemsChanged(s: State, t: State, tenant: Tenant)
    requires Inv(s) && OnlyItems(s, t)
    requires forall i :: i in s.items && s.items[i].tenant != tenant ==> t.items[i] == s.items[i]
    ensures Good(s, t, tenant)
  {
    hide ReviewOk, LinkOk, ItemOk, ProposalFollows, ItemFollows, ItemProgress;
    forall p | p in s.proposals
      ensures ReviewOk(t, p) && LinkOk(t, p) && ProposalFollows(s, t, p)
    {
      RowsStayOk(s, t, p);
    }
    forall i | i in s.items
      ensures ItemOk(t, i)
    {
      ItemStaysOk(s, t, i);
    }
  }

  lemma SetItemOk(s: State, ctx: Ctx, i: Id, status: ItemStatus, reviewer: Option<User>)
    requires Inv(s) && HasItem(s, ctx, i) && s.items[i].campaign in s.campaigns && s.campaigns[s.items[i].campaign].open
    requires status == Confirmed ==> !HasPendingLinked(s, i)
    requires status == ChangesProposed ==> HasLinked(s, i)
    ensures Good(s, SetItem(s, i, status, reviewer), ctx.tenant)
  {
    hide HasPendingLinked, HasLinked, Inv;
    ItemsChanged(s, SetItem(s, i, status, reviewer), ctx.tenant);
  }

  lemma CompleteItemOk(s: State, ctx: Ctx, i: Id, confirm: bool, noteFits: bool)
    requires Inv(s)
    ensures Good(s, DoCompleteItem(s, ctx, i, confirm, noteFits).0, ctx.tenant)
  {
    hide Inv, Good, HasPendingLinked, HasLinked, SetItem;
    var t := DoCompleteItem(s, ctx, i, confirm, noteFits);
    if t.1 != Done {
      NothingChanged(s, s, ctx.tenant);
    } else {
      SetItemOk(s, ctx, i, if confirm then Confirmed else ChangesProposed, Some(ctx.actor));
    }
  }

  lemma ReopenItemOk(s: State, ctx: Ctx, i: Id, noteFits: bool)
    requires Inv(s)
    ensures Good(s, DoReopenItem(s, ctx, i, noteFits).0, ctx.tenant)
  {
    hide Inv, Good, SetItem;
    if DoReopenItem(s, ctx, i, noteFits).1 != Done {
      NothingChanged(s, s, ctx.tenant);
    } else {
      SetItemOk(s, ctx, i, Open, None);
    }
  }

  lemma AssignItemsOk(s: State, ctx: Ctx, c: Id, reviewer: Option<User>, selection: Selection)
    requires Inv(s)
    ensures Good(s, DoAssignItems(s, ctx, c, reviewer, selection).0, ctx.tenant)
  {
    var t := DoAssignItems(s, ctx, c, reviewer, selection).0;
    if DoAssignItems(s, ctx, c, reviewer, selection).1 != Done {
      NothingChanged(s, s, ctx.tenant);
    } else {
      hide HasPendingLinked, HasLinked, ReviewOk, LinkOk, OneOpenCampaign;
      forall i | i in s.items && s.items[i].tenant != ctx.tenant
        ensures t.items[i] == s.items[i]
      {
        assert ItemOk(s, i);
      }
      assert t.items.Keys == s.items.Keys;
      ItemsChanged(s, t, ctx.tenant);
    }
  }

  // ----- Calls that change campaigns -----

  /** Campaigns may be added or closed, and items added with a new campaign; the rest stays. */
  ghost predicate OnlyCampaigns(s: State, t: State) {
    && t.proposals == s.proposals && t.reviewers == s.reviewers && s.items.Keys <= t.items.Keys
    && (forall i :: i in s.items ==> t.items[i] == s.items[i])
    && (forall c :: c in s.campaigns ==> CampaignFollows(s, t, c))
    && (forall i :: i in t.items && i !in s.items ==>
          t.items[i].status == Open && t.items[i].campaign in t.campaigns
          && t.campaigns[t.items[i].campaign].tenant == t.items[i].tenant)
    && OneOpenCampaign(t)
  }

  lemma CampaignsChanged(s: State, t: State, tenant: Tenant)
    requires Inv(s) && OnlyCampaigns(s, t)
    requires forall c :: c in s.campaigns && s.campaigns[c].tenant != tenant ==> t.campaigns[c] == s.campaigns[c]
    ensures Good(s, t, tenant)
  {
    hide ReviewOk, ProposalFollows, OneOpenCampaign;
    forall p | p in s.proposals
      ensures ReviewOk(t, p) && LinkOk(t, p) && ProposalFollows(s, t, p)
    {
      RowFrame(s, t, p);
      assert LinkOk(s, p);
    }
    forall i | i in t.items
      ensures ItemOk(t, i)
    {
      if i in s.items { assert ItemOk(s, i); }
      LinksFrame(s, t, i);
    }
  }

  lemma StartCampaignOk(s: State, ctx: Ctx, id: Id, organization: Id, wellNamed: bool, items: map<Id, Item>)
    requires Inv(s)
    ensures Good(s, DoStartCampaign(s, ctx, id, organization, wellNamed, items).0, ctx.tenant)
  {
    var t := DoStartCampaign(s, ctx, id, organization, wellNamed, items).0;
    if DoStartCampaign(s, ctx, id, organization, wellNamed, items).1 != Done {
      NothingChanged(s, s, ctx.tenant);
    } else {
      hide ReviewOk, LinkOk, ItemOk;
      CampaignsChanged(s, t, ctx.tenant);
    }
  }

  lemma CloseCampaignOk(s: State, ctx: Ctx, c: Id)
    requires Inv(s)
    ensures Good(s, DoCloseCampaign(s, ctx, c).0, ctx.tenant)
  {
    var t := DoCloseCampaign(s, ctx, c).0;
    if DoCloseCampaign(s, ctx, c).1 != Done {
      NothingChanged(s, s, ctx.tenant);
    } else {
      hide ReviewOk, LinkOk, ItemOk;
      CampaignsChanged(s, t, ctx.tenant);
    }
  }

  // ----- Calls that link -----

  /** A pending proposal is new or newly linked to an item, which is open afterwards. */
  ghost predicate Linked(s: State, t: State, i: Id, p: Id) {
    && i in s.items && p in t.proposals && t.proposals[p].status == Pending
    && t.proposals[p].reviewItem == Some(i)
    && (p in s.proposals ==> s.proposals[p].status == Pending && ProposalFollows(s, t, p))
    && t.proposals.Keys == s.proposals.Keys + {p}
    && (forall q :: q in s.proposals && q != p ==> t.proposals[q] == s.proposals[q] && ReviewersOf(t, q) == ReviewersOf(s, q))
    && t.campaigns == s.campaigns && t.items.Keys == s.items.Keys
    && (forall j :: j in s.items && j != i ==> t.items[j] == s.items[j])
    && t.items[i].status == Open && ItemFollows(s, t, i)
  }

  lemma LinkedRows(s: State, t: State, i: Id, p: Id)
    requires Inv(s) && Linked(s, t, i, p) && ReviewOk(t, p) && LinkOk(t, p)
    ensures forall q :: q in t.proposals ==> ReviewOk(t, q) && LinkOk(t, q) && (q in s.proposals ==> ProposalFollows(s, t, q))
  {
    hide ReviewOk, LinkOk, ProposalFollows, ItemOk, OneOpenCampaign;
    forall q | q in t.proposals
      ensures ReviewOk(t, q) && LinkOk(t, q) && (q in s.proposals ==> ProposalFollows(s, t, q))
    {
      if q != p {
        RowFrame(s, t, q);
        LinkFrame(s, t, q);
      }
    }
  }

  lemma LinkedItems(s: State, t: State, i: Id, p: Id)
    requires Inv(s) && Linked(s, t, i, p)
    ensures forall j :: j in t.items ==> ItemOk(t, j) && ItemFollows(s, t, j)
  {
    hide ReviewOk, LinkOk, OneOpenCampaign;
    forall j | j in t.items
      ensures ItemOk(t, j) && ItemFollows(s, t, j)
    {
      assert ItemOk(s, j);
      if j == i {
        SameButProgress(t.items[i], s.items[i]);
      } else {
        LinksFrame(s, t, j);
      }
    }
  }

  lemma LinkedInv(s: State, t: State, i: Id, p: Id)
    requires Inv(s) && Linked(s, t, i, p) && ReviewOk(t, p) && LinkOk(t, p)
    ensures Inv(t)
  {
    LinkedRows(s, t, i, p);
    LinkedItems(s, t, i, p);
    hide ReviewOk, LinkOk, ProposalFollows, ItemOk, ItemFollows;
  }

  lemma LinkedOthers(s: State, t: State, i: Id, p: Id, tenant: Tenant)
    requires Linked(s, t, i, p) && s.items[i].tenant == tenant && (p in s.proposals ==> s.proposals[p].tenant == tenant)
    ensures OthersUntouched(s, t, tenant) && forall c :: c in s.campaigns ==> CampaignFollows(s, t, c)
  {
    hide ProposalFollows, ItemFollows;
  }

  lemma LinkedOk(s: State, t: State, i: Id, p: Id, tenant: Tenant)
    requires Inv(s) && Linked(s, t, i, p) && ReviewOk(t, p) && LinkOk(t, p)
    requires s.items[i].tenant == tenant && (p in s.proposals ==> s.proposals[p].tenant == tenant)
    ensures Good(s, t, tenant)
  {
    LinkedRows(s, t, i, p);
    LinkedItems(s, t, i, p);
    LinkedInv(s, t, i, p);
    LinkedOthers(s, t, i, p, tenant);
    assert s.items.Keys == t.items.Keys && s.proposals.Keys <= t.proposals.Keys;
    hide Linked, Inv, ReviewOk, LinkOk, ProposalFollows, ItemOk, ItemFollows, CampaignFollows, OthersUntouched;
  }

  /** What linking makes of a state in which the proposal's row already names the item. */
  ghost predicate LinkMade(q: State, t: State, ctx: Ctx, i: Id, p: Id)
    requires i in q.items && p in q.proposals
  {
    && t.proposals == q.proposals && t.campaigns == q.campaigns && t.items.Keys == q.items.Keys && t.writes == q.writes
    && (forall j :: j in q.items && j != i ==> t.items[j] == q.items[j])
    && t.items[i] == (if q.items[i].status == Open then q.items[i] else q.items[i].(status := Open, reviewedBy := None))
    && (forall r :: r != p ==> ReviewersOf(t, r) == ReviewersOf(q, r))
    && DistinctReviewers(ReviewersOf(t, p)) && !IsReviewer(ReviewersOf(t, p), q.proposals[p].proposer)
    && KeepsReviewers(ReviewersOf(q, p), ReviewersOf(t, p))
    && (q.items[i].assignee.Some? && q.items[i].assignee.value !in {ctx.actor, q.proposals[p].proposer} ==>
          IsReviewer(ReviewersOf(t, p), q.items[i].assignee.value))
  }

  lemma ListKept(reviewers: seq<Reviewer>)
    ensures KeepsReviewers(reviewers, reviewers)
  {
  }

  lemma LinkEffect(q: State, ctx: Ctx, i: Id, p: Id)
    requires i in q.items && p in q.proposals
    requires DistinctReviewers(ReviewersOf(q, p)) && !IsReviewer(ReviewersOf(q, p), q.proposals[p].proposer)
    ensures LinkMade(q, Link(q, ctx, i, p), ctx, i, p)
  {
    var assignee := q.items[i].assignee;
    if assignee.Some? {
      hide IsReviewer, DistinctReviewers, KeepsReviewers;
      ListKept(ReviewersOf(q, p));
      AddingKeeps(ReviewersOf(q, p), [assignee.value], ctx.actor);
      ListedAfterAdding(ReviewersOf(q, p), [assignee.value], ctx.actor, q.proposals[p].proposer);
      ListedAfterAdding(ReviewersOf(q, p), [assignee.value], ctx.actor, assignee.value);
    }
  }

  /** The row that is about to be linked: new, or pending and only now naming the item. */
  ghost predicate Linking(s: State, q: State, i: Id, p: Id) {
    && q.items == s.items && q.campaigns == s.campaigns && i in s.items
    && s.items[i].campaign in s.campaigns && s.campaigns[s.items[i].campaign].open
    && q.proposals.Keys == s.proposals.Keys + {p} && p in q.proposals
    && q.proposals[p].status == Pending && q.proposals[p].resolvedBy.None? && q.proposals[p].reviewItem == Some(i)
    && (forall r :: r in s.proposals && r != p ==> q.proposals[r] == s.proposals[r] && ReviewersOf(q, r) == ReviewersOf(s, r))
    && (p in s.proposals ==>
          && s.proposals[p].(reviewItem := Some(i)) == q.proposals[p]
          && s.proposals[p].reviewItem in {None, Some(i)} && s.proposals[p].status == Pending
          && ReviewersOf(q, p) == ReviewersOf(s, p))
  }

  lemma LinkedRow(s: State, q: State, t: State, ctx: Ctx, i: Id, p: Id)
    requires Linking(s, q, i, p) && LinkMade(q, t, ctx, i, p)
    ensures ReviewOk(t, p) && (p in s.proposals ==> ProposalFollows(s, t, p))
  {
    hide DistinctReviewers, IsReviewer;
  }

  lemma LinkedItem(s: State, q: State, t: State, ctx: Ctx, i: Id, p: Id)
    requires Linking(s, q, i, p) && LinkMade(q, t, ctx, i, p)
    ensures t.items.Keys == s.items.Keys && t.items[i].status == Open && ItemFollows(s, t, i)
  {
    hide DistinctReviewers, IsReviewer;
  }

  lemma LinkMadeIsLinked(s: State, q: State, t: State, ctx: Ctx, i: Id, p: Id)
    requires Linking(s, q, i, p) && LinkMade(q, t, ctx, i, p)
    ensures Linked(s, t, i, p) && ReviewOk(t, p)
  {
    LinkedRow(s, q, t, ctx, i, p);
    LinkedItem(s, q, t, ctx, i, p);
    hide DistinctReviewers, IsReviewer, ReviewOk, ProposalFollows, ItemFollows;
  }

  /** The linked row fits the item as long as it did before. */
  lemma LinkMadeFits(s: State, q: State, t: State, ctx: Ctx, i: Id, p: Id)
    requires Linking(s, q, i, p) && LinkMade(q, t, ctx, i, p)
    requires s.items[i].tenant == q.proposals[p].tenant && Fits(s.items[i], q.proposals[p].draft)
    requires s.campaigns[s.items[i].campaign].environment == q.proposals[p].environment
    ensures LinkOk(t, p)
  {
    hide DistinctReviewers, IsReviewer;
  }

  lemma AttachLinks(s: State, ctx: Ctx, i: Id, p: Id)
    requires DoAttach(s, ctx, i, p).1 == Done && ReviewOk(s, p)
    ensures var t := DoAttach(s, ctx, i, p).0;
            Linked(s, t, i, p) && ReviewOk(t, p) && LinkOk(t, p) && HasItem(s, ctx, i) && HasProposal(s, ctx, p)
  {
    var t := DoAttach(s, ctx, i, p).0;
    var q := s.(proposals := s.proposals[p := s.proposals[p].(reviewItem := Some(i))]);
    LinkEffect(q, ctx, i, p);
    assert Linking(s, q, i, p);
    assert s.items[i].tenant == q.proposals[p].tenant && Fits(s.items[i], q.proposals[p].draft);
    assert s.campaigns[s.items[i].campaign].environment == q.proposals[p].environment;
    hide Linking, LinkMade, Linked, LinkOk, ReviewOk, Fits;
    LinkMadeIsLinked(s, q, t, ctx, i, p);
    LinkMadeFits(s, q, t, ctx, i, p);
  }

  lemma AttachOk(s: State, ctx: Ctx, i: Id, p: Id)
    requires Inv(s)
    ensures Good(s, DoAttach(s, ctx, i, p).0, ctx.tenant)
  {
    var t := DoAttach(s, ctx, i, p).0;
    if DoAttach(s, ctx, i, p).1 != Done {
      NothingChanged(s, s, ctx.tenant);
    } else {
      assert ReviewOk(s, p);
      AttachLinks(s, ctx, i, p);
      hide Inv, Good, DoAttach, Linked, ReviewOk, LinkOk;
      LinkedOk(s, t, i, p, ctx.tenant);
    }
  }

  lemma ProposeLinks(s: State, ctx: Ctx, id: Id, draft: Draft, i: Id, prepared: bool)
    requires DoPropose(s, ctx, id, draft, Some(i), prepared).1 == Done
    ensures var t := DoPropose(s, ctx, id, draft, Some(i), prepared).0;
            Linked(s, t, i, id) && ReviewOk(t, id) && LinkOk(t, id) && HasItem(s, ctx, i)
  {
    var t := DoPropose(s, ctx, id, draft, Some(i), prepared).0;
    var q := s.(proposals := s.proposals[id := NewRow(ctx, draft, Some(i))], reviewers := s.reviewers[id := []]);
    LinkEffect(q, ctx, i, id);
    assert Linking(s, q, i, id);
    assert s.items[i].tenant == q.proposals[id].tenant && Fits(s.items[i], q.proposals[id].draft);
    assert s.campaigns[s.items[i].campaign].environment == q.proposals[id].environment;
    hide Linking, LinkMade, Linked, LinkOk, ReviewOk, Fits;
    LinkMadeIsLinked(s, q, t, ctx, i, id);
    LinkMadeFits(s, q, t, ctx, i, id);
  }

  lemma ProposeOk(s: State, ctx: Ctx, id: Id, draft: Draft, reviewItem: Option<Id>, prepared: bool)
    requires Inv(s)
    ensures Good(s, DoPropose(s, ctx, id, draft, reviewItem, prepared).0, ctx.tenant)
  {
    var t := DoPropose(s, ctx, id, draft, reviewItem, prepared).0;
    if DoPropose(s, ctx, id, draft, reviewItem, prepared).1 != Done {
      NothingChanged(s, s, ctx.tenant);
    } else if reviewItem.None? {
      hide Inv, Good;
      NewProposal(s, t, id, ctx.tenant);
    } else {
      ProposeLinks(s, ctx, id, draft, reviewItem.value, prepared);
      assert id !in s.proposals;
      hide Inv, Good, DoPropose, Linked, ReviewOk, LinkOk;
      LinkedOk(s, t, reviewItem.value, id, ctx.tenant);
    }
  }

  ghost predicate Added(s: State, t: State, p: Id) {
    && p !in s.proposals && p in t.proposals
    && t == s.(proposals := s.proposals[p := t.proposals[p]], reviewers := s.reviewers[p := []])
    && t.proposals[p].status == Pending && t.proposals[p].resolvedBy.None? && t.proposals[p].reviewItem.None?
  }

  lemma AddedRows(s: State, t: State, p: Id)
    requires Inv(s) && Added(s, t, p)
    ensures forall q :: q in t.proposals ==> ReviewOk(t, q) && LinkOk(t, q) && (q in s.proposals ==> ProposalFollows(s, t, q))
  {
    hide OneOpenCampaign;
    forall q | q in t.proposals
      ensures ReviewOk(t, q) && LinkOk(t, q) && (q in s.proposals ==> ProposalFollows(s, t, q))
    {
      if q != p {
        assert LinkOk(s, q);
        RowFrame(s, t, q);
      }
    }
  }

  lemma AddedItems(s: State, t: State, p: Id)
    requires Inv(s) && Added(s, t, p)
    ensures forall i :: i in t.items ==> ItemOk(t, i)
  {
    hide ReviewOk, LinkOk, OneOpenCampaign;
    forall i | i in t.items
      ensures ItemOk(t, i)
    {
      assert ItemOk(s, i);
      LinksFrame(s, t, i);
    }
  }

  lemma AddedInv(s: State, t: State, p: Id)
    requires Inv(s) && Added(s, t, p)
    ensures Inv(t)
  {
    AddedRows(s, t, p);
    AddedItems(s, t, p);
    hide ReviewOk, LinkOk, ProposalFollows, ItemOk;
  }

  lemma AddedOthers(s: State, t: State, p: Id, tenant: Tenant)
    requires Added(s, t, p)
    ensures OthersUntouched(s, t, tenant)
    ensures forall c :: c in s.campaigns ==> CampaignFollows(s, t, c)
    ensures forall i :: i in s.items ==> ItemFollows(s, t, i)
  {
  }

  lemma NewProposal(s: State, t: State, p: Id, tenant: Tenant)
    requires Inv(s) && Added(s, t, p) && t.proposals[p].tenant == tenant
    ensures Good(s, t, tenant)
  {
    AddedRows(s, t, p);
    AddedInv(s, t, p);
    AddedOthers(s, t, p, tenant);
    assert s.proposals.Keys <= t.proposals.Keys;
    hide Added, Inv, ReviewOk, LinkOk, ProposalFollows, ItemOk, OthersUntouched, CampaignFollows, ItemFollows;
  }

  // ----- Every call and every run -----

  /** Every call keeps the tables in order, undoes nothing, and leaves the other tenants alone. */
  lemma EveryCall(s: State, ctx: Ctx, call: Call)
    requires Inv(s)
    ensures Inv(Next(s, ctx, call).0) && Follows(s, Next(s, ctx, call).0)
    ensures OthersUntouched(s, Next(s, ctx, call).0, ctx.tenant)
  {
    hide Inv, Follows, OthersUntouched, DoPropose, DoAttach, DoRequestReview, DoSignOff, DoResolve, DoConfirmPublish,
      DoStartCampaign, DoAssignItems, DoCompleteItem, DoReopenItem, DoCloseCampaign;
    match call
    case Propose(id, draft, reviewItem, prepared) => ProposeOk(s, ctx, id, draft, reviewItem, prepared);
    case Attach(i, p) => AttachOk(s, ctx, i, p);
    case RequestReview(p, candidates) => RequestReviewOk(s, ctx, p, candidates);
    case SignOff(p, approve, commentFits) => SignOffOk(s, ctx, p, approve, commentFits);
    case Resolve(p, action, fourEyes, work) => ResolveOk(s, ctx, p, action, fourEyes, work);
    case ConfirmPublish(p, ptvId, inPtv) => ConfirmPublishOk(s, ctx, p, ptvId, inPtv);
    case StartCampaign(id, organization, wellNamed, items) => StartCampaignOk(s, ctx, id, organization, wellNamed, items);
    case AssignItems(c, reviewer, selection) => AssignItemsOk(s, ctx, c, reviewer, selection);
    case CompleteItem(i, confirm, noteFits) => CompleteItemOk(s, ctx, i, confirm, noteFits);
    case ReopenItem(i, noteFits) => ReopenItemOk(s, ctx, i, noteFits);
    case CloseCampaign(c) => CloseCampaignOk(s, ctx, c);
  }

  lemma {:induction false} RunKeepsInv(s: State, calls: seq<(Ctx, Call)>)
    requires Inv(s)
    ensures Inv(Run(s, calls))
    decreases |calls|
  {
    hide Inv, Next;
    if calls != [] {
      EveryCall(s, calls[0].0, calls[0].1);
      RunKeepsInv(Next(s, calls[0].0, calls[0].1).0, calls[1..]);
    }
  }

  lemma EmptyOk()
    ensures Inv(EMPTY)
  {
  }

  /** Every reachable state has its reviews, links, items and campaigns in order. */
  lemma EveryReachableState(calls: seq<(Ctx, Call)>)
    ensures Inv(Run(EMPTY, calls))
  {
    EmptyOk();
    RunKeepsInv(EMPTY, calls);
  }

  /** A linked proposal is about its item: an update about the same service or channel, a change of connections about an end of one. */
  lemma LinkedAboutItem(calls: seq<(Ctx, Call)>, p: Id)
    requires p in Run(EMPTY, calls).proposals && Run(EMPTY, calls).proposals[p].reviewItem.Some?
    ensures var t := Run(EMPTY, calls);
            var d, i := t.proposals[p].draft, t.proposals[p].reviewItem.value;
            && i in t.items
            && var kind, target := t.items[i].targetKind, t.items[i].target;
               && (d.kind == ServiceUpdate ==> (kind == Service && target == d.target) || (kind == Channel && d.editsConnections))
               && (d.kind == ChannelUpdate ==> kind == Channel && target == d.target)
               && (d.kind == ConnectionUpdate ==> (kind == Service && target == d.target) || (kind == Channel && target == d.channel))
  {
    hide Run;
    EveryReachableState(calls);
    assert LinkOk(Run(EMPTY, calls), p);
  }

  /**
   * A proposal that becomes applied is about what PTV calls it from then on: a new item about the id it was
   * given there, when one was given, anything else about what it was about.
   */
  lemma AppliedTarget(s: State, ctx: Ctx, call: Call, p: Id)
    requires call.Resolve? || call.ConfirmPublish?
    requires p in s.proposals && p in Next(s, ctx, call).0.proposals
    requires s.proposals[p].status != Applied && Next(s, ctx, call).0.proposals[p].status == Applied
    ensures call.proposal == p
    ensures var d, id := s.proposals[p].draft, if call.ConfirmPublish? then call.ptvId else if call.work.Succeeds? then call.work.createdId else "";
            Next(s, ctx, call).0.proposals[p].draft
            == if d.kind in {ServiceCreate, ChannelCreate, OrganisationCreate} && id != "" then d.(target := id) else d
  {
    hide AllSignedOff, AtLeast;
  }

  /** Nothing is undone over a whole run: reviews frozen, links kept, closed campaigns left as they were. */
  lemma {:induction false} RunFollows(s: State, calls: seq<(Ctx, Call)>)
    requires Inv(s)
    ensures Follows(s, Run(s, calls))
    decreases |calls|
  {
    hide Inv, Next;
    if calls == [] {
      FollowsItself(s);
    } else {
      var t := Next(s, calls[0].0, calls[0].1).0;
      EveryCall(s, calls[0].0, calls[0].1);
      RunFollows(t, calls[1..]);
      FollowsTransitive(s, t, Run(t, calls[1..]));
    }
  }

  lemma FollowsItself(s: State)
    ensures Follows(s, s)
  {
  }

  lemma FollowsTransitive(s: State, t: State, u: State)
    requires Follows(s, t) && Follows(t, u)
    ensures Follows(s, u)
  {
    forall p | p in s.proposals
      ensures ProposalFollows(s, u, p)
    {
      assert ProposalFollows(s, t, p) && ProposalFollows(t, u, p);
    }
    hide ProposalFollows;
    forall c | c in s.campaigns
      ensures CampaignFollows(s, u, c)
    {
      assert CampaignFollows(s, t, c) && CampaignFollows(t, u, c);
    }
    forall i | i in s.items
      ensures ItemFollows(s, u, i)
    {
      ItemFollowsOn(s, t, u, i);
    }
  }

  lemma ItemFollowsOn(s: State, t: State, u: State, i: Id)
    requires Follows(s, t) && Follows(t, u) && i in s.items
    ensures ItemFollows(s, u, i)
  {
    hide ProposalFollows;
    assert ItemFollows(s, t, i) && ItemFollows(t, u, i);
    SameButProgress(t.items[i], s.items[i]);
    if s.items[i].campaign in s.campaigns {
      assert CampaignFollows(s, t, s.items[i].campaign);
    }
  }

  // ----- Four eyes -----

  predicate KeepsFourEyes(ctx: Ctx, call: Call, tenant: Tenant) {
    ctx.tenant == tenant && call.Resolve? ==> call.fourEyes
  }

  lemma FourEyesKept(s: State, ctx: Ctx, call: Call, tenant: Tenant)
    requires Inv(s) && FourEyes(s, tenant) && KeepsFourEyes(ctx, call, tenant)
    ensures FourEyes(Next(s, ctx, call).0, tenant)
  {
    var t := Next(s, ctx, call).0;
    EveryCall(s, ctx, call);
    forall p | p in t.proposals && t.proposals[p].tenant == tenant && PastApproval(t.proposals[p].status)
      ensures t.proposals[p].resolvedBy != Some(t.proposals[p].proposer)
    {
      FourEyesKeptFor(s, ctx, call, p);
    }
  }

  /** The rows keep who proposed and who resolved them. */
  ghost predicate SameResolution(s: State, t: State, p: Id)
    requires p in t.proposals
  {
    || t.proposals[p].status == Pending
    || (p in s.proposals
        && t.proposals[p].status == s.proposals[p].status && t.proposals[p].resolvedBy == s.proposals[p].resolvedBy
        && t.proposals[p].proposer == s.proposals[p].proposer && t.proposals[p].tenant == s.proposals[p].tenant)
  }

  lemma LinkKeepsProposals(s: State, ctx: Ctx, i: Id, p: Id)
    requires i in s.items && p in s.proposals
    ensures Link(s, ctx, i, p).proposals == s.proposals
  {
  }

  lemma ProposingResolvesNothing(s: State, ctx: Ctx, call: Call, p: Id)
    requires call.Propose? || call.Attach?
    requires p in Next(s, ctx, call).0.proposals
    ensures SameResolution(s, Next(s, ctx, call).0, p)
  {
    hide Link;
    if call.Propose? && DoPropose(s, ctx, call.id, call.draft, call.reviewItem, call.prepared).1 == Done && call.reviewItem.Some? {
      LinkKeepsProposals(s.(proposals := s.proposals[call.id := NewRow(ctx, call.draft, call.reviewItem)],
                            reviewers := s.reviewers[call.id := []]), ctx, call.reviewItem.value, call.id);
    }
    if call.Attach? && DoAttach(s, ctx, call.item, call.proposal).1 == Done {
      LinkKeepsProposals(s.(proposals := s.proposals[call.proposal := s.proposals[call.proposal].(reviewItem := Some(call.item))]),
                         ctx, call.item, call.proposal);
    }
  }

  lemma OtherCallsResolveNothing(s: State, ctx: Ctx, call: Call)
    requires !call.Propose? && !call.Attach? && !call.Resolve? && !call.ConfirmPublish?
    ensures Next(s, ctx, call).0.proposals == s.proposals
  {
    hide AddReviewers, Decided, Named, Assigned, AllSignedOff, IsReviewer, HasLinked, HasPendingLinked, OpenCampaignFor, FreshItems;
  }

  lemma ResolverIsCaller(s: State, ctx: Ctx, q: Id, action: Action, fourEyes: bool, work: Work, p: Id)
    requires p in DoResolve(s, ctx, q, action, fourEyes, work).0.proposals
    requires PastApproval(DoResolve(s, ctx, q, action, fourEyes, work).0.proposals[p].status)
    ensures p in s.proposals
    ensures var row := DoResolve(s, ctx, q, action, fourEyes, work).0.proposals[p];
            || row == s.proposals[p]
            || (p == q && row.tenant == ctx.tenant && row.proposer == s.proposals[p].proposer
                && row.resolvedBy == Some(ctx.actor) && (fourEyes ==> row.proposer != ctx.actor))
  {
    hide AllSignedOff;
  }

  /** A proposal comes past approval only by a resolving call, whose caller is then its resolver. */
  lemma FourEyesKeptFor(s: State, ctx: Ctx, call: Call, p: Id)
    requires p in Next(s, ctx, call).0.proposals && PastApproval(Next(s, ctx, call).0.proposals[p].status)
    ensures var t := Next(s, ctx, call).0;
            || (p in s.proposals && PastApproval(s.proposals[p].status) && t.proposals[p].resolvedBy == s.proposals[p].resolvedBy
                && t.proposals[p].proposer == s.proposals[p].proposer && t.proposals[p].tenant == s.proposals[p].tenant)
            || (call.Resolve? && call.proposal == p && t.proposals[p].tenant == ctx.tenant
                && t.proposals[p].resolvedBy == Some(ctx.actor)
                && (call.fourEyes ==> t.proposals[p].proposer != ctx.actor))
  {
    if call.Propose? || call.Attach? {
      hide Next;
      ProposingResolvesNothing(s, ctx, call, p);
    } else if call.Resolve? {
      ResolverIsCaller(s, ctx, call.proposal, call.action, call.fourEyes, call.work, p);
      hide DoResolve;
    } else if call.ConfirmPublish? {
      hide AllSignedOff;
    } else {
      hide Next;
      OtherCallsResolveNothing(s, ctx, call);
    }
  }

  lemma {:induction false} FourEyesRun(s: State, calls: seq<(Ctx, Call)>, tenant: Tenant)
    requires Inv(s) && FourEyes(s, tenant)
    requires forall k :: 0 <= k < |calls| ==> KeepsFourEyes(calls[k].0, calls[k].1, tenant)
    ensures FourEyes(Run(s, calls), tenant)
    decreases |calls|
  {
    hide Inv, Next, FourEyes, KeepsFourEyes;
    if calls != [] {
      EveryCall(s, calls[0].0, calls[0].1);
      FourEyesKept(s, calls[0].0, calls[0].1, tenant);
      FourEyesRun(Next(s, calls[0].0, calls[0].1).0, calls[1..], tenant);
    }
  }

  /** In a tenant that never switches four-eyes off, nobody's own proposal is approved, applied or failed by them. */
  lemma NobodyApprovesTheirOwn(calls: seq<(Ctx, Call)>, tenant: Tenant)
    requires forall k :: 0 <= k < |calls| ==> KeepsFourEyes(calls[k].0, calls[k].1, tenant)
    ensures FourEyes(Run(EMPTY, calls), tenant)
  {
    EmptyOk();
    FourEyesRun(EMPTY, calls, tenant);
  }

  /** Only the proposer tries to resolve this proposal, under four-eyes. */
  predicate OnlyProposerResolves(calls: seq<(Ctx, Call)>, p: Id, proposer: User) {
    forall k :: 0 <= k < |calls| && calls[k].1.Resolve? && calls[k].1.proposal == p ==>
      calls[k].0.actor == proposer && calls[k].1.fourEyes
  }

  lemma OwnCallsWriteNothing(s: State, ctx: Ctx, call: Call, p: Id)
    requires p in s.proposals && Next(s, ctx, call).0.writes == s.writes + [p]
    requires call.Resolve? && call.proposal == p
    ensures !(ctx.actor == s.proposals[p].proposer && call.fourEyes)
  {
    hide AllSignedOff;
  }

  lemma OwnCallsLeavePending(s: State, ctx: Ctx, call: Call, p: Id)
    requires Inv(s) && p in s.proposals && !PastApproval(s.proposals[p].status)
    requires call.Resolve? && call.proposal == p ==> ctx.actor == s.proposals[p].proposer && call.fourEyes
    ensures var t := Next(s, ctx, call).0;
            && p in t.proposals && t.proposals[p].proposer == s.proposals[p].proposer && !PastApproval(t.proposals[p].status)
            && (p in t.writes ==> p in s.writes)
  {
    hide Inv, Next;
    var t := Next(s, ctx, call).0;
    EveryCall(s, ctx, call);
    assert ProposalFollows(s, t, p);
    if PastApproval(t.proposals[p].status) {
      FourEyesKeptFor(s, ctx, call, p);
    }
    if Writes(s, ctx, call) {
      WriteResolvesExactlyPending(s, ctx, call);
      if call.proposal == p { OwnCallsWriteNothing(s, ctx, call, p); }
    }
  }

  /**
   * Under four-eyes a proposal that only its proposer tries to resolve is never approved, applied
   * or failed, and never reaches PTV, whatever else is called and however often: it takes someone else.
   */
  lemma TakesSomeoneElse(s: State, calls: seq<(Ctx, Call)>, p: Id)
    requires Inv(s) && p in s.proposals && s.proposals[p].status == Pending && p !in s.writes
    requires OnlyProposerResolves(calls, p, s.proposals[p].proposer)
    ensures var t := Run(s, calls);
            p in t.proposals && t.proposals[p].status in {Pending, Rejected} && p !in t.writes
  {
    hide Inv, Run, OnlyProposerResolves;
    NeverPastApproval(s, calls, p);
    var status := Run(s, calls).proposals[p].status;
    assert status.Pending? || status.Rejected?;
  }

  lemma {:induction false} NeverPastApproval(s: State, calls: seq<(Ctx, Call)>, p: Id)
    requires Inv(s) && p in s.proposals && !PastApproval(s.proposals[p].status) && p !in s.writes
    requires OnlyProposerResolves(calls, p, s.proposals[p].proposer)
    ensures var t := Run(s, calls);
            p in t.proposals && !PastApproval(t.proposals[p].status) && p !in t.writes
    decreases |calls|
  {
    hide Inv, Next;
    if calls != [] {
      EveryCall(s, calls[0].0, calls[0].1);
      OwnCallsLeavePending(s, calls[0].0, calls[0].1, p);
      NeverPastApproval(Next(s, calls[0].0, calls[0].1).0, calls[1..], p);
    }
  }

  /** Rejecting it, though, is open to an approver who proposed it. */
  lemma WithdrawingWorks(s: State, ctx: Ctx, p: Id, work: Work, calls: seq<(Ctx, Call)>)
    requires ctx.role in {Some(Approver), Some(Publisher), Some(TenantAdmin)}
    requires HasProposal(s, ctx, p) && s.proposals[p].status == Pending && Inv(s)
    ensures var t := Next(s, ctx, Resolve(p, Reject, true, work));
            && t.1 == Done && t.0.writes == s.writes
            && p in Run(t.0, calls).proposals && Run(t.0, calls).proposals[p].status == Rejected
  {
    var call := Resolve(p, Reject, true, work);
    var t := Next(s, ctx, call).0;
    assert t.proposals[p].status == Rejected;
    EveryCall(s, ctx, call);
    hide Next, Inv, Run;
    RunFollows(t, calls);
    assert ProposalFollows(t, Run(t, calls), p);
  }

  // ----- A draft sent to an item's reviewer -----

  /** The item a call links a proposal to. */
  predicate LinksTo(call: Call, p: Id, i: Id) {
    (call.Attach? && call.proposal == p && call.item == i) || (call.Propose? && call.id == p && call.reviewItem == Some(i))
  }

  lemma LinkingAsksReviewer(s: State, ctx: Ctx, call: Call, p: Id, i: Id)
    requires Inv(s) && Next(s, ctx, call).1 == Done && LinksTo(call, p, i)
    ensures var t := Next(s, ctx, call).0;
            && i in s.items && p in t.proposals && t.proposals[p].reviewItem == Some(i)
            && (s.items[i].assignee.Some? && s.items[i].assignee.value !in {ctx.actor, t.proposals[p].proposer} ==>
                  IsReviewer(ReviewersOf(t, p), s.items[i].assignee.value))
  {
    if call.Attach? {
      assert p in s.proposals && ReviewOk(s, p);
      hide Inv, Link;
      var q := s.(proposals := s.proposals[p := s.proposals[p].(reviewItem := Some(i))]);
      LinkEffect(q, ctx, i, p);
    } else {
      hide Inv, Link;
      var q := s.(proposals := s.proposals[p := NewRow(ctx, call.draft, Some(i))], reviewers := s.reviewers[p := []]);
      LinkEffect(q, ctx, i, p);
    }
  }

  /**
   * When someone else's proposal is linked to an item, whatever happens afterwards it
   * is not approved, applied or failed before the item's reviewer has signed it off.
   */
  lemma ItemReviewerSignsFirst(s: State, ctx: Ctx, call: Call, p: Id, i: Id, after: seq<(Ctx, Call)>)
    requires Inv(s) && Next(s, ctx, call).1 == Done && LinksTo(call, p, i)
    requires i in s.items && s.items[i].assignee.Some? && s.items[i].assignee.value != ctx.actor
    ensures var t, u := Next(s, ctx, call).0, Run(Next(s, ctx, call).0, after);
            && p in t.proposals && p in u.proposals
            && (s.items[i].assignee.value != t.proposals[p].proposer && PastApproval(u.proposals[p].status) ==>
                  exists k :: 0 <= k < |ReviewersOf(u, p)| && ReviewersOf(u, p)[k].user == s.items[i].assignee.value
                              && ReviewersOf(u, p)[k].decision == SignedOff)
  {
    hide Next, Run, Inv, Follows;
    var t, u := Next(s, ctx, call).0, Run(Next(s, ctx, call).0, after);
    LinkingAsksReviewer(s, ctx, call, p, i);
    EveryCall(s, ctx, call);
    RunKeepsInv(t, after);
    RunFollows(t, after);
    SignedOffLater(t, u, p, s.items[i].assignee.value);
  }

  lemma SignedOffLater(t: State, u: State, p: Id, reviewer: User)
    requires Inv(u) && Follows(t, u) && p in t.proposals
    ensures p in u.proposals
    ensures IsReviewer(ReviewersOf(t, p), reviewer) && PastApproval(u.proposals[p].status) ==>
              exists k :: 0 <= k < |ReviewersOf(u, p)| && ReviewersOf(u, p)[k].user == reviewer
                          && ReviewersOf(u, p)[k].decision == SignedOff
  {
    assert ProposalFollows(t, u, p) && ReviewOk(u, p);
    if IsReviewer(ReviewersOf(t, p), reviewer) && PastApproval(u.proposals[p].status) {
      var k :| 0 <= k < |ReviewersOf(u, p)| && ReviewersOf(u, p)[k].user == reviewer;
      assert ReviewersOf(u, p)[k].decision == SignedOff;
    }
  }

  // ----- What is written to PTV -----

  predicate Writes(s: State, ctx: Ctx, call: Call) {
    Next(s, ctx, call).0.writes != s.writes
  }

  /**
   * A call that applies writes the proposal to PTV whatever its status; exactly a pending one is
   * then resolved, as applied, or as failed when the write broke after it had reached PTV.
   */
  lemma WriteResolvesExactlyPending(s: State, ctx: Ctx, call: Call)
    requires Writes(s, ctx, call)
    ensures call.Resolve? && call.action == ApproveAndApply
    ensures call.proposal in s.proposals && call.proposal in Next(s, ctx, call).0.proposals
    ensures Next(s, ctx, call).0.writes == s.writes + [call.proposal]
    ensures var a, b := s.proposals[call.proposal], Next(s, ctx, call).0.proposals[call.proposal];
            if a.status == Pending then
              b.status == (if call.work.Succeeds? then Applied else Failed) && b.resolvedBy == Some(ctx.actor)
            else Next(s, ctx, call).0.proposals == s.proposals
    ensures Next(s, ctx, call).1 == Done <==> s.proposals[call.proposal].status == Pending && call.work.Succeeds?
  {
    if call.Propose? || call.Attach? {
      hide Next;
      ProposingWritesNothing(s, ctx, call);
    }
    hide AddReviewers, Decided, Named, Assigned, AllSignedOff, IsReviewer, HasLinked, HasPendingLinked, OpenCampaignFor,
      FreshItems, Link, Linkable;
  }

  lemma LinkWritesNothing(s: State, ctx: Ctx, i: Id, p: Id)
    requires i in s.items && p in s.proposals
    ensures Link(s, ctx, i, p).writes == s.writes
  {
  }

  lemma ProposingWritesNothing(s: State, ctx: Ctx, call: Call)
    requires call.Propose? || call.Attach?
    ensures Next(s, ctx, call).0.writes == s.writes
  {
    hide Link;
    if call.Propose? && DoPropose(s, ctx, call.id, call.draft, call.reviewItem, call.prepared).1 == Done && call.reviewItem.Some? {
      LinkWritesNothing(s.(proposals := s.proposals[call.id := NewRow(ctx, call.draft, call.reviewItem)],
                           reviewers := s.reviewers[call.id := []]), ctx, call.reviewItem.value, call.id);
    }
    if call.Attach? && DoAttach(s, ctx, call.item, call.proposal).1 == Done {
      LinkWritesNothing(s.(proposals := s.proposals[call.proposal := s.proposals[call.proposal].(reviewItem := Some(call.item))]),
                        ctx, call.item, call.proposal);
    }
  }

  predicate Settled(status: Status) {
    status in {Applied, Failed}
  }

  /** What has reached PTV is applied or failed, and has reached it once. */
  ghost predicate WrittenOnce(s: State) {
    && (forall k :: 0 <= k < |s.writes| ==> s.writes[k] in s.proposals && Settled(s.proposals[s.writes[k]].status))
    && (forall j, k :: 0 <= j < k < |s.writes| ==> s.writes[j] != s.writes[k])
  }

  /** A write of a pending proposal, or the first one of a proposal that is applied or failed. */
  predicate WritesInTime(s: State, ctx: Ctx, call: Call) {
    Writes(s, ctx, call) && call.Resolve? && call.proposal in s.proposals ==>
      || s.proposals[call.proposal].status == Pending
      || (Settled(s.proposals[call.proposal].status) && call.proposal !in s.writes)
  }

  predicate AllInTime(s: State, calls: seq<(Ctx, Call)>)
    decreases |calls|
  {
    calls == [] || (WritesInTime(s, calls[0].0, calls[0].1) && AllInTime(Next(s, calls[0].0, calls[0].1).0, calls[1..]))
  }

  lemma SettledStays(s: State, t: State, p: Id)
    requires Follows(s, t) && p in s.proposals && Settled(s.proposals[p].status)
    ensures p in t.proposals && Settled(t.proposals[p].status)
  {
    assert ProposalFollows(s, t, p);
  }

  lemma WrittenKept(s: State, t: State)
    requires WrittenOnce(s) && Follows(s, t) && t.writes == s.writes
    ensures WrittenOnce(t)
  {
    hide Follows, Settled;
    forall k | 0 <= k < |s.writes|
      ensures s.writes[k] in t.proposals && Settled(t.proposals[s.writes[k]].status)
    {
      SettledStays(s, t, s.writes[k]);
    }
  }

  lemma WrittenAdded(s: State, t: State, p: Id)
    requires WrittenOnce(s) && Follows(s, t) && t.writes == s.writes + [p] && p in t.proposals
    ensures WrittenOnce(t) <==> p !in s.writes && Settled(t.proposals[p].status)
  {
    hide Follows, Settled;
    assert t.writes[|s.writes|] == p;
    forall k | 0 <= k < |s.writes|
      ensures t.writes[k] in t.proposals && Settled(t.proposals[t.writes[k]].status)
    {
      assert t.writes[k] == s.writes[k];
      SettledStays(s, t, s.writes[k]);
    }
    if p in s.writes {
      var k :| 0 <= k < |s.writes| && s.writes[k] == p;
      assert t.writes[k] == t.writes[|s.writes|];
    }
  }

  /** One call keeps it exactly when what it writes is pending, or settled and not yet written. */
  lemma WrittenOnceStep(s: State, ctx: Ctx, call: Call)
    requires Inv(s) && WrittenOnce(s)
    ensures WrittenOnce(Next(s, ctx, call).0) <==> WritesInTime(s, ctx, call)
  {
    EveryCall(s, ctx, call);
    var t := Next(s, ctx, call).0;
    if Writes(s, ctx, call) {
      WriteResolvesExactlyPending(s, ctx, call);
      hide Next, Inv, Follows;
      WrittenAdded(s, t, call.proposal);
      if call.proposal in s.writes {
        var k :| 0 <= k < |s.writes| && s.writes[k] == call.proposal;
      }
    } else {
      hide Next, Inv, Follows, WrittenOnce;
      WrittenKept(s, t);
    }
  }

  lemma {:induction false} WrittenOnceRun(s: State, calls: seq<(Ctx, Call)>)
    requires Inv(s) && WrittenOnce(s)
    ensures (forall k :: 0 <= k <= |calls| ==> WrittenOnce(Run(s, calls[..k]))) <==> AllInTime(s, calls)
    decreases |calls|
  {
    hide Inv, Next, WrittenOnce, WritesInTime;
    if calls == [] {
      RunNothing(s);
      assert calls[..0] == [];
    } else {
      var t := Next(s, calls[0].0, calls[0].1).0;
      EveryCall(s, calls[0].0, calls[0].1);
      WrittenOnceStep(s, calls[0].0, calls[0].1);
      RunNothing(s);
      RunNothing(t);
      forall k | 0 < k <= |calls|
        ensures Run(s, calls[..k]) == Run(t, calls[1..][..k - 1])
      {
        assert calls[..k][1..] == calls[1..][..k - 1];
      }
      assert calls[..0] == [] && calls[1..][..0] == [];
      if WritesInTime(s, calls[0].0, calls[0].1) {
        WrittenOnceRun(t, calls[1..]);
        if AllInTime(s, calls) {
          forall k | 0 <= k <= |calls|
            ensures WrittenOnce(Run(s, calls[..k]))
          {
            if k > 0 { assert WrittenOnce(Run(t, calls[1..][..k - 1])); }
          }
        } else {
          var k :| 0 <= k <= |calls[1..]| && !WrittenOnce(Run(t, calls[1..][..k]));
          assert calls[1..][..k + 1 - 1] == calls[1..][..k];
          assert !WrittenOnce(Run(s, calls[..k + 1]));
        }
      } else {
        assert !WrittenOnce(Run(s, calls[..1]));
      }
    }
  }

  lemma RunNothing(s: State)
    ensures Run(s, []) == s
  {
  }

  /**
   * One call at a time: at every moment of a run what has reached PTV is applied or failed and
   * has reached it once, exactly when every write is of a pending proposal, or of a settled one
   * that had not been written.
   */
  lemma WrittenOnceExactly(calls: seq<(Ctx, Call)>)
    ensures (forall k :: 0 <= k <= |calls| ==> WrittenOnce(Run(EMPTY, calls[..k]))) <==> AllInTime(EMPTY, calls)
  {
    EmptyOk();
    WrittenOnceRun(EMPTY, calls);
  }

  // ----- The same without looking at what PTV holds -----

  /** The call with any broken write taken to have reached PTV. */
  function Reaching(call: Call): Call {
    if call.Resolve? && call.work.Breaks? then call.(work := Breaks(true)) else call
  }

  function AllReaching(calls: seq<(Ctx, Call)>): (r: seq<(Ctx, Call)>)
    ensures |r| == |calls| && forall k :: 0 <= k < |r| ==> r[k] == (calls[k].0, Reaching(calls[k].1))
  {
    seq(|calls|, k requires 0 <= k < |calls| => (calls[k].0, Reaching(calls[k].1)))
  }

  /** The same calls with the same answers; only whether a write that broke had reached PTV, which no caller sees, may differ. */
  ghost predicate SameButReach(calls: seq<(Ctx, Call)>, others: seq<(Ctx, Call)>) {
    |calls| == |others|
    && forall k :: 0 <= k < |calls| ==> others[k].0 == calls[k].0 && Reaching(others[k].1) == Reaching(calls[k].1)
  }

  /** By what its caller sees, the call may have written: it was let through to apply and not refused for want of a right to write. */
  predicate MayWrite(s: State, ctx: Ctx, call: Call) {
    Writes(s, ctx, Reaching(call))
  }

  /** The call may only write what is pending, or applied or failed without an earlier call that may have written it. */
  predicate Timely(s: State, ctx: Ctx, call: Call, touched: set<Id>) {
    MayWrite(s, ctx, call) && call.Resolve? && call.proposal in s.proposals ==>
      || s.proposals[call.proposal].status == Pending
      || (Settled(s.proposals[call.proposal].status) && call.proposal !in touched)
  }

  function Touched(s: State, ctx: Ctx, call: Call, touched: set<Id>): set<Id> {
    if MayWrite(s, ctx, call) && call.Resolve? then touched + {call.proposal} else touched
  }

  predicate AllTimely(s: State, calls: seq<(Ctx, Call)>, touched: set<Id>)
    decreases |calls|
  {
    calls == []
    || (Timely(s, calls[0].0, calls[0].1, touched)
        && AllTimely(Next(s, calls[0].0, calls[0].1).0, calls[1..], Touched(s, calls[0].0, calls[0].1, touched)))
  }

  function Rows(s: State): State {
    s.(writes := [])
  }

  function Written(s: State): set<Id> {
    set p | p in s.writes
  }

  lemma MarkIgnoresWrites(s: State, t: State, p: Id, status: Status, resolver: User, createdId: Id)
    requires Rows(s) == Rows(t) && p in s.proposals
    ensures p in t.proposals
    ensures Rows(MarkResolved(s, p, status, resolver, createdId).0) == Rows(MarkResolved(t, p, status, resolver, createdId).0)
  {
    SameTables(s, t);
  }

  lemma ResolveIgnoresWrites(s: State, t: State, ctx: Ctx, p: Id, action: Action, fourEyes: bool, work: Work, other: Work)
    requires Rows(s) == Rows(t) && (work == other || (work.Breaks? && other.Breaks?))
    ensures Rows(DoResolve(s, ctx, p, action, fourEyes, work).0) == Rows(DoResolve(t, ctx, p, action, fourEyes, other).0)
  {
    hide AllSignedOff, MarkResolved, AtLeast;
    SameTables(s, t);
    if p in s.proposals {
      var v, w := s.(writes := s.writes + [p]), t.(writes := t.writes + [p]);
      MarkIgnoresWrites(s, t, p, Rejected, ctx.actor, "");
      MarkIgnoresWrites(s, t, p, Approved, ctx.actor, "");
      if work.Succeeds? {
        MarkIgnoresWrites(v, w, p, Applied, ctx.actor, if Creates(s.proposals[p].draft.kind) then work.createdId else "");
      } else {
        MarkIgnoresWrites(s, t, p, Failed, ctx.actor, "");
        MarkIgnoresWrites(s, w, p, Failed, ctx.actor, "");
        MarkIgnoresWrites(v, t, p, Failed, ctx.actor, "");
        MarkIgnoresWrites(v, w, p, Failed, ctx.actor, "");
      }
    }
  }

  lemma SameTables(s: State, t: State)
    requires Rows(s) == Rows(t)
    ensures s.proposals == t.proposals && s.reviewers == t.reviewers && s.items == t.items && s.campaigns == t.campaigns
    ensures t == s.(writes := t.writes)
  {
    assert Rows(s).proposals == s.proposals && Rows(t).proposals == t.proposals;
    assert Rows(s).reviewers == s.reviewers && Rows(t).reviewers == t.reviewers;
    assert Rows(s).items == s.items && Rows(t).items == t.items;
    assert Rows(s).campaigns == s.campaigns && Rows(t).campaigns == t.campaigns;
  }

  lemma LinkIgnoresWrites(s: State, t: State, ctx: Ctx, i: Id, p: Id)
    requires Rows(s) == Rows(t) && i in s.items && p in s.proposals
    ensures i in t.items && p in t.proposals && Rows(Link(s, ctx, i, p)) == Rows(Link(t, ctx, i, p))
  {
    SameTables(s, t);
    hide AddReviewers;
  }

  lemma LinkableIgnoresWrites(s: State, t: State, ctx: Ctx, environment: Environment, i: Id, d: Draft)
    requires Rows(s) == Rows(t)
    ensures Linkable(s, ctx, environment, i, d) == Linkable(t, ctx, environment, i, d)
    ensures Linkable(s, ctx, environment, i, d) == Done ==> i in s.items
  {
    SameTables(s, t);
    hide Fits, AtLeast;
  }

  lemma ProposeIgnoresWrites(s: State, t: State, ctx: Ctx, id: Id, draft: Draft, reviewItem: Option<Id>, prepared: bool)
    requires Rows(s) == Rows(t)
    ensures Rows(DoPropose(s, ctx, id, draft, reviewItem, prepared).0) == Rows(DoPropose(t, ctx, id, draft, reviewItem, prepared).0)
  {
    hide Link, Linkable;
    SameTables(s, t);
    if reviewItem.Some? {
      LinkableIgnoresWrites(s, t, ctx, ctx.environment, reviewItem.value, draft);
      var row := NewRow(ctx, draft, reviewItem);
      var q := s.(proposals := s.proposals[id := row], reviewers := s.reviewers[id := []]);
      var r := t.(proposals := t.proposals[id := row], reviewers := t.reviewers[id := []]);
      if reviewItem.value in s.items { LinkIgnoresWrites(q, r, ctx, reviewItem.value, id); }
    }
  }

  lemma AttachIgnoresWrites(s: State, t: State, ctx: Ctx, i: Id, p: Id)
    requires Rows(s) == Rows(t)
    ensures Rows(DoAttach(s, ctx, i, p).0) == Rows(DoAttach(t, ctx, i, p).0)
  {
    hide Link, Linkable;
    SameTables(s, t);
    if p in s.proposals {
      var row := s.proposals[p];
      LinkableIgnoresWrites(s, t, ctx, row.environment, i, row.draft);
      var q := s.(proposals := s.proposals[p := row.(reviewItem := Some(i))]);
      var r := t.(proposals := t.proposals[p := row.(reviewItem := Some(i))]);
      if i in s.items { LinkIgnoresWrites(q, r, ctx, i, p); }
    }
  }

  lemma ProposalCallsIgnoreWrites(s: State, t: State, ctx: Ctx, p: Id, candidates: seq<Option<User>>, approve: bool, fits: bool, ptvId: Id)
    requires Rows(s) == Rows(t)
    ensures Rows(DoRequestReview(s, ctx, p, candidates).0) == Rows(DoRequestReview(t, ctx, p, candidates).0)
    ensures Rows(DoSignOff(s, ctx, p, approve, fits).0) == Rows(DoSignOff(t, ctx, p, approve, fits).0)
    ensures Rows(DoConfirmPublish(s, ctx, p, ptvId, fits).0) == Rows(DoConfirmPublish(t, ctx, p, ptvId, fits).0)
  {
    hide AddReviewers, Decided, Named, IsReviewer, AtLeast;
    SameTables(s, t);
  }

  lemma CampaignCallsIgnoreWrites(s: State, t: State, ctx: Ctx, c: Id, organization: Id, wellNamed: bool, items: map<Id, Item>)
    requires Rows(s) == Rows(t)
    ensures Rows(DoStartCampaign(s, ctx, c, organization, wellNamed, items).0)
            == Rows(DoStartCampaign(t, ctx, c, organization, wellNamed, items).0)
    ensures Rows(DoCloseCampaign(s, ctx, c).0) == Rows(DoCloseCampaign(t, ctx, c).0)
  {
    hide AtLeast;
    SameTables(s, t);
    assert OpenCampaignFor(s, ctx.tenant, ctx.environment, organization) == OpenCampaignFor(t, ctx.tenant, ctx.environment, organization);
    assert FreshItems(s, ctx, c, items) == FreshItems(t, ctx, c, items);
  }

  lemma AssignIgnoresWrites(s: State, t: State, ctx: Ctx, c: Id, reviewer: Option<User>, selection: Selection)
    requires Rows(s) == Rows(t)
    ensures Rows(DoAssignItems(s, ctx, c, reviewer, selection).0) == Rows(DoAssignItems(t, ctx, c, reviewer, selection).0)
  {
    hide Assigned, AtLeast;
    SameTables(s, t);
  }

  lemma ItemCallsIgnoreWrites(s: State, t: State, ctx: Ctx, i: Id, confirm: bool, noteFits: bool)
    requires Rows(s) == Rows(t)
    ensures Rows(DoCompleteItem(s, ctx, i, confirm, noteFits).0) == Rows(DoCompleteItem(t, ctx, i, confirm, noteFits).0)
    ensures Rows(DoReopenItem(s, ctx, i, noteFits).0) == Rows(DoReopenItem(t, ctx, i, noteFits).0)
  {
    hide AtLeast;
    SameTables(s, t);
    assert HasLinked(s, i) == HasLinked(t, i) && HasPendingLinked(s, i) == HasPendingLinked(t, i);
  }

  lemma OthersIgnoreWrites(s: State, t: State, ctx: Ctx, call: Call)
    requires Rows(s) == Rows(t) && !call.Propose? && !call.Attach? && !call.Resolve?
    ensures Rows(Next(s, ctx, call).0) == Rows(Next(t, ctx, call).0)
  {
    hide DoRequestReview, DoSignOff, DoConfirmPublish, DoStartCampaign, DoAssignItems, DoCompleteItem, DoReopenItem,
      DoCloseCampaign, Rows;
    match call
    case Propose(_, _, _, _) =>
    case Attach(_, _) =>
    case Resolve(_, _, _, _) =>
    case RequestReview(p, candidates) => ProposalCallsIgnoreWrites(s, t, ctx, p, candidates, true, true, "");
    case SignOff(p, approve, fits) => ProposalCallsIgnoreWrites(s, t, ctx, p, [], approve, fits, "");
    case ConfirmPublish(p, ptvId, inPtv) => ProposalCallsIgnoreWrites(s, t, ctx, p, [], true, inPtv, ptvId);
    case StartCampaign(c, organization, wellNamed, items) => CampaignCallsIgnoreWrites(s, t, ctx, c, organization, wellNamed, items);
    case CloseCampaign(c) => CampaignCallsIgnoreWrites(s, t, ctx, c, "", true, map[]);
    case AssignItems(c, reviewer, selection) => AssignIgnoresWrites(s, t, ctx, c, reviewer, selection);
    case CompleteItem(i, confirm, fits) => ItemCallsIgnoreWrites(s, t, ctx, i, confirm, fits);
    case ReopenItem(i, fits) => ItemCallsIgnoreWrites(s, t, ctx, i, true, fits);
  }

  /** What PTV holds, and whether a broken write reached it, change nothing about the rows. */
  lemma RowsIgnoreWrites(s: State, t: State, ctx: Ctx, call: Call, other: Call)
    requires Rows(s) == Rows(t) && Reaching(call) == Reaching(other)
    ensures Rows(Next(s, ctx, call).0) == Rows(Next(t, ctx, other).0)
  {
    hide DoPropose, DoAttach, DoRequestReview, DoSignOff, DoResolve, DoConfirmPublish, DoStartCampaign, DoAssignItems,
      DoCompleteItem, DoReopenItem, DoCloseCampaign, Rows;
    if call.Resolve? {
      ResolveIgnoresWrites(s, t, ctx, call.proposal, call.action, call.fourEyes, call.work, other.work);
    } else if call.Propose? {
      ProposeIgnoresWrites(s, t, ctx, call.id, call.draft, call.reviewItem, call.prepared);
    } else if call.Attach? {
      AttachIgnoresWrites(s, t, ctx, call.item, call.proposal);
    } else {
      OthersIgnoreWrites(s, t, ctx, call);
    }
  }

  /** A call writes only if its caller may think so, and whether they may does not depend on what PTV holds. */
  lemma WritesAreSeen(s: State, t: State, ctx: Ctx, call: Call, other: Call)
    requires Rows(s) == Rows(t) && Reaching(call) == Reaching(other)
    ensures Writes(t, ctx, other) ==> MayWrite(s, ctx, call)
    ensures MayWrite(s, ctx, call) == MayWrite(t, ctx, other)
    ensures MayWrite(s, ctx, call) ==> call.Resolve? && call.proposal in s.proposals
    ensures Writes(t, ctx, other) ==> Next(t, ctx, other).0.writes == t.writes + [call.proposal]
  {
    SameTables(s, t);
    if MayWrite(s, ctx, call) { WriteResolvesExactlyPending(s, ctx, Reaching(call)); }
    if MayWrite(t, ctx, other) { WriteResolvesExactlyPending(t, ctx, Reaching(other)); }
    if Writes(t, ctx, other) { WriteResolvesExactlyPending(t, ctx, other); }
    if call.Resolve? { ResolveSeen(s, t, ctx, call.proposal, call.action, call.fourEyes, call.work, other.work); }
  }

  /** When resolving writes. */
  lemma ResolveWrites(s: State, ctx: Ctx, p: Id, action: Action, fourEyes: bool, work: Work)
    ensures DoResolve(s, ctx, p, action, fourEyes, work).0.writes != s.writes
            <==> && AtLeast(ctx, Publisher) && HasProposal(s, ctx, p) && action == ApproveAndApply
                 && !(s.proposals[p].proposer == ctx.actor && fourEyes) && AllSignedOff(ReviewersOf(s, p))
                 && (work.Succeeds? || work == Breaks(true))
  {
    hide AllSignedOff;
  }

  lemma ResolveSeen(s: State, t: State, ctx: Ctx, p: Id, action: Action, fourEyes: bool, work: Work, other: Work)
    requires Rows(s) == Rows(t) && (work == other || (work.Breaks? && other.Breaks?))
    ensures var seen := if work.Breaks? then Breaks(true) else work;
            && (DoResolve(t, ctx, p, action, fourEyes, other).0.writes != t.writes ==>
                  DoResolve(s, ctx, p, action, fourEyes, seen).0.writes != s.writes)
            && (DoResolve(s, ctx, p, action, fourEyes, seen).0.writes != s.writes
                <==> DoResolve(t, ctx, p, action, fourEyes, seen).0.writes != t.writes)
  {
    hide AllSignedOff, AtLeast, DoResolve;
    SameTables(s, t);
    var seen := if work.Breaks? then Breaks(true) else work;
    ResolveWrites(t, ctx, p, action, fourEyes, other);
    ResolveWrites(s, ctx, p, action, fourEyes, seen);
    ResolveWrites(t, ctx, p, action, fourEyes, seen);
  }

  lemma {:induction false} TimelyIsInTime(s: State, calls: seq<(Ctx, Call)>, touched: set<Id>, t: State, others: seq<(Ctx, Call)>)
    requires SameButReach(calls, others) && Rows(s) == Rows(t) && Written(t) <= touched && AllTimely(s, calls, touched)
    ensures AllInTime(t, others)
    decreases |calls|
  {
    hide Next, Rows, Writes, Settled;
    if calls != [] {
      var ctx, call, other := calls[0].0, calls[0].1, others[0].1;
      SameTables(s, t);
      RowsIgnoreWrites(s, t, ctx, call, other);
      WritesAreSeen(s, t, ctx, call, other);
      var u := Next(t, ctx, other).0;
      assert Written(u) <= Touched(s, ctx, call, touched) by { WrittenGrows(t, ctx, other); }
      TimelyIsInTime(Next(s, ctx, call).0, calls[1..], Touched(s, ctx, call, touched), u, others[1..]);
    }
  }

  lemma WrittenGrows(s: State, ctx: Ctx, call: Call)
    ensures !Writes(s, ctx, call) ==> Written(Next(s, ctx, call).0) == Written(s)
    ensures Writes(s, ctx, call) ==> call.Resolve? && Written(Next(s, ctx, call).0) == Written(s) + {call.proposal}
  {
    hide Next;
    if Writes(s, ctx, call) {
      WriteResolvesExactlyPending(s, ctx, call);
    }
  }

  lemma {:induction false} InTimeIsTimely(s: State, calls: seq<(Ctx, Call)>, touched: set<Id>, t: State)
    requires Rows(s) == Rows(t) && Written(t) == touched && AllInTime(t, AllReaching(calls))
    ensures AllTimely(s, calls, touched)
    decreases |calls|
  {
    hide Next, Rows, Writes, Settled;
    if calls != [] {
      var ctx, call, other := calls[0].0, calls[0].1, Reaching(calls[0].1);
      assert Reaching(other) == other;
      SameTables(s, t);
      RowsIgnoreWrites(s, t, ctx, call, other);
      WritesAreSeen(s, t, ctx, call, other);
      WrittenGrows(t, ctx, other);
      assert AllReaching(calls)[1..] == AllReaching(calls[1..]);
      InTimeIsTimely(Next(s, ctx, call).0, calls[1..], Touched(s, ctx, call, touched), Next(t, ctx, other).0);
    }
  }

  ghost predicate AlwaysWrittenOnce(calls: seq<(Ctx, Call)>) {
    forall k :: 0 <= k <= |calls| ==> WrittenOnce(Run(EMPTY, calls[..k]))
  }

  /**
   * One call at a time, and whichever broken writes had reached PTV: at every moment what has
   * reached it is applied or failed and has reached it once, exactly when every call that may
   * have written did so to a pending proposal, or to a settled one that no earlier call may have
   * written. That is something the callers can tell from statuses and answers.
   */
  lemma WrittenOnceAsSeen(calls: seq<(Ctx, Call)>)
    ensures (forall others :: SameButReach(calls, others) ==> AlwaysWrittenOnce(others)) <==> AllTimely(EMPTY, calls, {})
  {
    hide AllInTime, AllTimely, WrittenOnce, Reaching, Rows;
    assert Written(EMPTY) == {};
    if AllTimely(EMPTY, calls, {}) {
      forall others | SameButReach(calls, others)
        ensures AlwaysWrittenOnce(others)
      {
        TimelyIsInTime(EMPTY, calls, {}, EMPTY, others);
        WrittenOnceExactly(others);
      }
    }
    if forall others :: SameButReach(calls, others) ==> AlwaysWrittenOnce(others) {
      ReachingTwice(calls);
      WrittenOnceExactly(AllReaching(calls));
      InTimeIsTimely(EMPTY, calls, {}, EMPTY);
    }
  }

  lemma ReachingTwice(calls: seq<(Ctx, Call)>)
    ensures SameButReach(calls, AllReaching(calls))
  {
  }

  /** The caller looks before applying: the proposal is pending. */
  predicate LooksFirst(s: State, call: Call) {
    call.Resolve? && call.action == ApproveAndApply && call.proposal in s.proposals ==> s.proposals[call.proposal].status == Pending
  }

  predicate AllLookFirst(s: State, calls: seq<(Ctx, Call)>)
    decreases |calls|
  {
    calls == [] || (LooksFirst(s, calls[0].1) && AllLookFirst(Next(s, calls[0].0, calls[0].1).0, calls[1..]))
  }

  lemma {:induction false} LookingFirstIsInTime(s: State, calls: seq<(Ctx, Call)>)
    requires AllLookFirst(s, calls)
    ensures AllInTime(s, calls)
    decreases |calls|
  {
    if calls != [] {
      if Writes(s, calls[0].0, calls[0].1) {
        WriteResolvesExactlyPending(s, calls[0].0, calls[0].1);
      }
      hide Next, Writes;
      LookingFirstIsInTime(Next(s, calls[0].0, calls[0].1).0, calls[1..]);
    }
  }

  /** One call at a time, made by callers who apply only what is pending: a change reaches PTV at most once, and is then applied or failed. */
  lemma LookingFirstWritesOnce(calls: seq<(Ctx, Call)>)
    requires AllLookFirst(EMPTY, calls)
    ensures WrittenOnce(Run(EMPTY, calls))
  {
    hide WrittenOnce, AllInTime, AllLookFirst, Run;
    LookingFirstIsInTime(EMPTY, calls);
    WrittenOnceExactly(calls);
    assert calls[..|calls|] == calls;
  }

  /** Without looking: a proposal is rejected, and then written to PTV although it stays rejected. */
  lemma RejectedIsWritten(tenant: Tenant, proposer: User, approver: User, id: Id, draft: Draft) returns (calls: seq<(Ctx, Call)>)
    requires proposer != approver
    ensures var t := Run(EMPTY, calls);
            id in t.proposals && t.proposals[id].status == Rejected && t.writes == [id]
  {
    var a := Ctx(tenant, proposer, Some(Contributor), Test);
    var b := Ctx(tenant, approver, Some(Publisher), Test);
    var propose := Propose(id, draft, None, true);
    var reject := Resolve(id, Reject, true, NoWriteRole);
    var apply := Resolve(id, ApproveAndApply, true, Succeeds("new"));
    calls := [(a, propose), (b, reject), (b, apply)];
    var s1 := Next(EMPTY, a, propose).0;
    assert s1 == EMPTY.(proposals := map[id := NewRow(a, draft, None)], reviewers := map[id := []]);
    var s2 := Next(s1, b, reject).0;
    assert s2.proposals[id].status == Rejected && s2.reviewers == s1.reviewers;
    var s3 := Next(s2, b, apply).0;
    assert s3 == s2.(writes := [id]);
    RunThree(EMPTY, calls);
  }

  lemma RunThree(s: State, calls: seq<(Ctx, Call)>)
    requires |calls| == 3
    ensures Run(s, calls) == Next(Next(Next(s, calls[0].0, calls[0].1).0, calls[1].0, calls[1].1).0, calls[2].0, calls[2].1).0
  {
    hide Next;
    var s1 := Next(s, calls[0].0, calls[0].1).0;
    var s2 := Next(s1, calls[1].0, calls[1].1).0;
    var s3 := Next(s2, calls[2].0, calls[2].1).0;
    var two, one := calls[1..], calls[1..][1..];
    assert two[0] == calls[1] && one[0] == calls[2] && one[1..] == [];
    assert Run(s3, []) == s3;
    assert Run(s2, one) == s3;
    assert Run(s1, two) == s3;
  }
}
