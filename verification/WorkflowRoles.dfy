/**
 * Who may make which call (src/auth/rbac.ts:19-33, src/mcp/authorization.ts:31-41,
 * src/ptv/dbAdapterRegistry.ts:153-163), by name of the role: what a caller without the right
 * asks for is neither done nor answered, and what one with it asks for is done once the rows allow it.
 */
module WorkflowRoles {
  import opened Wrappers
  import opened Workflow

  /** Hyväksyjä and above. */
  predicate MayResolve(ctx: Ctx) {
    ctx.role in {Some(Approver), Some(Publisher), Some(TenantAdmin)}
  }

  /** Julkaisija and above. */
  predicate MayPublish(ctx: Ctx) {
    ctx.role in {Some(Publisher), Some(TenantAdmin)}
  }

  /** Any member but a viewer. */
  predicate MayPropose(ctx: Ctx) {
    ctx.role in {Some(Contributor), Some(Approver), Some(Publisher), Some(TenantAdmin)}
  }

  /** The item is the caller's, or the caller may work on anyone's. */
  predicate MayWorkOn(s: State, ctx: Ctx, i: Id) {
    MayPropose(ctx) && i in s.items && s.items[i].tenant == ctx.tenant && (s.items[i].assignee == Some(ctx.actor) || MayPublish(ctx))
  }

  predicate IsOwn(s: State, ctx: Ctx, p: Id) {
    p in s.proposals && s.proposals[p].proposer == ctx.actor
  }

  /** The call is one that its caller is entitled to make. */
  predicate Entitled(s: State, ctx: Ctx, call: Call) {
    match call
    case Propose(_, _, reviewItem, _) => MayPropose(ctx) && (reviewItem.Some? ==> MayWorkOn(s, ctx, reviewItem.value))
    case Attach(i, p) => MayWorkOn(s, ctx, i) && (IsOwn(s, ctx, p) || MayPublish(ctx))
    case RequestReview(p, _) => MayPropose(ctx) && (IsOwn(s, ctx, p) || MayResolve(ctx))
    case SignOff(p, _, _) => MayPropose(ctx) && IsReviewer(ReviewersOf(s, p), ctx.actor)
    case Resolve(p, action, fourEyes, _) =>
      MayResolve(ctx) && (action != Reject && fourEyes ==> !IsOwn(s, ctx, p))
    case ConfirmPublish(_, _, _) => MayResolve(ctx)
    case CompleteItem(i, _, _) => MayWorkOn(s, ctx, i)
    case _ => MayPublish(ctx)
  }

  /** The tenant's campaign is open. */
  predicate CampaignOpen(s: State, ctx: Ctx, c: Id) {
    c in s.campaigns && s.campaigns[c].tenant == ctx.tenant && s.campaigns[c].open
  }

  /** The tenant's proposal is in this status. */
  predicate HasStatus(s: State, ctx: Ctx, p: Id, status: Status) {
    p in s.proposals && s.proposals[p].tenant == ctx.tenant && s.proposals[p].status == status
  }

  /** The draft is about the item: an update about the same service or channel, a change of connections about an end of one. */
  predicate Answers(item: Item, d: Draft) {
    match d.kind
    case ServiceUpdate => (item.targetKind == Service && item.target == d.target) || (item.targetKind == Channel && d.editsConnections)
    case ChannelUpdate => item.targetKind == Channel && item.target == d.target
    case ConnectionUpdate =>
      (item.targetKind == Service && item.target == d.target) || (item.targetKind == Channel && item.target == d.channel)
    case ServiceCreate => true
    case ChannelCreate => true
    case OrganisationUpdate => true
    case OrganisationCreate => true
  }

  lemma AnswersFits(item: Item, d: Draft)
    ensures Answers(item, d) == Fits(item, d)
  {
  }

  /** A draft can be linked to the item: in its open campaign's environment, about its target; a finished item only by a publisher. */
  predicate TakesDraft(s: State, ctx: Ctx, environment: Environment, i: Id, draft: Draft) {
    i in s.items
    && var item := s.items[i];
       CampaignOpen(s, ctx, item.campaign) && s.campaigns[item.campaign].environment == environment && Answers(item, draft)
       && (item.status == Open || MayPublish(ctx))
  }

  /** What the call needs of the rows, and of the answers from outside. */
  predicate Ready(s: State, ctx: Ctx, call: Call) {
    match call
    case Propose(id, draft, reviewItem, prepared) =>
      id !in s.proposals && prepared && (reviewItem.Some? ==> TakesDraft(s, ctx, ctx.environment, reviewItem.value, draft))
    case Attach(i, p) =>
      HasStatus(s, ctx, p, Pending) && (s.proposals[p].reviewItem.None? || s.proposals[p].reviewItem == Some(i))
      && TakesDraft(s, ctx, s.proposals[p].environment, i, s.proposals[p].draft)
    case RequestReview(p, candidates) =>
      HasStatus(s, ctx, p, Pending) && candidates != []
      && forall k :: 0 <= k < |candidates| ==> candidates[k].Some? && candidates[k].value != s.proposals[p].proposer
    case SignOff(p, _, commentFits) => HasStatus(s, ctx, p, Pending) && commentFits
    case Resolve(p, action, _, work) =>
      HasStatus(s, ctx, p, Pending)
      && (action != Reject ==> work.Succeeds? && forall k :: 0 <= k < |ReviewersOf(s, p)| ==> ReviewersOf(s, p)[k].decision == SignedOff)
      && (action == ApproveAndApply ==> MayPublish(ctx))
    case ConfirmPublish(p, ptvId, inPtv) =>
      HasStatus(s, ctx, p, Approved) && inPtv
      && (s.proposals[p].draft.kind in {ServiceCreate, ChannelCreate, OrganisationCreate} ==> ptvId != "")
    case StartCampaign(id, organization, wellNamed, items) =>
      wellNamed && id !in s.campaigns && FreshItems(s, ctx, id, items)
      && forall c :: c in s.campaigns ==> s.campaigns[c] != Campaign(ctx.tenant, ctx.environment, organization, true)
    case AssignItems(c, reviewer, _) => CampaignOpen(s, ctx, c) && reviewer.Some?
    case CompleteItem(i, confirm, noteFits) =>
      noteFits && i in s.items && CampaignOpen(s, ctx, s.items[i].campaign)
      && (if confirm then forall p :: p in s.proposals && s.proposals[p].reviewItem == Some(i) ==> s.proposals[p].status != Pending
          else exists p :: p in s.proposals && s.proposals[p].reviewItem == Some(i))
    case ReopenItem(i, noteFits) =>
      noteFits && i in s.items && s.items[i].tenant == ctx.tenant && CampaignOpen(s, ctx, s.items[i].campaign)
    case CloseCampaign(c) => CampaignOpen(s, ctx, c)
  }

  // ----- What every call needs -----

  lemma RanksByName(ctx: Ctx)
    ensures AtLeast(ctx, Contributor) == MayPropose(ctx)
    ensures AtLeast(ctx, Approver) == MayResolve(ctx)
    ensures AtLeast(ctx, Publisher) == MayPublish(ctx)
  {
  }

  lemma LinkableExactly(s: State, ctx: Ctx, environment: Environment, i: Id, draft: Draft)
    ensures Linkable(s, ctx, environment, i, draft) == Done <==> MayWorkOn(s, ctx, i) && TakesDraft(s, ctx, environment, i, draft)
  {
    hide AtLeast, MayPropose, MayResolve, MayPublish, Fits, Answers;
    RanksByName(ctx);
    if i in s.items { AnswersFits(s.items[i], draft); }
  }

  lemma {:induction false} NamedExactly(candidates: seq<Option<User>>, proposer: User)
    ensures Named(candidates, proposer).Some?
            <==> forall k :: 0 <= k < |candidates| ==> candidates[k].Some? && candidates[k].value != proposer
    decreases |candidates|
  {
    if candidates != [] {
      var n := |candidates| - 1;
      NamedExactly(candidates[..n], proposer);
      assert forall k :: 0 <= k < n ==> candidates[..n][k] == candidates[k];
    }
  }

  lemma ProposalCallsDoneExactly(s: State, ctx: Ctx, call: Call)
    requires call.Propose? || call.Attach? || call.RequestReview? || call.SignOff?
    ensures Next(s, ctx, call).1 == Done <==> Entitled(s, ctx, call) && Ready(s, ctx, call)
  {
    hide AtLeast, MayPropose, MayResolve, MayPublish, Fits, Linkable, Link, MayWorkOn, TakesDraft, AddReviewers, Decided, Named;
    RanksByName(ctx);
    match call {
      case Propose(_, draft, reviewItem, _) =>
        if reviewItem.Some? { LinkableExactly(s, ctx, ctx.environment, reviewItem.value, draft); }
      case Attach(i, p) =>
        if p in s.proposals { LinkableExactly(s, ctx, s.proposals[p].environment, i, s.proposals[p].draft); }
      case RequestReview(p, candidates) =>
        if p in s.proposals { NamedExactly(candidates, s.proposals[p].proposer); }
      case _ =>
    }
  }

  lemma OtherCallsDoneExactly(s: State, ctx: Ctx, call: Call)
    requires !call.Propose? && !call.Attach? && !call.RequestReview? && !call.SignOff?
    ensures Next(s, ctx, call).1 == Done <==> Entitled(s, ctx, call) && Ready(s, ctx, call)
  {
    hide AtLeast, MayPropose, MayResolve, MayPublish, Fits, FreshItems, Assigned;
    RanksByName(ctx);
  }

  /** A call is answered as done exactly when its caller is entitled to it and the rows and PTV allow it. */
  lemma DoneExactly(s: State, ctx: Ctx, call: Call)
    ensures Next(s, ctx, call).1 == Done <==> Entitled(s, ctx, call) && Ready(s, ctx, call)
  {
    hide *;
    if call.Propose? || call.Attach? || call.RequestReview? || call.SignOff? {
      ProposalCallsDoneExactly(s, ctx, call);
    } else {
      OtherCallsDoneExactly(s, ctx, call);
    }
  }

  /** Whoever is not entitled to a call changes nothing by it; and only a publisher or a tenant's administrator makes PTV change. */
  lemma OnlyTheEntitled(s: State, ctx: Ctx, call: Call)
    ensures Next(s, ctx, call).0 != s ==> Entitled(s, ctx, call)
    ensures Writes(s, ctx, call) ==> MayPublish(ctx)
  {
    if call.Resolve? {
      hide AtLeast, MayPropose, MayResolve, MayPublish, AllSignedOff, MarkResolved;
      RanksByName(ctx);
      ResolveWrites(s, ctx, call.proposal, call.action, call.fourEyes, call.work);
    } else {
      hide *;
      RefusedChangesNothing(s, ctx, call);
      DoneExactly(s, ctx, call);
    }
  }

  /** Only resolving can change anything without success: a write that breaks. */
  lemma RefusedChangesNothing(s: State, ctx: Ctx, call: Call)
    requires !call.Resolve?
    ensures Next(s, ctx, call).1 != Done ==> Next(s, ctx, call).0 == s
    ensures !Writes(s, ctx, call)
  {
    if Writes(s, ctx, call) { WriteResolvesExactlyPending(s, ctx, call); }
    hide AtLeast, Fits, FreshItems, Assigned, AddReviewers, Decided, Named, Link, Linkable;
  }

  /** The proposal, item or campaign that the call names is not one of the caller's tenant. */
  predicate NamesUnknown(s: State, ctx: Ctx, call: Call) {
    match call
    case Propose(_, _, reviewItem, _) => reviewItem.Some? && UnknownItem(s, ctx, reviewItem.value)
    case Attach(i, p) => UnknownProposal(s, ctx, p) || UnknownItem(s, ctx, i)
    case RequestReview(p, _) => UnknownProposal(s, ctx, p)
    case SignOff(p, _, _) => UnknownProposal(s, ctx, p)
    case Resolve(p, _, _, _) => UnknownProposal(s, ctx, p)
    case ConfirmPublish(p, _, _) => UnknownProposal(s, ctx, p)
    case StartCampaign(_, _, _, _) => false
    case AssignItems(c, _, _) => UnknownCampaign(s, ctx, c)
    case CompleteItem(i, _, _) => UnknownItem(s, ctx, i)
    case ReopenItem(i, _) => UnknownItem(s, ctx, i)
    case CloseCampaign(c) => UnknownCampaign(s, ctx, c)
  }

  predicate UnknownProposal(s: State, ctx: Ctx, p: Id) {
    p !in s.proposals || s.proposals[p].tenant != ctx.tenant
  }

  predicate UnknownCampaign(s: State, ctx: Ctx, c: Id) {
    c !in s.campaigns || s.campaigns[c].tenant != ctx.tenant
  }

  /** An item counts with its campaign. */
  predicate UnknownItem(s: State, ctx: Ctx, i: Id) {
    i !in s.items || s.items[i].tenant != ctx.tenant || UnknownCampaign(s, ctx, s.items[i].campaign)
  }

  /** The calls that look at the role before anything else, and whether it will do. */
  predicate LacksRole(ctx: Ctx, call: Call) {
    match call
    case Resolve(_, _, _, _) => !MayResolve(ctx)
    case ConfirmPublish(_, _, _) => !MayResolve(ctx)
    case RequestReview(_, _) => !MayPropose(ctx)
    case SignOff(_, _, _) => !MayPropose(ctx)
    case StartCampaign(_, _, _, _) => !MayPublish(ctx)
    case AssignItems(_, _, _) => !MayPublish(ctx)
    case ReopenItem(_, _) => !MayPublish(ctx)
    case CloseCampaign(_) => !MayPublish(ctx)
    case _ => false
  }

  /** The call asks for a write that its caller, or the adapter registry, has no right to. */
  predicate LacksWriteRight(ctx: Ctx, call: Call) {
    call.Resolve? && call.action == ApproveAndApply && (!MayPublish(ctx) || call.work.NoWriteRole?)
  }

  /**
   * What a refusal says is so: not authorized means not entitled to the call or to its write, not
   * found means that it names something the tenant does not have, and a lacking role is not told more.
   * A call that only lacks its caller's right is not authorized; only one's own proposal under four-eyes,
   * and a sign-off one was not asked for, are refused as such.
   */
  lemma RefusalsAreTrue(s: State, ctx: Ctx, call: Call)
    ensures Next(s, ctx, call).1 == NotAuthorized ==> !Entitled(s, ctx, call) || LacksWriteRight(ctx, call)
    ensures Next(s, ctx, call).1 == NotFound ==> NamesUnknown(s, ctx, call)
    ensures LacksRole(ctx, call) ==> Next(s, ctx, call).1 == NotAuthorized
    ensures Ready(s, ctx, call) && !Entitled(s, ctx, call) && !NamesUnknown(s, ctx, call) ==>
              Next(s, ctx, call).1 == if (call.SignOff? && MayPropose(ctx)) || (call.Resolve? && MayResolve(ctx)) then Refused else NotAuthorized
    ensures NamesUnknown(s, ctx, call) && !LacksRole(ctx, call) && !call.Propose? && !call.Attach? && !call.CompleteItem? && !call.SignOff? ==>
              Next(s, ctx, call).1 == NotFound
    ensures LacksWriteRight(ctx, call) && Entitled(s, ctx, call) && !NamesUnknown(s, ctx, call) ==>
              AllSignedOff(ReviewersOf(s, call.proposal)) && !call.work.Breaks? ==> Next(s, ctx, call).1 == NotAuthorized
    ensures call.CompleteItem? && (call.item !in s.items || s.items[call.item].tenant != ctx.tenant) ==> Next(s, ctx, call).1 == NotFound
    ensures call.Attach? && UnknownProposal(s, ctx, call.proposal) ==> Next(s, ctx, call).1 == NotFound
    ensures Next(s, ctx, call).1 == Refused && !call.Propose? && !call.Attach? && !call.SignOff? ==> !NamesUnknown(s, ctx, call)
  {
    hide AtLeast, MayPropose, MayResolve, MayPublish, Fits, FreshItems, Assigned, AddReviewers, Decided, Named, Link, AllSignedOff,
      IsReviewer, HasLinked, HasPendingLinked;
    RanksByName(ctx);
  }

  // ----- What a new proposal and an assignment are -----

  /** A queued proposal is pending, the caller's, unresolved and without required reviewers but its item's; a new item has no id yet. */
  lemma ProposedRow(s: State, ctx: Ctx, id: Id, draft: Draft, reviewItem: Option<Id>, prepared: bool)
    requires Next(s, ctx, Propose(id, draft, reviewItem, prepared)).1 == Done
    ensures var t := Next(s, ctx, Propose(id, draft, reviewItem, prepared)).0;
            && id in t.proposals
            && t.proposals[id] == Proposal(ctx.tenant, ctx.environment,
                                           if draft.kind in {ServiceCreate, ChannelCreate, OrganisationCreate} then draft.(target := "") else draft,
                                           ctx.actor, Pending, None, reviewItem)
            && forall user :: IsReviewer(ReviewersOf(t, id), user) <==>
                 reviewItem.Some? && reviewItem.value in s.items && s.items[reviewItem.value].assignee == Some(user) && user != ctx.actor
  {
    hide AtLeast, Fits, AddReviewers, IsReviewer;
    var queued := s.(proposals := s.proposals[id := NewRow(ctx, draft, reviewItem)], reviewers := s.reviewers[id := []]);
    NobodyListed();
    if reviewItem.Some? {
      var assignee := s.items[reviewItem.value].assignee;
      if assignee.Some? {
        forall user
          ensures IsReviewer(AddReviewers([], [assignee.value], ctx.actor), user) <==> user == assignee.value
        {
          ListedAfterAdding([], [assignee.value], ctx.actor, user);
        }
      }
    }
  }

  lemma NobodyListed()
    ensures forall user :: !IsReviewer([], user)
  {
  }

  /** Attaching a proposal adds exactly the item's assignee to its required reviewers, unless that is the caller or the proposer. */
  lemma AttachedReviewers(s: State, ctx: Ctx, i: Id, p: Id, user: User)
    requires Next(s, ctx, Attach(i, p)).1 == Done
    ensures i in s.items && p in s.proposals
    ensures IsReviewer(ReviewersOf(Next(s, ctx, Attach(i, p)).0, p), user)
            <==> IsReviewer(ReviewersOf(s, p), user)
                 || (s.items[i].assignee == Some(user) && user != ctx.actor && user != s.proposals[p].proposer)
  {
    hide AtLeast, Fits, AddReviewers, IsReviewer;
    var assignee := s.items[i].assignee;
    if assignee.Some? { ListedAfterAdding(ReviewersOf(s, p), [assignee.value], ctx.actor, user); }
  }

  /** A started campaign is open, the tenant's, and has the given items: open, nobody's and not reviewed; all others stay. */
  lemma StartedExactly(s: State, ctx: Ctx, id: Id, organization: Id, items: map<Id, Item>, i: Id)
    requires Next(s, ctx, StartCampaign(id, organization, true, items)).1 == Done
    ensures var t := Next(s, ctx, StartCampaign(id, organization, true, items)).0;
            && id !in s.campaigns && t.campaigns == s.campaigns[id := Campaign(ctx.tenant, ctx.environment, organization, true)]
            && (i in items ==>
                  i !in s.items && i in t.items && t.items[i] == items[i]
                  && items[i].(targetKind := Service, target := "", organization := "") == Item(ctx.tenant, id, Service, "", "", None, Open, None))
            && (i !in items ==> (i in t.items <==> i in s.items) && (i in s.items ==> t.items[i] == s.items[i]))
            && t.proposals == s.proposals && t.reviewers == s.reviewers
  {
    hide AtLeast, OpenCampaignFor;
  }

  /**
   * An assignment gives the reviewer exactly the items of the open campaign that it names, of the kind and
   * organisation it names; without names, and unless it reassigns, only those that are nobody's yet.
   */
  lemma AssignedExactly(s: State, ctx: Ctx, c: Id, reviewer: User, selection: Selection, i: Id)
    requires Next(s, ctx, AssignItems(c, Some(reviewer), selection)).1 == Done && i in s.items
    ensures var before, after := s.items[i], Next(s, ctx, AssignItems(c, Some(reviewer), selection)).0.items;
            && i in after && after[i] == before.(assignee := after[i].assignee)
            && (after[i].assignee == Some(reviewer) <==>
                  || before.assignee == Some(reviewer)
                  || (&& before.campaign == c
                      && (selection.targetKind.None? || selection.targetKind == Some(before.targetKind))
                      && (selection.organization.None? || selection.organization == Some(before.organization))
                      && (if selection.itemIds.Some? then i in selection.itemIds.value else selection.reassign || before.assignee.None?)))
            && (after[i].assignee != Some(reviewer) ==> after[i].assignee == before.assignee)
  {
    hide AtLeast;
  }

  // ----- Over whole runs -----

  /** A call of these resolved the proposal: by someone of its tenant who may, and who is its resolver. */
  ghost predicate ResolvedIn(calls: seq<(Ctx, Call)>, p: Id, row: Proposal) {
    exists k :: 0 <= k < |calls| && Resolves(calls[k].0, calls[k].1, p, row)
  }

  predicate Resolves(ctx: Ctx, call: Call, p: Id, row: Proposal) {
    && call.Resolve? && call.proposal == p && MayResolve(ctx) && ctx.tenant == row.tenant
    && row.resolvedBy == Some(ctx.actor)
    && (row.status == Rejected <==> call.action == Reject)
  }

  ghost predicate WrittenIn(calls: seq<(Ctx, Call)>, p: Id) {
    exists k :: 0 <= k < |calls| && calls[k].1.Resolve? && calls[k].1.proposal == p && calls[k].1.action == ApproveAndApply && MayPublish(calls[k].0)
  }

  lemma ResolvedByCall(s: State, ctx: Ctx, call: Call, p: Id)
    requires p in s.proposals ==> s.proposals[p].status == Pending
    requires p in Next(s, ctx, call).0.proposals && Next(s, ctx, call).0.proposals[p].status != Pending
    ensures Resolves(ctx, call, p, Next(s, ctx, call).0.proposals[p])
  {
    hide *;
    if call.Propose? || call.Attach? {
      ProposingResolvesNothing(s, ctx, call, p);
      NothingResolved(s, Next(s, ctx, call).0, p);
    } else if call.Resolve? {
      ResolvingResolves(s, ctx, call, p);
    } else if call.ConfirmPublish? {
      ConfirmingResolvesNothing(s, ctx, call, p);
    } else {
      OtherCallsResolveNothing(s, ctx, call);
    }
  }

  lemma NothingResolved(s: State, t: State, p: Id)
    requires p in t.proposals && SameResolution(s, t, p) && (p in s.proposals ==> s.proposals[p].status == Pending)
    ensures t.proposals[p].status == Pending
  {
  }

  lemma ConfirmingResolvesNothing(s: State, ctx: Ctx, call: Call, p: Id)
    requires call.ConfirmPublish? && p in Next(s, ctx, call).0.proposals
    requires p in s.proposals ==> s.proposals[p].status == Pending
    ensures Next(s, ctx, call).0.proposals[p].status == Pending
  {
    hide AtLeast, Creates;
  }

  lemma ResolvingResolves(s: State, ctx: Ctx, call: Call, p: Id)
    requires call.Resolve? && (p in s.proposals ==> s.proposals[p].status == Pending)
    requires p in Next(s, ctx, call).0.proposals && Next(s, ctx, call).0.proposals[p].status != Pending
    ensures Resolves(ctx, call, p, Next(s, ctx, call).0.proposals[p])
  {
    hide AllSignedOff, AtLeast, MayResolve, Creates, Attempted, MarkResolved;
    RanksByName(ctx);
    var w := s.(writes := s.writes + [call.proposal]);
    forall t, status, createdId | (t == s || t == w) && call.proposal in s.proposals && status != Pending
      ensures Marks(s, MarkResolved(t, call.proposal, status, ctx.actor, createdId).0, call.proposal, status, ctx.actor)
    {
      MarkedAs(s, t, call.proposal, status, ctx.actor, createdId);
    }
  }

  /** At most this proposal changed: it was resolved so by this user. */
  ghost predicate Marks(s: State, t: State, p: Id, status: Status, resolver: User) {
    && t.proposals.Keys == s.proposals.Keys
    && forall q :: q in s.proposals ==>
         t.proposals[q] == s.proposals[q]
         || (q == p && t.proposals[q].status == status && t.proposals[q].resolvedBy == Some(resolver) && t.proposals[q].tenant == s.proposals[q].tenant)
  }

  lemma MarkedAs(s: State, t: State, p: Id, status: Status, resolver: User, createdId: Id)
    requires t.proposals == s.proposals && p in s.proposals
    ensures Marks(s, MarkResolved(t, p, status, resolver, createdId).0, p, status, resolver)
  {
  }

  /** A resolved row keeps its resolver, and stays rejected or not. */
  lemma ResolutionStays(s: State, calls: seq<(Ctx, Call)>, p: Id)
    requires Inv(s) && p in s.proposals && s.proposals[p].status != Pending
    ensures p in Run(s, calls).proposals
    ensures var a, b := s.proposals[p], Run(s, calls).proposals[p];
            a.tenant == b.tenant && a.resolvedBy == b.resolvedBy && (a.status == Rejected <==> b.status == Rejected)
  {
    hide Inv, Run;
    RunFollows(s, calls);
    assert ProposalFollows(s, Run(s, calls), p);
  }

  lemma {:induction false} ResolvedInRun(s: State, calls: seq<(Ctx, Call)>, p: Id)
    requires Inv(s) && (p in s.proposals ==> s.proposals[p].status == Pending)
    requires p in Run(s, calls).proposals && Run(s, calls).proposals[p].status != Pending
    ensures ResolvedIn(calls, p, Run(s, calls).proposals[p])
    decreases |calls|
  {
    hide Inv, Next, Resolves;
    if calls != [] {
      var ctx, call := calls[0].0, calls[0].1;
      var t, row := Next(s, ctx, call).0, Run(s, calls).proposals[p];
      EveryCall(s, ctx, call);
      if p in t.proposals && t.proposals[p].status != Pending {
        ResolvedByCall(s, ctx, call, p);
        ResolutionStays(t, calls[1..], p);
        SameResolver(ctx, call, p, t.proposals[p], row);
      } else {
        ResolvedInRun(t, calls[1..], p);
        var k :| 0 <= k < |calls[1..]| && Resolves(calls[1..][k].0, calls[1..][k].1, p, row);
        assert calls[k + 1] == calls[1..][k];
      }
    }
  }

  lemma SameResolver(ctx: Ctx, call: Call, p: Id, a: Proposal, b: Proposal)
    requires Resolves(ctx, call, p, a)
    requires a.tenant == b.tenant && a.resolvedBy == b.resolvedBy && (a.status == Rejected <==> b.status == Rejected)
    ensures Resolves(ctx, call, p, b)
  {
  }

  lemma {:induction false} WrittenInRun(s: State, calls: seq<(Ctx, Call)>, p: Id)
    requires p !in s.writes && p in Run(s, calls).writes
    ensures WrittenIn(calls, p)
    decreases |calls|
  {
    hide Next, Writes, MayPublish;
    if calls != [] {
      var ctx, call := calls[0].0, calls[0].1;
      var t := Next(s, ctx, call).0;
      if p in t.writes {
        assert Writes(s, ctx, call) by { WritingSeen(s, ctx, call, p); }
        WriteResolvesExactlyPending(s, ctx, call);
        OnlyTheEntitled(s, ctx, call);
        assert calls[0].1.proposal == p;
      } else {
        WrittenInRun(t, calls[1..], p);
        var k :| 0 <= k < |calls[1..]| && calls[1..][k].1.Resolve? && calls[1..][k].1.proposal == p
                 && calls[1..][k].1.action == ApproveAndApply && MayPublish(calls[1..][k].0);
        assert calls[k + 1] == calls[1..][k];
      }
    }
  }

  lemma WritingSeen(s: State, ctx: Ctx, call: Call, p: Id)
    requires p !in s.writes && p in Next(s, ctx, call).0.writes
    ensures Writes(s, ctx, call)
  {
    hide Next;
  }

  /**
   * Over whole runs: what has left pending was resolved in a call by an approver, publisher or
   * administrator of its tenant, who is its resolver; what reached PTV was applied by one of the latter two.
   */
  lemma RightPeople(calls: seq<(Ctx, Call)>, p: Id)
    ensures var t := Run(EMPTY, calls);
            && (p in t.proposals && t.proposals[p].status != Pending ==> ResolvedIn(calls, p, t.proposals[p]))
            && (p in t.writes ==> WrittenIn(calls, p))
  {
    hide Inv, Run, ResolvedIn, WrittenIn;
    EmptyOk();
    var t := Run(EMPTY, calls);
    if p in t.proposals && t.proposals[p].status != Pending { ResolvedInRun(EMPTY, calls, p); }
    if p in t.writes { WrittenInRun(EMPTY, calls, p); }
  }
}
