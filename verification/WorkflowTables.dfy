/**
 * The tool calls as the code runs them, on tables that are updated in place: guards in
 * order, then row updates (src/mcp/proposalQueue.ts:424-680, src/reviews/reviewCampaigns.ts:234-693,
 * src/proposals/proposalService.ts:91-348, src/reviews/reviewService.ts:120-400,
 * src/mcp/tools/proposalTools.ts:58-77). Each leaves the tables and answers as the
 * step of Workflow does, so every call keeps the tables in order, undoes nothing and
 * leaves the other tenants' rows as they were; what it does beyond that is said beside it.
 */
module WorkflowTables {
  import opened Wrappers
  import opened Workflow

  // ----- What a call that succeeds means -----

  /** The proposal answers the item, which is open, and is still pending. */
  ghost predicate Attached(t: State, i: Id, p: Id) {
    && p in t.proposals && t.proposals[p].status == Pending && t.proposals[p].reviewItem == Some(i)
    && i in t.items && t.items[i].status == Open
  }

  /** Exactly the earlier reviewers and the named users are listed. */
  ghost predicate Asked(s: State, t: State, p: Id, candidates: seq<Option<User>>) {
    forall user :: IsReviewer(ReviewersOf(t, p), user) <==> IsReviewer(ReviewersOf(s, p), user) || Some(user) in candidates
  }

  /** The user's own decision is recorded, and nobody else's. */
  ghost predicate DecisionRecorded(s: State, t: State, p: Id, user: User, decision: Decision) {
    && IsReviewer(ReviewersOf(t, p), user) && |ReviewersOf(t, p)| == |ReviewersOf(s, p)|
    && forall k :: 0 <= k < |ReviewersOf(t, p)| ==>
         var a, b := ReviewersOf(s, p)[k], ReviewersOf(t, p)[k];
         b.user == a.user && b.decision == (if a.user == user then decision else a.decision)
  }

  function Resolution(action: Action): Status {
    match action case Reject => Rejected case ApproveAndExport => Approved case ApproveAndApply => Applied
  }

  /** A pending proposal got this resolution from this user, and was approved only with every sign-off and four eyes. */
  ghost predicate ResolvedBy(s: State, t: State, ctx: Ctx, p: Id, action: Action, fourEyes: bool) {
    && p in s.proposals && s.proposals[p].status == Pending && p in t.proposals
    && t.proposals[p].status == Resolution(action) && t.proposals[p].resolvedBy == Some(ctx.actor)
    && (action != Reject ==> AllSignedOff(ReviewersOf(t, p)) && (fourEyes ==> t.proposals[p].proposer != ctx.actor))
  }

  /** An approved proposal whose change PTV holds became applied, and keeps who approved it. */
  ghost predicate Published(s: State, t: State, p: Id, inPtv: bool) {
    && inPtv && p in s.proposals && s.proposals[p].status == Approved && p in t.proposals
    && t.proposals[p].status == Applied && t.proposals[p].resolvedBy == s.proposals[p].resolvedBy
  }

  /** The item is confirmed with no pending proposal left, or changes are proposed by at least one. */
  ghost predicate Completed(t: State, i: Id, confirm: bool, user: User) {
    && i in t.items && t.items[i].reviewedBy == Some(user)
    && (if confirm then t.items[i].status == Confirmed && !HasPendingLinked(t, i)
        else t.items[i].status == ChangesProposed && HasLinked(t, i))
  }

  class Tables {
    var proposals: map<Id, Proposal>
    var reviewers: map<Id, seq<Reviewer>>
    var items: map<Id, Item>
    var campaigns: map<Id, Campaign>
    var writes: seq<Id>

    function Now(): State
      reads this
    {
      State(proposals, reviewers, items, campaigns, writes)
    }

    /** The tables are in order: reviews, links, items and campaigns. What Good says of a call includes that they stay so. */
    ghost predicate Valid()
      reads this
    {
      Inv(Now())
    }

    constructor ()
      ensures Now() == EMPTY && Valid()
    {
      proposals, reviewers, items, campaigns, writes := map[], map[], map[], map[], [];
    }

    // ----- ProposalService -----

    method CreatePending(ctx: Ctx, id: Id, draft: Draft, reviewItem: Option<Id>)
      requires id !in proposals
      modifies this`proposals, this`reviewers
      ensures proposals == old(proposals)[id := NewRow(ctx, draft, reviewItem)]
      ensures reviewers == old(reviewers)[id := []]
    {
      var target := if Creates(draft.kind) then "" else draft.target;
      proposals := proposals[id := Proposal(ctx.tenant, ctx.environment, draft.(target := target), ctx.actor, Pending, None, reviewItem)];
      reviewers := reviewers[id := []];
    }

    /** The conditional update: resolves the proposal only while it is pending. */
    method MarkAs(p: Id, status: Status, resolver: User, createdId: Id) returns (result: Result)
      requires p in proposals
      modifies this`proposals
      ensures (Now(), result) == MarkResolved(old(Now()), p, status, resolver, createdId)
    {
      var row := proposals[p];
      if row.status != Pending { return Refused; }
      var draft := row.draft;
      if createdId != "" { draft := draft.(target := createdId); }
      proposals := proposals[p := row.(status := status, resolvedBy := Some(resolver), draft := draft)];
      return Done;
    }

    method InsertReviewers(p: Id, users: seq<User>, requester: User)
      modifies this`reviewers
      ensures reviewers == old(reviewers)[p := AddReviewers(ReviewersOf(old(Now()), p), users, requester)]
    {
      var list := if p in reviewers then reviewers[p] else [];
      for k := 0 to |users|
        invariant list == AddReviewers(ReviewersOf(old(Now()), p), users[..k], requester)
        invariant reviewers == old(reviewers)
      {
        assert users[..k + 1][..k] == users[..k];
        if forall j :: 0 <= j < |list| ==> list[j].user != users[k] {
          list := list + [Reviewer(users[k], requester, Undecided)];
        }
      }
      assert users[..|users|] == users;
      reviewers := reviewers[p := list];
    }

    /** Updates the reviewer's row; false when there is none. */
    method RecordDecision(p: Id, user: User, decision: Decision) returns (updated: bool)
      modifies this`reviewers
      ensures updated == IsReviewer(ReviewersOf(old(Now()), p), user)
      ensures reviewers == if updated then old(reviewers)[p := Decided(ReviewersOf(old(Now()), p), user, decision)] else old(reviewers)
    {
      hide Decided;
      var list := if p in reviewers then reviewers[p] else [];
      ghost var before := list;
      DecidingKeeps(before, user, decision);
      updated := false;
      for k := 0 to |list|
        invariant |list| == |before| && reviewers == old(reviewers)
        invariant forall j :: 0 <= j < k ==> list[j] == Decided(before, user, decision)[j]
        invariant forall j :: k <= j < |list| ==> list[j] == before[j]
        invariant updated <==> exists j :: 0 <= j < k && before[j].user == user
      {
        if list[k].user == user {
          list := list[k := list[k].(decision := decision)];
          updated := true;
        }
      }
      assert list == Decided(before, user, decision);
      if updated { reviewers := reviewers[p := list]; }
    }

    // ----- ReviewService -----

    method SetItemStatus(i: Id, status: ItemStatus, reviewer: Option<User>)
      requires i in items
      modifies this`items
      ensures Now() == SetItem(old(Now()), i, status, reviewer)
    {
      items := items[i := items[i].(status := status, reviewedBy := reviewer)];
    }

    method AssignEach(campaign: Id, reviewer: User, selection: Selection)
      modifies this`items
      ensures items == Assigned(old(items), campaign, reviewer, selection)
    {
      var left := items.Keys;
      while left != {}
        invariant left <= items.Keys == old(items).Keys
        invariant forall i :: i in items ==>
                    items[i] == if i in left then old(items)[i] else Assigned(old(items), campaign, reviewer, selection)[i]
        decreases |left|
      {
        var i :| i in left;
        left := left - {i};
        var item := items[i];
        if && item.campaign == campaign
           && (selection.itemIds.None? || i in selection.itemIds.value)
           && (selection.targetKind.None? || item.targetKind == selection.targetKind.value)
           && (selection.organization.None? || item.organization == selection.organization.value)
           && (selection.itemIds.Some? || selection.reassign || item.assignee.None?) {
          items := items[i := item.(assignee := Some(reviewer))];
        }
      }
    }

    // ----- Review items and the proposals that answer them -----

    method RequireReviewerOf(ctx: Ctx, item: Item) returns (result: Result, isPublisher: bool)
      ensures isPublisher == AtLeast(ctx, Publisher)
      ensures result == if !AtLeast(ctx, Contributor) || (item.assignee != Some(ctx.actor) && !isPublisher) then NotAuthorized else Done
    {
      isPublisher := AtLeast(ctx, Publisher);
      if !AtLeast(ctx, Contributor) { return NotAuthorized, isPublisher; }
      if item.assignee != Some(ctx.actor) && !isPublisher { return NotAuthorized, isPublisher; }
      return Done, isPublisher;
    }

    method RequireLinkableReviewItem(ctx: Ctx, environment: Environment, i: Id, draft: Draft) returns (result: Result)
      ensures result == Linkable(Now(), ctx, environment, i, draft)
    {
      if i !in items || items[i].tenant != ctx.tenant { return NotFound; }
      var item := items[i];
      var allowed, isPublisher := RequireReviewerOf(ctx, item);
      if allowed != Done { return allowed; }
      if item.campaign !in campaigns || campaigns[item.campaign].tenant != ctx.tenant { return NotFound; }
      var campaign := campaigns[item.campaign];
      if !campaign.open { return Refused; }
      if campaign.environment != environment { return Refused; }
      if item.status != Open && !isPublisher { return Refused; }
      if !Fits(item, draft) { return Refused; }
      return Done;
    }

    method LinkProposalToReviewItem(ctx: Ctx, i: Id, p: Id)
      requires i in items && p in proposals
      modifies this`items, this`reviewers
      ensures Now() == Link(old(Now()), ctx, i, p)
    {
      var item := items[i];
      if item.status != Open {
        SetItemStatus(i, Open, None);
      }
      var reviewer := item.assignee;
      if reviewer.Some? && reviewer.value != ctx.actor && reviewer.value != proposals[p].proposer {
        InsertReviewers(p, [reviewer.value], ctx.actor);
      }
    }

    /** Checks the item before queueing the proposal, and links it afterwards; `id` is the new row's. */
    method QueueForReviewItem(ctx: Ctx, id: Id, draft: Draft, reviewItem: Option<Id>, prepared: bool) returns (result: Result)
      requires Valid()
      modifies this
      ensures (Now(), result) == DoPropose(old(Now()), ctx, id, draft, reviewItem, prepared)
      ensures Good(old(Now()), Now(), ctx.tenant)
      ensures result == Done ==>
                && id !in old(proposals) && id in proposals && proposals[id].status == Pending && proposals[id].proposer == ctx.actor
                && (reviewItem.Some? ==> reviewItem.value in items && items[reviewItem.value].status == Open)
      ensures result != Done ==> Now() == old(Now())
    {
      hide Inv, Good, Linkable, Link;
      ProposeOk(Now(), ctx, id, draft, reviewItem, prepared);
      if id in proposals { return Refused; }
      if reviewItem.Some? {
        var linkable := RequireLinkableReviewItem(ctx, ctx.environment, reviewItem.value, draft);
        if linkable != Done { return linkable; }
      }
      if !AtLeast(ctx, Contributor) { return NotAuthorized; }
      if !prepared { return Refused; }
      LinkableItem(Now(), ctx, ctx.environment, reviewItem, draft);
      CreatePending(ctx, id, draft, reviewItem);
      if reviewItem.Some? {
        LinkOpens(Now(), ctx, reviewItem.value, id);
        LinkProposalToReviewItem(ctx, reviewItem.value, id);
      }
      return Done;
    }

    method AttachProposalToReviewItem(ctx: Ctx, i: Id, p: Id) returns (result: Result)
      requires Valid()
      modifies this
      ensures (Now(), result) == DoAttach(old(Now()), ctx, i, p)
      ensures Good(old(Now()), Now(), ctx.tenant)
      ensures result == Done ==> Attached(Now(), i, p)
      ensures result != Done ==> Now() == old(Now())
    {
      hide Inv, Good, Attached, Linkable, Link;
      AttachOk(Now(), ctx, i, p);
      AttachMeans(Now(), ctx, i, p);
      if p !in proposals || proposals[p].tenant != ctx.tenant { return NotFound; }
      var row := proposals[p];
      if row.status != Pending { return Refused; }
      if row.reviewItem.Some? && row.reviewItem.value != i { return Refused; }
      if row.proposer != ctx.actor && !AtLeast(ctx, Publisher) { return NotAuthorized; }
      var linkable := RequireLinkableReviewItem(ctx, row.environment, i, row.draft);
      if linkable != Done { return linkable; }
      LinkableItem(Now(), ctx, row.environment, Some(i), row.draft);
      proposals := proposals[p := row.(reviewItem := Some(i))];
      LinkProposalToReviewItem(ctx, i, p);
      return Done;
    }

    // ----- The proposal queue -----

    method RequestReviewers(ctx: Ctx, p: Id, candidates: seq<Option<User>>) returns (result: Result)
      requires Valid()
      modifies this
      ensures (Now(), result) == DoRequestReview(old(Now()), ctx, p, candidates)
      ensures Good(old(Now()), Now(), ctx.tenant)
      ensures result == Done ==> Asked(old(Now()), Now(), p, candidates)
    {
      hide Inv, Good, Asked, AddReviewers, Named;
      RequestReviewOk(Now(), ctx, p, candidates);
      RequestReviewMeans(Now(), ctx, p, candidates);
      if !AtLeast(ctx, Contributor) { return NotAuthorized; }
      if p !in proposals || proposals[p].tenant != ctx.tenant { return NotFound; }
      var row := proposals[p];
      if row.status != Pending { return Refused; }
      if row.proposer != ctx.actor && !AtLeast(ctx, Approver) { return NotAuthorized; }
      if candidates == [] { return Refused; }
      var users: seq<User> := [];
      NamedNone(row.proposer);
      for k := 0 to |candidates|
        invariant Named(candidates[..k], row.proposer) == Some(users)
        invariant Now() == old(Now())
      {
        NamedNext(candidates[..k + 1], row.proposer);
        assert candidates[..k + 1][..k] == candidates[..k];
        if candidates[k].None? || candidates[k].value == row.proposer {
          NamedFails(candidates, k + 1, row.proposer);
          return Refused;
        }
        users := users + [candidates[k].value];
      }
      assert candidates[..|candidates|] == candidates;
      InsertReviewers(p, Dedup(users), ctx.actor);
      return Done;
    }

    method SignOffProposal(ctx: Ctx, p: Id, approve: bool, commentFits: bool) returns (result: Result)
      requires Valid()
      modifies this
      ensures (Now(), result) == DoSignOff(old(Now()), ctx, p, approve, commentFits)
      ensures Good(old(Now()), Now(), ctx.tenant)
      ensures result == Done ==>
                DecisionRecorded(old(Now()), Now(), p, ctx.actor, if approve then SignedOff else ChangesRequested)
      ensures result != Done ==> Now() == old(Now())
    {
      hide Inv, Good, Decided, DecisionRecorded;
      SignOffOk(Now(), ctx, p, approve, commentFits);
      SignOffMeans(Now(), ctx, p, approve, commentFits);
      if !AtLeast(ctx, Contributor) { return NotAuthorized; }
      if !commentFits { return Refused; }
      if p !in proposals || proposals[p].tenant != ctx.tenant { return NotFound; }
      if proposals[p].status != Pending { return Refused; }
      var updated := RecordDecision(p, ctx.actor, if approve then SignedOff else ChangesRequested);
      return if updated then Done else Refused;
    }

    method ResolveProposal(ctx: Ctx, p: Id, action: Action, fourEyes: bool, work: Work) returns (result: Result)
      requires Valid()
      modifies this
      ensures (Now(), result) == DoResolve(old(Now()), ctx, p, action, fourEyes, work)
      ensures Good(old(Now()), Now(), ctx.tenant)
      ensures p in old(proposals) && old(proposals[p]).status != Pending ==> proposals == old(proposals)
      ensures result == Done ==> ResolvedBy(old(Now()), Now(), ctx, p, action, fourEyes)
    {
      hide Inv, Good, ResolvedBy, MarkResolved;
      ResolveOk(Now(), ctx, p, action, fourEyes, work);
      ResolveMeans(Now(), ctx, p, action, fourEyes, work);
      if !AtLeast(ctx, Approver) { return NotAuthorized; }
      if p !in proposals || proposals[p].tenant != ctx.tenant { return NotFound; }
      var row := proposals[p];
      if action != Reject && row.proposer == ctx.actor && fourEyes { return Refused; }
      if action != Reject {
        var list := if p in reviewers then reviewers[p] else [];
        if exists k :: 0 <= k < |list| && list[k].decision != SignedOff { return Refused; }
      }
      if action == Reject {
        result := MarkAs(p, Rejected, ctx.actor, "");
        return;
      }
      if action == ApproveAndExport {
        if !work.Succeeds? { return Refused; }
        result := MarkAs(p, Approved, ctx.actor, "");
        return;
      }
      var attempted := Attempted(ctx, work);
      match attempted {
        case NoWriteRole => return NotAuthorized;
        case Breaks(reached) =>
          if reached { writes := writes + [p]; }
          var failed := MarkAs(p, Failed, ctx.actor, "");
          return Refused;
        case Succeeds(createdId) =>
          writes := writes + [p];
          result := MarkAs(p, Applied, ctx.actor, if Creates(row.draft.kind) then createdId else "");
      }
    }

    method ConfirmManualPublish(ctx: Ctx, p: Id, ptvId: Id, inPtv: bool) returns (result: Result)
      requires Valid()
      modifies this
      ensures (Now(), result) == DoConfirmPublish(old(Now()), ctx, p, ptvId, inPtv)
      ensures Good(old(Now()), Now(), ctx.tenant)
      ensures result == Done ==> Published(old(Now()), Now(), p, inPtv)
      ensures result != Done ==> Now() == old(Now())
    {
      hide Inv, Good, Published;
      ConfirmPublishOk(Now(), ctx, p, ptvId, inPtv);
      ConfirmPublishMeans(Now(), ctx, p, ptvId, inPtv);
      if !AtLeast(ctx, Approver) { return NotAuthorized; }
      if p !in proposals || proposals[p].tenant != ctx.tenant { return NotFound; }
      var row := proposals[p];
      if row.status != Approved { return Refused; }
      var draft := row.draft;
      if Creates(draft.kind) {
        if ptvId == "" { return Refused; }
        draft := draft.(target := ptvId);
      }
      if !inPtv { return Refused; }
      proposals := proposals[p := row.(status := Applied, draft := draft)];
      return Done;
    }

    // ----- Campaigns -----

    method FindOpenCampaign(tenant: Tenant, environment: Environment, organization: Id) returns (found: Option<Id>)
      ensures found.Some? <==> OpenCampaignFor(Now(), tenant, environment, organization)
      ensures found.Some? ==> found.value in campaigns && campaigns[found.value] == Campaign(tenant, environment, organization, true)
    {
      var left := campaigns.Keys;
      while left != {}
        invariant left <= campaigns.Keys
        invariant forall c :: c in campaigns && c !in left ==> campaigns[c] != Campaign(tenant, environment, organization, true)
        decreases |left|
      {
        var c :| c in left;
        if campaigns[c] == Campaign(tenant, environment, organization, true) { return Some(c); }
        left := left - {c};
      }
      return None;
    }

    method StartReviewCampaign(ctx: Ctx, id: Id, organization: Id, wellNamed: bool, newItems: map<Id, Item>) returns (result: Result)
      requires Valid()
      modifies this
      ensures (Now(), result) == DoStartCampaign(old(Now()), ctx, id, organization, wellNamed, newItems)
      ensures Good(old(Now()), Now(), ctx.tenant)
      ensures result == Done ==>
                && (forall c :: c in campaigns && campaigns[c] == Campaign(ctx.tenant, ctx.environment, organization, true) <==> c == id)
                && (forall i :: i in items && items[i].campaign == id <==> i in newItems)
      ensures result != Done ==> Now() == old(Now())
    {
      hide Inv, Good;
      StartCampaignOk(Now(), ctx, id, organization, wellNamed, newItems);
      NewCampaignIsEmpty(Now(), id);
      if !AtLeast(ctx, Publisher) { return NotAuthorized; }
      if !wellNamed { return Refused; }
      var existing := FindOpenCampaign(ctx.tenant, ctx.environment, organization);
      if existing.Some? { return Refused; }
      if id in campaigns || !FreshItems(Now(), ctx, id, newItems) { return Refused; }
      campaigns := campaigns[id := Campaign(ctx.tenant, ctx.environment, organization, true)];
      items := items + newItems;
      return Done;
    }

    method AssignReviewItems(ctx: Ctx, c: Id, reviewer: Option<User>, selection: Selection) returns (result: Result)
      requires Valid()
      modifies this
      ensures (Now(), result) == DoAssignItems(old(Now()), ctx, c, reviewer, selection)
      ensures Good(old(Now()), Now(), ctx.tenant)
      ensures result == Done ==>
                && c in campaigns && campaigns[c].open && items.Keys == old(items).Keys
                && forall i :: i in items ==>
                     if Selected(old(items)[i], i, c, selection) then items[i].assignee == reviewer else items[i] == old(items)[i]
      ensures result != Done ==> Now() == old(Now())
    {
      hide Inv, Good;
      AssignItemsOk(Now(), ctx, c, reviewer, selection);
      if !AtLeast(ctx, Publisher) { return NotAuthorized; }
      if c !in campaigns || campaigns[c].tenant != ctx.tenant { return NotFound; }
      if !campaigns[c].open { return Refused; }
      if reviewer.None? { return Refused; }
      AssignEach(c, reviewer.value, selection);
      return Done;
    }

    method CompleteReviewItem(ctx: Ctx, i: Id, confirm: bool, noteFits: bool) returns (result: Result)
      requires Valid()
      modifies this
      ensures (Now(), result) == DoCompleteItem(old(Now()), ctx, i, confirm, noteFits)
      ensures Good(old(Now()), Now(), ctx.tenant)
      ensures result == Done ==> Completed(Now(), i, confirm, ctx.actor)
      ensures result != Done ==> Now() == old(Now())
    {
      hide Inv, Good, Completed;
      CompleteItemOk(Now(), ctx, i, confirm, noteFits);
      CompleteItemMeans(Now(), ctx, i, confirm, noteFits);
      if i !in items || items[i].tenant != ctx.tenant { return NotFound; }
      var item := items[i];
      var allowed, _ := RequireReviewerOf(ctx, item);
      if allowed != Done { return allowed; }
      if item.campaign !in campaigns || campaigns[item.campaign].tenant != ctx.tenant { return NotFound; }
      if !campaigns[item.campaign].open { return Refused; }
      if !noteFits { return Refused; }
      var linked := set p | p in proposals && proposals[p].reviewItem == Some(i);
      var pending := set p | p in linked && proposals[p].status == Pending;
      LinkedSets(Now(), i, linked, pending);
      hide HasLinked, HasPendingLinked;
      if !confirm && linked == {} { return Refused; }
      if confirm && pending != {} { return Refused; }
      SetItemStatus(i, if confirm then Confirmed else ChangesProposed, Some(ctx.actor));
      return Done;
    }

    method ReopenReviewItem(ctx: Ctx, i: Id, noteFits: bool) returns (result: Result)
      requires Valid()
      modifies this
      ensures (Now(), result) == DoReopenItem(old(Now()), ctx, i, noteFits)
      ensures Good(old(Now()), Now(), ctx.tenant)
      ensures result == Done ==>
                && i in items && items[i].status == Open && items[i].reviewedBy.None?
                && items[i].campaign in campaigns && campaigns[items[i].campaign].open
      ensures result != Done ==> Now() == old(Now())
    {
      hide Inv, Good;
      ReopenItemOk(Now(), ctx, i, noteFits);
      if !AtLeast(ctx, Publisher) { return NotAuthorized; }
      if i !in items || items[i].tenant != ctx.tenant { return NotFound; }
      var c := items[i].campaign;
      if c !in campaigns || campaigns[c].tenant != ctx.tenant { return NotFound; }
      if !campaigns[c].open { return Refused; }
      if !noteFits { return Refused; }
      SetItemStatus(i, Open, None);
      return Done;
    }

    method CloseReviewCampaign(ctx: Ctx, c: Id) returns (result: Result)
      requires Valid()
      modifies this
      ensures (Now(), result) == DoCloseCampaign(old(Now()), ctx, c)
      ensures Good(old(Now()), Now(), ctx.tenant)
      ensures result == Done ==>
                && c in campaigns && !campaigns[c].open
                && !OpenCampaignFor(Now(), campaigns[c].tenant, campaigns[c].environment, campaigns[c].organization)
      ensures result != Done ==> Now() == old(Now())
    {
      hide Inv, Good;
      CloseCampaignOk(Now(), ctx, c);
      OnlyOpenOne(Now(), c);
      if !AtLeast(ctx, Publisher) { return NotAuthorized; }
      if c !in campaigns || campaigns[c].tenant != ctx.tenant { return NotFound; }
      if !campaigns[c].open { return Refused; }
      campaigns := campaigns[c := campaigns[c].(open := false)];
      return Done;
    }
  }

  lemma AttachMeans(s: State, ctx: Ctx, i: Id, p: Id)
    ensures DoAttach(s, ctx, i, p).1 == Done ==> Attached(DoAttach(s, ctx, i, p).0, i, p)
  {
    hide Link;
    if DoAttach(s, ctx, i, p).1 == Done {
      LinkOpens(s.(proposals := s.proposals[p := s.proposals[p].(reviewItem := Some(i))]), ctx, i, p);
    }
  }

  lemma RequestReviewMeans(s: State, ctx: Ctx, p: Id, candidates: seq<Option<User>>)
    ensures DoRequestReview(s, ctx, p, candidates).1 == Done ==> Asked(s, DoRequestReview(s, ctx, p, candidates).0, p, candidates)
  {
    hide AddReviewers, IsReviewer, Named;
    if DoRequestReview(s, ctx, p, candidates).1 == Done {
      var users := Named(candidates, s.proposals[p].proposer).value;
      forall user
        ensures IsReviewer(ReviewersOf(DoRequestReview(s, ctx, p, candidates).0, p), user)
                <==> IsReviewer(ReviewersOf(s, p), user) || Some(user) in candidates
      {
        ListedAfterAdding(ReviewersOf(s, p), Dedup(users), ctx.actor, user);
        NamedAre(candidates, s.proposals[p].proposer, user);
      }
    }
  }

  lemma SignOffMeans(s: State, ctx: Ctx, p: Id, approve: bool, commentFits: bool)
    ensures DoSignOff(s, ctx, p, approve, commentFits).1 == Done ==>
              DecisionRecorded(s, DoSignOff(s, ctx, p, approve, commentFits).0, p, ctx.actor, if approve then SignedOff else ChangesRequested)
  {
    hide Decided;
    if DoSignOff(s, ctx, p, approve, commentFits).1 == Done {
      var reviewers, decision := ReviewersOf(s, p), if approve then SignedOff else ChangesRequested;
      DecidingKeeps(reviewers, ctx.actor, decision);
      var k :| 0 <= k < |reviewers| && reviewers[k].user == ctx.actor;
      assert Decided(reviewers, ctx.actor, decision)[k].user == ctx.actor;
    }
  }

  lemma ResolveMeans(s: State, ctx: Ctx, p: Id, action: Action, fourEyes: bool, work: Work)
    ensures var (t, result) := DoResolve(s, ctx, p, action, fourEyes, work);
            && (result == Done ==> ResolvedBy(s, t, ctx, p, action, fourEyes))
            && (p in s.proposals && s.proposals[p].status != Pending ==> t.proposals == s.proposals)
  {
    hide AllSignedOff;
  }

  lemma ConfirmPublishMeans(s: State, ctx: Ctx, p: Id, ptvId: Id, inPtv: bool)
    ensures var (t, result) := DoConfirmPublish(s, ctx, p, ptvId, inPtv); result == Done ==> Published(s, t, p, inPtv)
  {
  }

  lemma CompleteItemMeans(s: State, ctx: Ctx, i: Id, confirm: bool, noteFits: bool)
    ensures var (t, result) := DoCompleteItem(s, ctx, i, confirm, noteFits); result == Done ==> Completed(t, i, confirm, ctx.actor)
  {
    var t := DoCompleteItem(s, ctx, i, confirm, noteFits).0;
    SameLinks(s, t, i);
    hide HasLinked, HasPendingLinked;
  }

  /** A campaign that is not stored yet has no items. */
  lemma NewCampaignIsEmpty(s: State, id: Id)
    requires Inv(s)
    ensures id !in s.campaigns ==> forall i :: i in s.items ==> s.items[i].campaign != id
  {
    forall i | i in s.items
      ensures id !in s.campaigns ==> s.items[i].campaign != id
    {
      assert ItemOk(s, i);
    }
  }

  /** An open campaign is the only one of its tenant, environment and organisation. */
  lemma OnlyOpenOne(s: State, c: Id)
    requires Inv(s)
    ensures c in s.campaigns && s.campaigns[c].open ==> forall d :: d in s.campaigns && d != c ==> s.campaigns[d] != s.campaigns[c]
  {
  }

  lemma LinkOpens(s: State, ctx: Ctx, i: Id, p: Id)
    requires i in s.items && p in s.proposals
    ensures Link(s, ctx, i, p).proposals == s.proposals
    ensures i in Link(s, ctx, i, p).items && Link(s, ctx, i, p).items[i].status == Open
  {
  }

  lemma SameLinks(s: State, t: State, i: Id)
    requires t.proposals == s.proposals
    ensures HasLinked(t, i) == HasLinked(s, i) && HasPendingLinked(t, i) == HasPendingLinked(s, i)
  {
  }

  lemma {:induction false} NamedAre(candidates: seq<Option<User>>, proposer: User, user: User)
    ensures Named(candidates, proposer).Some? ==> (user in Named(candidates, proposer).value <==> Some(user) in candidates)
    decreases |candidates|
  {
    if candidates != [] {
      var n := |candidates| - 1;
      NamedAre(candidates[..n], proposer, user);
      assert candidates == candidates[..n] + [candidates[n]];
    }
  }

  lemma LinkableItem(s: State, ctx: Ctx, environment: Environment, i: Option<Id>, draft: Draft)
    ensures i.Some? && Linkable(s, ctx, environment, i.value, draft) == Done ==> i.value in s.items
  {
  }

  lemma LinkedSets(s: State, i: Id, linked: set<Id>, pending: set<Id>)
    requires linked == set p | p in s.proposals && s.proposals[p].reviewItem == Some(i)
    requires pending == set p | p in linked && s.proposals[p].status == Pending
    ensures HasLinked(s, i) <==> linked != {}
    ensures HasPendingLinked(s, i) <==> pending != {}
  {
    if HasLinked(s, i) {
      var p :| p in s.proposals && s.proposals[p].reviewItem == Some(i);
      assert p in linked;
    }
    if HasPendingLinked(s, i) {
      var p :| p in s.proposals && s.proposals[p].reviewItem == Some(i) && s.proposals[p].status == Pending;
      assert p in pending;
    }
  }

  lemma NamedNone(proposer: User)
    ensures Named([], proposer) == Some([])
  {
  }

  lemma NamedNext(candidates: seq<Option<User>>, proposer: User)
    requires candidates != []
    ensures var n := |candidates| - 1;
            var rest := Named(candidates[..n], proposer);
            Named(candidates, proposer) ==
            if rest.None? || candidates[n].None? || candidates[n].value == proposer then None
            else Some(rest.value + [candidates[n].value])
  {
  }

  lemma {:induction false} NamedFails(candidates: seq<Option<User>>, k: nat, proposer: User)
    requires k <= |candidates| && Named(candidates[..k], proposer).None?
    ensures Named(candidates, proposer).None?
    decreases |candidates|
  {
    if k == |candidates| {
      assert candidates[..k] == candidates;
    } else {
      var n := |candidates| - 1;
      assert candidates[..n][..k] == candidates[..k];
      NamedFails(candidates[..n], k, proposer);
    }
  }
}
