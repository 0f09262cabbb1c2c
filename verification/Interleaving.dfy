/**
 * Resolving and confirming proposals when calls overlap (src/mcp/proposalQueue.ts:524-680,
 * src/proposals/proposalService.ts:157-220). A call runs in small steps with an await
 * after each: read the row, guard, read the reviewers, write to PTV or check the export,
 * conditional update, audit. Any call may take the next step, and any may stop for good.
 */
module Interleaving {
  import opened Wrappers

  type Id = string
  type User = string

  datatype Status = Pending | Approved | Rejected | Applied | Failed

  /** A stored proposal; `creates` is fixed by its kind. */
  datatype Row = Row(creates: bool, target: Id, proposer: User, status: Status, resolvedBy: Option<User>)

  datatype Action = ApproveAndExport | ApproveAndApply | Reject | Unknown

  datatype Request = Resolve(action: Action) | Confirm(ptvId: Id)

  datatype Step =
    | Begin
    | Guarding(row: Row)
    | Reviewing(row: Row)
    | Writing(row: Row)
    | Claiming(to: Status, createdId: Id)
    | Auditing(result: Status)
    | Ended

  datatype Call = Call(proposal: Id, user: User, request: Request, step: Step, wrote: bool)

  /** A ResolveProposal entry, or with `confirm` a ConfirmManualPublish entry. */
  datatype Entry = Entry(proposal: Id, user: User, confirm: bool, result: Status)

  datatype System = System(
    db: map<Id, Row>,
    trail: map<Id, seq<Status>>,  // every status a proposal has had, in order
    calls: seq<Call>,
    audit: seq<Entry>,
    writes: seq<Id>)              // the proposals whose change reached PTV, in order

  /** A write that breaks may have reached PTV: a later request of it, or recording its success, can be what fails. */
  datatype PtvWrite = Written(createdId: Id) | NotAuthorized | Broken(reached: bool)

  /** What the tenant settings, the reviewers and PTV answer the step that asks. */
  datatype World = World(fourEyes: bool, allSignedOff: bool, exportable: bool, write: PtvWrite, inPtv: bool)

  datatype Event =
    | Create(id: Id, creates: bool, target: Id, proposer: User)
    | Submit(proposal: Id, user: User, request: Request)
    | Advance(call: nat, world: World)

  // ----- One step -----

  /** The guards up to the conditional update; they change nothing but may write to PTV. */
  function Guard(c: Call, world: World): Call {
    match c.step
    case Guarding(row) =>
      (match c.request
       case Resolve(action) =>
         if action == Reject then c.(step := Claiming(Rejected, ""))
         else if row.proposer == c.user && world.fourEyes then c.(step := Ended)
         else c.(step := Reviewing(row))
       case Confirm(ptvId) =>
         if row.status != Approved || (row.creates && ptvId == "") || !world.inPtv then c.(step := Ended)
         else c.(step := Claiming(Applied, if row.creates then ptvId else "")))
    case Reviewing(row) =>
      if !world.allSignedOff || c.request == Resolve(Unknown) then c.(step := Ended) else c.(step := Writing(row))
    case Writing(row) =>
      if c.request != Resolve(ApproveAndApply) then
        c.(step := if world.exportable then Claiming(Approved, "") else Ended)
      else
        (match world.write
         case Written(id) => c.(step := Claiming(Applied, if row.creates then id else ""), wrote := true)
         case NotAuthorized => c.(step := Ended)
         case Broken(reached) => c.(step := Claiming(Failed, ""), wrote := c.wrote || reached))
    case _ => c
  }

  /** The status the conditional update asks for. */
  function From(c: Call): Status {
    if c.request.Confirm? then Approved else Pending
  }

  /** markResolved sets the resolver; markPublished keeps who approved. */
  function Claimed(row: Row, c: Call, to: Status, createdId: Id): Row {
    row.(status := to, resolvedBy := if c.request.Confirm? then row.resolvedBy else Some(c.user),
         target := if createdId != "" then createdId else row.target)
  }

  function SetCall(s: System, i: nat, c: Call): System
    requires i < |s.calls|
  {
    s.(calls := s.calls[i := c])
  }

  /** getById. */
  function Read(s: System, i: nat): System
    requires i < |s.calls|
  {
    var c := s.calls[i];
    SetCall(s, i, c.(step := if c.proposal in s.db then Guarding(s.db[c.proposal]) else Ended))
  }

  /** transition: the update happens only while the proposal is still in the expected status. */
  function Claim(s: System, i: nat, to: Status, createdId: Id): System
    requires i < |s.calls|
  {
    var c := s.calls[i];
    if c.proposal in s.db && c.proposal in s.trail && s.db[c.proposal].status == From(c) then
      SetCall(s.(db := s.db[c.proposal := Claimed(s.db[c.proposal], c, to, createdId)],
                 trail := s.trail[c.proposal := s.trail[c.proposal] + [to]]),
              i, c.(step := Auditing(to)))
    else SetCall(s, i, c.(step := Ended))
  }

  function Record(s: System, i: nat, result: Status): System
    requires i < |s.calls|
  {
    var c := s.calls[i];
    SetCall(s.(audit := s.audit + [Entry(c.proposal, c.user, c.request.Confirm?, result)]), i, c.(step := Ended))
  }

  function Proceed(s: System, i: nat, world: World): System
    requires i < |s.calls|
  {
    var c, next := s.calls[i], Guard(s.calls[i], world);
    SetCall(s.(writes := if next.wrote && !c.wrote then s.writes + [c.proposal] else s.writes), i, next)
  }

  function Move(s: System, i: nat, world: World): System
    requires i < |s.calls|
  {
    match s.calls[i].step
    case Begin => Read(s, i)
    case Claiming(to, createdId) => Claim(s, i, to, createdId)
    case Auditing(result) => Record(s, i, result)
    case _ => Proceed(s, i, world)
  }

  function Next(s: System, e: Event): System {
    match e
    case Create(id, creates, target, proposer) =>
      if id in s.db then s
      else s.(db := s.db[id := Row(creates, target, proposer, Pending, None)], trail := s.trail[id := [Pending]])
    case Submit(proposal, user, request) => s.(calls := s.calls + [Call(proposal, user, request, Begin, false)])
    case Advance(i, world) => if i < |s.calls| then Move(s, i, world) else s
  }

  const NOTHING := System(map[], map[], [], [], [])

  function Run(s: System, events: seq<Event>): System
    decreases |events|
  {
    if events == [] then s else Run(Next(s, events[0]), events[1..])
  }

  // ----- Counting -----

  function Count<T>(list: seq<T>, f: T -> bool): nat {
    if list == [] then 0 else (if f(list[0]) then 1 else 0) + Count(list[1..], f)
  }

  lemma {:induction false} CountChanged<T>(list: seq<T>, f: T -> bool, i: nat, x: T)
    requires i < |list|
    ensures Count(list[i := x], f) == Count(list, f) + (if f(x) then 1 else 0) - (if f(list[i]) then 1 else 0)
  {
    if i == 0 {
      assert list[i := x][1..] == list[1..];
    } else {
      CountChanged(list[1..], f, i - 1, x);
      assert list[i := x][1..] == list[1..][i - 1 := x];
    }
  }

  lemma {:induction false} CountAppended<T>(list: seq<T>, f: T -> bool, x: T)
    ensures Count(list + [x], f) == Count(list, f) + if f(x) then 1 else 0
  {
    if list == [] {
      assert list + [x] == [x];
    } else {
      CountAppended(list[1..], f, x);
      assert (list + [x])[1..] == list[1..] + [x];
    }
  }

  lemma {:induction false} CountNone<T>(list: seq<T>, f: T -> bool)
    requires forall i :: 0 <= i < |list| ==> !f(list[i])
    ensures Count(list, f) == 0
  {
    if list != [] { CountNone(list[1..], f); }
  }

  function EntryOf(p: Id, confirm: bool): Entry -> bool {
    (e: Entry) => e.proposal == p && e.confirm == confirm
  }

  function AboutToAudit(p: Id, confirm: bool): Call -> bool {
    (c: Call) => c.proposal == p && c.request.Confirm? == confirm && c.step.Auditing?
  }

  function Wrote(p: Id): Call -> bool {
    (c: Call) => c.proposal == p && c.wrote
  }

  function AppliesTo(p: Id): Call -> bool {
    (c: Call) => c.proposal == p && c.request == Resolve(ApproveAndApply)
  }

  function Is(p: Id): Id -> bool {
    (q: Id) => q == p
  }

  // ----- What every step keeps -----

  predicate Path(trail: seq<Status>) {
    || trail == [Pending]
    || trail == [Pending, Rejected]
    || trail == [Pending, Failed]
    || trail == [Pending, Applied]
    || trail == [Pending, Approved]
    || trail == [Pending, Approved, Applied]
  }

  ghost predicate CallOk(s: System, c: Call) {
    match c.step
    case Guarding(row) => c.proposal in s.db && row.creates == s.db[c.proposal].creates
    case Reviewing(row) => c.request.Resolve? && c.proposal in s.db && row.creates == s.db[c.proposal].creates
    case Writing(row) =>
      c.request.Resolve? && c.proposal in s.db && row.creates == s.db[c.proposal].creates
    case Claiming(to, createdId) =>
      && c.proposal in s.db && (createdId != "" ==> s.db[c.proposal].creates && to == Applied)
      && (if c.request.Confirm? then to == Applied else to != Pending)
    case Auditing(result) =>
      c.proposal in s.db && Recorded(s, c.proposal, c.user, c.request.Confirm?, result)
    case _ => true
  }

  /** What an audit entry says is what happened. */
  ghost predicate Recorded(s: System, p: Id, user: User, confirm: bool, result: Status) {
    && p in s.db && p in s.trail
    && (if confirm then result == Applied && s.trail[p] == [Pending, Approved, Applied]
        else s.db[p].resolvedBy == Some(user) && |s.trail[p]| >= 2 && s.trail[p][1] == result)
  }

  ghost predicate RowOk(s: System, p: Id)
    requires p in s.db
  {
    && p in s.trail && Path(s.trail[p]) && s.db[p].status == s.trail[p][|s.trail[p]| - 1]
    && (s.db[p].resolvedBy.None? <==> s.db[p].status == Pending)
  }

  ghost predicate Inv(s: System) {
    && s.trail.Keys == s.db.Keys
    && (forall p :: p in s.db ==> RowOk(s, p))
    && (forall i :: 0 <= i < |s.calls| ==> CallOk(s, s.calls[i]))
    && (forall i :: 0 <= i < |s.audit| ==> Recorded(s, s.audit[i].proposal, s.audit[i].user, s.audit[i].confirm, s.audit[i].result))
  }

  /** A call by this user, of this kind, that has ended. */
  ghost predicate HasCall(s: System, e: Entry) {
    exists k :: 0 <= k < |s.calls| && s.calls[k].proposal == e.proposal && s.calls[k].user == e.user
                && s.calls[k].request.Confirm? == e.confirm && s.calls[k].step == Ended
  }

  ghost predicate EntriesFromCalls(s: System) {
    forall i :: 0 <= i < |s.audit| ==> HasCall(s, s.audit[i])
  }

  /** How many entries a proposal will have had once every call that moved it has recorded that. */
  ghost predicate Counted(s: System, p: Id) {
    && Count(s.audit, EntryOf(p, false)) + Count(s.calls, AboutToAudit(p, false))
       == (if p in s.trail && |s.trail[p]| > 1 then 1 else 0)
    && Count(s.audit, EntryOf(p, true)) + Count(s.calls, AboutToAudit(p, true))
       == (if p in s.trail && |s.trail[p]| > 2 then 1 else 0)
    && Count(s.writes, Is(p)) == Count(s.calls, Wrote(p))
  }

  // ----- Keeping it: the conditional update -----

  /** One step changes a proposal only by the status machine's edges. */
  ghost predicate Grows(s: System, t: System, p: Id)
    requires p in s.db && p in s.trail
  {
    && p in t.db && p in t.trail && t.db[p].creates == s.db[p].creates && t.db[p].proposer == s.db[p].proposer
    && s.trail[p] <= t.trail[p]
    && (s.db[p].resolvedBy.Some? ==> t.db[p].resolvedBy == s.db[p].resolvedBy)
    && (t.db[p].target != s.db[p].target ==>
          s.db[p].creates && s.db[p].status != Applied && t.db[p].status == Applied)
    && (s.db[p].status in {Rejected, Applied, Failed} ==> t.db[p] == s.db[p])
  }

  lemma GrowsTransitive(s: System, t: System, u: System, p: Id)
    requires p in s.db && p in s.trail && Grows(s, t, p) && Grows(t, u, p)
    ensures Grows(s, u, p)
  {
  }

  ghost predicate InRow(s: System, p: Id) {
    p in s.db && p in s.trail && RowOk(s, p)
  }

  lemma SameRow(s: System, t: System, p: Id)
    requires InRow(s, p) && t.db == s.db && t.trail == s.trail
    ensures InRow(t, p) && Grows(s, t, p)
  {
  }

  lemma ClaimGrows(s: System, i: nat, to: Status, createdId: Id, p: Id)
    requires i < |s.calls| && s.calls[i].step == Claiming(to, createdId) && CallOk(s, s.calls[i]) && InRow(s, p)
    ensures InRow(Claim(s, i, to, createdId), p) && Grows(s, Claim(s, i, to, createdId), p)
  {
  }

  lemma StepGrows(s: System, e: Event, p: Id)
    requires Inv(s) && p in s.db
    ensures InRow(Next(s, e), p) && Grows(s, Next(s, e), p)
  {
    hide Guard, Claim, RowOk, Grows, CallOk, Recorded;
    assert RowOk(s, p);
    if e.Advance? && e.call < |s.calls| && s.calls[e.call].step.Claiming? {
      ClaimGrows(s, e.call, s.calls[e.call].step.to, s.calls[e.call].step.createdId, p);
    } else if e.Create? && e.id !in s.db {
      CreateGrows(s, e, p);
    } else {
      SameRow(s, Next(s, e), p);
    }
  }

  lemma CreateGrows(s: System, e: Event, p: Id)
    requires e.Create? && e.id !in s.db && InRow(s, p)
    ensures InRow(Next(s, e), p) && Grows(s, Next(s, e), p)
  {
  }

  lemma CreatedOk(s: System, e: Event)
    requires e.Create? && e.id !in s.db
    ensures InRow(Next(s, e), e.id)
  {
  }

  lemma StepKeys(s: System, e: Event)
    requires s.trail.Keys == s.db.Keys
    ensures Next(s, e).trail.Keys == Next(s, e).db.Keys == s.db.Keys + if e.Create? then {e.id} else {}
  {
    hide Guard, Claimed;
  }

  lemma StepKeepsRows(s: System, e: Event)
    requires Inv(s)
    ensures Next(s, e).trail.Keys == Next(s, e).db.Keys
    ensures forall p :: p in s.db ==> p in s.trail && Grows(s, Next(s, e), p)
    ensures forall p :: p in Next(s, e).db ==> InRow(Next(s, e), p)
  {
    var t := Next(s, e);
    StepKeys(s, e);
    hide Grows, RowOk, CallOk, Next, Recorded;
    forall p | p in s.db
      ensures p in s.trail && Grows(s, t, p) && InRow(t, p)
    {
      StepGrows(s, e, p);
    }
    if e.Create? && e.id !in s.db {
      CreatedOk(s, e);
    }
  }

  lemma RecordedStays(s: System, t: System, p: Id, user: User, confirm: bool, result: Status)
    requires Recorded(s, p, user, confirm, result) && Grows(s, t, p) && InRow(t, p)
    ensures Recorded(t, p, user, confirm, result)
  {
    if !confirm {
      assert t.trail[p][1] == s.trail[p][1];
    }
  }

  lemma CallOkStays(s: System, t: System, c: Call)
    requires CallOk(s, c)
    requires c.proposal in s.db ==> c.proposal in s.trail && Grows(s, t, c.proposal) && InRow(t, c.proposal)
    ensures CallOk(t, c)
  {
    hide RowOk, Recorded;
    if c.proposal in s.db && c.step.Auditing? {
      RecordedStays(s, t, c.proposal, c.user, c.request.Confirm?, c.step.result);
    }
  }

  lemma GuardOk(s: System, c: Call, world: World)
    requires CallOk(s, c) && !c.step.Auditing?
    ensures CallOk(s, Guard(c, world))
  {
    hide Recorded;
  }

  lemma ClaimedOk(s: System, i: nat, to: Status, createdId: Id)
    requires i < |s.calls| && s.calls[i].step == Claiming(to, createdId) && CallOk(s, s.calls[i])
    requires InRow(s, s.calls[i].proposal)
    ensures var t := Claim(s, i, to, createdId); CallOk(t, t.calls[i])
  {
  }

  lemma SameCallOk(s: System, t: System, c: Call)
    requires CallOk(s, c) && t.db == s.db && t.trail == s.trail
    ensures CallOk(t, c)
  {
  }

  lemma ReadOk(s: System, i: nat)
    requires i < |s.calls|
    ensures CallOk(s, Read(s, i).calls[i])
  {
    hide Recorded;
  }

  lemma EndedOk(s: System, c: Call)
    requires c.step == Ended
    ensures CallOk(s, c)
  {
  }

  /** The call that took the step is still in order. */
  lemma MovedOk(s: System, i: nat, world: World)
    requires Inv(s) && i < |s.calls|
    ensures CallOk(Move(s, i, world), Move(s, i, world).calls[i])
  {
    var c, t := s.calls[i], Move(s, i, world);
    assert CallOk(s, c);
    assert c.step.Claiming? ==> InRow(s, c.proposal);
    hide CallOk, Guard, Claim, RowOk, Recorded, Inv;
    match c.step
    case Begin =>
      ReadOk(s, i);
      SameCallOk(s, t, t.calls[i]);
    case Claiming(to, createdId) => ClaimedOk(s, i, to, createdId);
    case Auditing(_) => EndedOk(t, t.calls[i]);
    case _ =>
      GuardOk(s, c, world);
      SameCallOk(s, t, t.calls[i]);
  }

  lemma OtherCalls(s: System, e: Event, i: nat)
    requires i < |s.calls| && (e.Advance? ==> e.call != i)
    ensures i < |Next(s, e).calls| && Next(s, e).calls[i] == s.calls[i]
  {
    hide Guard, Claimed;
  }

  lemma NewCalls(s: System, e: Event, i: nat)
    requires |s.calls| <= i < |Next(s, e).calls|
    ensures Next(s, e).calls[i].step == Begin
  {
    hide Guard, Claimed;
  }

  lemma StepKeepsCalls(s: System, e: Event, i: nat)
    requires Inv(s) && i < |Next(s, e).calls|
    ensures CallOk(Next(s, e), Next(s, e).calls[i])
  {
    StepKeepsRows(s, e);
    var t := Next(s, e);
    if i >= |s.calls| {
      NewCalls(s, e, i);
    } else if e.Advance? && e.call == i {
      MovedOk(s, i, e.world);
    } else {
      OtherCalls(s, e, i);
      assert CallOk(s, s.calls[i]);
      hide Next, RowOk, Grows, CallOk, Recorded;
      CallOkStays(s, t, s.calls[i]);
    }
  }

  lemma NewEntries(s: System, e: Event, i: nat)
    requires i < |Next(s, e).audit|
    ensures i < |s.audit| ==> Next(s, e).audit[i] == s.audit[i]
    ensures i >= |s.audit| ==>
              && e.Advance? && e.call < |s.calls| && s.calls[e.call].step.Auditing?
              && Next(s, e).db == s.db && Next(s, e).trail == s.trail
              && var c := s.calls[e.call]; Next(s, e).audit[i] == Entry(c.proposal, c.user, c.request.Confirm?, c.step.result)
  {
    hide Guard, Claimed;
  }

  lemma StepKeepsEntries(s: System, e: Event, i: nat)
    requires Inv(s) && i < |Next(s, e).audit|
    ensures var a := Next(s, e).audit[i]; Recorded(Next(s, e), a.proposal, a.user, a.confirm, a.result)
  {
    StepKeepsRows(s, e);
    NewEntries(s, e, i);
    var t := Next(s, e);
    if i < |s.audit| {
      var a := s.audit[i];
      assert Recorded(s, a.proposal, a.user, a.confirm, a.result);
      assert a.proposal in s.db;
      hide Next, RowOk, Grows, CallOk, Recorded;
      RecordedStays(s, t, a.proposal, a.user, a.confirm, a.result);
    } else {
      assert CallOk(s, s.calls[e.call]);
      hide Next, RowOk, Grows, Inv;
    }
  }

  lemma StepKeepsInv(s: System, e: Event)
    requires Inv(s)
    ensures Inv(Next(s, e))
  {
    StepKeepsRows(s, e);
    var t := Next(s, e);
    hide Next, RowOk, Grows, CallOk, Recorded;
    forall i | 0 <= i < |t.calls|
      ensures CallOk(t, t.calls[i])
    {
      StepKeepsCalls(s, e, i);
    }
    forall i | 0 <= i < |t.audit|
      ensures Recorded(t, t.audit[i].proposal, t.audit[i].user, t.audit[i].confirm, t.audit[i].result)
    {
      StepKeepsEntries(s, e, i);
    }
  }

  // ----- Keeping it: the counts -----

  lemma CallsCounted(s: System, t: System, i: nat, p: Id, confirm: bool)
    requires i < |s.calls| == |t.calls| && t.calls == s.calls[i := t.calls[i]]
    ensures Count(t.calls, AboutToAudit(p, confirm)) == Count(s.calls, AboutToAudit(p, confirm))
            + (if AboutToAudit(p, confirm)(t.calls[i]) then 1 else 0)
            - (if AboutToAudit(p, confirm)(s.calls[i]) then 1 else 0)
    ensures Count(t.calls, Wrote(p)) == Count(s.calls, Wrote(p))
            + (if Wrote(p)(t.calls[i]) then 1 else 0) - (if Wrote(p)(s.calls[i]) then 1 else 0)
  {
    hide *;
    CountChanged(s.calls, AboutToAudit(p, confirm), i, t.calls[i]);
    CountChanged(s.calls, Wrote(p), i, t.calls[i]);
  }

  lemma ClaimKeepsCounts(s: System, i: nat, to: Status, createdId: Id, p: Id)
    requires Counted(s, p) && i < |s.calls| && s.calls[i].step == Claiming(to, createdId)
    requires CallOk(s, s.calls[i]) && InRow(s, s.calls[i].proposal)
    ensures Counted(Claim(s, i, to, createdId), p)
  {
    hide Count;
    var t := Claim(s, i, to, createdId);
    CallsCounted(s, t, i, p, false);
    CallsCounted(s, t, i, p, true);
  }

  lemma RecordKeepsCounts(s: System, i: nat, result: Status, p: Id)
    requires Counted(s, p) && i < |s.calls| && s.calls[i].step == Auditing(result)
    ensures Counted(Record(s, i, result), p)
  {
    hide Count;
    var c, t := s.calls[i], Record(s, i, result);
    CallsCounted(s, t, i, p, false);
    CallsCounted(s, t, i, p, true);
    var entry := Entry(c.proposal, c.user, c.request.Confirm?, result);
    CountAppended(s.audit, EntryOf(p, false), entry);
    CountAppended(s.audit, EntryOf(p, true), entry);
  }

  lemma OtherKeepsCounts(s: System, i: nat, world: World, p: Id)
    requires Counted(s, p) && i < |s.calls| && !s.calls[i].step.Claiming? && !s.calls[i].step.Auditing?
    ensures Counted(Move(s, i, world), p)
  {
    hide Count, Guard;
    var c, t := s.calls[i], Move(s, i, world);
    GuardCounts(c, world);
    CallsCounted(s, t, i, p, false);
    CallsCounted(s, t, i, p, true);
    CountAppended(s.writes, Is(p), c.proposal);
  }

  lemma GuardCounts(c: Call, world: World)
    requires !c.step.Auditing?
    ensures var d := Guard(c, world);
            !d.step.Auditing? && d.proposal == c.proposal && d.request == c.request && (c.wrote ==> d.wrote)
  {
  }

  lemma MoveKeepsCounts(s: System, i: nat, world: World, p: Id)
    requires Inv(s) && Counted(s, p) && i < |s.calls|
    ensures Counted(Move(s, i, world), p)
  {
    var c := s.calls[i];
    assert CallOk(s, c);
    assert c.step.Claiming? ==> InRow(s, c.proposal);
    hide Counted, Guard, Claim, Record, CallOk, RowOk, Inv;
    match c.step
    case Claiming(to, createdId) => ClaimKeepsCounts(s, i, to, createdId, p);
    case Auditing(result) => RecordKeepsCounts(s, i, result, p);
    case _ => OtherKeepsCounts(s, i, world, p);
  }

  lemma SubmitKeepsCounts(s: System, c: Call, p: Id)
    requires Counted(s, p) && c.step == Begin && !c.wrote
    ensures Counted(s.(calls := s.calls + [c]), p)
  {
    hide Count;
    CountAppended(s.calls, AboutToAudit(p, false), c);
    CountAppended(s.calls, AboutToAudit(p, true), c);
    CountAppended(s.calls, Wrote(p), c);
  }

  lemma CreateKeepsCounts(s: System, e: Event, p: Id)
    requires Counted(s, p) && s.trail.Keys == s.db.Keys && e.Create?
    ensures Counted(Next(s, e), p)
  {
    hide Count;
  }

  lemma StepKeepsCounts(s: System, e: Event, p: Id)
    requires Inv(s) && Counted(s, p)
    ensures Counted(Next(s, e), p)
  {
    hide Counted, Move;
    match e
    case Create(_, _, _, _) => CreateKeepsCounts(s, e, p);
    case Submit(proposal, user, request) => SubmitKeepsCounts(s, Call(proposal, user, request, Begin, false), p);
    case Advance(i, world) => if i < |s.calls| { MoveKeepsCounts(s, i, world, p); }
  }

  lemma {:induction false} RunKeeps(s: System, events: seq<Event>, p: Id)
    requires Inv(s) && Counted(s, p)
    ensures Inv(Run(s, events)) && Counted(Run(s, events), p)
    ensures p in s.db ==> p in s.trail && Grows(s, Run(s, events), p)
    decreases |events|
  {
    hide Inv, Counted, Next, Grows;
    if p in s.db { RowStays(s, p); }
    if events != [] {
      StepKeepsInv(s, events[0]);
      StepKeepsCounts(s, events[0], p);
      RunKeeps(Next(s, events[0]), events[1..], p);
      if p in s.db {
        StepGrows(s, events[0], p);
        GrowsTransitive(s, Next(s, events[0]), Run(s, events), p);
      }
    }
  }

  lemma RowStays(s: System, p: Id)
    requires Inv(s) && p in s.db
    ensures p in s.trail && Grows(s, s, p)
  {
  }

  lemma NothingOk(p: Id)
    ensures Inv(NOTHING) && Counted(NOTHING, p)
  {
  }

  // ----- Who made an entry -----

  /** A call stays whose it is and what it asks for, and an ended one stays ended. */
  lemma CallStays(s: System, e: Event, i: nat)
    requires i < |s.calls|
    ensures i < |Next(s, e).calls|
    ensures var c, d := s.calls[i], Next(s, e).calls[i];
            d.proposal == c.proposal && d.user == c.user && d.request == c.request && (c.step == Ended ==> d.step == Ended)
  {
    if e.Advance? && e.call == i {
      GuardKeepsWho(s.calls[i], e.world);
      hide Guard, Claimed;
    } else {
      OtherCalls(s, e, i);
      hide Next;
    }
  }

  lemma GuardKeepsWho(c: Call, world: World)
    ensures var d := Guard(c, world);
            && d.proposal == c.proposal && d.user == c.user && d.request == c.request && (c.step == Ended ==> d.step == Ended)
            && (CallExplained(c) ==> CallExplained(d))
  {
  }

  lemma StepKeepsEntryCalls(s: System, e: Event)
    requires EntriesFromCalls(s)
    ensures EntriesFromCalls(Next(s, e))
  {
    var t := Next(s, e);
    forall i | 0 <= i < |t.audit|
      ensures HasCall(t, t.audit[i])
    {
      NewEntries(s, e, i);
      if i < |s.audit| {
        assert HasCall(s, s.audit[i]);
        var k :| 0 <= k < |s.calls| && s.calls[k].proposal == s.audit[i].proposal && s.calls[k].user == s.audit[i].user
                 && s.calls[k].request.Confirm? == s.audit[i].confirm && s.calls[k].step == Ended;
        CallStays(s, e, k);
        hide Next;
      } else {
        CallStays(s, e, e.call);
        assert t.calls[e.call].step == Ended by { hide Guard, Claim; }
        hide Next;
      }
    }
  }

  lemma {:induction false} RunKeepsEntryCalls(s: System, events: seq<Event>)
    requires EntriesFromCalls(s)
    ensures EntriesFromCalls(Run(s, events))
    decreases |events|
  {
    hide Next, EntriesFromCalls;
    if events != [] {
      StepKeepsEntryCalls(s, events[0]);
      RunKeepsEntryCalls(Next(s, events[0]), events[1..]);
    }
  }

  // ----- Every interleaving -----

  /**
   * Whatever calls overlap and wherever they stop: a proposal's statuses form one of
   * the allowed paths, it has at most one entry of each kind, each telling what
   * happened and by whom, and never more entries than moves.
   */
  lemma EveryInterleaving(events: seq<Event>, p: Id)
    ensures var t := Run(NOTHING, events);
            p in t.db ==>
              && p in t.trail && Path(t.trail[p]) && t.db[p].status == t.trail[p][|t.trail[p]| - 1]
              && (t.db[p].resolvedBy.None? <==> t.db[p].status == Pending)
              && Count(t.audit, EntryOf(p, false)) <= (if t.db[p].status == Pending then 0 else 1)
              && Count(t.audit, EntryOf(p, true)) <= (if |t.trail[p]| == 3 then 1 else 0)
    ensures var t := Run(NOTHING, events);
            forall i :: 0 <= i < |t.audit| ==>
              && Recorded(t, t.audit[i].proposal, t.audit[i].user, t.audit[i].confirm, t.audit[i].result)
              && HasCall(t, t.audit[i])
  {
    RunKeepsEntryCalls(NOTHING, events);
    hide Count, Run, HasCall;
    NothingOk(p);
    RunKeeps(NOTHING, events, p);
    if p in Run(NOTHING, events).db {
      assert RowOk(Run(NOTHING, events), p);
    }
  }

  /** Once no call is about to record a move, every move has exactly its one entry. */
  lemma EveryMoveAudited(events: seq<Event>, p: Id)
    requires forall i :: 0 <= i < |Run(NOTHING, events).calls| ==> !Run(NOTHING, events).calls[i].step.Auditing?
    ensures var t := Run(NOTHING, events);
            p in t.db ==>
              && p in t.trail
              && Count(t.audit, EntryOf(p, false)) == (if t.db[p].status == Pending then 0 else 1)
              && Count(t.audit, EntryOf(p, true)) == (if |t.trail[p]| == 3 then 1 else 0)
  {
    hide Run;
    NothingOk(p);
    RunKeeps(NOTHING, events, p);
    var t := Run(NOTHING, events);
    CountNone(t.calls, AboutToAudit(p, false));
    CountNone(t.calls, AboutToAudit(p, true));
    if p in t.db {
      assert RowOk(t, p);
    }
  }

  /**
   * From any moment of any run on: statuses are only added, a resolver stays who it is,
   * a proposal that is rejected, applied or failed never changes, and a target id only
   * changes when a new item becomes applied, so at most once.
   */
  lemma NothingIsUndone(before: seq<Event>, after: seq<Event>, p: Id)
    requires p in Run(NOTHING, before).db
    ensures var s, t := Run(NOTHING, before), Run(NOTHING, before + after);
            p in s.trail && Grows(s, t, p)
  {
    hide Run, Inv, Counted, Grows;
    NothingOk(p);
    RunKeeps(NOTHING, before, p);
    RunKeeps(Run(NOTHING, before), after, p);
    RunSplits(NOTHING, before, after);
  }

  lemma {:induction false} RunSplits(s: System, before: seq<Event>, after: seq<Event>)
    ensures Run(s, before + after) == Run(Run(s, before), after)
    decreases |before|
  {
    hide Next;
    if before == [] {
      assert before + after == after;
    } else {
      assert (before + after)[1..] == before[1..] + after;
      RunSplits(Next(s, before[0]), before[1..], after);
    }
  }

  // ----- What the conditional update does not prevent -----

  predicate WriterOk(c: Call) {
    c.wrote ==> c.request == Resolve(ApproveAndApply)
  }

  /** A proposal is written to PTV at most once per call that applies it. */
  lemma WritesPerApplyingCall(events: seq<Event>, p: Id)
    ensures var t := Run(NOTHING, events);
            Count(t.writes, Is(p)) <= Count(t.calls, AppliesTo(p))
  {
    hide Run, Count;
    var t := Run(NOTHING, events);
    NothingOk(p);
    RunKeeps(NOTHING, events, p);
    RunExplained(NOTHING, events, p);
    CountAmong(t.calls, p);
  }

  lemma {:induction false} CountAmong(calls: seq<Call>, p: Id)
    requires forall i :: 0 <= i < |calls| ==> CallExplained(calls[i])
    ensures Count(calls, Wrote(p)) <= Count(calls, AppliesTo(p))
  {
    if calls != [] {
      CountAmong(calls[1..], p);
      assert CallExplained(calls[0]);
    }
  }

  // ----- Exactly when a change is written once, and a rejected one not at all -----

  /** What is asked of the tools, whatever the schedule. */
  datatype Submission = Submission(proposal: Id, user: User, request: Request)

  function SubmittedBy(e: Event): seq<Submission> {
    if e.Submit? then [Submission(e.proposal, e.user, e.request)] else []
  }

  function Submitted(events: seq<Event>): seq<Submission> {
    if events == [] then [] else SubmittedBy(events[0]) + Submitted(events[1..])
  }

  predicate Applies(submission: Submission, p: Id) {
    submission.proposal == p && submission.request == Resolve(ApproveAndApply)
  }

  predicate Rejects(submission: Submission, p: Id) {
    submission.proposal == p && submission.request == Resolve(Reject)
  }

  /** The calls of a run are what was submitted, in order. */
  ghost predicate AsSubmitted(calls: seq<Call>, submitted: seq<Submission>) {
    |calls| == |submitted|
    && forall k :: 0 <= k < |calls| ==> Submission(calls[k].proposal, calls[k].user, calls[k].request) == submitted[k]
  }

  lemma StepSubmits(s: System, e: Event, before: seq<Submission>)
    requires AsSubmitted(s.calls, before)
    ensures AsSubmitted(Next(s, e).calls, before + SubmittedBy(e))
  {
    var t := Next(s, e);
    forall k | 0 <= k < |s.calls|
      ensures t.calls[k].proposal == s.calls[k].proposal && t.calls[k].user == s.calls[k].user
              && t.calls[k].request == s.calls[k].request
    {
      CallStays(s, e, k);
    }
    assert |t.calls| == |s.calls| + (if e.Submit? then 1 else 0) by { hide Guard, Claimed; }
    hide Move;
  }

  lemma {:induction false} CallsAreSubmissions(s: System, events: seq<Event>, before: seq<Submission>)
    requires AsSubmitted(s.calls, before)
    ensures AsSubmitted(Run(s, events).calls, before + Submitted(events))
    decreases |events|
  {
    hide Next, AsSubmitted, SubmittedBy;
    if events == [] {
      assert before + [] == before;
    } else {
      StepSubmits(s, events[0], before);
      CallsAreSubmissions(Next(s, events[0]), events[1..], before + SubmittedBy(events[0]));
      assert before + SubmittedBy(events[0]) + Submitted(events[1..]) == before + Submitted(events);
    }
  }

  lemma RunSubmits(events: seq<Event>)
    ensures AsSubmitted(Run(NOTHING, events).calls, Submitted(events))
  {
    assert AsSubmitted([], []);
    hide *;
    CallsAreSubmissions(NOTHING, events, []);
    assert [] + Submitted(events) == Submitted(events);
  }

  lemma {:induction false} AtMostOne<T>(list: seq<T>, f: T -> bool)
    requires forall j, k :: 0 <= j < k < |list| ==> !(f(list[j]) && f(list[k]))
    ensures Count(list, f) <= 1
  {
    if list != [] {
      if f(list[0]) {
        forall k | 0 <= k < |list[1..]|
          ensures !f(list[1..][k])
        {
          assert list[1..][k] == list[k + 1];
        }
        CountNone(list[1..], f);
      } else {
        forall j, k | 0 <= j < k < |list[1..]|
          ensures !(f(list[1..][j]) && f(list[1..][k]))
        {
          assert list[1..][j] == list[j + 1] && list[1..][k] == list[k + 1];
        }
        AtMostOne(list[1..], f);
      }
    }
  }

  /** Only calls that apply write, only calls that reject ask for a rejection, and only calls that export for an approval. */
  predicate CallExplained(c: Call) {
    && WriterOk(c)
    && (c.step.Reviewing? ==> c.request.Resolve? && c.request.action != Reject)
    && (c.step.Writing? ==> c.request == Resolve(ApproveAndExport) || c.request == Resolve(ApproveAndApply))
    && (c.step.Claiming? && c.step.to == Rejected ==> c.request == Resolve(Reject))
    && (c.step.Claiming? && c.step.to == Approved ==> c.request == Resolve(ApproveAndExport))
  }

  ghost predicate HasAsker(s: System, p: Id, action: Action) {
    exists k :: 0 <= k < |s.calls| && s.calls[k].proposal == p && s.calls[k].request == Resolve(action)
  }

  /** Every write, every rejection and every approval is some call's. */
  ghost predicate Explained(s: System, p: Id) {
    && (forall i :: 0 <= i < |s.calls| ==> CallExplained(s.calls[i]))
    && (p in s.db && s.db[p].status == Rejected ==> HasAsker(s, p, Reject))
    && (p in s.db && s.db[p].status == Approved ==> HasAsker(s, p, ApproveAndExport))
  }

  lemma StepExplainsCalls(s: System, e: Event, i: nat)
    requires i < |Next(s, e).calls| && (i < |s.calls| ==> CallExplained(s.calls[i]))
    ensures CallExplained(Next(s, e).calls[i])
  {
    if i >= |s.calls| {
      hide Guard, Claimed;
    } else if e.Advance? && e.call == i {
      hide Guard, CallExplained;
      MoveExplained(s, i, e.world);
    } else {
      OtherCalls(s, e, i);
      hide Next;
    }
  }

  lemma MoveExplained(s: System, i: nat, world: World)
    requires i < |s.calls| && CallExplained(s.calls[i])
    ensures CallExplained(Move(s, i, world).calls[i])
  {
    GuardKeepsWho(s.calls[i], world);
    hide Guard, Claimed;
  }

  lemma AskerStays(s: System, e: Event, p: Id, action: Action)
    requires HasAsker(s, p, action)
    ensures HasAsker(Next(s, e), p, action)
  {
    hide Next;
    var k :| 0 <= k < |s.calls| && s.calls[k].proposal == p && s.calls[k].request == Resolve(action);
    CallStays(s, e, k);
  }

  lemma NewlyMoved(s: System, e: Event, p: Id, status: Status)
    requires status in {Approved, Rejected}
    requires p in Next(s, e).db && Next(s, e).db[p].status == status && (p in s.db ==> s.db[p].status != status)
    ensures e.Advance? && e.call < |s.calls| && s.calls[e.call].proposal == p
    ensures s.calls[e.call].step.Claiming? && s.calls[e.call].step.to == status
  {
    hide Guard;
  }

  lemma StatusExplained(s: System, e: Event, p: Id, status: Status, action: Action)
    requires (status == Rejected && action == Reject) || (status == Approved && action == ApproveAndExport)
    requires forall i :: 0 <= i < |s.calls| ==> CallExplained(s.calls[i])
    requires p in s.db && s.db[p].status == status ==> HasAsker(s, p, action)
    ensures p in Next(s, e).db && Next(s, e).db[p].status == status ==> HasAsker(Next(s, e), p, action)
  {
    hide Next;
    var t := Next(s, e);
    if p in t.db && t.db[p].status == status {
      if !(p in s.db && s.db[p].status == status) {
        NewlyMoved(s, e, p, status);
        assert CallExplained(s.calls[e.call]);
      }
      AskerStays(s, e, p, action);
    }
  }

  lemma StepExplained(s: System, e: Event, p: Id)
    requires Explained(s, p)
    ensures Explained(Next(s, e), p)
  {
    hide Next;
    var t := Next(s, e);
    forall i | 0 <= i < |t.calls|
      ensures CallExplained(t.calls[i])
    {
      StepExplainsCalls(s, e, i);
    }
    StatusExplained(s, e, p, Rejected, Reject);
    StatusExplained(s, e, p, Approved, ApproveAndExport);
  }

  lemma {:induction false} RunExplained(s: System, events: seq<Event>, p: Id)
    requires Explained(s, p)
    ensures Explained(Run(s, events), p)
    decreases |events|
  {
    hide Next, Explained;
    if events != [] {
      StepExplained(s, events[0], p);
      RunExplained(Next(s, events[0]), events[1..], p);
    }
  }

  // ----- Schedules that show the conditions are needed -----

  function Go(i: nat): Event {
    Advance(i, World(false, true, true, Written("new"), true))
  }

  function Times(i: nat, n: nat): seq<Event> {
    if n == 0 then [] else [Go(i)] + Times(i, n - 1)
  }

  lemma RunTimes(s: System, i: nat, n: nat)
    requires n > 0
    ensures Run(s, Times(i, n)) == Run(Next(s, Go(i)), Times(i, n - 1))
  {
    hide Next;
    assert Times(i, n)[1..] == Times(i, n - 1);
  }

  lemma {:induction false} TimesSubmitsNothing(i: nat, n: nat)
    ensures Submitted(Times(i, n)) == []
  {
    if n > 0 {
      TimesSubmitsNothing(i, n - 1);
      assert Times(i, n)[1..] == Times(i, n - 1);
    }
  }

  lemma {:induction false} SubmittedJoined(a: seq<Event>, b: seq<Event>)
    ensures Submitted(a + b) == Submitted(a) + Submitted(b)
  {
    hide SubmittedBy;
    if a == [] {
      assert a + b == b;
    } else {
      assert (a + b)[1..] == a[1..] + b;
      SubmittedJoined(a[1..], b);
      assert SubmittedBy(a[0]) + (Submitted(a[1..]) + Submitted(b)) == Submitted(a) + Submitted(b);
    }
  }

  function Submits(submissions: seq<Submission>): seq<Event> {
    if submissions == [] then []
    else [Submit(submissions[0].proposal, submissions[0].user, submissions[0].request)] + Submits(submissions[1..])
  }

  function Begun(submissions: seq<Submission>): (calls: seq<Call>)
    ensures |calls| == |submissions|
    ensures forall k :: 0 <= k < |calls| ==>
              calls[k] == Call(submissions[k].proposal, submissions[k].user, submissions[k].request, Begin, false)
  {
    seq(|submissions|, k requires 0 <= k < |submissions| =>
      Call(submissions[k].proposal, submissions[k].user, submissions[k].request, Begin, false))
  }

  lemma {:induction false} AllSubmitted(s: System, submissions: seq<Submission>)
    ensures Run(s, Submits(submissions)) == s.(calls := s.calls + Begun(submissions))
    decreases |submissions|
  {
    hide Move;
    if submissions == [] {
      assert s.calls + [] == s.calls;
    } else {
      var events := Submits(submissions);
      var t := Next(s, events[0]);
      assert t == s.(calls := s.calls + [Begun(submissions)[0]]);
      assert events[1..] == Submits(submissions[1..]);
      hide Next;
      AllSubmitted(t, submissions[1..]);
      assert t.calls + Begun(submissions[1..]) == s.calls + Begun(submissions);
    }
  }

  lemma {:induction false} SubmitsSubmit(submissions: seq<Submission>)
    ensures Submitted(Submits(submissions)) == submissions
  {
    if submissions != [] {
      SubmitsSubmit(submissions[1..]);
      assert Submits(submissions)[1..] == Submits(submissions[1..]);
      assert submissions == [submissions[0]] + submissions[1..];
    }
  }

  /** One proposal and every call, none of them begun. */
  function Starting(p: Id, submissions: seq<Submission>): System {
    System(map[p := Row(false, "service", "carol", Pending, None)], map[p := [Pending]], Begun(submissions), [], [])
  }

  function StartingEvents(p: Id, submissions: seq<Submission>): seq<Event> {
    [Create(p, false, "service", "carol")] + Submits(submissions)
  }

  lemma Started(p: Id, submissions: seq<Submission>)
    ensures Run(NOTHING, StartingEvents(p, submissions)) == Starting(p, submissions)
    ensures Submitted(StartingEvents(p, submissions)) == submissions
  {
    hide Move, Submits, Begun;
    var s := Next(NOTHING, Create(p, false, "service", "carol"));
    assert s == System(map[p := Row(false, "service", "carol", Pending, None)], map[p := [Pending]], [], [], []);
    hide Next;
    AllSubmitted(s, submissions);
    SubmitsSubmit(submissions);
    assert StartingEvents(p, submissions)[1..] == Submits(submissions);
    assert [] + Begun(submissions) == Begun(submissions);
  }

  /** A call that applies the proposal reads, passes the guards and writes, whatever else is under way. */
  lemma GoesAsFarAsWriting(s: System, i: nat)
    requires i < |s.calls| && s.calls[i].step == Begin && !s.calls[i].wrote && s.calls[i].request == Resolve(ApproveAndApply)
    requires s.calls[i].proposal in s.db && !s.db[s.calls[i].proposal].creates
    ensures Run(s, Times(i, 4))
            == s.(calls := s.calls[i := s.calls[i].(step := Claiming(Applied, ""), wrote := true)],
                  writes := s.writes + [s.calls[i].proposal])
  {
    var c, row := s.calls[i], s.db[s.calls[i].proposal];
    var s1, s2, s3 := SetCall(s, i, c.(step := Guarding(row))), SetCall(s, i, c.(step := Reviewing(row))),
                      SetCall(s, i, c.(step := Writing(row)));
    hide Run, Times, Claim, Claimed, Record;
    assert Next(s, Go(i)) == s1;
    assert Next(s1, Go(i)) == s2;
    assert Next(s2, Go(i)) == s3;
    RunTimes(s, i, 4);
    RunTimes(s1, i, 3);
    RunTimes(s2, i, 2);
    RunTimes(s3, i, 1);
    NoTimes(Next(s3, Go(i)), i);
  }

  lemma NoTimes(s: System, i: nat)
    ensures Run(s, Times(i, 0)) == s
  {
  }

  /** A rejection goes through while the proposal is pending, also after its change was written. */
  lemma GoesAsFarAsRejecting(s: System, j: nat)
    requires j < |s.calls| && s.calls[j].step == Begin && s.calls[j].request == Resolve(Reject)
    requires s.calls[j].proposal in s.db && s.calls[j].proposal in s.trail && s.db[s.calls[j].proposal].status == Pending
    ensures var c := s.calls[j];
            Run(s, Times(j, 3))
            == s.(db := s.db[c.proposal := s.db[c.proposal].(status := Rejected, resolvedBy := Some(c.user))],
                  trail := s.trail[c.proposal := s.trail[c.proposal] + [Rejected]],
                  calls := s.calls[j := c.(step := Auditing(Rejected))])
  {
    var c, row := s.calls[j], s.db[s.calls[j].proposal];
    var s1, s2 := SetCall(s, j, c.(step := Guarding(row))), SetCall(s, j, c.(step := Claiming(Rejected, "")));
    hide Run, Times, Record;
    assert Next(s, Go(j)) == s1;
    assert Next(s1, Go(j)) == s2;
    RunTimes(s, j, 3);
    RunTimes(s1, j, 2);
    RunTimes(s2, j, 1);
    NoTimes(Next(s2, Go(j)), j);
  }

  /** An export that is approved goes through while the proposal is pending, also after its change was written. */
  lemma GoesAsFarAsExporting(s: System, j: nat)
    requires j < |s.calls| && s.calls[j].step == Begin && s.calls[j].request == Resolve(ApproveAndExport)
    requires s.calls[j].proposal in s.db && s.calls[j].proposal in s.trail && s.db[s.calls[j].proposal].status == Pending
    ensures var c := s.calls[j];
            Run(s, Times(j, 5))
            == s.(db := s.db[c.proposal := s.db[c.proposal].(status := Approved, resolvedBy := Some(c.user))],
                  trail := s.trail[c.proposal := s.trail[c.proposal] + [Approved]],
                  calls := s.calls[j := c.(step := Auditing(Approved))])
  {
    hide Run, Times, Record;
    var c, row := s.calls[j], s.db[s.calls[j].proposal];
    var s1, s2, s3, s4 := SetCall(s, j, c.(step := Guarding(row))), SetCall(s, j, c.(step := Reviewing(row))),
                          SetCall(s, j, c.(step := Writing(row))), SetCall(s, j, c.(step := Claiming(Approved, "")));
    assert Next(s, Go(j)) == s1;
    assert Next(s1, Go(j)) == s2;
    assert Next(s2, Go(j)) == s3;
    assert Next(s3, Go(j)) == s4;
    RunTimes(s, j, 5);
    RunTimes(s1, j, 4);
    RunTimes(s2, j, 3);
    RunTimes(s3, j, 2);
    RunTimes(s4, j, 1);
    NoTimes(Next(s4, Go(j)), j);
  }

  /**
   * Any two calls that apply one proposal can both write it to PTV: whatever else is submitted,
   * they only have to read it before one of them has moved it. The first then moves it, and the
   * second cannot.
   */
  lemma BothCanWrite(submissions: seq<Submission>, p: Id, i: nat, j: nat) returns (events: seq<Event>)
    requires i < j < |submissions| && Applies(submissions[i], p) && Applies(submissions[j], p)
    ensures Submitted(events) == submissions && Run(NOTHING, events).writes == [p, p]
    ensures var t := Run(NOTHING, events);
            p in t.trail && t.trail[p] == [Pending, Applied] && p in t.db && t.db[p].resolvedBy == Some(submissions[i].user)
            && i < |t.calls| && t.calls[i].step == Auditing(Applied) && j < |t.calls| && t.calls[j].step == Ended
  {
    var start, both := StartingEvents(p, submissions), Times(i, 4) + Times(j, 4);
    var s := Starting(p, submissions);
    Started(p, submissions);
    GoesAsFarAsWriting(s, i);
    var t := Run(s, Times(i, 4));
    GoesAsFarAsWriting(t, j);
    var u := Run(t, Times(j, 4));
    OnlyFirstMoves(u, i, j);
    hide Run, Times, Submitted, Begun, Next;
    var v := Next(u, Go(i));
    OneGo(u, i);
    OneGo(v, j);
    events := start + (Times(i, 4) + (Times(j, 4) + (Times(i, 1) + Times(j, 1))));
    RunSplits(v, Times(j, 1), []);
    RunSplits(u, Times(i, 1), Times(j, 1));
    RunSplits(t, Times(j, 4), Times(i, 1) + Times(j, 1));
    RunSplits(s, Times(i, 4), Times(j, 4) + (Times(i, 1) + Times(j, 1)));
    RunSplits(NOTHING, start, Times(i, 4) + (Times(j, 4) + (Times(i, 1) + Times(j, 1))));
    SubmitsNothingMore(start, i, j);
  }

  lemma OnlyFirstMoves(s: System, i: nat, j: nat)
    requires i < |s.calls| && j < |s.calls| && i != j
    requires s.calls[i].step == Claiming(Applied, "") && s.calls[j].step == Claiming(Applied, "")
    requires s.calls[i].request.Resolve? && s.calls[j].request.Resolve? && s.calls[i].proposal == s.calls[j].proposal
    requires var p := s.calls[i].proposal; p in s.db && s.db[p].status == Pending && p in s.trail && s.trail[p] == [Pending]
    ensures var t, p := Next(Next(s, Go(i)), Go(j)), s.calls[i].proposal;
            && t.writes == s.writes && p in t.trail && t.trail[p] == [Pending, Applied]
            && p in t.db && t.db[p].resolvedBy == Some(s.calls[i].user)
            && i < |t.calls| && t.calls[i].step == Auditing(Applied) && j < |t.calls| && t.calls[j].step == Ended
  {
    hide Guard;
  }

  lemma OneGo(s: System, i: nat)
    ensures Run(s, Times(i, 1)) == Next(s, Go(i))
  {
    hide Next;
    RunTimes(s, i, 1);
    NoTimes(Next(s, Go(i)), i);
  }

  lemma SubmitsNothingMore(start: seq<Event>, i: nat, j: nat)
    ensures Submitted(start + (Times(i, 4) + (Times(j, 4) + (Times(i, 1) + Times(j, 1))))) == Submitted(start)
    ensures Submitted(start + (Times(i, 4) + Times(j, 3))) == Submitted(start)
  {
    hide Submitted, Times;
    TimesSubmitsNothing(i, 4);
    TimesSubmitsNothing(j, 4);
    TimesSubmitsNothing(j, 3);
    TimesSubmitsNothing(i, 1);
    TimesSubmitsNothing(j, 1);
    SubmittedJoined(Times(i, 1), Times(j, 1));
    SubmittedJoined(Times(j, 4), Times(i, 1) + Times(j, 1));
    SubmittedJoined(Times(i, 4), Times(j, 4) + (Times(i, 1) + Times(j, 1)));
    SubmittedJoined(start, Times(i, 4) + (Times(j, 4) + (Times(i, 1) + Times(j, 1))));
    SubmittedJoined(Times(i, 4), Times(j, 3));
    SubmittedJoined(start, Times(i, 4) + Times(j, 3));
  }

  /** A proposal that one call applies and another rejects can end rejected although its change has been written to PTV. */
  lemma RejectedCanBeWritten(submissions: seq<Submission>, p: Id, i: nat, j: nat) returns (events: seq<Event>)
    requires i < |submissions| && j < |submissions| && Applies(submissions[i], p) && Rejects(submissions[j], p)
    ensures Submitted(events) == submissions
    ensures var t := Run(NOTHING, events); p in t.db && t.db[p].status == Rejected && t.writes == [p]
  {
    var start := StartingEvents(p, submissions);
    var s := Starting(p, submissions);
    Started(p, submissions);
    GoesAsFarAsWriting(s, i);
    var t := Run(s, Times(i, 4));
    GoesAsFarAsRejecting(t, j);
    hide Run, Times, Submitted, Begun;
    events := start + (Times(i, 4) + Times(j, 3));
    RunSplits(s, Times(i, 4), Times(j, 3));
    RunSplits(NOTHING, start, Times(i, 4) + Times(j, 3));
    SubmitsNothingMore(start, i, j);
  }

  /**
   * Under overlap: calls write a proposal's change at most once however they are scheduled
   * exactly when at most one of them applies it.
   */
  lemma WrittenOnceExactly(submissions: seq<Submission>, p: Id)
    ensures (forall events :: Submitted(events) == submissions ==> Count(Run(NOTHING, events).writes, Is(p)) <= 1)
            <==> forall i, j :: 0 <= i < j < |submissions| ==> !(Applies(submissions[i], p) && Applies(submissions[j], p))
  {
    if forall i, j :: 0 <= i < j < |submissions| ==> !(Applies(submissions[i], p) && Applies(submissions[j], p)) {
      forall events | Submitted(events) == submissions
        ensures Count(Run(NOTHING, events).writes, Is(p)) <= 1
      {
        OnlyOneWrites(events, p);
      }
    } else {
      var i, j :| 0 <= i < j < |submissions| && Applies(submissions[i], p) && Applies(submissions[j], p);
      var events := BothCanWrite(submissions, p, i, j);
      assert [p, p][1..] == [p];
      assert Count([p], Is(p)) == 1;
      assert Submitted(events) == submissions && Count(Run(NOTHING, events).writes, Is(p)) == 2;
    }
  }

  lemma OnlyOneWrites(events: seq<Event>, p: Id)
    requires forall i, j :: 0 <= i < j < |Submitted(events)| ==> !(Applies(Submitted(events)[i], p) && Applies(Submitted(events)[j], p))
    ensures Count(Run(NOTHING, events).writes, Is(p)) <= 1
  {
    assert Explained(NOTHING, p);
    hide Run, Count, Submitted, Inv;
    var t := Run(NOTHING, events);
    NothingOk(p);
    RunKeeps(NOTHING, events, p);
    RunExplained(NOTHING, events, p);
    RunSubmits(events);
    forall j, k | 0 <= j < k < |t.calls|
      ensures !(Wrote(p)(t.calls[j]) && Wrote(p)(t.calls[k]))
    {
      WriterApplies(t.calls[j], Submitted(events)[j], p);
      WriterApplies(t.calls[k], Submitted(events)[k], p);
    }
    AtMostOne(t.calls, Wrote(p));
  }

  lemma WriterApplies(c: Call, submission: Submission, p: Id)
    requires CallExplained(c) && submission == Submission(c.proposal, c.user, c.request)
    ensures Wrote(p)(c) ==> Applies(submission, p)
  {
  }

  /**
   * Under overlap: calls never leave a rejected proposal written exactly when they do not
   * both apply and reject it.
   */
  lemma RejectedUnwrittenExactly(submissions: seq<Submission>, p: Id)
    ensures (forall events :: Submitted(events) == submissions ==> !RejectedYetWritten(Run(NOTHING, events), p))
            <==> forall i, j :: 0 <= i < |submissions| && 0 <= j < |submissions| ==>
                   !(Applies(submissions[i], p) && Rejects(submissions[j], p))
  {
    if forall i, j :: 0 <= i < |submissions| && 0 <= j < |submissions| ==> !(Applies(submissions[i], p) && Rejects(submissions[j], p)) {
      forall events | Submitted(events) == submissions
        ensures !RejectedYetWritten(Run(NOTHING, events), p)
      {
        RejectedIsUnwritten(events, p);
      }
    } else {
      var i, j :| 0 <= i < |submissions| && 0 <= j < |submissions| && Applies(submissions[i], p) && Rejects(submissions[j], p);
      var events := RejectedCanBeWritten(submissions, p, i, j);
      assert RejectedYetWritten(Run(NOTHING, events), p);
    }
  }

  predicate RejectedYetWritten(s: System, p: Id) {
    p in s.db && s.db[p].status == Rejected && p in s.writes
  }

  lemma RejectedIsUnwritten(events: seq<Event>, p: Id)
    requires forall i, j :: 0 <= i < |Submitted(events)| && 0 <= j < |Submitted(events)| ==>
               !(Applies(Submitted(events)[i], p) && Rejects(Submitted(events)[j], p))
    ensures !RejectedYetWritten(Run(NOTHING, events), p)
  {
    hide Run, Count, Submitted;
    var t := Run(NOTHING, events);
    NothingOk(p);
    RunKeeps(NOTHING, events, p);
    RunExplained(NOTHING, events, p);
    RunSubmits(events);
    if p in t.writes {
      CountSome(t.writes, p);
      var i := WriterOf(t.calls, p);
      assert CallExplained(t.calls[i]);
      assert Applies(Submitted(events)[i], p);
      forall j | 0 <= j < |t.calls|
        ensures !(t.calls[j].proposal == p && t.calls[j].request == Resolve(Reject))
      {
        assert !(Applies(Submitted(events)[i], p) && Rejects(Submitted(events)[j], p));
      }
      assert !HasAsker(t, p, Reject);
    }
  }

  lemma {:induction false} CountSome(writes: seq<Id>, p: Id)
    requires p in writes
    ensures Count(writes, Is(p)) > 0
  {
    if writes[0] != p { CountSome(writes[1..], p); }
  }

  lemma {:induction false} WriterOf(calls: seq<Call>, p: Id) returns (i: nat)
    requires Count(calls, Wrote(p)) > 0
    ensures i < |calls| && calls[i].proposal == p && calls[i].wrote
  {
    if calls[0].proposal == p && calls[0].wrote {
      i := 0;
    } else {
      i := WriterOf(calls[1..], p);
      i := i + 1;
    }
  }

  // ----- Once every call has ended -----

  predicate AtRest(s: System) {
    forall i :: 0 <= i < |s.calls| ==> s.calls[i].step == Ended
  }

  predicate Exports(submission: Submission, p: Id) {
    submission.proposal == p && submission.request == Resolve(ApproveAndExport)
  }

  /** Every call has ended, and the proposal's change has reached PTV although the proposal is neither applied nor failed. */
  predicate LeftBehind(s: System, p: Id) {
    AtRest(s) && p in s.writes && p in s.db && s.db[p].status !in {Applied, Failed}
  }

  /** A call that wrote is about to move the proposal, or it has been moved. */
  ghost predicate WriteFollowed(s: System, c: Call) {
    c.wrote ==> c.proposal in s.db && (c.step.Claiming? || s.db[c.proposal].status != Pending)
  }

  lemma MovedStaysMoved(s: System, e: Event, p: Id)
    requires Inv(s) && p in s.db && s.db[p].status != Pending
    ensures p in Next(s, e).db && Next(s, e).db[p].status != Pending
  {
    hide Next, Inv;
    StepGrows(s, e, p);
    assert RowOk(s, p) by { RowOfInv(s, p); }
  }

  lemma RowOfInv(s: System, p: Id)
    requires Inv(s) && p in s.db
    ensures RowOk(s, p)
  {
  }

  lemma OwnWriteFollowed(s: System, i: nat, world: World)
    requires Inv(s) && i < |s.calls| && WriteFollowed(s, s.calls[i]) && CallExplained(s.calls[i])
    ensures WriteFollowed(Move(s, i, world), Move(s, i, world).calls[i])
  {
    hide RowOk, Recorded;
    assert CallOk(s, s.calls[i]);
  }

  lemma StepFollowed(s: System, e: Event, i: nat)
    requires Inv(s) && i < |Next(s, e).calls|
    requires i < |s.calls| ==> WriteFollowed(s, s.calls[i]) && CallExplained(s.calls[i])
    ensures WriteFollowed(Next(s, e), Next(s, e).calls[i])
  {
    if i >= |s.calls| {
      hide Guard, Claimed, Inv;
    } else if e.Advance? && e.call == i {
      hide Move, Inv, WriteFollowed, CallExplained;
      OwnWriteFollowed(s, i, e.world);
    } else {
      hide Next, Inv;
      OtherCalls(s, e, i);
      if s.calls[i].wrote {
        if s.db[s.calls[i].proposal].status != Pending { MovedStaysMoved(s, e, s.calls[i].proposal); }
        StepGrows(s, e, s.calls[i].proposal);
      }
    }
  }

  lemma {:induction false} RunFollowed(s: System, events: seq<Event>, p: Id)
    requires Inv(s) && Explained(s, p) && forall i :: 0 <= i < |s.calls| ==> WriteFollowed(s, s.calls[i])
    ensures forall i :: 0 <= i < |Run(s, events).calls| ==> WriteFollowed(Run(s, events), Run(s, events).calls[i])
    decreases |events|
  {
    hide Inv, Next, WriteFollowed, CallExplained;
    if events != [] {
      var t := Next(s, events[0]);
      StepKeepsInv(s, events[0]);
      StepExplained(s, events[0], p);
      forall i | 0 <= i < |t.calls|
        ensures WriteFollowed(t, t.calls[i])
      {
        StepFollowed(s, events[0], i);
      }
      RunFollowed(t, events[1..], p);
    }
  }

  /** Without a rejection or an export beside it, what an applying call wrote is applied or failed once every call has ended. */
  lemma WrittenIsSettled(events: seq<Event>, p: Id)
    requires forall i, j :: 0 <= i < |Submitted(events)| && 0 <= j < |Submitted(events)| ==>
               !(Applies(Submitted(events)[i], p) && (Rejects(Submitted(events)[j], p) || Exports(Submitted(events)[j], p)))
    ensures !LeftBehind(Run(NOTHING, events), p)
  {
    hide Run, Count, Submitted, Inv, CallExplained;
    var t := Run(NOTHING, events);
    NothingOk(p);
    RunKeeps(NOTHING, events, p);
    RunExplained(NOTHING, events, p);
    RunFollowed(NOTHING, events, p);
    RunSubmits(events);
    if AtRest(t) && p in t.writes && p in t.db {
      CountSome(t.writes, p);
      var i := WriterOf(t.calls, p);
      assert WriteFollowed(t, t.calls[i]);
      WriterApplies(t.calls[i], Submitted(events)[i], p);
      forall j | 0 <= j < |t.calls|
        ensures !(t.calls[j].proposal == p && (t.calls[j].request == Resolve(Reject) || t.calls[j].request == Resolve(ApproveAndExport)))
      {
        assert !(Applies(Submitted(events)[i], p) && (Rejects(Submitted(events)[j], p) || Exports(Submitted(events)[j], p)));
      }
      assert !HasAsker(t, p, Reject) && !HasAsker(t, p, ApproveAndExport);
    }
  }

  /** A world in which every call that has not written yet is turned away. */
  function Stop(i: nat): Event {
    Advance(i, World(true, false, false, NotAuthorized, false))
  }

  /** A call that moves nothing when it is turned away: not begun, refused by the update, about to audit, or ended. */
  predicate Harmless(s: System, c: Call) {
    && (c.proposal in s.db ==> s.db[c.proposal].status != Pending)
    && (c.step == Begin || (c.step.Claiming? && c.request.Resolve?) || c.step.Auditing? || c.step == Ended)
  }

  lemma RunFour(s: System, a: Event, b: Event, c: Event, d: Event)
    ensures Run(s, [a, b, c, d]) == Next(Next(Next(Next(s, a), b), c), d)
  {
    hide Next;
    assert [a, b, c, d][1..] == [b, c, d] && [b, c, d][1..] == [c, d] && [c, d][1..] == [d] && [d][1..] == [];
    var s1, s2 := Next(s, a), Next(Next(s, a), b);
    var s3 := Next(s2, c);
    assert Run(Next(s3, d), []) == Next(s3, d);
    assert Run(s3, [d]) == Next(s3, d);
    assert Run(s2, [c, d]) == Run(s3, [d]);
    assert Run(s1, [b, c, d]) == Run(s2, [c, d]);
  }

  function Stops(i: nat): seq<Event> {
    [Stop(i), Stop(i), Stop(i), Stop(i)]
  }

  /** Nothing but the call, and the audit it may still write. */
  ghost predicate OnlyEnds(s: System, t: System, i: nat) {
    && t.db == s.db && t.trail == s.trail && t.writes == s.writes && |t.calls| == |s.calls|
    && i < |s.calls| && t.calls[i].step == Ended
    && forall k :: 0 <= k < |s.calls| && k != i ==> t.calls[k] == s.calls[k]
  }

  lemma EndedIsEnded(s: System, i: nat)
    requires i < |s.calls| && s.calls[i].step == Ended
    ensures Next(s, Stop(i)) == s
  {
    assert s.calls[i := s.calls[i]] == s.calls;
  }

  lemma OneStop(s: System, i: nat)
    requires i < |s.calls| && Harmless(s, s.calls[i]) && s.calls[i].step != Begin
    ensures OnlyEnds(s, Next(s, Stop(i)), i)
  {
    if s.calls[i].step == Ended { EndedIsEnded(s, i); }
    hide Guard, Claimed;
  }

  /** Beginning, being turned away, and if need be a refused update. */
  lemma StopsAtBegin(s: System, i: nat)
    requires i < |s.calls| && Harmless(s, s.calls[i]) && s.calls[i].step == Begin
    ensures OnlyEnds(s, Next(Next(Next(s, Stop(i)), Stop(i)), Stop(i)), i)
  {
    var c := s.calls[i];
    if c.proposal !in s.db {
      var s1 := SetCall(s, i, c.(step := Ended));
      assert Next(s, Stop(i)) == s1;
      EndedIsEnded(s1, i);
    } else {
      var row := s.db[c.proposal];
      var s1 := SetCall(s, i, c.(step := Guarding(row)));
      assert Next(s, Stop(i)) == s1;
      var s2 := Next(s1, Stop(i));
      if c.request.Confirm? || (c.request.action != Reject && row.proposer == c.user) {
        assert s2 == SetCall(s, i, c.(step := Ended));
        EndedIsEnded(s2, i);
      } else if c.request.action == Reject {
        assert s2 == SetCall(s, i, c.(step := Claiming(Rejected, "")));
        OneStop(s2, i);
      } else {
        assert s2 == SetCall(s, i, c.(step := Reviewing(row)));
        assert Next(s2, Stop(i)) == SetCall(s, i, c.(step := Ended));
      }
    }
  }

  lemma StopsOne(s: System, i: nat)
    requires i < |s.calls| && Harmless(s, s.calls[i])
    ensures OnlyEnds(s, Run(s, Stops(i)), i)
  {
    hide Run, Next, Harmless;
    var s1 := Next(s, Stop(i));
    var s2, s3 := Next(s1, Stop(i)), Next(Next(s1, Stop(i)), Stop(i));
    RunFour(s, Stop(i), Stop(i), Stop(i), Stop(i));
    if s.calls[i].step == Begin {
      StopsAtBegin(s, i);
    } else {
      OneStop(s, i);
      EndedIsEnded(s1, i);
    }
    EndedIsEnded(s3, i);
  }

  function StopAll(n: nat): seq<Event> {
    if n == 0 then [] else StopAll(n - 1) + Stops(n - 1)
  }

  lemma {:induction false} AllStop(s: System, n: nat)
    requires n <= |s.calls| && forall i :: 0 <= i < |s.calls| ==> Harmless(s, s.calls[i])
    ensures var t := Run(s, StopAll(n));
            && t.db == s.db && t.trail == s.trail && t.writes == s.writes && |t.calls| == |s.calls|
            && (forall i :: 0 <= i < n ==> t.calls[i].step == Ended)
            && forall i :: n <= i < |s.calls| ==> t.calls[i] == s.calls[i]
  {
    hide Next, Stops;
    if n > 0 {
      AllStop(s, n - 1);
      var t := Run(s, StopAll(n - 1));
      assert Harmless(t, t.calls[n - 1]) by { assert Harmless(s, s.calls[n - 1]); }
      StopsOne(t, n - 1);
      RunSplits(s, StopAll(n - 1), Stops(n - 1));
    }
  }

  lemma {:induction false} StopsSubmitNothing(n: nat)
    ensures Submitted(StopAll(n)) == []
  {
    if n > 0 {
      StopsSubmitNothing(n - 1);
      hide Submitted;
      SubmittedJoined(StopAll(n - 1), Stops(n - 1));
      NoSubmission(n - 1);
    }
  }

  lemma NoSubmission(i: nat)
    ensures Submitted(Stops(i)) == []
  {
    var stop := Stop(i);
    assert Submitted([stop]) == [] by { assert [stop][1..] == []; }
    hide Submitted;
    SubmittedJoined([stop], [stop]);
    SubmittedJoined([stop] + [stop], [stop] + [stop]);
    assert Stops(i) == ([stop] + [stop]) + ([stop] + [stop]);
  }

  /** After the write and the other resolution nothing can move the proposal back, and the calls left are harmless. */
  lemma OvertakenWrite(submissions: seq<Submission>, p: Id, i: nat, j: nat) returns (n: nat)
    requires i < |submissions| && j < |submissions| && Applies(submissions[i], p)
    requires Rejects(submissions[j], p) || Exports(submissions[j], p)
    ensures var u := Run(Run(Starting(p, submissions), Times(i, 4)), Times(j, n));
            && u.writes == [p] && p in u.db && u.db[p].status in {Rejected, Approved} && |u.calls| == |submissions|
            && forall k :: 0 <= k < |u.calls| ==> Harmless(u, u.calls[k])
  {
    hide Run, Times;
    var s := Starting(p, submissions);
    GoesAsFarAsWriting(s, i);
    var t := Run(s, Times(i, 4));
    if Rejects(submissions[j], p) {
      n := 3;
      GoesAsFarAsRejecting(t, j);
    } else {
      n := 5;
      GoesAsFarAsExporting(t, j);
    }
  }

  /** A proposal that one call applies and another rejects or exports can be left written but rejected or approved, with every call ended. */
  lemma CanBeLeftBehind(submissions: seq<Submission>, p: Id, i: nat, j: nat) returns (events: seq<Event>)
    requires i < |submissions| && j < |submissions| && Applies(submissions[i], p)
    requires Rejects(submissions[j], p) || Exports(submissions[j], p)
    ensures Submitted(events) == submissions && LeftBehind(Run(NOTHING, events), p)
  {
    hide Run, Times, StopAll, Submitted, Starting, StartingEvents, Harmless, Applies, Rejects, Exports;
    var start, s := StartingEvents(p, submissions), Starting(p, submissions);
    Started(p, submissions);
    var n := OvertakenWrite(submissions, p, i, j);
    var t := Run(s, Times(i, 4));
    var u := Run(t, Times(j, n));
    AllStop(u, |u.calls|);
    var rest := StopAll(|u.calls|);
    RunSplits(t, Times(j, n), rest);
    RunSplits(s, Times(i, 4), Times(j, n) + rest);
    RunSplits(NOTHING, start, Times(i, 4) + (Times(j, n) + rest));
    events := start + (Times(i, 4) + (Times(j, n) + rest));
    TimesSubmitsNothing(i, 4);
    TimesSubmitsNothing(j, n);
    StopsSubmitNothing(|u.calls|);
    SubmittedJoined(Times(j, n), rest);
    SubmittedJoined(Times(i, 4), Times(j, n) + rest);
    SubmittedJoined(start, Times(i, 4) + (Times(j, n) + rest));
  }

  /**
   * Under overlap, once every call has ended: what was written is applied or failed in every
   * schedule exactly when the calls do not both apply the proposal and reject or export it.
   */
  lemma WrittenSettledExactly(submissions: seq<Submission>, p: Id)
    ensures (forall events :: Submitted(events) == submissions ==> !LeftBehind(Run(NOTHING, events), p))
            <==> forall i, j :: 0 <= i < |submissions| && 0 <= j < |submissions| ==>
                   !(Applies(submissions[i], p) && (Rejects(submissions[j], p) || Exports(submissions[j], p)))
  {
    hide LeftBehind, Run, Submitted;
    if forall i, j :: 0 <= i < |submissions| && 0 <= j < |submissions| ==>
         !(Applies(submissions[i], p) && (Rejects(submissions[j], p) || Exports(submissions[j], p))) {
      forall events | Submitted(events) == submissions
        ensures !LeftBehind(Run(NOTHING, events), p)
      {
        WrittenIsSettled(events, p);
      }
    } else {
      var i, j :| 0 <= i < |submissions| && 0 <= j < |submissions| && Applies(submissions[i], p)
                  && (Rejects(submissions[j], p) || Exports(submissions[j], p));
      var events := CanBeLeftBehind(submissions, p, i, j);
    }
  }
}
