/**
 * What every resolution and every write rests on when calls overlap (src/mcp/proposalQueue.ts:524-680):
 * each is some call's, and that call itself was told what its guards ask about, whatever the others
 * did in between.
 */
module InterleavingGuards {
  import opened Wrappers
  import opened Interleaving

  // ----- What a call was told -----

  /** In one of its steps the i-th call found every required reviewer signed off. */
  ghost predicate SawSignOffs(events: seq<Event>, i: nat) {
    exists k :: 0 <= k < |events| && events[k].Advance? && events[k].call == i && events[k].world.allSignedOff
  }

  /** It found that its tenant does not ask for four eyes. */
  ghost predicate SawTwoEyesEnough(events: seq<Event>, i: nat) {
    exists k :: 0 <= k < |events| && events[k].Advance? && events[k].call == i && !events[k].world.fourEyes
  }

  /** It found that the change can be exported. */
  ghost predicate SawExportable(events: seq<Event>, i: nat) {
    exists k :: 0 <= k < |events| && events[k].Advance? && events[k].call == i && events[k].world.exportable
  }

  /** It found the change in PTV. */
  ghost predicate SawInPtv(events: seq<Event>, i: nat) {
    exists k :: 0 <= k < |events| && events[k].Advance? && events[k].call == i && events[k].world.inPtv
  }

  /** Its write to PTV succeeded, and PTV gave a new item this id. */
  ghost predicate SawGiven(events: seq<Event>, i: nat, id: Id) {
    exists k :: 0 <= k < |events| && events[k].Advance? && events[k].call == i && events[k].world.write == Written(id)
  }

  /** Its write to PTV broke. */
  ghost predicate SawBroken(events: seq<Event>, i: nat) {
    exists k :: 0 <= k < |events| && events[k].Advance? && events[k].call == i && events[k].world.write.Broken?
  }

  // ----- What follows a guard -----

  /** All signed off, and someone else's proposal unless two eyes are enough. */
  ghost predicate MayApprove(events: seq<Event>, i: nat, c: Call, row: Row) {
    SawSignOffs(events, i) && (row.proposer == c.user ==> SawTwoEyesEnough(events, i))
  }

  /** The call was let through its guards to this status. */
  ghost predicate Lawful(events: seq<Event>, i: nat, c: Call, row: Row, to: Status) {
    match to
    case Pending => false
    case Rejected => c.request == Resolve(Reject)
    case Approved => c.request == Resolve(ApproveAndExport) && MayApprove(events, i, c, row) && SawExportable(events, i)
    case Failed => c.request == Resolve(ApproveAndApply) && MayApprove(events, i, c, row) && SawBroken(events, i)
    case Applied =>
      if c.request.Confirm? then SawInPtv(events, i) && (row.creates ==> c.request.ptvId != "")
      else c.request == Resolve(ApproveAndApply) && MayApprove(events, i, c, row) && exists id :: SawGiven(events, i, id)
  }

  predicate SameItem(a: Row, b: Row) {
    a.creates == b.creates && a.proposer == b.proposer
  }

  ghost predicate CallGuarded(events: seq<Event>, s: System, i: nat)
    requires i < |s.calls|
  {
    var c := s.calls[i];
    && (c.wrote ==> c.proposal in s.db && c.request == Resolve(ApproveAndApply) && MayApprove(events, i, c, s.db[c.proposal]))
    && (match c.step
        case Guarding(row) => c.proposal in s.db && SameItem(row, s.db[c.proposal])
        case Reviewing(row) =>
          c.proposal in s.db && SameItem(row, s.db[c.proposal])
          && c.request.Resolve? && c.request.action != Reject && (row.proposer == c.user ==> SawTwoEyesEnough(events, i))
        case Writing(row) =>
          c.proposal in s.db && SameItem(row, s.db[c.proposal]) && MayApprove(events, i, c, s.db[c.proposal])
          && (c.request == Resolve(ApproveAndExport) || c.request == Resolve(ApproveAndApply))
        case Claiming(to, createdId) =>
          c.proposal in s.db && Lawful(events, i, c, s.db[c.proposal], to)
          && (c.request.Confirm? && s.db[c.proposal].creates ==> createdId == c.request.ptvId)
          && (c.request.Resolve? && to == Applied && s.db[c.proposal].creates ==> SawGiven(events, i, createdId))
        case _ => true)
  }

  /** The proposal was resolved this way by a call of its resolver that was let through to it; an applied new item has the id it was given, if any. */
  ghost predicate ResolvedFrom(events: seq<Event>, s: System, p: Id, to: Status)
    requires p in s.db
  {
    exists i :: 0 <= i < |s.calls| && Resolver(events, s, i, p, to)
  }

  ghost predicate Resolver(events: seq<Event>, s: System, i: nat, p: Id, to: Status)
    requires p in s.db && i < |s.calls|
  {
    var c := s.calls[i];
    c.proposal == p && c.request.Resolve? && s.db[p].resolvedBy == Some(c.user) && Lawful(events, i, c, s.db[p], to)
    && (to == Applied && s.db[p].creates ==> exists id :: SawGiven(events, i, id) && (id != "" ==> s.db[p].target == id))
  }

  /** An approved proposal was confirmed by a call that found the change in PTV; a new item has the id that call was given. */
  ghost predicate ConfirmedFrom(events: seq<Event>, s: System, p: Id)
    requires p in s.db
  {
    exists i :: 0 <= i < |s.calls| && Confirmer(events, s, i, p)
  }

  ghost predicate Confirmer(events: seq<Event>, s: System, i: nat, p: Id)
    requires p in s.db && i < |s.calls|
  {
    var c := s.calls[i];
    c.proposal == p && c.request.Confirm? && Lawful(events, i, c, s.db[p], Applied)
    && (s.db[p].creates ==> s.db[p].target == c.request.ptvId)
  }

  ghost predicate RowGuarded(events: seq<Event>, s: System, p: Id)
    requires p in s.db && p in s.trail
  {
    (|s.trail[p]| >= 2 ==> ResolvedFrom(events, s, p, s.trail[p][1])) && (|s.trail[p]| >= 3 ==> ConfirmedFrom(events, s, p))
  }

  ghost predicate Guarded(events: seq<Event>, s: System) {
    && (forall i :: 0 <= i < |s.calls| ==> CallGuarded(events, s, i))
    && (forall p :: p in s.db ==> p in s.trail && RowGuarded(events, s, p))
  }

  // ----- Keeping it -----

  lemma SeesStill(events: seq<Event>, e: Event, i: nat)
    ensures SawSignOffs(events, i) ==> SawSignOffs(events + [e], i)
    ensures SawTwoEyesEnough(events, i) ==> SawTwoEyesEnough(events + [e], i)
    ensures SawExportable(events, i) ==> SawExportable(events + [e], i)
    ensures SawInPtv(events, i) ==> SawInPtv(events + [e], i)
    ensures SawBroken(events, i) ==> SawBroken(events + [e], i)
    ensures forall id :: SawGiven(events, i, id) ==> SawGiven(events + [e], i, id)
  {
    assert forall k :: 0 <= k < |events| ==> (events + [e])[k] == events[k];
  }

  lemma Sees(events: seq<Event>, i: nat, world: World)
    ensures world.allSignedOff ==> SawSignOffs(events + [Advance(i, world)], i)
    ensures !world.fourEyes ==> SawTwoEyesEnough(events + [Advance(i, world)], i)
    ensures world.exportable ==> SawExportable(events + [Advance(i, world)], i)
    ensures world.inPtv ==> SawInPtv(events + [Advance(i, world)], i)
    ensures match world.write
            case Written(id) => SawGiven(events + [Advance(i, world)], i, id)
            case Broken(_) => SawBroken(events + [Advance(i, world)], i)
            case NotAuthorized => true
  {
    var k := |events|;
    assert (events + [Advance(i, world)])[k] == Advance(i, world);
  }

  lemma LawfulStill(events: seq<Event>, e: Event, i: nat, c: Call, d: Call, row: Row, later: Row, to: Status)
    requires d.user == c.user && d.request == c.request && SameItem(row, later)
    ensures Lawful(events, i, c, row, to) ==> Lawful(events + [e], i, d, later, to)
    ensures MayApprove(events, i, c, row) ==> MayApprove(events + [e], i, d, later)
  {
    hide SawSignOffs, SawTwoEyesEnough, SawExportable, SawInPtv, SawGiven, SawBroken;
    SeesStill(events, e, i);
  }

  /** A call that takes no step stays guarded. */
  lemma CallStillGuarded(events: seq<Event>, e: Event, s: System, t: System, i: nat)
    requires i < |s.calls| && i < |t.calls| && t.calls[i] == s.calls[i] && CallGuarded(events, s, i)
    requires s.calls[i].proposal in s.db ==>
               s.calls[i].proposal in t.db && SameItem(s.db[s.calls[i].proposal], t.db[s.calls[i].proposal])
    ensures CallGuarded(events + [e], t, i)
  {
    hide Lawful, MayApprove, SawSignOffs, SawTwoEyesEnough, SawExportable, SawInPtv, SawGiven, SawBroken;
    var c := s.calls[i];
    SeesStill(events, e, i);
    if c.proposal in s.db {
      var row, later := s.db[c.proposal], t.db[c.proposal];
      LawfulStill(events, e, i, c, c, row, later, if c.step.Claiming? then c.step.to else Pending);
    }
  }

  lemma GuardGuarded(events: seq<Event>, s: System, i: nat, world: World)
    requires i < |s.calls| && CallGuarded(events, s, i) && (s.calls[i].step.Guarding? || s.calls[i].step.Reviewing? || s.calls[i].step.Writing?)
    ensures CallGuarded(events + [Advance(i, world)], Proceed(s, i, world), i)
  {
    hide SawSignOffs, SawTwoEyesEnough, SawExportable, SawInPtv, SawGiven, SawBroken;
    SeesStill(events, Advance(i, world), i);
    Sees(events, i, world);
  }

  lemma MovedGuarded(events: seq<Event>, s: System, i: nat, world: World)
    requires Guarded(events, s) && i < |s.calls|
    ensures CallGuarded(events + [Advance(i, world)], Move(s, i, world), i)
  {
    var c := s.calls[i];
    assert CallGuarded(events, s, i);
    if c.step.Guarding? || c.step.Reviewing? || c.step.Writing? {
      hide Guard, Claim, Proceed, CallGuarded;
      GuardGuarded(events, s, i, world);
    } else {
      hide Guard, Lawful, MayApprove;
      if c.proposal in s.db { LawfulStill(events, Advance(i, world), i, c, c, s.db[c.proposal], s.db[c.proposal], Pending); }
      if c.step.Claiming? { ClaimedGuarded(events, s, i, world); }
    }
  }

  lemma ClaimedGuarded(events: seq<Event>, s: System, i: nat, world: World)
    requires i < |s.calls| && s.calls[i].step.Claiming? && CallGuarded(events, s, i)
    ensures CallGuarded(events + [Advance(i, world)], Move(s, i, world), i)
  {
    hide Guard, Lawful, SawSignOffs, SawTwoEyesEnough;
    var c := s.calls[i];
    LawfulStill(events, Advance(i, world), i, c, c, s.db[c.proposal], s.db[c.proposal].(status := Pending), Pending);
  }

  lemma RowStillGuarded(events: seq<Event>, s: System, e: Event, p: Id)
    requires p in s.db && p in s.trail && RowGuarded(events, s, p)
    requires p in Next(s, e).db && p in Next(s, e).trail && Next(s, e).db[p] == s.db[p] && Next(s, e).trail[p] == s.trail[p]
    ensures RowGuarded(events + [e], Next(s, e), p)
  {
    hide Next, Lawful;
    var t := Next(s, e);
    if |s.trail[p]| >= 2 {
      var i :| 0 <= i < |s.calls| && Resolver(events, s, i, p, s.trail[p][1]);
      CallStays(s, e, i);
      LawfulStill(events, e, i, s.calls[i], t.calls[i], s.db[p], t.db[p], s.trail[p][1]);
      SeesStill(events, e, i);
      assert Resolver(events + [e], t, i, p, t.trail[p][1]);
    }
    if |s.trail[p]| >= 3 {
      var i :| 0 <= i < |s.calls| && Confirmer(events, s, i, p);
      CallStays(s, e, i);
      LawfulStill(events, e, i, s.calls[i], t.calls[i], s.db[p], t.db[p], Applied);
      assert Confirmer(events + [e], t, i, p);
    }
  }

  lemma ClaimTo(s: System, c: Call)
    requires CallOk(s, c) && c.step.Claiming?
    ensures c.step.to != Pending && (c.request.Confirm? ==> c.step.to == Applied)
  {
    hide Recorded;
  }

  /** What the conditional update does when it does anything. */
  lemma ClaimEffect(s: System, i: nat, world: World)
    requires i < |s.calls| && s.calls[i].step.Claiming? && s.calls[i].proposal in s.db && s.calls[i].proposal in s.trail
    requires Move(s, i, world).db != s.db || Move(s, i, world).trail != s.trail
    ensures var c, p, t := s.calls[i], s.calls[i].proposal, Move(s, i, world);
            && p in t.db && p in t.trail && s.db[p].status == From(c)
            && t.db[p] == Claimed(s.db[p], c, c.step.to, c.step.createdId) && t.trail[p] == s.trail[p] + [c.step.to]
            && |t.calls| == |s.calls|
            && forall k :: 0 <= k < |s.calls| ==>
                 t.calls[k].user == s.calls[k].user && t.calls[k].request == s.calls[k].request && t.calls[k].proposal == s.calls[k].proposal
  {
    hide Guard, Claimed;
  }

  /** The conditional update moves a proposal as its call was let through. */
  lemma ClaimedRowGuarded(events: seq<Event>, s: System, i: nat, world: World)
    requires Inv(s) && Guarded(events, s) && i < |s.calls| && s.calls[i].step.Claiming?
    ensures var p, t := s.calls[i].proposal, Move(s, i, world);
            p in s.db && (t.db != s.db || t.trail != s.trail) ==> p in t.db && p in t.trail && RowGuarded(events + [Advance(i, world)], t, p)
  {
    hide Move, Guard, Lawful, Recorded, CallOk;
    var c, p, t := s.calls[i], s.calls[i].proposal, Move(s, i, world);
    var e := Advance(i, world);
    assert CallGuarded(events, s, i);
    assert CallOk(s, c);
    ClaimTo(s, c);
    if p in s.db && (t.db != s.db || t.trail != s.trail) {
      assert RowOk(s, p) && RowGuarded(events, s, p);
      ClaimEffect(s, i, world);
      LawfulStill(events, e, i, c, t.calls[i], s.db[p], t.db[p], c.step.to);
      SeesStill(events, e, i);
      if c.request.Resolve? {
        assert Resolver(events + [e], t, i, p, t.trail[p][1]);
      } else {
        assert s.trail[p] == [Pending, Approved];
        var k :| 0 <= k < |s.calls| && Resolver(events, s, k, p, Approved);
        LawfulStill(events, e, k, s.calls[k], t.calls[k], s.db[p], t.db[p], Approved);
        assert Resolver(events + [e], t, k, p, t.trail[p][1]);
        ConfirmedId(events, i, c, s.db[p]);
        assert Confirmer(events + [e], t, i, p);
      }
    }
  }

  lemma ConfirmedId(events: seq<Event>, i: nat, c: Call, row: Row)
    requires c.request.Confirm? && Lawful(events, i, c, row, Applied)
    ensures row.creates ==> c.request.ptvId != ""
  {
  }

  lemma SubmittedGuarded(events: seq<Event>, s: System, e: Event, i: nat)
    requires |s.calls| <= i < |Next(s, e).calls|
    ensures CallGuarded(events, Next(s, e), i)
  {
    hide Guard, Claimed, Lawful, MayApprove;
  }

  lemma StepGuardsCalls(events: seq<Event>, s: System, e: Event, i: nat)
    requires Inv(s) && Guarded(events, s) && i < |Next(s, e).calls|
    ensures CallGuarded(events + [e], Next(s, e), i)
  {
    if i >= |s.calls| {
      SubmittedGuarded(events + [e], s, e, i);
    } else if e.Advance? && e.call == i {
      hide CallGuarded, Move;
      MovedGuarded(events, s, i, e.world);
    } else {
      OtherCalls(s, e, i);
      StepKeepsRows(s, e);
      assert CallGuarded(events, s, i);
      hide CallGuarded, Next, Inv;
      CallStillGuarded(events, e, s, Next(s, e), i);
    }
  }

  /** Only the conditional update of its own call changes a proposal. */
  lemma RowChanges(s: System, e: Event, p: Id)
    requires p in s.db && p in s.trail && p in Next(s, e).db && p in Next(s, e).trail
    ensures (Next(s, e).db[p] == s.db[p] && Next(s, e).trail[p] == s.trail[p])
            || (e.Advance? && e.call < |s.calls| && s.calls[e.call].step.Claiming? && s.calls[e.call].proposal == p
                && (Next(s, e).db != s.db || Next(s, e).trail != s.trail))
  {
    hide Guard;
  }

  lemma CreatedRow(s: System, e: Event, p: Id)
    requires p !in s.db && p in Next(s, e).db
    ensures p in Next(s, e).trail && Next(s, e).trail[p] == [Pending]
  {
    hide Guard, Claimed;
  }

  lemma StepGuards(events: seq<Event>, s: System, e: Event)
    requires Inv(s) && Guarded(events, s)
    ensures Guarded(events + [e], Next(s, e))
  {
    var t := Next(s, e);
    StepKeepsRows(s, e);
    hide Next, Inv, CallGuarded, RowGuarded, RowOk, Grows;
    forall i | 0 <= i < |t.calls|
      ensures CallGuarded(events + [e], t, i)
    {
      StepGuardsCalls(events, s, e, i);
    }
    forall p | p in t.db
      ensures p in t.trail && RowGuarded(events + [e], t, p)
    {
      if p !in s.db {
        CreatedRow(s, e, p);
        NewRowGuarded(events + [e], t, p);
      } else {
        RowChanges(s, e, p);
        if t.db[p] == s.db[p] && t.trail[p] == s.trail[p] {
          RowStillGuarded(events, s, e, p);
        } else {
          ClaimedRowGuarded(events, s, e.call, e.world);
          assert t == Move(s, e.call, e.world) by { Advances(s, e); }
        }
      }
    }
  }

  lemma Advances(s: System, e: Event)
    requires e.Advance? && e.call < |s.calls|
    ensures Next(s, e) == Move(s, e.call, e.world)
  {
    hide Move;
  }

  lemma NewRowGuarded(events: seq<Event>, s: System, p: Id)
    requires p in s.db && p in s.trail && s.trail[p] == [Pending]
    ensures RowGuarded(events, s, p)
  {
  }

  lemma {:induction false} RunGuards(events: seq<Event>)
    ensures Guarded(events, Run(NOTHING, events)) && Inv(Run(NOTHING, events))
    decreases |events|
  {
    hide Next, Inv, Guarded, Counted;
    if events == [] {
      NothingGuarded();
    } else {
      var n := |events| - 1;
      RunGuards(events[..n]);
      var s := Run(NOTHING, events[..n]);
      assert events == events[..n] + [events[n]];
      RunSplits(NOTHING, events[..n], [events[n]]);
      OneMore(s, events[n]);
      StepGuards(events[..n], s, events[n]);
      StepKeepsInv(s, events[n]);
    }
  }

  lemma OneMore(s: System, e: Event)
    ensures Run(s, [e]) == Next(s, e)
  {
    hide Next;
    assert [e][1..] == [];
    assert Run(Next(s, e), []) == Next(s, e);
  }

  lemma NothingGuarded()
    ensures Run(NOTHING, []) == NOTHING && Guarded([], NOTHING) && Inv(NOTHING)
  {
  }

  // ----- Every interleaving -----

  lemma {:induction false} SomeCounted<T>(list: seq<T>, f: T -> bool)
    ensures Count(list, f) > 0 <==> exists i :: 0 <= i < |list| && f(list[i])
  {
    if list != [] {
      SomeCounted(list[1..], f);
      if i :| 0 <= i < |list[1..]| && f(list[1..][i]) { assert f(list[i + 1]); }
      if i :| 0 < i < |list| && f(list[i]) { assert f(list[1..][i - 1]); }
    }
  }

  lemma WriterOf(events: seq<Event>, p: Id)
    requires p in Run(NOTHING, events).writes
    ensures var s := Run(NOTHING, events); exists i :: 0 <= i < |s.calls| && s.calls[i].proposal == p && s.calls[i].wrote
  {
    hide Run, Inv;
    var s := Run(NOTHING, events);
    NothingOk(p);
    RunKeeps(NOTHING, events, p);
    var k :| 0 <= k < |s.writes| && s.writes[k] == p;
    assert Is(p)(s.writes[k]);
    SomeCounted(s.writes, Is(p));
    SomeCounted(s.calls, Wrote(p));
    var i :| 0 <= i < |s.calls| && Wrote(p)(s.calls[i]);
    assert s.calls[i].proposal == p && s.calls[i].wrote;
  }

  /**
   * Whatever calls overlap: a resolved proposal was resolved by a call of its resolver that asked for
   * just that, and for anything but a rejection had found all reviewers signed off and the proposal
   * someone else's, unless two eyes are enough; one that was confirmed as published had been found in
   * PTV, a new item under the id it then has; and what was written to PTV was written by a call that
   * applies and had found the same as an approval.
   */
  lemma EveryMoveGuarded(events: seq<Event>, p: Id)
    ensures var s := Run(NOTHING, events);
            && (p in s.db ==> p in s.trail && (|s.trail[p]| >= 2 ==> ResolvedFrom(events, s, p, s.trail[p][1]))
                              && (|s.trail[p]| >= 3 ==> ConfirmedFrom(events, s, p)))
            && (p in s.writes ==>
                  exists i :: 0 <= i < |s.calls| && s.calls[i].proposal == p && s.calls[i].request == Resolve(ApproveAndApply)
                              && p in s.db && MayApprove(events, i, s.calls[i], s.db[p]))
  {
    RunGuards(events);
    hide Run, Inv, Lawful, MayApprove, ResolvedFrom, ConfirmedFrom;
    var s := Run(NOTHING, events);
    if p in s.db { assert RowGuarded(events, s, p); }
    if p in s.writes {
      WriterOf(events, p);
      var i :| 0 <= i < |s.calls| && s.calls[i].proposal == p && s.calls[i].wrote;
      assert CallGuarded(events, s, i);
    }
  }

  // ----- What a step does to PTV, and that confirming works -----

  /** A step writes to PTV exactly when a call that applies takes it after its guards and the write succeeds, or breaks after it got there. */
  lemma WritesExactly(s: System, e: Event)
    ensures Next(s, e).writes
            == s.writes
               + if e.Advance? && e.call < |s.calls| && s.calls[e.call].step.Writing? && s.calls[e.call].request == Resolve(ApproveAndApply)
                    && !s.calls[e.call].wrote && (e.world.write.Written? || e.world.write == Broken(true))
                 then [s.calls[e.call].proposal] else []
  {
    hide Claim, Read;
    if e.Advance? && e.call < |s.calls| {
      var c := s.calls[e.call];
      ReadWritesNothing(s, e.call);
      if c.step.Claiming? { ClaimWritesNothing(s, e.call, c.step.to, c.step.createdId); }
    }
  }

  lemma ReadWritesNothing(s: System, i: nat)
    requires i < |s.calls|
    ensures Read(s, i).writes == s.writes
  {
  }

  lemma ClaimWritesNothing(s: System, i: nat, to: Status, createdId: Id)
    requires i < |s.calls|
    ensures Claim(s, i, to, createdId).writes == s.writes
  {
  }

  /** A call that confirms an approved proposal, with an id if it is a new item, goes through when its change is in PTV. */
  lemma ConfirmingWorks(s: System, j: nat)
    requires j < |s.calls| && s.calls[j].step == Begin && s.calls[j].request.Confirm?
    requires s.calls[j].proposal in s.db && s.calls[j].proposal in s.trail && s.db[s.calls[j].proposal].status == Approved
    requires s.db[s.calls[j].proposal].creates ==> s.calls[j].request.ptvId != ""
    ensures var c := s.calls[j];
            var row := s.db[c.proposal];
            Run(s, Times(j, 3))
            == s.(db := s.db[c.proposal := row.(status := Applied, target := if row.creates then c.request.ptvId else row.target)],
                  trail := s.trail[c.proposal := s.trail[c.proposal] + [Applied]],
                  calls := s.calls[j := c.(step := Auditing(Applied))])
  {
    hide Run, Times, Record;
    var c, row := s.calls[j], s.db[s.calls[j].proposal];
    var s1 := SetCall(s, j, c.(step := Guarding(row)));
    var s2 := SetCall(s, j, c.(step := Claiming(Applied, if row.creates then c.request.ptvId else "")));
    assert Next(s, Go(j)) == s1;
    assert Next(s1, Go(j)) == s2;
    RunTimes(s, j, 3);
    RunTimes(s1, j, 2);
    RunTimes(s2, j, 1);
    NoTimes(Next(s2, Go(j)), j);
  }
}
