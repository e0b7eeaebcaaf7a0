/**
 * Every run of both services, seen on the owner map: a committing hold claims exactly its cells, a committing
 * cancel frees exactly its booking's cells, nothing else changes an owner, and a hold is refused for its
 * segment exactly when one of its cells is taken.
 */
module OwnerRefinement {
  import opened Prelude
  import opened Inventory
  import opened Allocations
  import OwnerMap
  import Seats = SeatTransactions
  import HoldRuns
  import opened EndToEnd

  // ---- The abstract system ----

  /** What a step does to the owner map. */
  ghost function OwnersAfter(owners: OwnerMap.Owners, s: Seats.State, step: Seats.Action): OwnerMap.Owners {
    if !step.Advance? || step.tx !in s.txs || Seats.Waits(s, step.tx) then owners
    else
      var tx := s.txs[step.tx];
      if Seats.Commits(s, step.tx) then
        owners + OwnerMap.Claim(OwnerMap.Requested(tx.hold), tx.hold.booking)
      else if Seats.Writes(s, step.tx) && tx.change.Cancel? then OwnerMap.Release(owners, tx.booking)
      else owners
  }

  // ---- The committing write of a confirm or cancel ----

  /** The rows a write has locked are exactly the rows its event is about. */
  lemma TargetsAreMatches(inventory: Inventory, s: System, t: Id)
    requires Invariant(inventory, s) && t in s.seats.txs && Seats.Writes(s.seats, t)
    ensures var tx := s.seats.txs[t];
            Seats.Targets(tx) == Seats.MatchingRows(s.seats.allocs, tx.booking, tx.change.From())
  {
    var tx := s.seats.txs[t];
    assert Seats.TargetsMatch(s.seats.allocs, tx);
    forall i | i in Seats.Targets(tx)
      ensures i in Seats.MatchingRows(s.seats.allocs, tx.booking, tx.change.From())
    {
    }
  }

  /** So the write is the whole bulk update of its event. */
  lemma WriteIsBulkUpdate(inventory: Inventory, s: System, t: Id)
    requires Invariant(inventory, s) && t in s.seats.txs && Seats.Writes(s.seats, t)
    ensures var tx := s.seats.txs[t];
            Seats.AdvanceTx(s.seats, t).allocs
            == SetStatus(s.seats.allocs, tx.booking, tx.change.From(), tx.change.To())
  {
    var tx := s.seats.txs[t];
    TargetsAreMatches(inventory, s, t);
    Seats.AdvanceOutcome(s.seats, t);
    Seats.TargetsSetStatus(s.seats.allocs, tx.booking, tx.change);
  }

  lemma WriteRefines(inventory: Inventory, s: System, t: Id)
    requires Invariant(inventory, s) && t in s.seats.txs && Seats.Writes(s.seats, t)
    ensures var tx := s.seats.txs[t];
            var before := OwnerMap.Abstract(s.seats.allocs);
            var after := OwnerMap.Abstract(Seats.AdvanceTx(s.seats, t).allocs);
            after == if tx.change.Cancel? then OwnerMap.Release(before, tx.booking) else before
  {
    var tx := s.seats.txs[t];
    WriteIsBulkUpdate(inventory, s, t);
    if tx.change.Cancel? {
      OwnerMap.CancelReleases(s.seats.allocs, tx.booking);
    } else {
      OwnerMap.ConfirmKeepsOwners(s.seats.allocs, tx.booking);
    }
  }

  // ---- Every run ----

  lemma MoveRefines(inventory: Inventory, s: System, step: Seats.Action)
    requires Invariant(inventory, s) && Seats.Moves(inventory, s.seats, step)
    ensures OwnerMap.Abstract(Seats.AdvanceTx(s.seats, step.tx).allocs)
            == OwnersAfter(OwnerMap.Abstract(s.seats.allocs), s.seats, step)
  {
    Seats.AdvanceOutcome(s.seats, step.tx);
    if Seats.Commits(s.seats, step.tx) {
      HoldRuns.CommitClaimsFreeCells(inventory, s.seats, step.tx);
    } else if Seats.Writes(s.seats, step.tx) {
      WriteRefines(inventory, s, step.tx);
    }
  }

  lemma SeatStepRefines(inventory: Inventory, s: System, step: Seats.Action)
    requires Invariant(inventory, s)
    ensures OwnerMap.Abstract(Seats.Step(inventory, s.seats, step).allocs)
            == OwnersAfter(OwnerMap.Abstract(s.seats.allocs), s.seats, step)
  {
    Seats.StepFrame(inventory, s.seats, step);
    if Seats.Moves(inventory, s.seats, step) {
      MoveRefines(inventory, s, step);
    } else {
      Seats.QuietStep(inventory, s.seats, step);
    }
  }

  /** In every run, each step changes the owner map as the abstract system says, and no other step does. */
  lemma EveryStepRefines(inventory: Inventory, actions: seq<Action>, a: Action)
    requires UniqueSeats(inventory.seats)
    ensures var s := Run(inventory, actions);
            var before := OwnerMap.Abstract(s.seats.allocs);
            var after := OwnerMap.Abstract(Step(inventory, s, a).seats.allocs);
            after == if a.OnSeats? && Allowed(s, a) then OwnersAfter(before, s.seats, a.step) else before
  {
    RunsKeepInvariant(inventory, actions);
    if a.OnSeats? {
      SeatStepRefines(inventory, Run(inventory, actions), a.step);
    }
  }

  /** A committing hold finds all its cells free, in every run. */
  lemma CommitFindsCellsFree(inventory: Inventory, actions: seq<Action>, t: Id)
    requires UniqueSeats(inventory.seats)
    requires var s := Run(inventory, actions).seats; t in s.txs && Seats.Commits(s, t)
    ensures var s := Run(inventory, actions).seats;
            OwnerMap.Free(OwnerMap.Abstract(s.allocs), OwnerMap.Requested(s.txs[t].hold))
  {
    RunsKeepInvariant(inventory, actions);
    HoldRuns.CommitClaimsFreeCells(inventory, Run(inventory, actions).seats, t);
  }

  // ---- When a hold is refused ----

  /** The hold has all its seat rows and asks the overlap query next. */
  ghost predicate AsksOverlap(s: Seats.State, t: Id) {
    t in s.txs && s.txs[t].HoldTx? && s.txs[t].pc.Locking? && s.txs[t].pc.taken >= |s.txs[t].order|
  }

  lemma OverlapStatement(s: Seats.State, t: Id)
    requires AsksOverlap(s, t)
    ensures var hold := s.txs[t].hold;
            t in Seats.AdvanceTx(s, t).txs
            && Seats.AdvanceTx(s, t).txs[t].HoldTx?
            && Seats.AdvanceTx(s, t).txs[t].pc
               == if HasOverlappingAllocation(s.allocs, hold.schedule, Seats.SortedSeats(hold), hold.from, hold.to)
                  then Seats.Refused(Seats.SEGMENT_CONFLICT) else Seats.Inserting
  {
  }

  /** In every run, the overlap statement refuses a hold exactly when one of its cells has an owner. */
  lemma RefusedExactlyWhenTaken(inventory: Inventory, actions: seq<Action>, t: Id)
    requires UniqueSeats(inventory.seats) && AsksOverlap(Run(inventory, actions).seats, t)
    ensures var s := Run(inventory, actions).seats;
            var hold, after := s.txs[t].hold, Seats.AdvanceTx(s, t);
            && t in after.txs && after.txs[t].HoldTx?
            && after.txs[t].pc == if OwnerMap.Free(OwnerMap.Abstract(s.allocs), OwnerMap.Requested(hold))
                                  then Seats.Inserting else Seats.Refused(Seats.SEGMENT_CONFLICT)
  {
    RunsKeepInvariant(inventory, actions);
    var s := Run(inventory, actions).seats;
    var hold := s.txs[t].hold;
    assert Seats.ResolvedTx(inventory, s, s.txs[t]);
    OverlapStatement(s, t);
    OwnerMap.OverlapQueryIsFreeness(s.allocs, hold);
    Seats.OverlapIgnoresOrder(s.allocs, hold);
  }

  // ---- When a hold that found its cells free commits ----

  /** A booking whose hold event is new has no row yet, so the unique index on (booking, seat) never refuses it. */
  lemma NewHoldHasNoRow(inventory: Inventory, s: System, hold: Hold)
    requires Invariant(inventory, s) && UniqueSeats(inventory.seats)
    requires hold.event in s.seats.requests && Resolve(inventory, s.seats.requests[hold.event]) == Some(hold)
    requires Seats.HoldKey(hold.event) !in s.seats.keys
    ensures !HasRowFor(s.seats.allocs, hold.booking, hold.Seats())
  {
    ResolveKeepsIds(inventory, s.seats.requests[hold.event]);
    forall i: nat | i < |s.seats.allocs| ensures s.seats.allocs[i].booking != hold.booking {
      RowIsRequested(inventory, s, i);
      if s.seats.allocs[i].booking == hold.booking {
        assert s.requests[hold.booking] == s.seats.requests[hold.event];
        var k := HeldHold(inventory, s, hold.booking);
      }
    }
  }

  /** In every run, a hold past its overlap statement commits exactly when its event key is still new. */
  lemma InsertsExactlyOnce(inventory: Inventory, actions: seq<Action>, t: Id)
    requires UniqueSeats(inventory.seats)
    requires var s := Run(inventory, actions).seats; t in s.txs && s.txs[t].HoldTx? && s.txs[t].pc.Inserting?
    ensures var s := Run(inventory, actions).seats;
            Seats.Commits(s, t) <==> Seats.HoldKey(s.txs[t].hold.event) !in s.keys
  {
    RunsKeepInvariant(inventory, actions);
    var s := Run(inventory, actions);
    assert Seats.ResolvedTx(inventory, s.seats, s.seats.txs[t]);
    if Seats.HoldKey(s.seats.txs[t].hold.event) !in s.seats.keys {
      NewHoldHasNoRow(inventory, s, s.seats.txs[t].hold);
    }
  }
}
