/** What runs keep that mix reviews with plain saves to the repository. */
module RepositoryRuns {
  import opened ReviewRecords
  import opened ReviewRepository
  import opened ReviewWorkflow
  import opened ReviewRuns

  /** One operation on the repository; saving one record is saving a list of one. */
  datatype Operation = Reviewing(event: Event) | Saving(incoming: seq<Record>, writeOk: bool)

  /** The map with all of `incoming` stored, the last one on top. */
  function Overlay(store: Store, incoming: seq<Record>): Store {
    if incoming == [] then store
    else Overlay(store, incoming[..|incoming| - 1])[incoming[|incoming| - 1].id := incoming[|incoming| - 1]]
  }

  predicate CanSave(store: Store, incoming: seq<Record>) {
    DistinctIds(incoming) && forall r :: r in incoming ==> ValidRecord(r) && KeepsIdentity(store, r)
  }

  function After(store: Store, op: Operation): Store {
    match op
    case Reviewing(e) => Next(store, e)
    case Saving(incoming, writeOk) => if CanSave(store, incoming) && writeOk then Overlay(store, incoming) else store
  }

  function StoreAt(store: Store, ops: seq<Operation>, k: nat): Store
    requires k <= |ops|
  {
    if k == 0 then store else After(StoreAt(store, ops, k - 1), ops[k - 1])
  }

  // ----- saving is overlaying -----

  lemma {:induction false} OverlayIsOverlaid(store: Store, incoming: seq<Record>)
    requires DistinctIds(incoming)
    ensures Overlaid(store, incoming, Overlay(store, incoming))
  {
    if incoming == [] {
      NothingOverlaid(store, incoming);
    } else {
      var n := |incoming| - 1;
      OverlayIsOverlaid(store, incoming[..n]);
      OverlayOne(store, incoming, n, Overlay(store, incoming[..n]));
      assert incoming[..n + 1] == incoming;
    }
  }

  /** The map that a successful save of several records leaves is the overlay, and the only one that fits. */
  lemma SavedIsOverlay(before: Store, incoming: seq<Record>, after: Store)
    requires DistinctIds(incoming)
    ensures Overlaid(before, incoming, after) <==> after == Overlay(before, incoming)
  {
    OverlayIsOverlaid(before, incoming);
    var overlay := Overlay(before, incoming);
    if Overlaid(before, incoming, after) {
      forall id
        ensures id in after <==> id in overlay
        ensures id in after ==> after[id] == overlay[id]
      {
        if r :| r in incoming && r.id == id {
          assert after[id] == r && overlay[id] == r;
        }
      }
    }
  }

  lemma SavedOne(store: Store, r: Record)
    ensures Overlay(store, [r]) == store[r.id := r]
    ensures CanSave(store, [r]) <==> ValidRecord(r) && KeepsIdentity(store, r)
  {
    hide ValidRecord, KeepsIdentity;
    assert [r][..0] == [] && [r][0] in [r];
  }

  // ----- over a run -----

  ghost predicate KeepsIdentities(a: Store, b: Store) {
    forall id :: id in a ==> id in b && IdentityOf(a[id]) == IdentityOf(b[id])
  }

  lemma OverlayKeeps(store: Store, incoming: seq<Record>)
    requires Filed(store) && CanSave(store, incoming)
    ensures Filed(Overlay(store, incoming)) && KeepsIdentities(store, Overlay(store, incoming))
  {
    OverlayIsOverlaid(store, incoming);
    var after := Overlay(store, incoming);
    hide ValidRecord, Overlay, DistinctIds;
    forall id | id in after
      ensures after[id].id == id && ValidRecord(after[id]) && (id in store ==> IdentityOf(store[id]) == IdentityOf(after[id]))
    {
      if r :| r in incoming && r.id == id {
        assert after[id] == r && KeepsIdentity(store, r);
      }
    }
    forall id | id in store
      ensures id in after
    {
      if r :| r in incoming && r.id == id {
        assert r.id in after;
      }
    }
  }

  lemma ReviewingKeeps(store: Store, e: Event)
    requires Filed(store)
    ensures Filed(Next(store, e)) && KeepsIdentities(store, Next(store, e))
  {
    StepKeeps(store, e);
    hide Next, Filed;
    forall id | id in store
      ensures IdentityOf(store[id]) == IdentityOf(Next(store, e)[id])
    {
      assert Evolved(store[id], Next(store, e)[id]);
    }
  }

  lemma OperationKeeps(store: Store, op: Operation)
    requires Filed(store)
    ensures Filed(After(store, op)) && KeepsIdentities(store, After(store, op))
  {
    hide Filed, CanSave, Next, Overlay;
    match op
    case Reviewing(e) => ReviewingKeeps(store, e);
    case Saving(incoming, writeOk) =>
      if CanSave(store, incoming) {
        OverlayKeeps(store, incoming);
      }
  }

  /**
   Over every run of deliveries, submissions and saves no record disappears and no identity changes, whatever is
   saved; records can only be added.
   */
  lemma {:induction false} IdentitiesNeverChange(store: Store, ops: seq<Operation>, i: nat, j: nat)
    requires Filed(store) && i <= j <= |ops|
    ensures Filed(StoreAt(store, ops, i)) && Filed(StoreAt(store, ops, j))
    ensures KeepsIdentities(StoreAt(store, ops, i), StoreAt(store, ops, j))
    decreases j
  {
    hide After, Filed;
    if i < j {
      IdentitiesNeverChange(store, ops, i, j - 1);
      OperationKeeps(StoreAt(store, ops, j - 1), ops[j - 1]);
    } else if i > 0 {
      IdentitiesNeverChange(store, ops, i - 1, i - 1);
      OperationKeeps(StoreAt(store, ops, i - 1), ops[i - 1]);
    }
  }
}
