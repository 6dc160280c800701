/** The camera-driven occupancy reconciler: vehicle polygons detected in a
    frame are overlaid on the polygons of a lot's slots; a slot more than half
    covered by some vehicle becomes occupied, and an uncovered slot becomes
    available unless a session on it is still open. */
module Occupancy {
  import opened Common
  import opened Parking
  import Ids

  /** The geometry library as an oracle. `buildsPolygon(ring)` says whether a
      polygon can be built from the ring at all (building one that cannot be
      built throws). `overlapRatio(vehicle, slot)` is the intersection area
      over the slot's area; None when computing it throws or when the two
      polygons do not intersect. */
  datatype Geometry = Geometry(buildsPolygon: Ring -> bool, overlapRatio: (Ring, Ring) -> Option<real>)

  /** What the detector returns for one vehicle: its polygon, if any. */
  type VehicleShape = Option<seq<Ring>>

  /** A vehicle that takes part: it has a polygon whose first ring has at
      least three positions. Only that first ring is used. */
  predicate Usable(v: VehicleShape) {
    v.Some? && |v.value| > 0 && |v.value[0]| >= 3
  }

  predicate HasCoordinates(s: Slot) {
    s.coordinates.Some? && |s.coordinates.value| > 0
  }

  /** A slot of the lot whose polygon is not empty: the slots the pass looks at. */
  predicate IsCandidate(s: Slot, lotId: int) {
    s.lotId == lotId && HasCoordinates(s)
  }

  /** A candidate slot whose first ring has at least three positions: the
      slots that are measured against vehicles. */
  predicate IsMeasured(s: Slot, lotId: int) {
    IsCandidate(s, lotId) && |s.coordinates.value[0]| >= 3
  }

  function SlotRing(s: Slot): Ring
    requires HasCoordinates(s)
  {
    s.coordinates.value[0]
  }

  /** Strictly more than half of the slot is covered; exactly half is not. */
  predicate Covers(geo: Geometry, vehicleRing: Ring, slotRing: Ring) {
    match geo.overlapRatio(vehicleRing, slotRing)
    case Some(ratio) => ratio > 0.5
    case None => false
  }

  /** Some usable vehicle among the first `n` more than half covers the slot. */
  predicate CoveredBefore(geo: Geometry, vehicles: seq<VehicleShape>, n: nat, s: Slot)
    requires n <= |vehicles| && HasCoordinates(s)
  {
    exists i :: 0 <= i < n && Usable(vehicles[i]) && Covers(geo, vehicles[i].value[0], SlotRing(s))
  }

  function CoveredUpTo(geo: Geometry, slots: map<int, Slot>, lotId: int, vehicles: seq<VehicleShape>, n: nat): set<int>
    requires n <= |vehicles|
  {
    set id | id in slots && IsMeasured(slots[id], lotId) && CoveredBefore(geo, vehicles, n, slots[id])
  }

  /** The slots of the lot that some vehicle covers more than half of. */
  function OverlappedSlots(geo: Geometry, slots: map<int, Slot>, lotId: int, vehicles: seq<VehicleShape>): (r: set<int>)
    ensures forall id :: id in r <==>
      id in slots && IsMeasured(slots[id], lotId) && CoveredBefore(geo, vehicles, |vehicles|, slots[id])
  {
    CoveredUpTo(geo, slots, lotId, vehicles, |vehicles|)
  }

  /** Whether the pass throws before writing anything: once some vehicle is
      usable, a polygon that cannot be built, of a usable vehicle or of a
      measured slot, is built outside any error handling. */
  predicate AbortsPass(geo: Geometry, slots: map<int, Slot>, lotId: int, vehicles: seq<VehicleShape>) {
    (exists i :: 0 <= i < |vehicles| && Usable(vehicles[i]))
    && ((exists i :: 0 <= i < |vehicles| && Usable(vehicles[i]) && !geo.buildsPolygon(vehicles[i].value[0]))
        || (exists id :: id in slots && IsMeasured(slots[id], lotId) && !geo.buildsPolygon(SlotRing(slots[id]))))
  }

  /** The new status of a candidate slot. */
  function Reconciled(status: SlotStatus, overlapped: bool, hasOpen: bool): (r: SlotStatus)
    ensures overlapped ==> r == Occupied
    ensures !overlapped && hasOpen ==> r == status
    ensures !overlapped && !hasOpen ==> r == Available
  {
    if overlapped then Occupied
    else if !hasOpen && status != Available then Available
    else status
  }

  /** Some session on the slot, whatever its status, has no exit time. */
  predicate HasOpenSession(sessions: map<int, Session>, slotId: int) {
    exists sid :: sid in sessions && sessions[sid].slotId == slotId && sessions[sid].exitTime.None?
  }

  /** The slot table after a pass that found `overlapped`: only candidate
      slots of the lot change, and only in their status. */
  function ReconciledSlots(slots: map<int, Slot>, sessions: map<int, Session>, lotId: int, overlapped: set<int>): (r: map<int, Slot>)
    ensures r.Keys == slots.Keys
    ensures forall id :: id in slots ==> r[id] == slots[id].(status := r[id].status)
    ensures forall id :: id in slots && !IsCandidate(slots[id], lotId) ==> r[id] == slots[id]
    ensures forall id :: id in slots && IsCandidate(slots[id], lotId) ==>
      r[id].status == Reconciled(slots[id].status, id in overlapped, HasOpenSession(sessions, id))
  {
    map id | id in slots ::
      if IsCandidate(slots[id], lotId)
      then slots[id].(status := Reconciled(slots[id].status, id in overlapped, HasOpenSession(sessions, id)))
      else slots[id]
  }

  // ---------------------------------------------------------------------
  // Phase 1: measuring

  /** Measuring one more vehicle adds exactly the measured slots it covers. */
  lemma CoveredStep(geo: Geometry, slots: map<int, Slot>, lotId: int, vehicles: seq<VehicleShape>, n: nat)
    requires n < |vehicles|
    ensures CoveredUpTo(geo, slots, lotId, vehicles, n + 1) ==
      CoveredUpTo(geo, slots, lotId, vehicles, n)
      + (if Usable(vehicles[n])
         then set id | id in slots && IsMeasured(slots[id], lotId) && Covers(geo, vehicles[n].value[0], SlotRing(slots[id]))
         else {})
  {
    var a := CoveredUpTo(geo, slots, lotId, vehicles, n + 1);
    var b := CoveredUpTo(geo, slots, lotId, vehicles, n);
    var c := if Usable(vehicles[n])
      then set id | id in slots && IsMeasured(slots[id], lotId) && Covers(geo, vehicles[n].value[0], SlotRing(slots[id]))
      else {};
    forall id | id in a
      ensures id in b + c
    {
      var i :| 0 <= i < n + 1 && Usable(vehicles[i]) && Covers(geo, vehicles[i].value[0], SlotRing(slots[id]));
      if i < n {
        assert CoveredBefore(geo, vehicles, n, slots[id]);
      }
    }
    forall id | id in b + c
      ensures id in a
    {
      if id in b {
        var i :| 0 <= i < n && Usable(vehicles[i]) && Covers(geo, vehicles[i].value[0], SlotRing(slots[id]));
        assert CoveredBefore(geo, vehicles, n + 1, slots[id]);
      } else {
        assert CoveredBefore(geo, vehicles, n + 1, slots[id]);
      }
    }
  }

  lemma NothingCoveredYet(geo: Geometry, slots: map<int, Slot>, lotId: int, vehicles: seq<VehicleShape>)
    ensures CoveredUpTo(geo, slots, lotId, vehicles, 0) == {}
  {
    forall id | id in CoveredUpTo(geo, slots, lotId, vehicles, 0)
      ensures false
    {
    }
  }

  /** The slots one vehicle ring covers: every candidate slot is visited,
      and a measured one whose polygon cannot be built aborts the pass. */
  method MeasureVehicle(geo: Geometry, slots: map<int, Slot>, lotId: int, ring: Ring) returns (r: Option<set<int>>)
    ensures r.None? <==> exists id :: id in slots && IsMeasured(slots[id], lotId) && !geo.buildsPolygon(SlotRing(slots[id]))
    ensures r.Some? ==> r.value == set id | id in slots && IsMeasured(slots[id], lotId) && Covers(geo, ring, SlotRing(slots[id]))
  {
    var remaining := set id | id in slots && IsCandidate(slots[id], lotId);
    var added: set<int> := {};
    while remaining != {}
      invariant forall id :: id in slots && IsCandidate(slots[id], lotId) && id !in remaining ==>
        !IsMeasured(slots[id], lotId) || geo.buildsPolygon(SlotRing(slots[id]))
      invariant forall id :: id in remaining ==> id in slots && IsCandidate(slots[id], lotId)
      invariant added == set id | id in slots && IsMeasured(slots[id], lotId) && id !in remaining
                                  && Covers(geo, ring, SlotRing(slots[id]))
      decreases |remaining|
    {
      Ids.Inhabited(remaining);
      var id :| id in remaining;
      remaining := remaining - {id};
      var slotRing := SlotRing(slots[id]);
      if |slotRing| < 3 {
        continue;
      }
      if !geo.buildsPolygon(slotRing) {
        return None;
      }
      if Covers(geo, ring, slotRing) {
        added := added + {id};
      }
    }
    r := Some(added);
  }

  /** Phase 1 of the pass: every usable vehicle against every measured slot.
      None when a polygon cannot be built; otherwise the overlapped slots. */
  method MeasureOverlaps(geo: Geometry, slots: map<int, Slot>, lotId: int, vehicles: seq<VehicleShape>)
    returns (r: Option<set<int>>)
    ensures r.None? <==> AbortsPass(geo, slots, lotId, vehicles)
    ensures r.Some? ==> r.value == OverlappedSlots(geo, slots, lotId, vehicles)
  {
    var occupied: set<int> := {};
    NothingCoveredYet(geo, slots, lotId, vehicles);
    var i := 0;
    while i < |vehicles|
      invariant 0 <= i <= |vehicles|
      invariant forall j :: 0 <= j < i && Usable(vehicles[j]) ==> geo.buildsPolygon(vehicles[j].value[0])
      invariant (exists j :: 0 <= j < i && Usable(vehicles[j])) ==>
        forall id :: id in slots && IsMeasured(slots[id], lotId) ==> geo.buildsPolygon(SlotRing(slots[id]))
      invariant occupied == CoveredUpTo(geo, slots, lotId, vehicles, i)
    {
      CoveredStep(geo, slots, lotId, vehicles, i);
      var v := vehicles[i];
      if v.None? || |v.value| == 0 || |v.value[0]| < 3 {
        i := i + 1;
        continue;
      }
      var ring := v.value[0];
      if !geo.buildsPolygon(ring) {
        return None;
      }
      var added := MeasureVehicle(geo, slots, lotId, ring);
      if added.None? {
        return None;
      }
      occupied := occupied + added.value;
      i := i + 1;
    }
    r := Some(occupied);
  }

  // ---------------------------------------------------------------------
  // The whole pass

  /** The slots whose status differs between two versions of the table. */
  function ChangedSlots(before: map<int, Slot>, after: map<int, Slot>): set<int> {
    set id | id in before && id in after && after[id].status != before[id].status
  }

  lemma ChangedStep(before: map<int, Slot>, after: map<int, Slot>, id: int, s: Slot)
    requires id in before && id in after && after[id] == before[id] && s.status != before[id].status
    ensures ChangedSlots(before, after[id := s]) == ChangedSlots(before, after) + {id}
  {
  }

  /** The status a slot of the table gets from a pass. */
  function NewStatus(slots: map<int, Slot>, sessions: map<int, Session>, lotId: int, overlapped: set<int>, id: int): SlotStatus
    requires id in slots
  {
    if IsCandidate(slots[id], lotId)
    then Reconciled(slots[id].status, id in overlapped, HasOpenSession(sessions, id))
    else slots[id].status
  }

  lemma ReconciledSlotsByStatus(slots: map<int, Slot>, sessions: map<int, Session>, lotId: int, overlapped: set<int>,
                                cur: map<int, Slot>)
    requires cur.Keys == slots.Keys
    requires forall id :: id in slots ==> cur[id] == slots[id].(status := NewStatus(slots, sessions, lotId, overlapped, id))
    ensures cur == ReconciledSlots(slots, sessions, lotId, overlapped)
  {
    var r := ReconciledSlots(slots, sessions, lotId, overlapped);
    forall id | id in slots
      ensures cur[id] == r[id]
    {
    }
    assert cur.Keys == r.Keys;
  }

  /** Phase 2 of the pass: every candidate slot of the lot gets its
      reconciled status, written in place, and exactly the slots whose
      status changes are saved. Nothing but slot statuses is written. */
  method ApplyStatuses(store: ParkingStore, lotId: int, overlapped: set<int>) returns (saved: set<int>)
    modifies store`slots
    ensures store.slots == ReconciledSlots(old(store.slots), old(store.sessions), lotId, overlapped)
    ensures saved == ChangedSlots(old(store.slots), store.slots)
  {
    var slots0 := store.slots;
    var sessions := store.sessions;
    var remaining := set id | id in slots0 && IsCandidate(slots0[id], lotId);
    saved := {};
    while remaining != {}
      invariant store.slots.Keys == slots0.Keys
      invariant forall id :: id in remaining ==> id in slots0 && IsCandidate(slots0[id], lotId) && store.slots[id] == slots0[id]
      invariant forall id :: id in slots0 && id !in remaining ==>
        store.slots[id] == slots0[id].(status := NewStatus(slots0, sessions, lotId, overlapped, id))
      invariant saved == ChangedSlots(slots0, store.slots)
      decreases |remaining|
    {
      Ids.Inhabited(remaining);
      var id :| id in remaining;
      remaining := remaining - {id};
      var slot := store.slots[id];
      if id in overlapped {
        if slot.status != Occupied {
          ChangedStep(slots0, store.slots, id, slot.(status := Occupied));
          store.slots := store.slots[id := slot.(status := Occupied)];
          saved := saved + {id};
        }
      } else if !HasOpenSession(sessions, id) && slot.status != Available {
        ChangedStep(slots0, store.slots, id, slot.(status := Available));
        store.slots := store.slots[id := slot.(status := Available)];
        saved := saved + {id};
      }
    }
    ReconciledSlotsByStatus(slots0, sessions, lotId, overlapped, store.slots);
  }

  /** The pass over a lot: phase 1 measures; if it completes, phase 2
      writes the reconciled statuses. A pass that throws writes nothing. */
  method MatchVehiclesToSlots(store: ParkingStore, vehicles: seq<VehicleShape>, lotId: int, geo: Geometry)
    returns (aborted: bool, saved: set<int>)
    modifies store`slots
    ensures aborted <==> old(AbortsPass(geo, store.slots, lotId, vehicles))
    ensures aborted ==> store.slots == old(store.slots) && saved == {}
    ensures !aborted ==>
      store.slots == ReconciledSlots(old(store.slots), old(store.sessions), lotId,
                                     old(OverlappedSlots(geo, store.slots, lotId, vehicles)))
    ensures saved == ChangedSlots(old(store.slots), store.slots)
  {
    var measured := MeasureOverlaps(geo, store.slots, lotId, vehicles);
    if measured.None? {
      return true, {};
    }
    aborted := false;
    saved := ApplyStatuses(store, lotId, measured.value);
  }

  // ---------------------------------------------------------------------
  // Properties of a pass

  /** Reconciling is idempotent: a slot already reconciled keeps its status. */
  lemma ReconciledIdempotent(status: SlotStatus, overlapped: bool, hasOpen: bool)
    ensures Reconciled(Reconciled(status, overlapped, hasOpen), overlapped, hasOpen) == Reconciled(status, overlapped, hasOpen)
  {
  }

  /** A pass changes statuses only: which slots are candidates or measured,
      and what covers them, is the same afterwards. */
  lemma {:induction false} PassKeepsOverlaps(geo: Geometry, slots: map<int, Slot>, sessions: map<int, Session>,
                                             lotId: int, vehicles: seq<VehicleShape>, overlapped: set<int>)
    ensures var after := ReconciledSlots(slots, sessions, lotId, overlapped);
      OverlappedSlots(geo, after, lotId, vehicles) == OverlappedSlots(geo, slots, lotId, vehicles)
      && AbortsPass(geo, after, lotId, vehicles) == AbortsPass(geo, slots, lotId, vehicles)
  {
    var after := ReconciledSlots(slots, sessions, lotId, overlapped);
    assert forall id :: id in slots ==> after[id].coordinates == slots[id].coordinates && after[id].lotId == slots[id].lotId;
    assert forall id :: id in slots && HasCoordinates(slots[id]) ==> SlotRing(after[id]) == SlotRing(slots[id]);
  }

  /** Running the same pass again with the same frame writes nothing. */
  lemma SecondPassWritesNothing(geo: Geometry, slots: map<int, Slot>, sessions: map<int, Session>,
                                lotId: int, vehicles: seq<VehicleShape>)
    ensures var ov := OverlappedSlots(geo, slots, lotId, vehicles);
      var once := ReconciledSlots(slots, sessions, lotId, ov);
      ReconciledSlots(once, sessions, lotId, OverlappedSlots(geo, once, lotId, vehicles)) == once
  {
    var ov := OverlappedSlots(geo, slots, lotId, vehicles);
    var once := ReconciledSlots(slots, sessions, lotId, ov);
    PassKeepsOverlaps(geo, slots, sessions, lotId, vehicles, ov);
    var twice := ReconciledSlots(once, sessions, lotId, ov);
    forall id | id in slots
      ensures twice[id] == once[id]
    {
      if IsCandidate(slots[id], lotId) {
        ReconciledIdempotent(slots[id].status, id in ov, HasOpenSession(sessions, id));
      }
    }
  }
}
