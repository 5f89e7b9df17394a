/**
 * The technician directory and availability ledger (`TechnicianManager`):
 * technicians by id, and per technician the bookings it holds, each a start
 * instant (seconds) mapped to a duration (minutes).
 */
module Availability {
  import opened Wrappers
  import opened Staff

  const SecondsPerMinute := 60

  /** Start instant -> duration in minutes. */
  type Bookings = map<int, int>

  /** The conflict test of `isTechnicianAvailable`, as written: the request
      starts inside the booking, or the booking starts inside the request. */
  predicate Conflicts(start: int, minutes: int, date: int, duration: int): (b: bool)
    ensures minutes > 0 && duration > 0 ==>
      (b <==> Overlap(start, start + minutes * SecondsPerMinute, date, date + duration * SecondsPerMinute))
    ensures minutes > 0 && date == start ==> b
  {
    (date >= start && date < start + minutes * SecondsPerMinute)
    || (start >= date && start < date + duration * SecondsPerMinute)
  }

  /** Half-open intervals `[a1, a2)` and `[b1, b2)` share an instant. */
  predicate Overlap(a1: int, a2: int, b1: int, b2: int) {
    a1 < b2 && b1 < a2
  }

  /** For positive durations the test is exactly half-open overlap, so
      intervals that merely touch do not conflict; it is symmetric for all durations. */
  lemma ConflictIsHalfOpenOverlap(start: int, minutes: int, date: int, duration: int)
    ensures Conflicts(start, minutes, date, duration) <==> Conflicts(date, duration, start, minutes)
    ensures minutes > 0 && duration > 0 ==>
      (Conflicts(start, minutes, date, duration) <==>
       Overlap(start, start + minutes * SecondsPerMinute, date, date + duration * SecondsPerMinute))
    ensures minutes > 0 ==> !Conflicts(start, minutes, start + minutes * SecondsPerMinute, duration)
  {
  }

  /** No booking of `b` conflicts with the request. */
  predicate Free(b: Bookings, date: int, duration: int) {
    forall start :: start in b ==> !Conflicts(start, b[start], date, duration)
  }

  /** Bookings are pairwise free of conflict. */
  ghost predicate Disjoint(b: Bookings) {
    forall s, t :: s in b && t in b && s != t ==> !Conflicts(s, b[s], t, b[t])
  }

  /** For positive durations, disjoint bookings occupy pairwise non-overlapping half-open intervals. */
  lemma {:induction false} DisjointMeansNoOverlap(b: Bookings, s: int, t: int)
    requires Disjoint(b) && s in b && t in b && s != t && b[s] > 0 && b[t] > 0
    ensures !Overlap(s, s + b[s] * SecondsPerMinute, t, t + b[t] * SecondsPerMinute)
  {
    ConflictIsHalfOpenOverlap(s, b[s], t, b[t]);
  }

  /** The bookings of a technician; none when it has no entry. */
  function BookingsOf(assignments: map<string, Bookings>, technicianId: string): Bookings {
    if technicianId in assignments then assignments[technicianId] else map[]
  }

  /** `isTechnicianAvailable`: a known technician none of whose bookings conflicts. */
  function Available(directory: set<string>, assignments: map<string, Bookings>,
                     technicianId: string, date: int, duration: int): (r: bool)
    ensures technicianId !in directory ==> !r
    ensures technicianId in directory && technicianId !in assignments ==> r
    ensures r ==> forall start :: start in BookingsOf(assignments, technicianId) ==>
      !Conflicts(start, BookingsOf(assignments, technicianId)[start], date, duration)
    ensures duration > 0 && (forall start :: start in BookingsOf(assignments, technicianId) ==>
        BookingsOf(assignments, technicianId)[start] > 0) ==>
      (r <==> technicianId in directory && forall start :: start in BookingsOf(assignments, technicianId) ==>
        !Overlap(start, start + BookingsOf(assignments, technicianId)[start] * SecondsPerMinute,
                 date, date + duration * SecondsPerMinute))
  {
    var b := BookingsOf(assignments, technicianId);
    assert forall start :: start in b && b[start] > 0 && duration > 0 ==>
      (Conflicts(start, b[start], date, duration) <==>
       Overlap(start, start + b[start] * SecondsPerMinute, date, date + duration * SecondsPerMinute)) by {
      forall start | start in b && b[start] > 0 && duration > 0 {
        ConflictIsHalfOpenOverlap(start, b[start], date, duration);
      }
    }
    technicianId in directory && Free(b, date, duration)
  }

  /** `assignments[technicianId][date] = duration`. */
  function Book(assignments: map<string, Bookings>, technicianId: string, date: int, duration: int)
    : (r: map<string, Bookings>)
    ensures r.Keys == assignments.Keys + {technicianId}
    ensures r[technicianId] == BookingsOf(assignments, technicianId)[date := duration]
    ensures forall t :: t in assignments && t != technicianId ==> r[t] == assignments[t]
  {
    assignments[technicianId := BookingsOf(assignments, technicianId)[date := duration]]
  }

  /** Whether `unassignTechnician` finds a booking that starts exactly at `date`. */
  predicate Unbookable(assignments: map<string, Bookings>, technicianId: string, date: int) {
    date in BookingsOf(assignments, technicianId)
  }

  /** `unassignTechnician`: drops the booking at `date`, and the technician's
      entry with it when no booking remains. */
  function Unbook(assignments: map<string, Bookings>, technicianId: string, date: int)
    : (r: map<string, Bookings>)
    ensures !Unbookable(assignments, technicianId, date) ==> r == assignments
    ensures Unbookable(assignments, technicianId, date) ==>
      BookingsOf(r, technicianId) == BookingsOf(assignments, technicianId) - {date}
    ensures forall t :: t != technicianId ==> BookingsOf(r, t) == BookingsOf(assignments, t)
    ensures r.Keys <= assignments.Keys
    ensures (forall t :: t in assignments ==> assignments[t] != map[]) ==>
      forall t :: t in r ==> r[t] != map[]
  {
    if !Unbookable(assignments, technicianId, date) then assignments
    else
      var rest := assignments[technicianId] - {date};
      if rest == map[] then assignments - {technicianId}
      else assignments[technicianId := rest]
  }

  /** The ledger invariant, over the directory and the bookings. */
  ghost predicate LedgerInvariant(technicians: map<string, TechnicianInfo>, assignments: map<string, Bookings>) {
    && (forall t :: t in technicians ==> technicians[t].id == t)
    && assignments.Keys <= technicians.Keys
    && (forall t {:trigger Sound(assignments, t)} :: Sound(assignments, t))
  }

  /** A technician with an entry has at least one booking, and its bookings
      are pairwise disjoint. (The trigger of its quantifier in
      `LedgerInvariant`: an instance is drawn only where a proof names it.) */
  ghost predicate Sound(assignments: map<string, Bookings>, t: string) {
    t in assignments ==> assignments[t] != map[] && Disjoint(assignments[t])
  }

  /** A booking admitted by the availability test keeps every technician's bookings disjoint. */
  lemma {:induction false} BookPreservesInvariant(technicians: map<string, TechnicianInfo>,
      assignments: map<string, Bookings>, technicianId: string, date: int, duration: int)
    requires LedgerInvariant(technicians, assignments)
    requires Available(technicians.Keys, assignments, technicianId, date, duration)
    ensures LedgerInvariant(technicians, Book(assignments, technicianId, date, duration))
  {
    var b := BookingsOf(assignments, technicianId);
    var nb := b[date := duration];
    assert Sound(assignments, technicianId);
    assert Disjoint(b) by {
      if technicianId !in assignments {
        assert b == map[];
      }
    }
    forall s, t | s in nb && t in nb && s != t
      ensures !Conflicts(s, nb[s], t, nb[t])
    {
      if s == date {
        ConflictIsHalfOpenOverlap(t, b[t], date, duration);
      } else if t != date {
        assert nb[s] == b[s] && nb[t] == b[t];
      }
    }
    assert Disjoint(nb);
    var r := Book(assignments, technicianId, date, duration);
    forall t
      ensures Sound(r, t)
    {
      if t == technicianId {
        assert r[t] == nb && date in nb;
      } else {
        assert Sound(assignments, t);
      }
    }
  }

  /** Dropping a technician together with its bookings keeps the invariant. */
  lemma {:induction false} DropPreservesInvariant(technicians: map<string, TechnicianInfo>,
      assignments: map<string, Bookings>, technicianId: string)
    requires LedgerInvariant(technicians, assignments)
    ensures LedgerInvariant(technicians - {technicianId}, assignments - {technicianId})
  {
    forall t
      ensures Sound(assignments - {technicianId}, t)
    {
      assert Sound(assignments, t);
    }
  }

  /** Releasing one booking keeps the invariant: what remains of a
      technician's bookings is non-empty and still disjoint. */
  lemma {:induction false} UnbookPreservesInvariant(technicians: map<string, TechnicianInfo>,
      assignments: map<string, Bookings>, technicianId: string, date: int)
    requires LedgerInvariant(technicians, assignments)
    ensures LedgerInvariant(technicians, Unbook(assignments, technicianId, date))
  {
    var r := Unbook(assignments, technicianId, date);
    forall t
      ensures Sound(r, t)
    {
      assert Sound(assignments, t);
      if t in r && t == technicianId && Unbookable(assignments, technicianId, date) {
        assert r[t] == assignments[t] - {date};
      } else if t in r {
        assert BookingsOf(r, t) == BookingsOf(assignments, t);
      }
    }
  }

  /** Releasing bookings never makes a technician busier: availability survives an unassignment. */
  lemma {:induction false} UnbookKeepsAvailable(directory: set<string>, assignments: map<string, Bookings>,
      released: string, at: int, technicianId: string, date: int, duration: int)
    requires Available(directory, assignments, technicianId, date, duration)
    ensures Available(directory, Unbook(assignments, released, at), technicianId, date, duration)
  {
    var before := BookingsOf(assignments, technicianId);
    var after := BookingsOf(Unbook(assignments, released, at), technicianId);
    assert forall s :: s in after ==> s in before && after[s] == before[s];
  }

  /** A technician booked for a positive duration at `date` is not available
      again for a positive duration at the same instant. */
  lemma DoubleBookingRejected(directory: set<string>, assignments: map<string, Bookings>,
      technicianId: string, date: int, duration: int, again: int)
    requires date in BookingsOf(assignments, technicianId) && BookingsOf(assignments, technicianId)[date] > 0
    ensures !Available(directory, assignments, technicianId, date, again)
  {
    assert Conflicts(date, BookingsOf(assignments, technicianId)[date], date, again);
  }

  /** The `specialty` filter of `findAvailableTechnicians`: empty matches everyone. */
  predicate MatchesSpecialty(info: TechnicianInfo, specialty: string) {
    specialty == "" || info.specialty == specialty
  }

  /** The `std::string` order: lexicographic by character code, a proper prefix first. */
  predicate LexLess(a: string, b: string)
    decreases |a|
  {
    |b| > 0 && (|a| == 0 || a[0] < b[0] || (a[0] == b[0] && LexLess(a[1..], b[1..])))
  }

  lemma {:induction false} LexLessIrreflexive(a: string)
    ensures !LexLess(a, a)
    decreases |a|
  {
    if |a| > 0 {
      LexLessIrreflexive(a[1..]);
    }
  }

  lemma {:induction false} LexLessTransitive(a: string, b: string, c: string)
    requires LexLess(a, b) && LexLess(b, c)
    ensures LexLess(a, c)
    decreases |a|
  {
    if |a| > 0 && a[0] == b[0] && b[0] == c[0] {
      LexLessTransitive(a[1..], b[1..], c[1..]);
    }
  }

  lemma {:induction false} LexLessTotal(a: string, b: string)
    requires a != b
    ensures LexLess(a, b) || LexLess(b, a)
    decreases |a|
  {
    if |a| > 0 && |b| > 0 && a[0] == b[0] {
      assert a == [a[0]] + a[1..] && b == [b[0]] + b[1..];
      LexLessTotal(a[1..], b[1..]);
    }
  }

  /** Strictly ascending in `LexLess`, hence free of duplicates. */
  predicate Ascending(ids: seq<string>) {
    forall i, j :: 0 <= i < j < |ids| ==> LexLess(ids[i], ids[j])
  }

  /** The first key of a non-empty set of ids, as a `std::map` visits them. */
  method Least(ids: set<string>) returns (m: string)
    requires ids != {}
    ensures m in ids
    ensures forall x :: x in ids && x != m ==> LexLess(m, x)
  {
    if forall x :: x !in ids {
      assert false;
    }
    m :| m in ids;
    var rest := ids - {m};
    while rest != {}
      invariant rest <= ids && m in ids && m !in rest
      invariant forall x :: x in ids - rest && x != m ==> LexLess(m, x)
      decreases |rest|
    {
      if forall x :: x !in rest {
        assert false;
      }
      var x :| x in rest;
      if LexLess(x, m) {
        forall y | y in ids - rest && y != x
          ensures LexLess(x, y)
        {
          if y != m {
            LexLessTransitive(x, m, y);
          }
        }
        m := x;
      } else {
        LexLessTotal(x, m);
      }
      rest := rest - {x};
    }
  }

  class TechnicianManager {
    var technicians: map<string, TechnicianInfo>
    var assignments: map<string, Bookings>

    ghost predicate Valid()
      reads this
    {
      LedgerInvariant(technicians, assignments)
    }

    constructor ()
      ensures Valid() && technicians == map[] && assignments == map[]
    {
      technicians, assignments := map[], map[];
    }

    /** Refuses an id already in the directory; otherwise stores the technician under its id. */
    method AddTechnician(technician: TechnicianInfo) returns (ok: bool)
      requires Valid()
      modifies this
      ensures Valid()
      ensures ok <==> technician.id !in old(technicians)
      ensures technicians == if ok then old(technicians)[technician.id := technician] else old(technicians)
      ensures assignments == old(assignments)
    {
      if technician.id in technicians {
        return false;
      }
      technicians := technicians[technician.id := technician];
      ok := true;
    }

    /** Refuses an unknown id; otherwise drops the technician and all its bookings. */
    method RemoveTechnician(technicianId: string) returns (ok: bool)
      requires Valid()
      modifies this
      ensures Valid()
      ensures ok <==> technicianId in old(technicians)
      ensures technicians == old(technicians) - {technicianId}
      ensures assignments == if ok then old(assignments) - {technicianId} else old(assignments)
    {
      if technicianId !in technicians {
        return false;
      }
      DropPreservesInvariant(technicians, assignments, technicianId);
      technicians := technicians - {technicianId};
      assignments := assignments - {technicianId};
      ok := true;
    }

    /** The stored technician, or `None` for an unknown id. */
    function GetTechnician(technicianId: string): (r: Option<TechnicianInfo>)
      reads this
      ensures r.Some? <==> technicianId in technicians
      ensures r.Some? ==> r.value == technicians[technicianId]
    {
      if technicianId in technicians then Some(technicians[technicianId]) else None
    }

    /** Scans the technician's bookings for one that conflicts with the request. */
    method IsTechnicianAvailable(technicianId: string, date: int, duration: int) returns (available: bool)
      ensures available == Available(technicians.Keys, assignments, technicianId, date, duration)
    {
      if technicianId !in technicians {
        return false;
      }
      if technicianId !in assignments {
        return true;
      }
      var techAssignments := assignments[technicianId];
      var remaining := techAssignments.Keys;
      while remaining != {}
        invariant remaining <= techAssignments.Keys
        invariant forall start :: start in techAssignments && start !in remaining ==>
          !Conflicts(start, techAssignments[start], date, duration)
        decreases |remaining|
      {
        if forall s :: s !in remaining {
          assert false;
        }
        var assignedDate :| assignedDate in remaining;
        var assignedDuration := techAssignments[assignedDate];
        var assignedEnd := assignedDate + assignedDuration * SecondsPerMinute;
        var requestedEnd := date + duration * SecondsPerMinute;
        if (date >= assignedDate && date < assignedEnd) || (assignedDate >= date && assignedDate < requestedEnd) {
          return false;
        }
        remaining := remaining - {assignedDate};
      }
      available := true;
    }

    /** Records the booking when the technician is available, else refuses with no change. */
    method AssignTechnician(technicianId: string, date: int, duration: int) returns (ok: bool)
      requires Valid()
      modifies this
      ensures Valid()
      ensures ok == Available(old(technicians).Keys, old(assignments), technicianId, date, duration)
      ensures assignments == if ok then Book(old(assignments), technicianId, date, duration) else old(assignments)
      ensures technicians == old(technicians)
    {
      ok := IsTechnicianAvailable(technicianId, date, duration);
      if !ok {
        return;
      }
      BookPreservesInvariant(technicians, assignments, technicianId, date, duration);
      var bookings := if technicianId in assignments then assignments[technicianId] else map[];
      assignments := assignments[technicianId := bookings[date := duration]];
    }

    /** Drops the booking that starts exactly at `date`, if there is one. */
    method UnassignTechnician(technicianId: string, date: int) returns (ok: bool)
      requires Valid()
      modifies this
      ensures Valid()
      ensures ok == Unbookable(old(assignments), technicianId, date)
      ensures assignments == Unbook(old(assignments), technicianId, date)
      ensures technicians == old(technicians)
    {
      if technicianId !in assignments {
        return false;
      }
      var techAssignments := assignments[technicianId];
      if date !in techAssignments {
        return false;
      }
      UnbookPreservesInvariant(technicians, assignments, technicianId, date);
      techAssignments := techAssignments - {date};
      if techAssignments == map[] {
        assignments := assignments - {technicianId};
      } else {
        assignments := assignments[technicianId := techAssignments];
      }
      ok := true;
    }

    /** The ids, in directory key order, of the technicians that match the
        specialty (any, when it is empty) and are available for the slot. */
    method FindAvailableTechnicians(date: int, duration: int, specialty: string) returns (ids: seq<string>)
      ensures Ascending(ids)
      ensures forall t :: t in ids <==>
        t in technicians && MatchesSpecialty(technicians[t], specialty)
        && Available(technicians.Keys, assignments, t, date, duration)
    {
      ids := [];
      var remaining := technicians.Keys;
      while remaining != {}
        invariant remaining <= technicians.Keys
        invariant Ascending(ids)
        invariant forall i, r :: 0 <= i < |ids| && r in remaining ==> LexLess(ids[i], r)
        invariant forall t :: t in ids <==>
          t in technicians && t !in remaining && MatchesSpecialty(technicians[t], specialty)
          && Available(technicians.Keys, assignments, t, date, duration)
        decreases |remaining|
      {
        var techId := Least(remaining);
        var tech := technicians[techId];
        remaining := remaining - {techId};
        if specialty != "" && tech.specialty != specialty {
          continue;
        }
        var available := IsTechnicianAvailable(techId, date, duration);
        if available {
          ids := ids + [techId];
        }
      }
    }
  }
}
