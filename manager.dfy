/**
 * The orchestration facade (`InterventionManager`): the stored
 * interventions by id, the id counter, the scheduling ledger, the
 * technician ledger, the factory registry and the registered observers.
 * Every successful operation fans one event out to the interested observers.
 */
module Facade {
  import opened Wrappers
  import Calendar
  import opened Records
  import opened Planner
  import opened Availability
  import opened Staff
  import opened Decorators
  import opened Factories
  import opened Observers

  /** The update frequency, in minutes, that `decorateWithGPS` gives a new GPS layer. */
  const GpsDecorationFrequency := 15

  /** No id occurs twice in a bucket. */
  ghost predicate NoRepeats(s: seq<int>) {
    forall i, j :: 0 <= i < j < |s| ==> s[i] != s[j]
  }

  // The four facts below are stated one element at a time; `Consistent`
  // quantifies over each with the fact itself as the trigger, so a proof
  // draws an instance only for the ids and days it names.

  /** A stored id is positive, below the counter, the stored record's own id,
      and its layers are well formed. */
  ghost predicate Stored(records: map<int, Decorated>, nextId: int, id: int) {
    id in records ==> 1 <= id < nextId && records[id].base.id == id && ValidDecorated(records[id])
  }

  /** A stored id is listed under the day of its record's date. */
  ghost predicate Listed(records: map<int, Decorated>, ledger: Ledger, id: int) {
    id in records ==> id in Bucket(ledger, Calendar.Day(records[id].base.date))
  }

  /** The `k`-th id listed under `day` is stored, with a date on that day. */
  ghost predicate Entry(records: map<int, Decorated>, ledger: Ledger, day: int, k: int) {
    day in ledger && 0 <= k < |ledger[day]| ==>
      ledger[day][k] in records && Calendar.Day(records[ledger[day][k]].base.date) == day
  }

  /** The bucket of `day` lists no id twice. */
  ghost predicate Distinct(ledger: Ledger, day: int) {
    day in ledger ==> NoRepeats(ledger[day])
  }

  /**
   * How the stored interventions and the ledger agree: ids are below the
   * counter and match the stored record's id; each stored id is listed under
   * the day of its record's date; each listed id is stored, on that day; no
   * bucket lists an id twice.
   */
  ghost predicate Consistent(records: map<int, Decorated>, ledger: Ledger, nextId: int) {
    && nextId >= 1
    && (forall id {:trigger Stored(records, nextId, id)} :: Stored(records, nextId, id))
    && (forall id {:trigger Listed(records, ledger, id)} :: Listed(records, ledger, id))
    && (forall day, k {:trigger Entry(records, ledger, day, k)} :: Entry(records, ledger, day, k))
    && (forall day {:trigger Distinct(ledger, day)} :: Distinct(ledger, day))
  }

  /** Advancing the counter keeps the agreement. */
  lemma ConsistentUnderHigherCounter(records: map<int, Decorated>, ledger: Ledger, nextId: int, higher: int)
    requires Consistent(records, ledger, nextId) && higher >= nextId
    ensures Consistent(records, ledger, higher)
  {
    forall id
      ensures Stored(records, higher, id)
    {
      assert Stored(records, nextId, id);
    }
  }

  /** Every stored id lies below the counter, so the counter's value is not stored. */
  lemma CounterIsFresh(records: map<int, Decorated>, ledger: Ledger, nextId: int)
    requires Consistent(records, ledger, nextId)
    ensures nextId !in records
  {
    assert Stored(records, nextId, nextId);
  }

  /** Listing an id that is not stored, on a day with room, and storing it keeps the agreement. */
  lemma {:induction false} InsertPreserves(records: map<int, Decorated>, ledger: Ledger, nextId: int, d: Decorated)
    requires Consistent(records, ledger, nextId)
    requires d.base.id !in records && 1 <= d.base.id < nextId && ValidDecorated(d)
    requires SlotAvailable(ledger, d.base.date)
    ensures Consistent(records[d.base.id := d], Schedule(ledger, d.base.id, d.base.date), nextId)
  {
    var id, day := d.base.id, Calendar.Day(d.base.date);
    var records', ledger' := records[id := d], Schedule(ledger, id, d.base.date);
    var before := Bucket(ledger, day);
    assert Bucket(ledger', day) == before + [id];
    assert ledger'[day][|before|] == id;
    assert id !in before by {
      forall k | 0 <= k < |before|
        ensures before[k] != id
      {
        assert Entry(records, ledger, day, k);
      }
    }
    forall x
      ensures Stored(records', nextId, x)
    {
      assert Stored(records, nextId, x);
    }
    forall x
      ensures Listed(records', ledger', x)
    {
      if x != id && x in records' {
        assert Listed(records, ledger, x);
        if Calendar.Day(records[x].base.date) == day {
          var k :| 0 <= k < |before| && before[k] == x;
          assert ledger'[day][k] == x;
        }
      }
    }
    forall e, k
      ensures Entry(records', ledger', e, k)
    {
      if e == day {
        if 0 <= k < |before| {
          assert ledger'[e][k] == before[k];
          assert Entry(records, ledger, e, k);
        }
      } else if e in ledger' {
        assert ledger'[e] == ledger[e];
        assert Entry(records, ledger, e, k);
      }
    }
    forall e
      ensures Distinct(ledger', e)
    {
      assert Distinct(ledger, e);
      if e != day && e in ledger' {
        assert ledger'[e] == ledger[e];
      }
    }
  }

  /** Dropping position `i` from a sequence without repeats keeps every
      other element, each once, and loses the dropped one. */
  lemma {:induction false} DropAtKeepsOthers(s: seq<int>, i: nat)
    requires NoRepeats(s) && i < |s|
    ensures forall x :: x in s[..i] + s[i + 1..] <==> x in s && x != s[i]
    ensures NoRepeats(s[..i] + s[i + 1..])
  {
    var r := s[..i] + s[i + 1..];
    assert forall k :: 0 <= k < |r| ==> r[k] == (if k < i then s[k] else s[k + 1]);
    forall x | x in s && x != s[i]
      ensures x in r
    {
      var k :| 0 <= k < |s| && s[k] == x;
      if k < i {
        assert r[k] == x;
      } else {
        assert r[k - 1] == x;
      }
    }
    forall x | x in r
      ensures x != s[i]
    {
      var k :| 0 <= k < |r| && r[k] == x;
      var k' := if k < i then k else k + 1;
      assert x == s[k'] && k' != i;
    }
    forall a, b | 0 <= a < b < |r|
      ensures r[a] != r[b]
    {
      var a' := if a < i then a else a + 1;
      var b' := if b < i then b else b + 1;
      assert r[a] == s[a'] && r[b] == s[b'] && a' < b';
    }
  }

  /** Erasing a listed id from a bucket without repeats keeps every other id, each once. */
  lemma {:induction false} EraseFromBucket(s: seq<int>, id: int)
    requires NoRepeats(s) && id in s
    ensures forall x :: x in EraseFirst(s, id) <==> x in s && x != id
    ensures NoRepeats(EraseFirst(s, id))
  {
    var i :| 0 <= i < |s| && s[i] == id;
    EraseFirstSkips(s, id, i);
    assert s[i..] == [id] + s[i + 1..];
    DropAtKeepsOthers(s, i);
  }

  /** The planner always finds a stored id, and removing it together with its
      record keeps the agreement. */
  lemma {:induction false} DeletePreserves(records: map<int, Decorated>, ledger: Ledger, nextId: int, id: int)
    requires Consistent(records, ledger, nextId) && id in records
    ensures Removable(ledger, id, records[id].base.date)
    ensures Consistent(records - {id}, Remove(ledger, id, records[id].base.date), nextId)
  {
    var date := records[id].base.date;
    var day := Calendar.Day(date);
    var records', ledger' := records - {id}, Remove(ledger, id, date);
    assert Listed(records, ledger, id);
    assert Distinct(ledger, day);
    EraseFromBucket(ledger[day], id);
    var r := EraseFirst(ledger[day], id);
    assert Bucket(ledger', day) == r;
    forall x
      ensures Stored(records', nextId, x)
    {
      assert Stored(records, nextId, x);
    }
    forall x
      ensures Listed(records', ledger', x)
    {
      assert Listed(records, ledger, x);
    }
    forall e, k
      ensures Entry(records', ledger', e, k)
    {
      if e == day {
        if e in ledger' && 0 <= k < |ledger'[e]| {
          var x := ledger'[e][k];
          assert x in r;
          var j :| 0 <= j < |ledger[day]| && ledger[day][j] == x;
          assert Entry(records, ledger, day, j);
        }
      } else if e in ledger' {
        assert Bucket(ledger', e) == Bucket(ledger, e);
        assert Entry(records, ledger, e, k);
      }
    }
    forall e
      ensures Distinct(ledger', e)
    {
      assert Distinct(ledger, e);
      if e != day && e in ledger' {
        assert Bucket(ledger', e) == Bucket(ledger, e);
      }
    }
  }

  /** A successful reschedule, with the record's date moved to the new day,
      keeps the agreement. */
  lemma {:induction false} ReschedulePreserves(records: map<int, Decorated>, ledger: Ledger, nextId: int,
      id: int, newDate: int, d: Decorated)
    requires Consistent(records, ledger, nextId) && id in records
    requires RescheduleSucceeds(ledger, id, records[id].base.date, newDate)
    requires d.base.id == id && d.base.date == newDate && ValidDecorated(d)
    ensures Consistent(records[id := d], Reschedule(ledger, id, records[id].base.date, newDate), nextId)
  {
    var oldDate := records[id].base.date;
    assert Stored(records, nextId, id);
    DeletePreserves(records, ledger, nextId, id);
    var removed := Remove(ledger, id, oldDate);
    InsertPreserves(records - {id}, removed, nextId, d);
    assert (records - {id})[id := d] == records[id := d];
  }

  /** Rewriting a stored value without touching its id or date keeps the agreement. */
  lemma {:induction false} RewritePreserves(records: map<int, Decorated>, ledger: Ledger, nextId: int,
      id: int, d: Decorated)
    requires Consistent(records, ledger, nextId) && id in records
    requires d.base.id == id && d.base.date == records[id].base.date && ValidDecorated(d)
    ensures Consistent(records[id := d], ledger, nextId)
  {
    var records' := records[id := d];
    forall x
      ensures Stored(records', nextId, x)
    {
      assert Stored(records, nextId, x);
    }
    forall x
      ensures Listed(records', ledger, x)
    {
      assert Listed(records, ledger, x);
    }
    forall e, k
      ensures Entry(records', ledger, e, k)
    {
      assert Entry(records, ledger, e, k);
    }
  }

  /** A stored value is well formed. */
  lemma StoredIsValid(records: map<int, Decorated>, ledger: Ledger, nextId: int, id: int)
    requires Consistent(records, ledger, nextId) && id in records
    ensures ValidDecorated(records[id]) && records[id].base.id == id
  {
    assert Stored(records, nextId, id);
  }

  /** The fields `modifyIntervention` writes before rescheduling: an empty
      location or a zero duration keeps the old value. */
  function Kept(r: Record, location: string, duration: int): (r': Record)
    ensures r'.id == r.id && r'.date == r.date && r'.variant == r.variant
    ensures r'.location == (if location == "" then r.location else location)
    ensures r'.duration == (if duration == 0 then r.duration else duration)
    ensures r'.technicianId == r.technicianId && r'.status == r.status && r'.comments == r.comments
  {
    var withLocation := if location == "" then r else Apply(r, SetLocation(location));
    if duration != 0 && duration != r.duration then Apply(withLocation, SetDuration(duration)) else withLocation
  }

  /** A non-zero date or duration that differs from the stored one asks for a reschedule. */
  predicate NeedsRescheduling(r: Record, date: int, duration: int): (b: bool)
    ensures b <==> TargetDate(r, date) != r.date || TargetDuration(r, duration) != r.duration
  {
    (date != 0 && date != r.date) || (duration != 0 && duration != r.duration)
  }

  /** The date a modification asks for: 0 means "keep the stored date". */
  function TargetDate(r: Record, date: int): (t: int)
    ensures t == date || t == r.date
    ensures date != 0 ==> t == date
    ensures t != r.date ==> date != 0
  {
    if date != 0 then date else r.date
  }

  /** The duration a modification asks for: 0 means "keep the stored duration". */
  function TargetDuration(r: Record, duration: int): (t: int)
    ensures t == duration || t == r.duration
    ensures duration != 0 ==> t == duration
    ensures t != r.duration ==> duration != 0
  {
    if duration != 0 then duration else r.duration
  }

  /** Moving a technician's booking: the old one is released, then the new one
      is booked if the technician is free for it (the result is not checked). */
  function Rebook(directory: set<string>, assignments: map<string, Bookings>, technicianId: string,
                  oldStart: int, newStart: int, newDuration: int): (r: map<string, Bookings>)
    ensures Available(directory, Unbook(assignments, technicianId, oldStart), technicianId, newStart, newDuration) ==>
      newStart in BookingsOf(r, technicianId) && BookingsOf(r, technicianId)[newStart] == newDuration
    ensures !Available(directory, Unbook(assignments, technicianId, oldStart), technicianId, newStart, newDuration) ==>
      r == Unbook(assignments, technicianId, oldStart)
    ensures Available(directory, Unbook(assignments, technicianId, oldStart), technicianId, newStart, newDuration) ==>
      BookingsOf(r, technicianId) == (BookingsOf(assignments, technicianId) - {oldStart})[newStart := newDuration]
    ensures forall t :: t != technicianId ==> BookingsOf(r, t) == BookingsOf(assignments, t)
  {
    var released := Unbook(assignments, technicianId, oldStart);
    if Available(directory, released, technicianId, newStart, newDuration)
    then Book(released, technicianId, newStart, newDuration)
    else released
  }

  /** The bookings after `assignTechnician`: the current technician's booking
      at the date released, then the new technician booked. */
  function Reassign(assignments: map<string, Bookings>, current: string, technicianId: string,
                    date: int, duration: int): (r: map<string, Bookings>)
    ensures date in BookingsOf(r, technicianId) && BookingsOf(r, technicianId)[date] == duration
    ensures current == "" ==> r == Book(assignments, technicianId, date, duration)
    ensures BookingsOf(r, technicianId) == BookingsOf(assignments, technicianId)[date := duration]
    ensures current != "" && current != technicianId ==> date !in BookingsOf(r, current)
    ensures current != "" && current != technicianId ==>
      BookingsOf(r, current) == BookingsOf(assignments, current) - {date}
    ensures forall t :: t != current && t != technicianId ==> BookingsOf(r, t) == BookingsOf(assignments, t)
  {
    var released := if current == "" then assignments else Unbook(assignments, current, date);
    Book(released, technicianId, date, duration)
  }

  /** The stored records of `ids`, in their order, skipping ids that are not stored. */
  function Present(records: map<int, Decorated>, ids: seq<int>): (r: seq<Record>)
    ensures |r| <= |ids|
  {
    if |ids| == 0 then []
    else
      var last := ids[|ids| - 1];
      Present(records, ids[..|ids| - 1]) + (if last in records then [records[last].base] else [])
  }

  /** When every id is stored, nothing is skipped: the k-th record is the k-th id's. */
  lemma {:induction false} PresentAll(records: map<int, Decorated>, ids: seq<int>)
    requires forall k :: 0 <= k < |ids| ==> ids[k] in records
    ensures |Present(records, ids)| == |ids|
    ensures forall k :: 0 <= k < |ids| ==> Present(records, ids)[k] == records[ids[k]].base
    decreases |ids|
  {
    if |ids| > 0 {
      PresentAll(records, ids[..|ids| - 1]);
    }
  }

  /** Every id listed under a day is stored, with a date on that day. */
  lemma BucketIsStored(records: map<int, Decorated>, ledger: Ledger, nextId: int, day: int)
    requires Consistent(records, ledger, nextId)
    ensures forall k :: 0 <= k < |Bucket(ledger, day)| ==>
      Bucket(ledger, day)[k] in records && Calendar.Day(records[Bucket(ledger, day)[k]].base.date) == day
  {
    forall k | 0 <= k < |Bucket(ledger, day)|
      ensures Bucket(ledger, day)[k] in records && Calendar.Day(records[Bucket(ledger, day)[k]].base.date) == day
    {
      assert Entry(records, ledger, day, k);
    }
  }

  /** What a `dynamic_cast` of the stored `unique_ptr` to a GPS decorator finds: the outermost layer's GPS state. */
  function OutermostGps(d: Decorated): (g: Option<GpsState>)
    ensures g.Some? <==> d.layers != [] && d.layers[|d.layers| - 1].GpsLayer?
    ensures g.Some? ==> g.value == d.layers[|d.layers| - 1].gps
  {
    match Outermost(d)
    case Some(GpsLayer(gps)) => Some(gps)
    case _ => None
  }

  /** The same for an attachments decorator: the outermost layer's attachment list. */
  function OutermostAttachments(d: Decorated): (a: Option<seq<Attachment>>)
    ensures a.Some? <==> d.layers != [] && d.layers[|d.layers| - 1].AttachmentsLayer?
    ensures a.Some? ==> a.value == d.layers[|d.layers| - 1].attachments
  {
    match Outermost(d)
    case Some(AttachmentsLayer(attachments)) => Some(attachments)
    case _ => None
  }

  class InterventionManager {
    const planner: InterventionPlanner
    const technicianManager: TechnicianManager
    const registry: InterventionFactoryRegistry
    var interventions: map<int, Decorated>
    var observers: seq<Registration>
    var nextInterventionId: int
    /** What the observers' `notify` received, oldest first. */
    var delivered: seq<Delivery>

    ghost predicate Valid()
      reads this`interventions, this`nextInterventionId, planner, technicianManager
    {
      && planner.Valid()
      && technicianManager.Valid()
      && Consistent(interventions, planner.dailyInterventions, nextInterventionId)
    }

    /** A manager over the given registry (the process-wide single instance in the source). */
    constructor (registry: InterventionFactoryRegistry)
      ensures Valid()
      ensures this.registry == registry && fresh(planner) && fresh(technicianManager)
      ensures interventions == map[] && observers == [] && nextInterventionId == 1 && delivered == []
      ensures planner.dailyInterventions == map[]
      ensures technicianManager.technicians == map[] && technicianManager.assignments == map[]
    {
      this.registry := registry;
      planner := new InterventionPlanner();
      technicianManager := new TechnicianManager();
      interventions := map[];
      observers := [];
      nextInterventionId := 1;
      delivered := [];
    }

    method AddObserver(registration: Registration)
      modifies this`observers
      ensures observers == old(observers) + [registration]
    {
      observers := observers + [registration];
    }

    /** `std::remove_if` on the handle, then `erase`. */
    method RemoveObserver(handle: int)
      modifies this`observers
      ensures observers == WithoutHandle(old(observers), handle)
    {
      var kept := [];
      for i := 0 to |observers|
        invariant kept == WithoutHandle(observers[..i], handle)
      {
        assert observers[..i + 1][..i] == observers[..i];
        if observers[i].handle != handle {
          kept := kept + [observers[i]];
        }
      }
      assert observers[..|observers|] == observers;
      observers := kept;
    }

    /** Delivers the event to each interested observer, in registration order. */
    method NotifyObservers(eventType: string)
      modifies this`delivered
      ensures delivered == old(delivered) + Fanout(observers, eventType)
    {
      for i := 0 to |observers|
        invariant delivered == old(delivered) + Fanout(observers[..i], eventType)
      {
        assert observers[..i + 1][..i] == observers[..i];
        if IsInterestedIn(observers[i].observer, eventType) {
          delivered := delivered + [Delivery(observers[i].handle, eventType)];
        }
      }
      assert observers[..|observers|] == observers;
    }

    method AddTechnician(technician: TechnicianInfo) returns (ok: bool)
      requires Valid()
      modifies this`delivered, technicianManager
      ensures Valid()
      ensures ok <==> technician.id !in old(technicianManager.technicians)
      ensures technicianManager.technicians ==
        if ok then old(technicianManager.technicians)[technician.id := technician] else old(technicianManager.technicians)
      ensures technicianManager.assignments == old(technicianManager.assignments)
      ensures delivered == old(delivered) + if ok then Fanout(observers, "technician_added") else []
    {
      ok := technicianManager.AddTechnician(technician);
      if ok {
        NotifyObservers("technician_added");
      }
    }

    /**
     * -1 for an unregistered type (the counter untouched) or a full day (the
     * counter advanced, nothing stored); otherwise the counter's value, the
     * new record stored undecorated and listed at the end of its day.
     */
    method CreateIntervention(typeName: string, location: string, date: int, duration: int) returns (id: int)
      requires Valid()
      modifies this, planner
      ensures Valid()
      ensures typeName !in registry.factories ==>
        && id == -1 && nextInterventionId == old(nextInterventionId)
        && interventions == old(interventions) && delivered == old(delivered)
      ensures typeName in registry.factories ==> nextInterventionId == old(nextInterventionId) + 1
      ensures typeName in registry.factories && !SlotAvailable(old(planner.dailyInterventions), date) ==>
        && id == -1 && interventions == old(interventions) && delivered == old(delivered)
      ensures typeName in registry.factories && SlotAvailable(old(planner.dailyInterventions), date) ==>
        && id == old(nextInterventionId) && id !in old(interventions)
        && interventions == old(interventions)[id :=
             Plain(Create(registry.factories[typeName], location, date, duration).(id := id))]
        && delivered == old(delivered) + Fanout(observers, "creation")
      ensures planner.dailyInterventions ==
        if id == -1 then old(planner.dailyInterventions) else Schedule(old(planner.dailyInterventions), id, date)
      ensures observers == old(observers)
    {
      var created := registry.CreateIntervention(typeName, location, date, duration);
      if created.None? {
        return -1;
      }
      id := nextInterventionId;
      CounterIsFresh(interventions, planner.dailyInterventions, id);
      nextInterventionId := nextInterventionId + 1;
      ConsistentUnderHigherCounter(interventions, planner.dailyInterventions, id, nextInterventionId);
      var rec := created.value.(id := id);
      var scheduled := planner.ScheduleIntervention(id, date, duration);
      if !scheduled {
        return -1;
      }
      InsertPreserves(interventions, old(planner.dailyInterventions), nextInterventionId, Plain(rec));
      interventions := interventions[id := Plain(rec)];
      NotifyObservers("creation");
    }

    /**
     * false for an unknown id; otherwise the record, its ledger entry and the
     * assigned technician's booking at its date are all removed.
     */
    method DeleteIntervention(interventionId: int) returns (ok: bool)
      requires Valid()
      modifies this`interventions, this`delivered, planner, technicianManager
      ensures Valid()
      ensures ok <==> interventionId in old(interventions)
      ensures !ok ==>
        && interventions == old(interventions) && delivered == old(delivered)
        && planner.dailyInterventions == old(planner.dailyInterventions)
        && technicianManager.assignments == old(technicianManager.assignments)
      ensures ok ==>
        var r := old(interventions)[interventionId].base;
        && interventions == old(interventions) - {interventionId}
        && planner.dailyInterventions == Remove(old(planner.dailyInterventions), interventionId, r.date)
        && technicianManager.assignments ==
             (if r.technicianId == "" then old(technicianManager.assignments)
              else Unbook(old(technicianManager.assignments), r.technicianId, r.date))
        && delivered == old(delivered) + Fanout(observers, "deletion")
      ensures technicianManager.technicians == old(technicianManager.technicians)
      ensures nextInterventionId == old(nextInterventionId) && observers == old(observers)
    {
      if interventionId !in interventions {
        return false;
      }
      var date := interventions[interventionId].base.date;
      DeletePreserves(interventions, planner.dailyInterventions, nextInterventionId, interventionId);
      var removed := planner.RemoveIntervention(interventionId, date);
      if !removed {
        assert false;
      }
      var techId := interventions[interventionId].base.technicianId;
      if techId != "" {
        var _ := technicianManager.UnassignTechnician(techId, date);
      }
      interventions := interventions - {interventionId};
      assert Consistent(interventions, planner.dailyInterventions, nextInterventionId);
      NotifyObservers("deletion");
      ok := true;
    }

    /**
     * false for an unknown id. An empty location, date 0 or duration 0 keeps
     * the stored value. Location and duration are written first and stay
     * written when the reschedule then fails. On a successful reschedule the
     * date moves and an assigned technician's booking moves with it.
     */
    method ModifyIntervention(interventionId: int, location: string, date: int, duration: int) returns (ok: bool)
      requires Valid()
      modifies this`interventions, this`delivered, planner, technicianManager
      ensures Valid()
      ensures interventionId !in old(interventions) ==>
        && !ok && interventions == old(interventions) && delivered == old(delivered)
        && planner.dailyInterventions == old(planner.dailyInterventions)
        && technicianManager.assignments == old(technicianManager.assignments)
      ensures interventionId in old(interventions) ==>
        var d := old(interventions)[interventionId];
        var r := d.base;
        var moving := NeedsRescheduling(r, date, duration);
        var moved := moving && RescheduleSucceeds(old(planner.dailyInterventions), interventionId, r.date,
                                                  TargetDate(r, date));
        && ok == (!moving || moved)
        && interventions == old(interventions)[interventionId :=
             d.(base := Kept(r, location, duration).(date := if moved then TargetDate(r, date) else r.date))]
        && planner.dailyInterventions ==
             (if moved then Reschedule(old(planner.dailyInterventions), interventionId, r.date, TargetDate(r, date))
              else old(planner.dailyInterventions))
        && technicianManager.assignments ==
             (if moved && r.technicianId != ""
              then Rebook(old(technicianManager.technicians).Keys, old(technicianManager.assignments),
                          r.technicianId, r.date, TargetDate(r, date), TargetDuration(r, duration))
              else old(technicianManager.assignments))
        && delivered == old(delivered) + if ok then Fanout(observers, "modification") else []
      ensures technicianManager.technicians == old(technicianManager.technicians)
      ensures nextInterventionId == old(nextInterventionId) && observers == old(observers)
    {
      if interventionId !in interventions {
        return false;
      }
      var oldDate := interventions[interventionId].base.date;
      var oldDuration := interventions[interventionId].base.duration;
      ghost var stored, ledger := interventions[interventionId], planner.dailyInterventions;
      ghost var original := stored.base;
      ghost var kept := Kept(original, location, duration);
      var needsRescheduling := WriteFields(interventionId, location, date, duration);
      assert interventions == old(interventions)[interventionId := stored.(base := kept)];
      if needsRescheduling {
        var newDate := if date != 0 then date else oldDate;
        var newDuration := if duration != 0 then duration else oldDuration;
        assert newDate == TargetDate(original, date) && newDuration == TargetDuration(original, duration);
        assert planner.dailyInterventions == ledger && interventions[interventionId].base.date == oldDate;
        var rescheduled := MoveIntervention(interventionId, newDate, newDuration);
        assert rescheduled == RescheduleSucceeds(ledger, interventionId, oldDate, newDate);
        if !rescheduled {
          return false;
        }
        assert interventions == old(interventions)[interventionId := stored.(base := kept.(date := newDate))];
      }
      NotifyObservers("modification");
      ok := true;
    }

    /**
     * The first half of `modifyIntervention`: a non-empty location and a
     * non-zero duration are written at once; the result says whether the date
     * or the duration asks for a reschedule.
     */
    method WriteFields(interventionId: int, location: string, date: int, duration: int)
      returns (needsRescheduling: bool)
      requires Valid() && interventionId in interventions
      modifies this`interventions
      ensures Valid()
      ensures
        var d := old(interventions)[interventionId];
        && needsRescheduling == NeedsRescheduling(d.base, date, duration)
        && interventions == old(interventions)[interventionId := d.(base := Kept(d.base, location, duration))]
    {
      var d := interventions[interventionId];
      StoredIsValid(interventions, planner.dailyInterventions, nextInterventionId, interventionId);
      var oldDate := d.base.date;
      var oldDuration := d.base.duration;
      if location != "" {
        d := Write(d, SetLocation(location));
      }
      needsRescheduling := false;
      if date != 0 && date != oldDate {
        needsRescheduling := true;
      }
      if duration != 0 && duration != oldDuration {
        needsRescheduling := true;
        d := Write(d, SetDuration(duration));
      }
      RewritePreserves(interventions, planner.dailyInterventions, nextInterventionId, interventionId, d);
      interventions := interventions[interventionId := d];
    }

    /**
     * The rescheduling half of `modifyIntervention`: the ledger entry moves to
     * the new day if there is room; then the stored date follows and an
     * assigned technician's booking moves with it.
     */
    method MoveIntervention(interventionId: int, newDate: int, newDuration: int) returns (ok: bool)
      requires Valid() && interventionId in interventions
      modifies this`interventions, planner, technicianManager
      ensures Valid()
      ensures
        var d := old(interventions)[interventionId];
        && ok == RescheduleSucceeds(old(planner.dailyInterventions), interventionId, d.base.date, newDate)
        && planner.dailyInterventions == Reschedule(old(planner.dailyInterventions), interventionId, d.base.date, newDate)
        && interventions ==
             (if ok then old(interventions)[interventionId := d.(base := d.base.(date := newDate))]
              else old(interventions))
        && technicianManager.assignments ==
             (if ok && d.base.technicianId != ""
              then Rebook(old(technicianManager.technicians).Keys, old(technicianManager.assignments),
                          d.base.technicianId, d.base.date, newDate, newDuration)
              else old(technicianManager.assignments))
      ensures technicianManager.technicians == old(technicianManager.technicians)
    {
      var d := interventions[interventionId];
      StoredIsValid(interventions, planner.dailyInterventions, nextInterventionId, interventionId);
      var oldDate := d.base.date;
      ok := planner.RescheduleIntervention(interventionId, oldDate, newDate, newDuration);
      if !ok {
        return;
      }
      var moved := d.(base := d.base.(date := newDate));
      ReschedulePreserves(interventions, old(planner.dailyInterventions), nextInterventionId,
                          interventionId, newDate, moved);
      interventions := interventions[interventionId := moved];
      if d.base.technicianId != "" {
        MoveBooking(d.base.technicianId, oldDate, newDate, newDuration);
      }
    }

    /** An assigned technician's booking follows a rescheduled intervention:
        released at the old date, then booked at the new one when the
        technician is free for it (the outcome is not checked). */
    method MoveBooking(technicianId: string, oldDate: int, newDate: int, newDuration: int)
      requires technicianManager.Valid()
      modifies technicianManager
      ensures technicianManager.Valid()
      ensures technicianManager.technicians == old(technicianManager.technicians)
      ensures technicianManager.assignments ==
        Rebook(old(technicianManager.technicians).Keys, old(technicianManager.assignments),
               technicianId, oldDate, newDate, newDuration)
    {
      var _ := technicianManager.UnassignTechnician(technicianId, oldDate);
      var _ := technicianManager.AssignTechnician(technicianId, newDate, newDuration);
    }

    /** false for an unknown id; otherwise the status is written, and the comments unless empty. */
    method ChangeInterventionStatus(interventionId: int, status: string, comments: string) returns (ok: bool)
      requires Valid()
      modifies this`interventions, this`delivered
      ensures Valid()
      ensures ok <==> interventionId in old(interventions)
      ensures !ok ==> interventions == old(interventions) && delivered == old(delivered)
      ensures ok ==>
        var d := old(interventions)[interventionId];
        && interventions == old(interventions)[interventionId :=
             d.(base := d.base.(status := status, comments := if comments == "" then d.base.comments else comments))]
        && delivered == old(delivered) + Fanout(observers, "status_change")
      ensures nextInterventionId == old(nextInterventionId) && observers == old(observers)
    {
      if interventionId !in interventions {
        return false;
      }
      StoredIsValid(interventions, planner.dailyInterventions, nextInterventionId, interventionId);
      var d := Write(interventions[interventionId], SetStatus(status));
      if comments != "" {
        d := Write(d, SetComments(comments));
      }
      RewritePreserves(interventions, planner.dailyInterventions, nextInterventionId, interventionId, d);
      interventions := interventions[interventionId := d];
      NotifyObservers("status_change");
      ok := true;
    }

    /**
     * Fails with no change for an unknown intervention, an unknown technician
     * or a technician busy over the intervention's interval. Otherwise the
     * current technician's booking at that date is released, the new one is
     * booked and the record names the new technician.
     */
    method AssignTechnician(interventionId: int, technicianId: string) returns (ok: bool)
      requires Valid()
      modifies this`interventions, this`delivered, technicianManager
      ensures Valid()
      ensures ok <==>
        && interventionId in old(interventions)
        && technicianId in old(technicianManager.technicians)
        && Available(old(technicianManager.technicians).Keys, old(technicianManager.assignments), technicianId,
                     old(interventions)[interventionId].base.date, old(interventions)[interventionId].base.duration)
      ensures !ok ==>
        && interventions == old(interventions) && delivered == old(delivered)
        && technicianManager.assignments == old(technicianManager.assignments)
      ensures ok ==>
        var d := old(interventions)[interventionId];
        && interventions == old(interventions)[interventionId := Write(d, SetTechnicianId(technicianId))]
        && technicianManager.assignments ==
             Reassign(old(technicianManager.assignments), d.base.technicianId, technicianId, d.base.date, d.base.duration)
        && delivered == old(delivered) + Fanout(observers, "technician_assignment")
      ensures technicianManager.technicians == old(technicianManager.technicians)
      ensures nextInterventionId == old(nextInterventionId) && observers == old(observers)
    {
      if interventionId !in interventions {
        return false;
      }
      if technicianManager.GetTechnician(technicianId).None? {
        return false;
      }
      var d := interventions[interventionId];
      StoredIsValid(interventions, planner.dailyInterventions, nextInterventionId, interventionId);
      var date := d.base.date;
      var duration := d.base.duration;
      var available := technicianManager.IsTechnicianAvailable(technicianId, date, duration);
      if !available {
        return false;
      }
      SwapBooking(d.base.technicianId, technicianId, date, duration);
      d := Write(d, SetTechnicianId(technicianId));
      RewritePreserves(interventions, planner.dailyInterventions, nextInterventionId, interventionId, d);
      interventions := interventions[interventionId := d];
      NotifyObservers("technician_assignment");
      ok := true;
    }

    /** The booking half of `assignTechnician`: the current technician's
        booking at the date is released, then the new technician, who is free
        for the interval, is booked. */
    method SwapBooking(current: string, technicianId: string, date: int, duration: int)
      requires technicianManager.Valid()
      requires Available(technicianManager.technicians.Keys, technicianManager.assignments, technicianId, date, duration)
      modifies technicianManager
      ensures technicianManager.Valid()
      ensures technicianManager.technicians == old(technicianManager.technicians)
      ensures technicianManager.assignments ==
        Reassign(old(technicianManager.assignments), current, technicianId, date, duration)
    {
      if current != "" {
        UnbookKeepsAvailable(technicianManager.technicians.Keys, technicianManager.assignments,
                             current, date, technicianId, date, duration);
        var _ := technicianManager.UnassignTechnician(current, date);
      }
      var booked := technicianManager.AssignTechnician(technicianId, date, duration);
      if !booked {
        assert false;
      }
    }

    /** The stored records listed under the day of `date`, in booking order. */
    method GetInterventionsForDay(date: int) returns (result: seq<Record>)
      requires Valid()
      ensures result == Present(interventions, Bucket(planner.dailyInterventions, Calendar.Day(date)))
      ensures |result| == |Bucket(planner.dailyInterventions, Calendar.Day(date))|
      ensures forall k :: 0 <= k < |result| ==>
        && Bucket(planner.dailyInterventions, Calendar.Day(date))[k] in interventions
        && result[k] == interventions[Bucket(planner.dailyInterventions, Calendar.Day(date))[k]].base
        && Calendar.Day(result[k].date) == Calendar.Day(date)
    {
      var ids := planner.GetInterventionsForDay(date);
      result := [];
      for i := 0 to |ids|
        invariant result == Present(interventions, ids[..i])
      {
        assert ids[..i + 1][..i] == ids[..i];
        var id := ids[i];
        if id in interventions {
          result := result + [interventions[id].base];
        }
      }
      assert ids[..|ids|] == ids;
      BucketIsStored(interventions, planner.dailyInterventions, nextInterventionId, Calendar.Day(date));
      PresentAll(interventions, ids);
    }

    /** The planner's per-day counts for the month: days 1..N, each the size of
        that day's bucket, and 0 on days without one. */
    method GetInterventionCountsForMonth(month: int, year: int) returns (counts: map<int, int>)
      requires Valid()
      ensures forall mday :: mday in counts <==> 1 <= mday <= Calendar.DaysInMonth(month, year)
      ensures forall day :: day in planner.dailyInterventions && InMonth(day, month, year) ==>
        counts[Calendar.Split(day).day] == |planner.dailyInterventions[day]|
      ensures forall mday :: mday in counts && counts[mday] != 0 ==>
        exists day :: day in planner.dailyInterventions && Calendar.Split(day) == Calendar.Date(year, month, mday)
    {
      counts := planner.CountInterventionsPerDay(month, year);
    }

    /** Asks the planner to optimise the day; on its (constant) success the
        observers hear of it. Nothing is stored or rescheduled. */
    method OptimizeSchedule(date: int) returns (ok: bool)
      requires Valid()
      modifies this`delivered
      ensures Valid() && ok
      ensures delivered == old(delivered) + Fanout(observers, "optimization")
    {
      ok := planner.OptimizeSchedule(date);
      if ok {
        NotifyObservers("optimization");
      }
    }

    /** false for an unknown id; otherwise the stored value gains an outer GPS
        layer with no samples and a 15-minute frequency. */
    method DecorateWithGPS(interventionId: int) returns (ok: bool)
      requires Valid()
      modifies this`interventions, this`delivered
      ensures Valid()
      ensures ok <==> interventionId in old(interventions)
      ensures !ok ==> interventions == old(interventions) && delivered == old(delivered)
      ensures ok ==>
        && interventions == old(interventions)[interventionId :=
             AddLayer(old(interventions)[interventionId], GpsLayer(NewGps(GpsDecorationFrequency)))]
        && delivered == old(delivered) + Fanout(observers, "decoration")
    {
      if interventionId !in interventions {
        return false;
      }
      StoredIsValid(interventions, planner.dailyInterventions, nextInterventionId, interventionId);
      var d := AddLayer(interventions[interventionId], GpsLayer(NewGps(GpsDecorationFrequency)));
      RewritePreserves(interventions, planner.dailyInterventions, nextInterventionId, interventionId, d);
      interventions := interventions[interventionId := d];
      NotifyObservers("decoration");
      ok := true;
    }

    /** false for an unknown id; otherwise the stored value gains an outer
        attachments layer with no attachments. */
    method DecorateWithAttachments(interventionId: int) returns (ok: bool)
      requires Valid()
      modifies this`interventions, this`delivered
      ensures Valid()
      ensures ok <==> interventionId in old(interventions)
      ensures !ok ==> interventions == old(interventions) && delivered == old(delivered)
      ensures ok ==>
        && interventions == old(interventions)[interventionId :=
             AddLayer(old(interventions)[interventionId], AttachmentsLayer([]))]
        && delivered == old(delivered) + Fanout(observers, "decoration")
    {
      if interventionId !in interventions {
        return false;
      }
      StoredIsValid(interventions, planner.dailyInterventions, nextInterventionId, interventionId);
      var d := AddLayer(interventions[interventionId], AttachmentsLayer([]));
      RewritePreserves(interventions, planner.dailyInterventions, nextInterventionId, interventionId, d);
      interventions := interventions[interventionId := d];
      NotifyObservers("decoration");
      ok := true;
    }

    /** false for an unknown id or an outermost layer that is not GPS; otherwise
        that layer records one more sample, taken at `now`. */
    method AddGPSCoordinate(interventionId: int, latitude: real, longitude: real, now: int) returns (ok: bool)
      requires Valid()
      modifies this`interventions, this`delivered
      ensures Valid()
      ensures ok <==> interventionId in old(interventions) && OutermostGps(old(interventions)[interventionId]).Some?
      ensures !ok ==> interventions == old(interventions) && delivered == old(delivered)
      ensures ok ==>
        var d := old(interventions)[interventionId];
        && interventions == old(interventions)[interventionId :=
             WithOutermost(d, GpsLayer(WithCoordinate(OutermostGps(d).value, latitude, longitude, now)))]
        && delivered == old(delivered) + Fanout(observers, "gps_update")
    {
      if interventionId !in interventions {
        return false;
      }
      var d := interventions[interventionId];
      var gps := OutermostGps(d);
      if gps.None? {
        return false;
      }
      StoredIsValid(interventions, planner.dailyInterventions, nextInterventionId, interventionId);
      var layer := GpsLayer(WithCoordinate(gps.value, latitude, longitude, now));
      WithOutermostKeepsValid(d, layer);
      d := WithOutermost(d, layer);
      RewritePreserves(interventions, planner.dailyInterventions, nextInterventionId, interventionId, d);
      interventions := interventions[interventionId := d];
      NotifyObservers("gps_update");
      ok := true;
    }

    /** false for an unknown id, an outermost layer that is not an attachments
        layer, or a filename already attached; otherwise the attachment, stamped
        `now`, is appended and the observers hear of it. */
    method AddAttachment(interventionId: int, filename: string, description: string, now: int) returns (ok: bool)
      requires Valid()
      modifies this`interventions, this`delivered
      ensures Valid()
      ensures ok <==>
        && interventionId in old(interventions)
        && OutermostAttachments(old(interventions)[interventionId]).Some?
        && !HasFile(OutermostAttachments(old(interventions)[interventionId]).value, filename)
      ensures !ok ==> interventions == old(interventions) && delivered == old(delivered)
      ensures ok ==>
        var d := old(interventions)[interventionId];
        && interventions == old(interventions)[interventionId :=
             WithOutermost(d, AttachmentsLayer(OutermostAttachments(d).value + [Attachment(filename, description, now)]))]
        && delivered == old(delivered) + Fanout(observers, "attachment_added")
    {
      if interventionId !in interventions {
        return false;
      }
      var d := interventions[interventionId];
      var attachments := OutermostAttachments(d);
      if attachments.None? {
        return false;
      }
      if HasFile(attachments.value, filename) {
        return false;
      }
      StoredIsValid(interventions, planner.dailyInterventions, nextInterventionId, interventionId);
      var layer := AttachmentsLayer(WithAttachment(attachments.value, filename, description, now));
      WithOutermostKeepsValid(d, layer);
      d := WithOutermost(d, layer);
      RewritePreserves(interventions, planner.dailyInterventions, nextInterventionId, interventionId, d);
      interventions := interventions[interventionId := d];
      NotifyObservers("attachment_added");
      ok := true;
    }

    /** The stored intervention read through its wrappers, or `None` for an unknown id. */
    function GetIntervention(interventionId: int): (r: Option<Record>)
      reads this
      ensures r.None? <==> interventionId !in interventions
      ensures r.Some? ==> r.value == interventions[interventionId].base
    {
      if interventionId in interventions then
        ForwardReadsBase(interventions[interventionId]);
        Some(Forward(Nest(interventions[interventionId])))
      else None
    }
  }
}
