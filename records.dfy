/**
 * Intervention records: the base record with its seven fields, the
 * Maintenance variant and the Emergency variant whose priority is clamped
 * into 1..5.
 */
module Records {
  const MinPriority := 1
  const MaxPriority := 5
  const DefaultPriority := 3
  const ScheduledStatus := "Scheduled"

  /** The concrete kind of an intervention; an Emergency carries its priority. */
  datatype Variant = Maintenance | Emergency(priority: int)

  /** The state of one intervention object, as its getters report it. */
  datatype Record = Record(
    id: int,
    location: string,
    date: int,
    duration: int,
    technicianId: string,
    status: string,
    comments: string,
    variant: Variant)

  /** `getType`: a constant per variant. */
  function TypeName(v: Variant): (name: string)
    ensures v.Maintenance? <==> name == "Maintenance"
    ensures v.Emergency? <==> name == "Emergency"
  {
    match v
    case Maintenance => "Maintenance"
    case Emergency(_) => "Emergency"
  }

  /** The priority clamp used by the Emergency constructor and `setPriority`. */
  function ClampPriority(p: int): (r: int)
    ensures MinPriority <= r <= MaxPriority
    ensures MinPriority <= p <= MaxPriority ==> r == p
    ensures p < MinPriority ==> r == MinPriority
    ensures p > MaxPriority ==> r == MaxPriority
  {
    if p < MinPriority then MinPriority
    else if p > MaxPriority then MaxPriority
    else p
  }

  /** Clamping is idempotent, so `setPriority(getPriority())` changes nothing. */
  lemma ClampIsIdempotent(p: int)
    ensures ClampPriority(ClampPriority(p)) == ClampPriority(p)
  {
  }

  /** A well-formed variant: an Emergency priority lies in 1..5. */
  predicate ValidVariant(v: Variant) {
    v.Emergency? ==> MinPriority <= v.priority <= MaxPriority
  }

  /** The parameterised constructors: the given location, date and duration;
      id 0, no technician, status "Scheduled", no comments. */
  function NewRecord(v: Variant, location: string, date: int, duration: int): (r: Record)
    ensures r.location == location && r.date == date && r.duration == duration
    ensures r.id == 0 && r.technicianId == "" && r.status == ScheduledStatus && r.comments == ""
    ensures r.variant == v
  {
    Record(0, location, date, duration, "", ScheduledStatus, "", v)
  }

  /** The default constructors: empty location, date 0, duration 0 and the
      other defaults of `NewRecord`. */
  function DefaultRecord(v: Variant): (r: Record)
    ensures r == NewRecord(v, "", 0, 0)
    ensures r.location == "" && r.date == 0 && r.duration == 0
  {
    NewRecord(v, "", 0, 0)
  }

  /** One intervention object; the setters overwrite one field each, unvalidated. */
  class Intervention {
    var id: int
    var location: string
    var date: int
    var duration: int
    var technicianId: string
    var status: string
    var comments: string
    var variant: Variant

    function Snapshot(): Record
      reads this
    {
      Record(id, location, date, duration, technicianId, status, comments, variant)
    }

    ghost predicate Valid()
      reads this
    {
      ValidVariant(variant)
    }

    constructor DefaultMaintenance()
      ensures Valid() && Snapshot() == DefaultRecord(Maintenance)
    {
      id, location, date, duration := 0, "", 0, 0;
      technicianId, status, comments := "", ScheduledStatus, "";
      variant := Maintenance;
    }

    constructor NewMaintenance(location: string, date: int, duration: int)
      ensures Valid() && Snapshot() == NewRecord(Maintenance, location, date, duration)
    {
      this.id, this.location, this.date, this.duration := 0, location, date, duration;
      technicianId, status, comments := "", ScheduledStatus, "";
      variant := Maintenance;
    }

    /** The default Emergency has priority 3. */
    constructor DefaultEmergency()
      ensures Valid() && Snapshot() == DefaultRecord(Emergency(DefaultPriority))
    {
      id, location, date, duration := 0, "", 0, 0;
      technicianId, status, comments := "", ScheduledStatus, "";
      variant := Emergency(DefaultPriority);
    }

    /** The parameterised Emergency clamps its priority into 1..5. */
    constructor NewEmergency(location: string, date: int, duration: int, priority: int)
      ensures Valid() && Snapshot() == NewRecord(Emergency(ClampPriority(priority)), location, date, duration)
    {
      this.id, this.location, this.date, this.duration := 0, location, date, duration;
      technicianId, status, comments := "", ScheduledStatus, "";
      if priority < MinPriority {
        variant := Emergency(MinPriority);
      } else if priority > MaxPriority {
        variant := Emergency(MaxPriority);
      } else {
        variant := Emergency(priority);
      }
    }

    function GetType(): (name: string)
      reads this
      ensures name == TypeName(variant)
    {
      TypeName(variant)
    }

    /** `getPriority` exists on Emergency interventions only. */
    function GetPriority(): (p: int)
      reads this
      requires Valid() && variant.Emergency?
      ensures MinPriority <= p <= MaxPriority
    {
      variant.priority
    }

    method SetId(id: int)
      modifies this
      ensures Snapshot() == old(Snapshot()).(id := id)
    {
      this.id := id;
    }

    method SetLocation(location: string)
      modifies this
      ensures Snapshot() == old(Snapshot()).(location := location)
    {
      this.location := location;
    }

    method SetDate(date: int)
      modifies this
      ensures Snapshot() == old(Snapshot()).(date := date)
    {
      this.date := date;
    }

    /** Any duration is stored as given, negative or zero included. */
    method SetDuration(duration: int)
      modifies this
      ensures Snapshot() == old(Snapshot()).(duration := duration)
    {
      this.duration := duration;
    }

    method SetTechnicianId(technicianId: string)
      modifies this
      ensures Snapshot() == old(Snapshot()).(technicianId := technicianId)
    {
      this.technicianId := technicianId;
    }

    /** Any status string is stored as given. */
    method SetStatus(status: string)
      modifies this
      ensures Snapshot() == old(Snapshot()).(status := status)
    {
      this.status := status;
    }

    method SetComments(comments: string)
      modifies this
      ensures Snapshot() == old(Snapshot()).(comments := comments)
    {
      this.comments := comments;
    }

    /** `setPriority` on an Emergency: clamps and changes no base field. */
    method SetPriority(priority: int)
      requires variant.Emergency?
      modifies this
      ensures Valid()
      ensures Snapshot() == old(Snapshot()).(variant := Emergency(ClampPriority(priority)))
    {
      var p := priority;
      if p < MinPriority {
        p := MinPriority;
      } else if p > MaxPriority {
        p := MaxPriority;
      }
      variant := Emergency(p);
    }
  }
}
