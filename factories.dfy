/**
 * Intervention factories and the registry that maps a type name to its
 * factory. The registry's process-wide single instance is an explicit
 * object handed to whoever uses it.
 */
module Factories {
  import opened Wrappers
  import opened Records

  /** A factory; the Emergency one carries the priority it gives new interventions. */
  datatype Factory = MaintenanceFactory | EmergencyFactory(defaultPriority: int)

  /** Every factory the constructors can build: an Emergency default priority lies in 1..5. */
  predicate ValidFactory(f: Factory) {
    f.EmergencyFactory? ==> MinPriority <= f.defaultPriority <= MaxPriority
  }

  /** The Emergency factory's constructor clamps its default priority into 1..5. */
  function NewEmergencyFactory(defaultPriority: int): (f: Factory)
    ensures f.EmergencyFactory? && ValidFactory(f)
    ensures MinPriority <= defaultPriority <= MaxPriority ==> f.defaultPriority == defaultPriority
    ensures defaultPriority < MinPriority ==> f.defaultPriority == MinPriority
    ensures defaultPriority > MaxPriority ==> f.defaultPriority == MaxPriority
  {
    if defaultPriority < MinPriority then EmergencyFactory(MinPriority)
    else if defaultPriority > MaxPriority then EmergencyFactory(MaxPriority)
    else EmergencyFactory(defaultPriority)
  }

  /** The variant a factory's `createIntervention(location, date, duration)` builds. */
  function VariantOf(f: Factory): (v: Variant)
    ensures ValidVariant(v)
    ensures f.MaintenanceFactory? <==> v.Maintenance?
    ensures ValidFactory(f) && f.EmergencyFactory? ==> v == Emergency(f.defaultPriority)
  {
    match f
    case MaintenanceFactory => Maintenance
    case EmergencyFactory(p) => Emergency(ClampPriority(p))
  }

  /** `createIntervention()`: a default intervention; an Emergency gets priority 3
      whatever the factory's default priority. */
  function CreateDefault(f: Factory): (r: Record)
    ensures r == DefaultRecord(if f.MaintenanceFactory? then Maintenance else Emergency(DefaultPriority))
    ensures TypeName(r.variant) == TypeName(VariantOf(f))
  {
    match f
    case MaintenanceFactory => DefaultRecord(Maintenance)
    case EmergencyFactory(_) => DefaultRecord(Emergency(DefaultPriority))
  }

  /** `createIntervention(location, date, duration)`: never null, the fields as given,
      the type of the factory, and for an Emergency the factory's default priority. */
  function Create(f: Factory, location: string, date: int, duration: int): (r: Record)
    ensures r == NewRecord(VariantOf(f), location, date, duration)
    ensures r.location == location && r.date == date && r.duration == duration
    ensures TypeName(r.variant) == (if f.MaintenanceFactory? then "Maintenance" else "Emergency")
    ensures ValidVariant(r.variant)
  {
    NewRecord(VariantOf(f), location, date, duration)
  }

  /** `createEmergencyIntervention(..., priority)`: the priority clamped into 1..5. */
  function CreateEmergencyIntervention(f: Factory, location: string, date: int, duration: int, priority: int)
    : (r: Record)
    requires f.EmergencyFactory?
    ensures r == NewRecord(Emergency(ClampPriority(priority)), location, date, duration)
    ensures MinPriority <= r.variant.priority <= MaxPriority
    ensures MinPriority <= priority <= MaxPriority ==> r.variant.priority == priority
  {
    NewRecord(Emergency(ClampPriority(priority)), location, date, duration)
  }

  class InterventionFactoryRegistry {
    var factories: map<string, Factory>

    ghost predicate Valid()
      reads this
    {
      forall t :: t in factories ==> ValidFactory(factories[t])
    }

    constructor ()
      ensures Valid() && factories == map[]
    {
      factories := map[];
    }

    /** Registers `factory` under `typeName`, replacing any earlier one; other types keep theirs. */
    method RegisterFactory(typeName: string, factory: Factory)
      requires Valid() && ValidFactory(factory)
      modifies this
      ensures Valid()
      ensures factories == old(factories)[typeName := factory]
      ensures GetFactory(typeName) == Some(factory)
      ensures forall other :: other != typeName ==> GetFactory(other) == old(GetFactory(other))
    {
      factories := factories[typeName := factory];
    }

    /** The factory registered for `typeName`, or `None` when there is none. */
    function GetFactory(typeName: string): (r: Option<Factory>)
      reads this
      ensures r.None? <==> typeName !in factories
      ensures r.Some? ==> r.value == factories[typeName]
    {
      if typeName in factories then Some(factories[typeName]) else None
    }

    /** `None` for an unregistered type; otherwise what that type's factory creates from the same arguments. */
    function CreateIntervention(typeName: string, location: string, date: int, duration: int): (r: Option<Record>)
      reads this
      ensures r.None? <==> typeName !in factories
      ensures r.Some? ==> r.value == Create(factories[typeName], location, date, duration)
      ensures r.Some? ==> r.value.location == location && r.value.date == date && r.value.duration == duration
    {
      match GetFactory(typeName)
      case None => None
      case Some(factory) => Some(Create(factory, location, date, duration))
    }
  }
}
