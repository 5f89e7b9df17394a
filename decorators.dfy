/**
 * Capability decorators. A decorator wraps one intervention and forwards
 * every getter and setter to it; the GPS decorator adds an append-only log
 * of samples and an update frequency of at least one minute; the
 * attachments decorator adds a list of files whose names are distinct.
 *
 * The layer state is given twice: as values with the functions that specify
 * each operation (used by the facade, which holds a record plus its chain of
 * layers), and as the decorator objects whose methods update that state in
 * place and are proved against those functions.
 */
module Decorators {
  import opened Wrappers
  import opened Records

  const DefaultUpdateFrequency := 15

  // ---------------------------------------------------------------- GPS

  datatype GpsCoordinate = GpsCoordinate(latitude: real, longitude: real, timestamp: int)

  /** The state a GPS decorator adds: samples in insertion order and the update frequency in minutes. */
  datatype GpsState = GpsState(trackingData: seq<GpsCoordinate>, updateFrequency: int)

  predicate ValidGps(g: GpsState) {
    g.updateFrequency >= 1
  }

  /** A new GPS decorator: no samples, the frequency raised to at least one. */
  function NewGps(updateFrequency: int): (g: GpsState)
    ensures ValidGps(g) && g.trackingData == []
    ensures g.updateFrequency == if updateFrequency < 1 then 1 else updateFrequency
  {
    GpsState([], if updateFrequency < 1 then 1 else updateFrequency)
  }

  /** `addCoordinate`: one sample appended. */
  function WithCoordinate(g: GpsState, latitude: real, longitude: real, timestamp: int): (r: GpsState)
    ensures |r.trackingData| == |g.trackingData| + 1
    ensures r.trackingData[..|g.trackingData|] == g.trackingData
    ensures r.trackingData[|g.trackingData|] == GpsCoordinate(latitude, longitude, timestamp)
    ensures r.updateFrequency == g.updateFrequency
  {
    GpsState(g.trackingData + [GpsCoordinate(latitude, longitude, timestamp)], g.updateFrequency)
  }

  /** `getCurrentLocation`: the last sample's position, or (0, 0) with no samples. */
  function LatestLocation(g: GpsState): (loc: (real, real))
    ensures g.trackingData == [] ==> loc == (0.0, 0.0)
    ensures g.trackingData != [] ==>
      loc == (g.trackingData[|g.trackingData| - 1].latitude, g.trackingData[|g.trackingData| - 1].longitude)
  {
    if |g.trackingData| == 0 then (0.0, 0.0)
    else
      var latest := g.trackingData[|g.trackingData| - 1];
      (latest.latitude, latest.longitude)
  }

  /** `setUpdateFrequency`: the frequency becomes `max(minutes, 1)`; the samples stay. */
  function WithFrequency(g: GpsState, minutes: int): (r: GpsState)
    ensures ValidGps(r) && r.trackingData == g.trackingData
    ensures r.updateFrequency >= minutes && (minutes >= 1 ==> r.updateFrequency == minutes)
    ensures minutes < 1 ==> r.updateFrequency == 1
  {
    GpsState(g.trackingData, if minutes < 1 then 1 else minutes)
  }

  /** The position just recorded is the current location, and earlier samples are kept. */
  lemma {:induction false} RecordedIsCurrent(g: GpsState, latitude: real, longitude: real, timestamp: int)
    ensures LatestLocation(WithCoordinate(g, latitude, longitude, timestamp)) == (latitude, longitude)
    ensures forall i :: 0 <= i < |g.trackingData| ==>
      WithCoordinate(g, latitude, longitude, timestamp).trackingData[i] == g.trackingData[i]
  {
    var r := WithCoordinate(g, latitude, longitude, timestamp);
    assert r.trackingData[|r.trackingData| - 1] == GpsCoordinate(latitude, longitude, timestamp);
  }

  // -------------------------------------------------------- attachments

  datatype Attachment = Attachment(filename: string, description: string, uploadTime: int)

  /** `hasAttachment`: some entry carries the file name. */
  predicate HasFile(attachments: seq<Attachment>, filename: string) {
    exists i :: 0 <= i < |attachments| && attachments[i].filename == filename
  }

  /** The list invariant: no two entries share a file name. */
  predicate UniqueFilenames(attachments: seq<Attachment>) {
    forall i, j :: 0 <= i < j < |attachments| ==> attachments[i].filename != attachments[j].filename
  }

  /** `getAttachmentFilenames`: the names in insertion order. */
  function FilenamesOf(attachments: seq<Attachment>): (names: seq<string>)
    ensures |names| == |attachments|
    ensures forall i :: 0 <= i < |attachments| ==> names[i] == attachments[i].filename
  {
    if |attachments| == 0 then []
    else FilenamesOf(attachments[..|attachments| - 1]) + [attachments[|attachments| - 1].filename]
  }

  /** A file is attached iff its name is listed. */
  lemma {:induction false} HasFileIffListed(attachments: seq<Attachment>, filename: string)
    ensures HasFile(attachments, filename) <==> filename in FilenamesOf(attachments)
  {
    var names := FilenamesOf(attachments);
    if filename in names {
      var i :| 0 <= i < |names| && names[i] == filename;
      assert attachments[i].filename == filename;
    }
    if HasFile(attachments, filename) {
      var i :| 0 <= i < |attachments| && attachments[i].filename == filename;
      assert names[i] == filename;
    }
  }

  /** `addAttachment`: appends the entry when the name is new; otherwise no change. */
  function WithAttachment(attachments: seq<Attachment>, filename: string, description: string, uploadTime: int)
    : (r: seq<Attachment>)
    ensures HasFile(attachments, filename) ==> r == attachments
    ensures !HasFile(attachments, filename) ==> r == attachments + [Attachment(filename, description, uploadTime)]
    ensures UniqueFilenames(attachments) ==> UniqueFilenames(r)
  {
    if HasFile(attachments, filename) then attachments
    else attachments + [Attachment(filename, description, uploadTime)]
  }

  /** Where `std::find_if` stops: the first entry with the name. */
  function FirstFile(attachments: seq<Attachment>, filename: string): (i: nat)
    requires HasFile(attachments, filename)
    ensures i < |attachments| && attachments[i].filename == filename
    ensures forall k :: 0 <= k < i ==> attachments[k].filename != filename
    decreases |attachments|
  {
    if attachments[0].filename == filename then 0
    else
      assert HasFile(attachments[1..], filename) by {
        var j :| 0 <= j < |attachments| && attachments[j].filename == filename;
        assert attachments[1..][j - 1].filename == filename;
      }
      var i := 1 + FirstFile(attachments[1..], filename);
      assert forall k :: 1 <= k < i ==> attachments[k] == attachments[1..][k - 1];
      i
  }

  /** `removeAttachment`: erases the first entry with the name; the rest keep their order. */
  function WithoutFile(attachments: seq<Attachment>, filename: string): (r: seq<Attachment>)
    ensures !HasFile(attachments, filename) ==> r == attachments
    ensures HasFile(attachments, filename) ==> |r| == |attachments| - 1
    ensures forall a :: a in r ==> a in attachments
    ensures HasFile(attachments, filename) ==>
      exists i :: 0 <= i < |attachments| && attachments[i].filename == filename &&
                  (forall k :: 0 <= k < i ==> attachments[k].filename != filename) &&
                  r == attachments[..i] + attachments[i + 1..]
  {
    if HasFile(attachments, filename) then
      var i := FirstFile(attachments, filename);
      attachments[..i] + attachments[i + 1..]
    else attachments
  }

  /** Cutting out the entry at `i` keeps the remaining names distinct and drops that name. */
  lemma CutKeepsUnique(attachments: seq<Attachment>, i: nat)
    requires UniqueFilenames(attachments) && i < |attachments|
    ensures UniqueFilenames(attachments[..i] + attachments[i + 1..])
    ensures !HasFile(attachments[..i] + attachments[i + 1..], attachments[i].filename)
  {
    var r := attachments[..i] + attachments[i + 1..];
    assert forall j :: 0 <= j < |r| ==> r[j] == attachments[if j < i then j else j + 1];
  }

  /** With distinct names, removal leaves no entry of that name and keeps the rest distinct. */
  lemma WithoutFileKeepsUnique(attachments: seq<Attachment>, filename: string)
    requires UniqueFilenames(attachments)
    ensures UniqueFilenames(WithoutFile(attachments, filename))
    ensures !HasFile(WithoutFile(attachments, filename), filename)
  {
    if HasFile(attachments, filename) {
      CutKeepsUnique(attachments, FirstFile(attachments, filename));
    }
  }

  /** Adding a fresh file name and then removing it restores the list. */
  lemma AddThenRemove(attachments: seq<Attachment>, filename: string, description: string, uploadTime: int)
    requires !HasFile(attachments, filename)
    ensures WithoutFile(WithAttachment(attachments, filename, description, uploadTime), filename) == attachments
  {
    var added := WithAttachment(attachments, filename, description, uploadTime);
    assert added[|attachments|].filename == filename;
    var i := FirstFile(added, filename);
    assert added[..i] == attachments && added[i + 1..] == [];
  }

  // ------------------------------------------------- decorator objects

  /** The forwarding base: every getter and setter goes to the wrapped
      intervention; the decorator keeps no record fields of its own. */
  class InterventionDecorator {
    const intervention: Intervention

    /** Takes the wrapped intervention over. */
    constructor (intervention: Intervention)
      ensures this.intervention == intervention
    {
      this.intervention := intervention;
    }

    function GetType(): (name: string)
      reads this, intervention
      ensures name == TypeName(intervention.Snapshot().variant)
    {
      intervention.GetType()
    }

    function GetId(): (id: int)
      reads this, intervention
      ensures id == intervention.Snapshot().id
    {
      intervention.id
    }

    function GetFields(): (r: Record)
      reads this, intervention
      ensures r == intervention.Snapshot()
    {
      intervention.Snapshot()
    }

    method SetId(id: int)
      modifies intervention
      ensures intervention.Snapshot() == old(intervention.Snapshot()).(id := id)
    {
      intervention.SetId(id);
    }

    method SetLocation(location: string)
      modifies intervention
      ensures intervention.Snapshot() == old(intervention.Snapshot()).(location := location)
    {
      intervention.SetLocation(location);
    }

    method SetDate(date: int)
      modifies intervention
      ensures intervention.Snapshot() == old(intervention.Snapshot()).(date := date)
    {
      intervention.SetDate(date);
    }

    method SetDuration(duration: int)
      modifies intervention
      ensures intervention.Snapshot() == old(intervention.Snapshot()).(duration := duration)
    {
      intervention.SetDuration(duration);
    }

    method SetTechnicianId(technicianId: string)
      modifies intervention
      ensures intervention.Snapshot() == old(intervention.Snapshot()).(technicianId := technicianId)
    {
      intervention.SetTechnicianId(technicianId);
    }

    method SetStatus(status: string)
      modifies intervention
      ensures intervention.Snapshot() == old(intervention.Snapshot()).(status := status)
    {
      intervention.SetStatus(status);
    }

    method SetComments(comments: string)
      modifies intervention
      ensures intervention.Snapshot() == old(intervention.Snapshot()).(comments := comments)
    {
      intervention.SetComments(comments);
    }
  }

  /** The GPS decorator's own state, updated in place. */
  class GPSTrackingDecorator {
    const intervention: Intervention
    var trackingData: seq<GpsCoordinate>
    var updateFrequency: int

    function State(): GpsState
      reads this
    {
      GpsState(trackingData, updateFrequency)
    }

    constructor (intervention: Intervention, updateFrequency: int)
      ensures this.intervention == intervention
      ensures State() == NewGps(updateFrequency)
    {
      this.intervention := intervention;
      trackingData := [];
      this.updateFrequency := if updateFrequency < 1 then 1 else updateFrequency;
    }

    method AddCoordinate(latitude: real, longitude: real, timestamp: int)
      modifies this
      ensures State() == WithCoordinate(old(State()), latitude, longitude, timestamp)
      ensures unchanged(intervention)
    {
      trackingData := trackingData + [GpsCoordinate(latitude, longitude, timestamp)];
    }

    function GetCurrentLocation(): (real, real)
      reads this
    {
      LatestLocation(State())
    }

    method SetUpdateFrequency(minutes: int)
      modifies this
      ensures State() == WithFrequency(old(State()), minutes)
      ensures unchanged(intervention)
    {
      var m := minutes;
      if m < 1 {
        m := 1;
      }
      updateFrequency := m;
    }

    function GetUpdateFrequency(): int
      reads this
    {
      updateFrequency
    }

    function GetTrackingData(): seq<GpsCoordinate>
      reads this
    {
      trackingData
    }
  }

  /** The attachments decorator's own list, updated in place. */
  class AttachmentsDecorator {
    const intervention: Intervention
    var attachments: seq<Attachment>

    ghost predicate Valid()
      reads this
    {
      UniqueFilenames(attachments)
    }

    constructor (intervention: Intervention)
      ensures this.intervention == intervention
      ensures Valid() && attachments == []
    {
      this.intervention := intervention;
      attachments := [];
    }

    /** `std::any_of` over the entries. */
    method HasAttachment(filename: string) returns (found: bool)
      ensures found == HasFile(attachments, filename)
    {
      var i := 0;
      while i < |attachments|
        invariant 0 <= i <= |attachments|
        invariant forall k :: 0 <= k < i ==> attachments[k].filename != filename
      {
        if attachments[i].filename == filename {
          return true;
        }
        i := i + 1;
      }
      found := false;
    }

    method AddAttachment(filename: string, description: string, uploadTime: int) returns (ok: bool)
      requires Valid()
      modifies this
      ensures Valid()
      ensures ok == !HasFile(old(attachments), filename)
      ensures attachments == WithAttachment(old(attachments), filename, description, uploadTime)
      ensures unchanged(intervention)
    {
      var present := HasAttachment(filename);
      if present {
        return false;
      }
      attachments := attachments + [Attachment(filename, description, uploadTime)];
      ok := true;
    }

    /** `std::find_if` for the first entry with the name, then `erase`. */
    method RemoveAttachment(filename: string) returns (ok: bool)
      requires Valid()
      modifies this
      ensures Valid()
      ensures ok == HasFile(old(attachments), filename)
      ensures attachments == WithoutFile(old(attachments), filename)
      ensures !HasFile(attachments, filename)
      ensures unchanged(intervention)
    {
      WithoutFileKeepsUnique(attachments, filename);
      var i := 0;
      while i < |attachments| && attachments[i].filename != filename
        invariant 0 <= i <= |attachments|
        invariant forall k :: 0 <= k < i ==> attachments[k].filename != filename
      {
        i := i + 1;
      }
      if i == |attachments| {
        return false;
      }
      assert HasFile(attachments, filename);
      assert FirstFile(attachments, filename) == i;
      attachments := attachments[..i] + attachments[i + 1..];
      ok := true;
    }

    /** Collects the names in insertion order. */
    method GetAttachmentFilenames() returns (filenames: seq<string>)
      ensures filenames == FilenamesOf(attachments)
    {
      filenames := [];
      for i := 0 to |attachments|
        invariant filenames == FilenamesOf(attachments[..i])
      {
        assert attachments[..i + 1][..i] == attachments[..i];
        filenames := filenames + [attachments[i].filename];
      }
      assert attachments[..|attachments|] == attachments;
    }

    function GetAttachmentCount(): (n: nat)
      reads this
      ensures n == |FilenamesOf(attachments)|
    {
      |attachments|
    }
  }

  // ------------------------------------------------------- layer chain

  /** One decorator layer with its own state. */
  datatype Layer = GpsLayer(gps: GpsState) | AttachmentsLayer(attachments: seq<Attachment>)

  predicate ValidLayer(l: Layer) {
    match l
    case GpsLayer(g) => ValidGps(g)
    case AttachmentsLayer(a) => UniqueFilenames(a)
  }

  /** A stored intervention: the innermost record plus its layers, outermost last. */
  datatype Decorated = Decorated(base: Record, layers: seq<Layer>)

  ghost predicate ValidDecorated(d: Decorated) {
    ValidVariant(d.base.variant) && forall i :: 0 <= i < |d.layers| ==> ValidLayer(d.layers[i])
  }

  /** An undecorated intervention. */
  function Plain(r: Record): (d: Decorated)
    ensures d.base == r && d.layers == []
  {
    Decorated(r, [])
  }

  /** Wraps the stored value in one more layer. */
  function AddLayer(d: Decorated, l: Layer): (r: Decorated)
    ensures r.base == d.base && r.layers == d.layers + [l]
  {
    Decorated(d.base, d.layers + [l])
  }

  /** The outermost layer (what a `dynamic_cast` of the stored `unique_ptr` sees), if any. */
  function Outermost(d: Decorated): (l: Option<Layer>)
    ensures d.layers == [] <==> l.None?
    ensures l.Some? ==> l.value == d.layers[|d.layers| - 1]
  {
    if |d.layers| == 0 then None else Some(d.layers[|d.layers| - 1])
  }

  /** Replaces the outermost layer's state, the record and inner layers unchanged. */
  function WithOutermost(d: Decorated, l: Layer): (r: Decorated)
    requires d.layers != []
    ensures r.base == d.base && |r.layers| == |d.layers|
    ensures r.layers[..|d.layers| - 1] == d.layers[..|d.layers| - 1]
    ensures Outermost(r) == Some(l)
  {
    Decorated(d.base, d.layers[..|d.layers| - 1] + [l])
  }

  /** Replacing the outermost layer by a well-formed one keeps the value well formed. */
  lemma {:induction false} WithOutermostKeepsValid(d: Decorated, l: Layer)
    requires ValidDecorated(d) && d.layers != [] && ValidLayer(l)
    ensures ValidDecorated(WithOutermost(d, l))
  {
    var r := WithOutermost(d, l);
    forall i | 0 <= i < |r.layers|
      ensures ValidLayer(r.layers[i])
    {
      if i < |d.layers| - 1 {
        assert r.layers[i] == r.layers[..|d.layers| - 1][i] == d.layers[i];
      }
    }
  }

  /** One record setter, as a value. */
  datatype Update =
    | SetId(id: int)
    | SetLocation(location: string)
    | SetDate(date: int)
    | SetDuration(duration: int)
    | SetTechnicianId(technicianId: string)
    | SetStatus(status: string)
    | SetComments(comments: string)

  /** The record after one setter: exactly its own field changes; the variant never does. */
  function Apply(r: Record, u: Update): (r': Record)
    ensures r'.variant == r.variant
    ensures !u.SetId? ==> r'.id == r.id
    ensures !u.SetLocation? ==> r'.location == r.location
    ensures !u.SetDate? ==> r'.date == r.date
    ensures !u.SetDuration? ==> r'.duration == r.duration
    ensures !u.SetTechnicianId? ==> r'.technicianId == r.technicianId
    ensures !u.SetStatus? ==> r'.status == r.status
    ensures !u.SetComments? ==> r'.comments == r.comments
  {
    match u
    case SetId(v) => r.(id := v)
    case SetLocation(v) => r.(location := v)
    case SetDate(v) => r.(date := v)
    case SetDuration(v) => r.(duration := v)
    case SetTechnicianId(v) => r.(technicianId := v)
    case SetStatus(v) => r.(status := v)
    case SetComments(v) => r.(comments := v)
  }

  /** A setter on the stored value writes through every layer to the record. */
  function Write(d: Decorated, u: Update): (r: Decorated)
    ensures r.layers == d.layers && r.base == Apply(d.base, u)
  {
    d.(base := Apply(d.base, u))
  }

  /** The source's chain of wrapper objects, nested: each wrapper owns the one inside it. */
  datatype Wrapper = Innermost(record: Record) | Wrap(inner: Wrapper, layer: Layer)

  /** The nested chain a stored value stands for, outermost layer at the top. */
  function Nest(d: Decorated): (w: Wrapper)
    decreases |d.layers|
  {
    if |d.layers| == 0 then Innermost(d.base)
    else Wrap(Nest(Decorated(d.base, d.layers[..|d.layers| - 1])), d.layers[|d.layers| - 1])
  }

  /** A getter on a wrapper: forwarded inward until it reaches the record. */
  function Forward(w: Wrapper): Record {
    match w
    case Innermost(r) => r
    case Wrap(inner, _) => Forward(inner)
  }

  /** A setter on a wrapper: forwarded inward, each layer's own state untouched. */
  function ForwardWrite(w: Wrapper, u: Update): Wrapper {
    match w
    case Innermost(r) => Innermost(Apply(r, u))
    case Wrap(inner, l) => Wrap(ForwardWrite(inner, u), l)
  }

  /** Every getter of the nested chain reads the record, so id, type and
      fields are those of the undecorated intervention. */
  lemma {:induction false} ForwardReadsBase(d: Decorated)
    ensures Forward(Nest(d)) == d.base
    ensures TypeName(Forward(Nest(d)).variant) == TypeName(d.base.variant)
    decreases |d.layers|
  {
    if |d.layers| > 0 {
      ForwardReadsBase(Decorated(d.base, d.layers[..|d.layers| - 1]));
    }
  }

  /** Writing through the nested chain is writing the record of the flat value. */
  lemma {:induction false} ForwardWriteIsWrite(d: Decorated, u: Update)
    ensures ForwardWrite(Nest(d), u) == Nest(Write(d, u))
    decreases |d.layers|
  {
    if |d.layers| > 0 {
      ForwardWriteIsWrite(Decorated(d.base, d.layers[..|d.layers| - 1]), u);
    }
  }

  /** Decorating wraps the current chain in one more object and changes no getter's result. */
  lemma {:induction false} DecoratingPreservesIdentity(d: Decorated, l: Layer)
    ensures Nest(AddLayer(d, l)) == Wrap(Nest(d), l)
    ensures Forward(Nest(AddLayer(d, l))) == Forward(Nest(d))
  {
    var r := AddLayer(d, l);
    assert r.layers[..|r.layers| - 1] == d.layers;
    ForwardReadsBase(d);
    ForwardReadsBase(r);
  }
}
