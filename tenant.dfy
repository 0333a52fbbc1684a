/**
 * The tenant schema (backend/models/Tenant.js): how an input document is cast (trimmed strings,
 * defaults for missing paths), which validators fail and with what messages, the unique index on
 * `name`, and the pre-save hook. A missing path is None (`undefined`); `now` is `Date.now()`.
 */
module TenantModel {
  import opened Wrappers
  import opened Text
  import VideoModel

  /** The `status` enum. */
  datatype TenantStatus = Active | Suspended | Deleted {
    function Name(): string {
      match this
      case Active => "active"
      case Suspended => "suspended"
      case Deleted => "deleted"
    }
  }

  function ParseTenantStatus(s: string): (r: Option<TenantStatus>)
    ensures r.Some? ==> r.value.Name() == s
    ensures r.None? ==> s !in {"active", "suspended", "deleted"}
  {
    if s == "active" then Some(Active)
    else if s == "suspended" then Some(Suspended)
    else if s == "deleted" then Some(Deleted)
    else None
  }

  const MiB: real := 1024.0 * 1024.0

  /** Lines 16-38: the defaults and bounds of `settings`. */
  const DefaultMaxVideoSize: real := 200.0 * MiB
  const MinMaxVideoSize: real := 10.0 * MiB
  const DefaultAllowedVideoTypes: seq<string> := [".mp4", ".mov", ".avi", ".mkv"]
  const DefaultRetentionDays: real := 30.0
  const MinRetentionDays: real := 1.0
  const MaxRetentionDays: real := 365.0
  const MaxNameLength := 100
  const MaxDescriptionLength := 500

  const NameRequiredMessage := "Tenant name is required"
  const NameTooLongMessage := "Name cannot exceed 100 characters"
  const DescriptionTooLongMessage := "Description cannot exceed 500 characters"
  const MaxVideoSizeMessage := "Minimum video size is 10MB"
  const MinRetentionMessage := "Minimum retention is 1 day"
  const MaxRetentionMessage := "Maximum retention is 365 days"

  /** A document as given to `new Tenant(...)`; every path may be missing. */
  datatype TenantInput = TenantInput(
    name: Option<string>,
    description: Option<string>,
    maxVideoSize: Option<real>,
    allowedVideoTypes: Option<seq<string>>,
    analysisEnabled: Option<bool>,
    autoAnalysis: Option<bool>,
    retentionDays: Option<real>,
    status: Option<string>,
    createdAt: Option<int>,
    updatedAt: Option<int>)

  datatype Settings = Settings(maxVideoSize: real, allowedVideoTypes: seq<string>, analysisEnabled: bool,
                               autoAnalysis: bool, retentionDays: real)

  /** The document after casting: strings trimmed, defaults filled in, not yet validated. */
  datatype CastTenant = CastTenant(name: Option<string>, description: Option<string>, settings: Settings,
                                   status: string, createdAt: int, updatedAt: int)

  /** A stored tenant: a cast document that passed validation. */
  datatype Tenant = Tenant(name: string, description: Option<string>, settings: Settings,
                           status: TenantStatus, createdAt: int, updatedAt: int)

  function OrElse<T>(o: Option<T>, d: T): (r: T)
    ensures o.Some? ==> r == o.value
    ensures o.None? ==> r == d
  {
    if o.Some? then o.value else d
  }

  /** The `trim` setter on a string path that may be missing. */
  function TrimOption(s: Option<string>): (r: Option<string>)
    ensures r.Some? <==> s.Some?
    ensures r.Some? ==> r.value == Trim(s.value)
    ensures r.Some? ==> |r.value| <= |s.value|
    ensures r.Some? && r.value != [] ==> !IsSpace(r.value[0]) && !IsSpace(r.value[|r.value| - 1])
  {
    if s.Some? then Some(Trim(s.value)) else None
  }

  /** Casting: setters run and every missing path with a default takes it. */
  function Cast(input: TenantInput, now: int): (c: CastTenant)
    ensures c.name == TrimOption(input.name) && c.description == TrimOption(input.description)
    ensures c.settings.maxVideoSize == OrElse(input.maxVideoSize, DefaultMaxVideoSize)
    ensures c.settings.allowedVideoTypes == OrElse(input.allowedVideoTypes, DefaultAllowedVideoTypes)
    ensures c.settings.analysisEnabled == OrElse(input.analysisEnabled, true)
    ensures c.settings.autoAnalysis == OrElse(input.autoAnalysis, false)
    ensures c.settings.retentionDays == OrElse(input.retentionDays, DefaultRetentionDays)
    ensures c.status == OrElse(input.status, Active.Name())
    ensures c.createdAt == OrElse(input.createdAt, now) && c.updatedAt == OrElse(input.updatedAt, now)
  {
    CastTenant(
      TrimOption(input.name),
      TrimOption(input.description),
      Settings(OrElse(input.maxVideoSize, DefaultMaxVideoSize),
               OrElse(input.allowedVideoTypes, DefaultAllowedVideoTypes),
               OrElse(input.analysisEnabled, true),
               OrElse(input.autoAnalysis, false),
               OrElse(input.retentionDays, DefaultRetentionDays)),
      OrElse(input.status, Active.Name()),
      OrElse(input.createdAt, now),
      OrElse(input.updatedAt, now))
  }

  /** The message of the failing validator of `name`, if any: required (non-empty), then maxlength. */
  function NameError(name: Option<string>): (e: Option<string>)
    ensures e.None? <==> name.Some? && 0 < |name.value| <= MaxNameLength
  {
    if name.None? || name.value == "" then Some(NameRequiredMessage)
    else if |name.value| > MaxNameLength then Some(NameTooLongMessage)
    else None
  }

  /** Line 19: `min` on the maximum video size. */
  function MaxVideoSizeError(size: real): (e: Option<string>)
    ensures e.None? <==> size >= MinMaxVideoSize
  {
    if size < MinMaxVideoSize then Some(MaxVideoSizeMessage) else None
  }

  /** Lines 36-37: `min` and `max` on the retention. */
  function RetentionError(days: real): (e: Option<string>)
    ensures e.None? <==> MinRetentionDays <= days <= MaxRetentionDays
  {
    if days < MinRetentionDays then Some(MinRetentionMessage)
    else if days > MaxRetentionDays then Some(MaxRetentionMessage)
    else None
  }

  /** The failing validators of the name and description paths. */
  function TextErrors(c: CastTenant): (errors: map<string, string>)
    ensures "name" in errors <==> NameError(c.name).Some?
    ensures "name" in errors ==> errors["name"] == NameError(c.name).value
    ensures "description" in errors <==> c.description.Some? && |c.description.value| > MaxDescriptionLength
    ensures errors.Keys <= {"name", "description"}
  {
    var e0: map<string, string> := map[];
    var e1 := if NameError(c.name).Some? then e0["name" := NameError(c.name).value] else e0;
    if c.description.Some? && |c.description.value| > MaxDescriptionLength
    then e1["description" := DescriptionTooLongMessage] else e1
  }

  /** The failing validators of the two numeric settings, added to `errors`. */
  function SettingsErrors(c: CastTenant, errors: map<string, string>): (r: map<string, string>)
    requires errors.Keys <= {"name", "description"}
    ensures forall p :: p in errors ==> p in r && r[p] == errors[p]
    ensures "settings.maxVideoSize" in r <==> c.settings.maxVideoSize < MinMaxVideoSize
    ensures "settings.retentionDays" in r <==> !(MinRetentionDays <= c.settings.retentionDays <= MaxRetentionDays)
    ensures r.Keys <= errors.Keys + {"settings.maxVideoSize", "settings.retentionDays"}
  {
    var e3 := if MaxVideoSizeError(c.settings.maxVideoSize).Some?
              then errors["settings.maxVideoSize" := MaxVideoSizeError(c.settings.maxVideoSize).value] else errors;
    if RetentionError(c.settings.retentionDays).Some?
    then e3["settings.retentionDays" := RetentionError(c.settings.retentionDays).value] else e3
  }

  /** The failing validators, by path, as mongoose reports them all together. */
  function ValidationErrors(c: CastTenant): (errors: map<string, string>)
    ensures "name" in errors <==> NameError(c.name).Some?
    ensures "name" in errors ==> errors["name"] == NameError(c.name).value
    ensures "description" in errors <==> c.description.Some? && |c.description.value| > MaxDescriptionLength
    ensures "settings.maxVideoSize" in errors <==> c.settings.maxVideoSize < MinMaxVideoSize
    ensures "settings.retentionDays" in errors <==> !(MinRetentionDays <= c.settings.retentionDays <= MaxRetentionDays)
    ensures "status" in errors <==> ParseTenantStatus(c.status).None?
    ensures "status" in errors ==> errors["status"] == VideoModel.EnumMessage(c.status, "status")
    ensures errors.Keys <= {"name", "description", "settings.maxVideoSize", "settings.retentionDays", "status"}
  {
    var e4 := SettingsErrors(c, TextErrors(c));
    if ParseTenantStatus(c.status).None? then e4["status" := VideoModel.EnumMessage(c.status, "status")] else e4
  }

  /** Casting then validating: a tenant, or the errors by path. */
  function Validate(input: TenantInput, now: int): (r: Result<Tenant>)
    ensures r.Ok? <==> ValidationErrors(Cast(input, now)) == map[]
    ensures r.Ok? ==>
      && Some(r.value.name) == TrimOption(input.name)
      && r.value.name != "" && |r.value.name| <= MaxNameLength
      && (r.value.description.Some? ==> |r.value.description.value| <= MaxDescriptionLength)
      && r.value.settings == Cast(input, now).settings
      && MinMaxVideoSize <= r.value.settings.maxVideoSize
      && MinRetentionDays <= r.value.settings.retentionDays <= MaxRetentionDays
      && r.value.status.Name() == OrElse(input.status, "active")
      && r.value.description == Cast(input, now).description
      && r.value.createdAt == Cast(input, now).createdAt && r.value.updatedAt == Cast(input, now).updatedAt
    ensures r.Err? ==> r.message == ValidationMessage(ValidationErrors(Cast(input, now)))
  {
    var c := Cast(input, now);
    var errors := ValidationErrors(c);
    if errors != map[] then Err(ValidationMessage(errors))
    else
      assert "name" !in errors && "status" !in errors;
      Ok(Tenant(c.name.value, c.description, c.settings, ParseTenantStatus(c.status).value, c.createdAt, c.updatedAt))
  }

  /**
   * The validated paths in schema order. The model reports their errors in this order; mongoose's
   * own order follows its validation order, which is not part of this model.
   */
  const PathOrder := ["name", "description", "settings.maxVideoSize", "settings.retentionDays", "status"]

  /** The paths of `paths` that have an error, in the order of `paths`. */
  function FailingPaths(paths: seq<string>, errors: map<string, string>): (failing: seq<string>)
    ensures forall p :: p in failing <==> p in paths && p in errors
    ensures IsSubsequence(failing, paths)
  {
    if paths == [] then []
    else
      var rest := FailingPaths(paths[1..], errors);
      assert forall p :: p in paths <==> p == paths[0] || p in paths[1..];
      if paths[0] in errors then [paths[0]] + rest else rest
  }

  /** One entry of the message: the path, a colon and its error. */
  function Entry(path: string, message: string): string {
    path + ": " + message
  }

  /** "path: message" for each path of `paths` that failed, in order. */
  function FailingEntries(paths: seq<string>, errors: map<string, string>): (r: seq<string>)
    ensures |r| == |FailingPaths(paths, errors)|
    ensures forall k :: 0 <= k < |r| ==>
      var p := FailingPaths(paths, errors)[k];
      p in errors && r[k] == Entry(p, errors[p])
  {
    if paths == [] then []
    else
      (if paths[0] in errors then [Entry(paths[0], errors[paths[0]])] else [])
      + FailingEntries(paths[1..], errors)
  }

  const ValidationPrefix := "Tenant validation failed: "

  /** The message of mongoose's ValidationError. */
  function ValidationMessage(errors: map<string, string>): (m: string)
    ensures StartsWith(m, ValidationPrefix)
    ensures (forall p :: p in PathOrder ==> p !in errors) ==> m == ValidationPrefix
  {
    var entries := FailingEntries(PathOrder, errors);
    assert (forall p :: p in PathOrder ==> p !in errors) ==> entries == [] by {
      assert |entries| == |FailingPaths(PathOrder, errors)|;
    }
    ValidationPrefix + Join(entries, ", ")
  }

  /**
   * The message of a failed validation lists an entry for exactly the failing paths, in schema
   * order, each with that path's error.
   */
  lemma ValidationMessageListsFailures(c: CastTenant)
    ensures
      var errors := ValidationErrors(c);
      var failing := FailingPaths(PathOrder, errors);
      && (forall p :: p in failing <==> p in errors)
      && IsSubsequence(failing, PathOrder)
      && ValidationMessage(errors) == ValidationPrefix + Join(FailingEntries(PathOrder, errors), ", ")
  {
    var errors := ValidationErrors(c);
    forall p | p in errors ensures p in PathOrder {
      assert p in {"name", "description", "settings.maxVideoSize", "settings.retentionDays", "status"};
    }
  }

  /** An input naming only a name takes every default and is valid when the trimmed name is 1 to 100 characters. */
  lemma DefaultsApply(name: string, now: int)
    requires 0 < |Trim(name)| <= MaxNameLength
    ensures
      var r := Validate(TenantInput(Some(name), None, None, None, None, None, None, None, None, None), now);
      && r.Ok?
      && r.value.settings == Settings(200.0 * 1024.0 * 1024.0, [".mp4", ".mov", ".avi", ".mkv"], true, false, 30.0)
      && r.value.status == Active
      && r.value.createdAt == now && r.value.updatedAt == now
  {
    var c := Cast(TenantInput(Some(name), None, None, None, None, None, None, None, None, None), now);
    assert ParseTenantStatus(c.status) == Some(Active);
    assert ValidationErrors(c).Keys == {};
  }

  /** A name that trims to nothing is reported as missing, whatever else the input holds. */
  lemma BlankNameRequired(input: TenantInput, now: int)
    requires input.name.None? || Trim(input.name.value) == ""
    ensures
      var errors := ValidationErrors(Cast(input, now));
      "name" in errors && errors["name"] == NameRequiredMessage
  {
    var c := Cast(input, now);
    assert c.name.None? || c.name.value == "";
    assert NameError(c.name) == Some(NameRequiredMessage);
  }

  /** White space around the name is not counted against the limit and is not stored. */
  lemma PaddedNameStoredTrimmed(name: string, input: TenantInput, now: int)
    requires name != [] && !IsSpace(name[0]) && !IsSpace(name[|name| - 1])
    requires input.name == Some(" " + name + " ")
    requires Validate(input, now).Ok?
    ensures Validate(input, now).value.name == name
  {
    TrimOfPadded(name);
  }

  // -------------------------------------------------------------------------------------------
  // The unique index on name
  // -------------------------------------------------------------------------------------------

  predicate UniqueNames(tenants: seq<Tenant>) {
    forall i, j :: 0 <= i < j < |tenants| ==> tenants[i].name != tenants[j].name
  }

  const DuplicateNameMessage := "E11000 duplicate key error: name"

  /** Line 64: inserting a tenant whose name is taken fails; otherwise it is appended. */
  function InsertTenant(tenants: seq<Tenant>, t: Tenant): (r: Result<seq<Tenant>>)
    ensures r.Ok? <==> forall i :: 0 <= i < |tenants| ==> tenants[i].name != t.name
    ensures r.Ok? ==> r.value == tenants + [t]
    ensures r.Err? ==> r.message == DuplicateNameMessage
  {
    if exists i :: 0 <= i < |tenants| && tenants[i].name == t.name then Err(DuplicateNameMessage)
    else Ok(tenants + [t])
  }

  /** The index keeps names unique. */
  lemma InsertKeepsNamesUnique(tenants: seq<Tenant>, t: Tenant)
    requires UniqueNames(tenants)
    requires InsertTenant(tenants, t).Ok?
    ensures UniqueNames(InsertTenant(tenants, t).value)
  {
    var r := tenants + [t];
    forall i, j | 0 <= i < j < |r| ensures r[i].name != r[j].name {
      if j == |tenants| {
        assert r[i] == tenants[i];
      } else {
        assert r[i] == tenants[i] && r[j] == tenants[j];
      }
    }
  }

  // -------------------------------------------------------------------------------------------
  // The pre-save hook
  // -------------------------------------------------------------------------------------------

  /** A loaded tenant document. */
  class TenantDocument {
    var name: string
    var description: Option<string>
    var settings: Settings
    var status: TenantStatus
    var createdAt: int
    var updatedAt: int

    constructor (t: Tenant)
      ensures Snapshot() == t
    {
      name := t.name;
      description := t.description;
      settings := t.settings;
      status := t.status;
      createdAt := t.createdAt;
      updatedAt := t.updatedAt;
    }

    function Snapshot(): (t: Tenant)
      reads this
      ensures t.name == name && t.updatedAt == updatedAt
    {
      Tenant(name, description, settings, status, createdAt, updatedAt)
    }

    /** Lines 58-61: `this.updatedAt = Date.now()`, and nothing else. */
    method PreSave(now: int)
      modifies this`updatedAt
      ensures Snapshot() == old(Snapshot()).(updatedAt := now)
    {
      updatedAt := now;
    }
  }
}
