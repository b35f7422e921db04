/** The portal's JSON document store: every collection lives in one file
    under `data/`, read with a fallback to a `.bak` copy and written through
    a backup copy, a temporary file and an atomic rename.

    The filesystem is a map from path to content; a path that is not in
    the map does not exist. File contents are abstracted to "empty",
    "text that does not parse", "bytes that are not UTF-8" and "parses to
    this document". The advisory lock taken around each access is a no-op
    in this sequential model. */
module DocumentStore {
  import opened JsonValues
  import Parking

  datatype Content = Empty | Garbage | Undecodable | Valid(doc: Json)

  /** A file whose reading fails in a way `load_json` catches
      (`json.JSONDecodeError`): it is empty or its text is not JSON. A file
      that is not UTF-8 fails with `UnicodeDecodeError` instead, which the
      primary's handler does not catch. */
  predicate Broken(c: Content) {
    c.Empty? || c.Garbage?
  }

  type Files = map<string, Content>

  // ---------------------------------------------------------------- paths

  /** The collections the portal keeps, one file each. */
  datatype Collection =
    | Users | Posts | Subscriptions | InfoItems | ParkingConfig
    | ParkingState | Invites | Reactions | Guests

  function NameOf(c: Collection): string {
    match c
    case Users => "users"
    case Posts => "posts"
    case Subscriptions => "subscriptions"
    case InfoItems => "info"
    case ParkingConfig => "parking"
    case ParkingState => "parking_state"
    case Invites => "invites"
    case Reactions => "reactions"
    case Guests => "guests"
  }

  /** The file a collection lives in, relative to the application root. */
  function PathOf(c: Collection): string {
    "data/" + NameOf(c) + ".json"
  }

  /** The value a loader returns when there is nothing usable on disk. */
  function DefaultOf(c: Collection): Json {
    match c
    case Users => JObj(map[])
    case Posts => JArr([])
    case Subscriptions => JObj(map[])
    case InfoItems => JArr([])
    case ParkingConfig => JObj(map["spots" := JArr([])])
    case ParkingState => JObj(map["spots" := JObj(map[]), "subscriptions" := JObj(map[])])
    case Invites => JObj(map[])
    case Reactions => JObj(map[])
    case Guests => JObj(map["guests" := JArr([])])
  }

  /** `path.with_suffix(path.suffix + ".bak")`. */
  function Bak(path: string): string {
    path + ".bak"
  }

  /** The temporary file of one save; `token` stands for the random hex
      suffix drawn for it. */
  function Tmp(path: string, token: string): string {
    path + ".tmp." + token
  }

  /** A file, its backup and its temporary file are three different paths. */
  lemma PathsDistinct(path: string, token: string)
    ensures Bak(path) != path && Tmp(path, token) != path && Tmp(path, token) != Bak(path)
  {
    assert Bak(path)[|path| + 1] == 'b';
    assert Tmp(path, token)[|path| + 1] == 't';
  }

  predicate DotFree(s: string) {
    forall i :: 0 <= i < |s| ==> s[i] != '.'
  }

  /** Position of the first '.' in `s` (or its length when there is none). */
  function FirstDot(s: string): (r: nat)
    ensures r <= |s|
  {
    if s == [] || s[0] == '.' then 0 else 1 + FirstDot(s[1..])
  }

  lemma {:induction false} FirstDotAfter(a: string, rest: string)
    requires DotFree(a)
    ensures FirstDot(a + "." + rest) == |a|
  {
    if a != [] {
      assert (a + "." + rest)[1..] == a[1..] + "." + rest;
      FirstDotAfter(a[1..], rest);
    }
  }

  /** The collection name a data path, its backup or its temporary file
      is about: what lies between "data/" and the first dot. */
  function Stem(s: string): string {
    if |s| < 5 then "" else s[5..][..FirstDot(s[5..])]
  }

  lemma StemOf(c: Collection, suffix: string)
    ensures Stem(PathOf(c) + suffix) == NameOf(c)
  {
    var n := NameOf(c);
    var s := PathOf(c) + suffix;
    assert s[5..] == n + "." + ("json" + suffix);
    FirstDotAfter(n, "json" + suffix);
  }

  /** No collection's file, backup or temporary file is another
      collection's file or backup. */
  lemma CollectionPathsApart(c: Collection, d: Collection, token: string)
    requires c != d
    ensures PathOf(d) !in {PathOf(c), Bak(PathOf(c)), Tmp(PathOf(c), token)}
    ensures Bak(PathOf(d)) !in {PathOf(c), Bak(PathOf(c)), Tmp(PathOf(c), token)}
  {
    assert NameOf(c) != NameOf(d);
    StemOf(c, "");
    StemOf(c, ".bak");
    StemOf(c, ".tmp." + token);
    StemOf(d, "");
    StemOf(d, ".bak");
    assert PathOf(c) + "" == PathOf(c);
    assert PathOf(d) + "" == PathOf(d);
    assert Tmp(PathOf(c), token) == PathOf(c) + (".tmp." + token);
  }

  // ---------------------------------------------------------------- load

  /** What `load_json(path, default)` returns for the files on disk; None
      where it raises. */
  function Loaded(files: Files, path: string, default: Json): (doc: Option<Json>)
    ensures path !in files ==> doc == Some(default)
    ensures path in files && files[path].Valid? ==> doc == Some(files[path].doc)
    ensures path in files && files[path].Undecodable? ==> doc.None?
    ensures path in files && Broken(files[path]) && Bak(path) in files && files[Bak(path)].Valid? ==>
      doc == Some(files[Bak(path)].doc)
    ensures path in files && Broken(files[path]) && !(Bak(path) in files && files[Bak(path)].Valid?) ==>
      doc == Some(default)
  {
    if path !in files then Some(default)
    else match files[path]
      case Valid(d) => Some(d)
      case Undecodable => None
      case _ => if Bak(path) in files && files[Bak(path)].Valid? then Some(files[Bak(path)].doc) else Some(default)
  }

  /** The backup is consulted only when the primary exists and is empty or
      not JSON: whatever it holds otherwise makes no difference. */
  lemma BackupOnlyForBrokenPrimary(files: Files, path: string, default: Json, c: Content)
    requires path !in files || !Broken(files[path])
    ensures Loaded(files[Bak(path) := c], path, default) == Loaded(files, path, default)
  {
    PathsDistinct(path, "");
  }

  // ---------------------------------------------------------------- save

  /** How the best-effort `shutil.copy2(path, bak)` ends: the backup gets
      the primary's content (also when only copying the metadata fails
      afterwards), the copy fails before the backup is opened and leaves it
      as it was, or it fails after opening (and so truncating) the backup
      and leaves `left` there, an empty or partial file. */
  datatype Copy = Copied | Untouched | CutShort(left: Content)

  /** Which best-effort or failing step of one save goes wrong: copying
      the primary to the backup, writing the temporary file, renaming it
      over the primary, removing a leftover temporary file. */
  datatype Faults = Faults(copy: Copy, writeFails: bool, replaceFails: bool, cleanupFails: bool)

  /** The backup after the copy step of a save. */
  function BackedUp(files: Files, path: string, copy: Copy): Files {
    if path !in files then files
    else match copy
      case Copied => files[Bak(path) := files[path]]
      case Untouched => files
      case CutShort(left) => files[Bak(path) := left]
  }

  /** A save returns normally exactly when the write and the rename work;
      otherwise the error propagates to the caller. */
  predicate SaveSucceeds(faults: Faults) {
    !faults.writeFails && !faults.replaceFails
  }

  /** The files after `save_json(path, data)`: it touches no file but the
      primary, its backup and its temporary file, and leaves the
      temporary file behind only when the save failed and removing it
      failed as well. */
  function AfterSave(files: Files, path: string, data: Json, token: string, faults: Faults): (after: Files)
    ensures forall q :: q !in {path, Bak(path), Tmp(path, token)} ==>
      (q in after <==> q in files) && (q in files ==> after[q] == files[q])
    ensures Tmp(path, token) in after <==> !SaveSucceeds(faults) && faults.cleanupFails
  {
    PathsDistinct(path, token);
    var tmp := Tmp(path, token);
    var backedUp := BackedUp(files, path, faults.copy);
    var written := backedUp[tmp := if faults.writeFails then Garbage else Valid(data)];
    var replaced := if SaveSucceeds(faults) then (written - {tmp})[path := Valid(data)] else written;
    if tmp in replaced && !faults.cleanupFails then replaced - {tmp} else replaced
  }

  /** A successful save: the primary holds exactly the new document, the
      backup holds what the primary held just before (it is untouched when
      there was no primary or the copy failed before opening it, and holds
      what the copy left when it was cut short), no temporary file
      remains, and no other file changes. */
  lemma SaveOutcome(files: Files, path: string, data: Json, token: string, faults: Faults)
    requires SaveSucceeds(faults)
    ensures var after := AfterSave(files, path, data, token, faults);
      && after[path] == Valid(data)
      && (path in files && faults.copy.Copied? ==> Bak(path) in after && after[Bak(path)] == files[path])
      && (path in files && faults.copy.CutShort? ==> Bak(path) in after && after[Bak(path)] == faults.copy.left)
      && (path !in files || faults.copy.Untouched? ==>
            (Bak(path) in after <==> Bak(path) in files)
            && (Bak(path) in files ==> after[Bak(path)] == files[Bak(path)]))
      && Tmp(path, token) !in after
      && (forall q :: q !in {path, Bak(path), Tmp(path, token)} ==>
            (q in after <==> q in files) && (q in files ==> after[q] == files[q]))
  {
    PathsDistinct(path, token);
  }

  /** A failed save leaves the primary as it was; the only other trace it
      may leave is the backup copy and, when removing it fails too, the
      temporary file. */
  lemma FailedSaveOutcome(files: Files, path: string, data: Json, token: string, faults: Faults)
    requires !SaveSucceeds(faults)
    ensures var after := AfterSave(files, path, data, token, faults);
      && (path in after <==> path in files)
      && (path in files ==> after[path] == files[path])
      && (Tmp(path, token) in after <==> faults.cleanupFails)
      && (forall q :: q !in {path, Bak(path), Tmp(path, token)} ==>
            (q in after <==> q in files) && (q in files ==> after[q] == files[q]))
  {
    PathsDistinct(path, token);
  }

  /** Loading right after a successful save returns what was saved. */
  lemma LoadAfterSave(files: Files, path: string, data: Json, default: Json, token: string, faults: Faults)
    requires SaveSucceeds(faults)
    ensures Loaded(AfterSave(files, path, data, token, faults), path, default) == Some(data)
  {
    PathsDistinct(path, token);
  }

  /** The version a successful save replaced stays recoverable: should
      the new primary then turn out empty or not JSON, a load returns the
      previous document. */
  lemma PreviousVersionRecoverable(files: Files, path: string, data: Json, default: Json, token: string,
                                   faults: Faults, broken: Content)
    requires SaveSucceeds(faults) && faults.copy.Copied?
    requires path in files && files[path].Valid? && Broken(broken)
    ensures Loaded(AfterSave(files, path, data, token, faults)[path := broken], path, default) == Some(files[path].doc)
  {
    PathsDistinct(path, token);
  }

  /** A failed save does not change what a load returns, as long as the
      primary was missing or not broken (or the backup copy failed before
      it touched the backup). */
  lemma FailedSaveKeepsLoad(files: Files, path: string, data: Json, default: Json, token: string, faults: Faults)
    requires !SaveSucceeds(faults)
    requires path !in files || !Broken(files[path]) || faults.copy.Untouched?
    ensures Loaded(AfterSave(files, path, data, token, faults), path, default) == Loaded(files, path, default)
  {
    PathsDistinct(path, token);
  }

  /** The backup is copied from the primary whether or not the primary is
      readable, and a copy cut short leaves an unreadable backup: a failed
      save over a broken primary whose backup still held a good document
      leaves nothing to recover, and the next load returns the default. */
  lemma FailedSaveOverBrokenPrimary(files: Files, path: string, data: Json, default: Json, token: string,
                                    faults: Faults)
    requires !SaveSucceeds(faults)
    requires faults.copy.Copied? || (faults.copy.CutShort? && !faults.copy.left.Valid?)
    requires path in files && Broken(files[path])
    requires Bak(path) in files && files[Bak(path)].Valid?
    ensures Loaded(files, path, default) == Some(files[Bak(path)].doc)
    ensures Loaded(AfterSave(files, path, data, token, faults), path, default) == Some(default)
  {
    PathsDistinct(path, token);
  }

  /** Saving one collection changes what no other collection loads. */
  lemma SaveIsolated(files: Files, c: Collection, d: Collection, data: Json, token: string, faults: Faults)
    requires c != d
    ensures Loaded(AfterSave(files, PathOf(c), data, token, faults), PathOf(d), DefaultOf(d))
         == Loaded(files, PathOf(d), DefaultOf(d))
  {
    CollectionPathsApart(c, d, token);
    PathsDistinct(PathOf(c), token);
  }

  // ---------------------------------------------------------------- guests

  /** `save_guests` first makes sure the document has a `guests` list,
      replacing a missing or non-list value by an empty list. */
  function NormalizeGuests(data: Json): (r: Json)
    requires data.JObj?
    ensures r.JObj? && "guests" in r.fields && r.fields["guests"].JArr?
    ensures r.fields.Keys == data.fields.Keys + {"guests"}
    ensures forall k :: k in data.fields && k != "guests" ==> r.fields[k] == data.fields[k]
    ensures "guests" in data.fields && data.fields["guests"].JArr? ==> r == data
    ensures !("guests" in data.fields && data.fields["guests"].JArr?) ==> r.fields["guests"] == JArr([])
  {
    if "guests" !in data.fields || !data.fields["guests"].JArr? then JObj(data.fields["guests" := JArr([])])
    else data
  }

  lemma NormalizeGuestsIdempotent(data: Json)
    requires data.JObj?
    ensures NormalizeGuests(NormalizeGuests(data)) == NormalizeGuests(data)
  {
  }

  // ---------------------------------------------------------------- parking state

  /** `state.get("spots", {})` and `state.get("subscriptions", {})`. */
  function StateSpots(state: Json): Json
    requires state.JObj?
  {
    if "spots" in state.fields then state.fields["spots"] else JObj(map[])
  }

  function StateSubscriptions(state: Json): Json
    requires state.JObj?
  {
    if "subscriptions" in state.fields then state.fields["subscriptions"] else JObj(map[])
  }

  /** `parking_cfg.get("spots", [])`. */
  function ConfigSpots(cfg: Json): Json
    requires cfg.JObj?
  {
    if "spots" in cfg.fields then cfg.fields["spots"] else JArr([])
  }

  /** A state document the sweep can run over. */
  predicate StateShaped(state: Json) {
    && state.JObj?
    && StateSpots(state).JObj? && Parking.SweepableSpots(StateSpots(state).fields)
    && StateSubscriptions(state).JObj?
  }

  /** A parking configuration whose spot list can be read for labels. */
  predicate ConfigShaped(cfg: Json) {
    cfg.JObj? && ConfigSpots(cfg).JArr? && Parking.ConfigEntries(ConfigSpots(cfg).items)
  }

  /** The state and the configuration as `load_parking_state` reads them
      without raising: both files load, have the shapes the sweep reads,
      and every `until` compares with the naive clock. */
  predicate SweepReady(state: Option<Json>, cfg: Option<Json>, parse: string -> Option<Parking.Stamp>) {
    && state.Some? && StateShaped(state.value)
    && cfg.Some? && ConfigShaped(cfg.value)
    && Parking.NaiveOnly(StateSpots(state.value).fields, parse)
  }

  /** The state document after the expiry sweep, as it is written back. */
  function Swept(state: Json, now: int, parse: string -> Option<Parking.Stamp>): (r: Json)
    requires StateShaped(state)
    ensures StateShaped(r)
    ensures Parking.NaiveOnly(StateSpots(state).fields, parse) ==> Parking.NaiveOnly(StateSpots(r).fields, parse)
  {
    var spots := StateSpots(state).fields;
    var subs := StateSubscriptions(state).fields;
    var kept := Parking.Remaining(spots, now, parse);
    Parking.SweepIdempotent(spots, subs, [], now, parse);
    JObj(state.fields["spots" := JObj(kept)]["subscriptions" :=
      JObj(Parking.RemainingSubscriptions(spots, subs, now, parse))])
  }

  /** The spots of a loaded state that the sweep would free now. */
  function Expiring(state: Json, now: int, parse: string -> Option<Parking.Stamp>): set<string>
    requires StateShaped(state)
  {
    Parking.ExpiredIds(StateSpots(state).fields, now, parse)
  }

  /** The notifications a sweep of a loaded state is due to send. */
  function DueAfterLoad(state: Json, cfg: Json, now: int, parse: string -> Option<Parking.Stamp>): set<Parking.Notice>
    requires StateShaped(state) && ConfigShaped(cfg)
  {
    var spots := StateSpots(state).fields;
    Parking.DueNotices(spots, StateSubscriptions(state).fields, ConfigSpots(cfg).items, now, parse, spots.Keys)
  }

  /** What loading the parking state yields: the (swept) document, a
      raise before anything is written (a file that is not UTF-8, a
      document of the wrong shape, a `until` with a UTC offset), or a
      write-back that failed. */
  datatype StateLoad = State(doc: Json) | Malformed | SaveFailed

  /** A state written back after a sweep (with the same clock) has
      nothing left to expire and no notification left to send, so the
      next load of it neither notifies nor saves. */
  lemma {:induction false} SecondLoadQuiet(files: Files, now: int, parse: string -> Option<Parking.Stamp>,
                                           token: string, faults: Faults)
    requires SaveSucceeds(faults)
    requires SweepReady(Loaded(files, PathOf(ParkingState), DefaultOf(ParkingState)),
                        Loaded(files, PathOf(ParkingConfig), DefaultOf(ParkingConfig)), parse)
    ensures var state := Loaded(files, PathOf(ParkingState), DefaultOf(ParkingState)).value;
      var after := AfterSave(files, PathOf(ParkingState), Swept(state, now, parse), token, faults);
      var state' := Loaded(after, PathOf(ParkingState), DefaultOf(ParkingState));
      var cfg' := Loaded(after, PathOf(ParkingConfig), DefaultOf(ParkingConfig));
      && state' == Some(Swept(state, now, parse))
      && SweepReady(state', cfg', parse)
      && Expiring(state'.value, now, parse) == {}
      && DueAfterLoad(state'.value, cfg'.value, now, parse) == {}
  {
    var state := Loaded(files, PathOf(ParkingState), DefaultOf(ParkingState)).value;
    var swept := Swept(state, now, parse);
    var after := AfterSave(files, PathOf(ParkingState), swept, token, faults);
    LoadAfterSave(files, PathOf(ParkingState), swept, DefaultOf(ParkingState), token, faults);
    SaveIsolated(files, ParkingState, ParkingConfig, swept, token, faults);
    var cfg := Loaded(files, PathOf(ParkingConfig), DefaultOf(ParkingConfig)).value;
    Parking.SweepIdempotent(StateSpots(state).fields, StateSubscriptions(state).fields,
                            ConfigSpots(cfg).items, now, parse);
  }

  // ---------------------------------------------------------------- the store

  class Store {
    var files: Files

    constructor(initial: Files)
      ensures files == initial
    {
      files := initial;
    }

    /** `load_json(path, default)`; None where it raises. */
    method LoadJson(path: string, default: Json) returns (doc: Option<Json>)
      ensures doc == Loaded(files, path, default)
    {
      if path !in files {
        return Some(default);
      }
      var primary := files[path];
      if primary.Valid? {
        return Some(primary.doc);
      }
      if primary.Undecodable? {
        // UnicodeDecodeError is not among the errors caught for the primary
        return None;
      }
      var bak := Bak(path);
      if bak in files {
        var backup := files[bak];
        if backup.Valid? {
          return Some(backup.doc);
        }
      }
      return Some(default);
    }

    /** `save_json(path, data)`: back the primary up, write the temporary
      file, rename it over the primary, and remove it if it is still
      there. `ok` is false when the write or the rename raised. */
    method SaveJson(path: string, data: Json, token: string, faults: Faults) returns (ok: bool)
      modifies this
      ensures ok <==> SaveSucceeds(faults)
      ensures files == AfterSave(old(files), path, data, token, faults)
    {
      var bak := Bak(path);
      var tmp := Tmp(path, token);
      // 1) best-effort backup of the current file
      if path in files {
        match faults.copy {
          case Copied => files := files[bak := files[path]];
          case Untouched =>
          case CutShort(left) => files := files[bak := left];
        }
      }
      // 2) the temporary file; a failed write leaves a partial one
      if faults.writeFails {
        files := files[tmp := Garbage];
      } else {
        files := files[tmp := Valid(data)];
        // 3) atomic rename over the primary
        if !faults.replaceFails {
          files := (files - {tmp})[path := Valid(data)];
        }
      }
      // finally: best-effort removal of a leftover temporary file
      if tmp in files && !faults.cleanupFails {
        files := files - {tmp};
      }
      ok := SaveSucceeds(faults);
    }

    /** The `load_*` wrappers: each collection with its own default. */
    method Load(c: Collection) returns (doc: Option<Json>)
      ensures doc == Loaded(files, PathOf(c), DefaultOf(c))
      ensures PathOf(c) !in files ==> doc == Some(DefaultOf(c))
    {
      doc := LoadJson(PathOf(c), DefaultOf(c));
    }

    /** The plain `save_*` wrappers (there is none for the info items, and
      the guests have their own). */
    method Save(c: Collection, data: Json, token: string, faults: Faults) returns (ok: bool)
      requires c != InfoItems && c != Guests
      modifies this
      ensures ok <==> SaveSucceeds(faults)
      ensures files == AfterSave(old(files), PathOf(c), data, token, faults)
    {
      ok := SaveJson(PathOf(c), data, token, faults);
    }

    /** `save_guests`: normalise the document in the caller's hands
      (returned as `data'`), then save it. */
    method SaveGuests(data: Json, token: string, faults: Faults) returns (ok: bool, data': Json)
      requires data.JObj?
      modifies this
      ensures data' == NormalizeGuests(data)
      ensures ok <==> SaveSucceeds(faults)
      ensures files == AfterSave(old(files), PathOf(Guests), data', token, faults)
    {
      data' := data;
      if "guests" !in data.fields || !data.fields["guests"].JArr? {
        data' := JObj(data.fields["guests" := JArr([])]);
      }
      ok := SaveJson(PathOf(Guests), data', token, faults);
    }

    /** `load_parking_state`: load the state and the configuration, sweep
      expired spots (notifying as it goes), and write the state back when
      the sweep changed it. `trace` holds the notifications sent, `wrote`
      whether a save was attempted. */
    method LoadParkingState(now: int, parse: string -> Option<Parking.Stamp>, token: string, faults: Faults)
      returns (result: StateLoad, trace: seq<Parking.Notice>, wrote: bool)
      modifies this
      ensures var state := Loaded(old(files), PathOf(ParkingState), DefaultOf(ParkingState));
        var cfg := Loaded(old(files), PathOf(ParkingConfig), DefaultOf(ParkingConfig));
        && (result.Malformed? <==> !SweepReady(state, cfg, parse))
        && (result.Malformed? ==> files == old(files) && trace == [] && !wrote)
        && (!result.Malformed? ==>
              && (set n | n in trace) == DueAfterLoad(state.value, cfg.value, now, parse)
              && Parking.NoRepeats(trace)
              && (wrote <==> Expiring(state.value, now, parse) != {})
              && (!wrote ==> result == State(state.value) && files == old(files))
              && (wrote ==> files == AfterSave(old(files), PathOf(ParkingState), Swept(state.value, now, parse), token, faults))
              && (wrote ==> result == if SaveSucceeds(faults) then State(Swept(state.value, now, parse)) else SaveFailed))
    {
      trace, wrote := [], false;
      var loaded := Load(ParkingState);
      if loaded.None? || !StateShaped(loaded.value) {
        return Malformed, trace, wrote;
      }
      var state := loaded.value;
      var cfgLoaded := Load(ParkingConfig);
      if cfgLoaded.None? || !ConfigShaped(cfgLoaded.value) {
        return Malformed, trace, wrote;
      }
      var cfg := cfgLoaded.value;
      if !Parking.NaiveOnly(StateSpots(state).fields, parse) {
        return Malformed, trace, wrote;
      }
      var spots, subs, sent, changed :=
        Parking.Sweep(StateSpots(state).fields, StateSubscriptions(state).fields, ConfigSpots(cfg).items, now, parse);
      trace := sent;
      if !changed {
        return State(state), trace, wrote;
      }
      var written := JObj(state.fields["spots" := JObj(spots)]["subscriptions" := JObj(subs)]);
      assert written == Swept(state, now, parse);
      var ok := SaveJson(PathOf(ParkingState), written, token, faults);
      wrote := true;
      result := if ok then State(written) else SaveFailed;
    }
  }
}
