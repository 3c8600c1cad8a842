/** zone_store.rs: a list of zones held in a cache over one durably saved file. Here each operation runs on its own,
    over a disk that can lose power; DurableStore covers interleavings, restarts and power losses. */
module ZoneStore {
  import opened CrashDisk
  import opened Text

  datatype Zone = Zone(zoneId: string, name: string, latitude: Option<real>, longitude: Option<real>,
                       radius: real, passive: bool, icon: Option<string>)

  /** None leaves a field alone; Some(None) clears an optional one. */
  datatype Patch = Patch(name: Option<string>, latitude: Option<Option<real>>, longitude: Option<Option<real>>,
                         radius: Option<real>, passive: Option<bool>, icon: Option<Option<string>>)

  datatype Result<T> = Ok(value: T) | Failed

  function GetOr<T>(o: Option<T>, default: T): T {
    match o case None => default case Some(v) => v
  }

  function Patched(z: Zone, p: Patch): Zone {
    Zone(z.zoneId, GetOr(p.name, z.name), GetOr(p.latitude, z.latitude), GetOr(p.longitude, z.longitude),
         GetOr(p.radius, z.radius), GetOr(p.passive, z.passive), GetOr(p.icon, z.icon))
  }

  predicate Has(zones: seq<Zone>, id: string) {
    exists i :: 0 <= i < |zones| && zones[i].zoneId == id
  }

  predicate UniqueIds(zones: seq<Zone>) {
    forall i, j :: 0 <= i < j < |zones| ==> zones[i].zoneId != zones[j].zoneId
  }

  /** The id a new zone gets: its slug, with a suffix of a fresh UUID when the slug is taken. */
  function NewId(zones: seq<Zone>, slug: string, suffix: string): string {
    if Has(zones, slug) then slug + "_" + suffix else slug
  }

  function Trimmed(s: string): string {
    if s != "" && s[0] == '_' then Trimmed(s[1..]) else TrimEndMatches(s, "_")
  }

  // ---------------------------------------------------------------------------
  // Slugs
  // ---------------------------------------------------------------------------

  /** The characters of the lower-cased name that slugify keeps, spaces as underscores. Unicode is a parameter. */
  function Slug(lowered: string, isAlphanumeric: char -> bool): string {
    if lowered == "" then ""
    else
      var c := if lowered[0] == ' ' then '_' else lowered[0];
      (if isAlphanumeric(c) || c == '_' then [c] else "") + Slug(lowered[1..], isAlphanumeric)
  }

  method Slugify(lowered: string, isAlphanumeric: char -> bool) returns (slug: string)
    ensures slug == Slug(lowered, isAlphanumeric)
  {
    slug := "";
    for i := 0 to |lowered|
      invariant slug + Slug(lowered[i..], isAlphanumeric) == Slug(lowered, isAlphanumeric)
    {
      var c := if lowered[i] == ' ' then '_' else lowered[i];
      assert lowered[i..][1..] == lowered[i + 1..];
      if isAlphanumeric(c) || c == '_' {
        Regroup(slug, [c], Slug(lowered[i + 1..], isAlphanumeric));
        slug := slug + [c];
      }
    }
  }

  lemma {:induction false} SlugOfBoth(a: string, b: string, isAlphanumeric: char -> bool)
    ensures Slug(a + b, isAlphanumeric) == Slug(a, isAlphanumeric) + Slug(b, isAlphanumeric)
  {
    if a == "" {
      assert "" + b == b;
    } else {
      SlugOfBoth(a[1..], b, isAlphanumeric);
      assert (a + b)[1..] == a[1..] + b && (a + b)[0] == a[0];
      var c := if a[0] == ' ' then '_' else a[0];
      Regroup(if isAlphanumeric(c) || c == '_' then [c] else "", Slug(a[1..], isAlphanumeric), Slug(b, isAlphanumeric));
    }
  }

  /** Spaces become underscores, alphanumeric characters and underscores stay, all others go, in order. */
  lemma SlugByCharacter(a: string, c: char, isAlphanumeric: char -> bool)
    ensures Slug("", isAlphanumeric) == ""
    ensures Slug(a + [c], isAlphanumeric) == Slug(a, isAlphanumeric) +
      if c == ' ' || c == '_' then "_" else if isAlphanumeric(c) then [c] else ""
  {
    SlugOfBoth(a, [c], isAlphanumeric);
    assert [c][1..] == "" && "_" == ['_'];
  }

  lemma {:induction false} TrimmedKeeps(s: string)
    ensures Trimmed(s) == "" <==> forall c :: c in s ==> c == '_'
  {
    if s == "" {
    } else if s[0] == '_' {
      TrimmedKeeps(s[1..]);
      assert forall c :: c in s <==> c == s[0] || c in s[1..];
    } else {
      assert s[0] in s;
      TrimKeepsFirst(s);
    }
  }

  lemma {:induction false} TrimKeepsFirst(s: string)
    requires s != "" && s[0] != '_'
    ensures TrimEndMatches(s, "_") != ""
    decreases |s|
  {
    if EndsWith(s, "_") {
      assert s[|s| - 1] == "_"[0];
      TrimKeepsFirst(s[..|s| - 1]);
    }
  }

  /** A name is rejected exactly if no alphanumeric character is in it. */
  lemma {:induction false} RejectedNames(lowered: string, isAlphanumeric: char -> bool)
    requires !isAlphanumeric('_') && !isAlphanumeric(' ')
    ensures Trimmed(Slug(lowered, isAlphanumeric)) == "" <==> forall c :: c in lowered ==> !isAlphanumeric(c)
    ensures forall c :: c in Slug(lowered, isAlphanumeric) ==> isAlphanumeric(c) || c == '_'
  {
    TrimmedKeeps(Slug(lowered, isAlphanumeric));
    if lowered != "" {
      var rest := Slug(lowered[1..], isAlphanumeric);
      RejectedNames(lowered[1..], isAlphanumeric);
      TrimmedKeeps(rest);
      assert forall c :: c in lowered <==> c == lowered[0] || c in lowered[1..];
      var d := if lowered[0] == ' ' then '_' else lowered[0];
      var slug := Slug(lowered, isAlphanumeric);
      assert forall c :: c in slug <==> (c == d && (isAlphanumeric(d) || d == '_')) || c in rest;
      if isAlphanumeric(lowered[0]) {
        assert lowered[0] in slug && lowered[0] != '_';
      } else {
        assert (forall c :: c in slug ==> c == '_') <==> forall c :: c in rest ==> c == '_';
      }
    }
  }

  // ---------------------------------------------------------------------------
  // The list
  // ---------------------------------------------------------------------------

  /** The first zone with the id, or the number of zones. */
  function Find(zones: seq<Zone>, id: string): (i: nat)
    ensures i <= |zones|
    ensures i < |zones| ==> zones[i].zoneId == id
    ensures forall j :: 0 <= j < i ==> zones[j].zoneId != id
  {
    if zones == [] || zones[0].zoneId == id then 0 else 1 + Find(zones[1..], id)
  }

  function Updated(zones: seq<Zone>, id: string, p: Patch): seq<Zone> {
    var i := Find(zones, id);
    if i < |zones| then zones[i := Patched(zones[i], p)] else zones
  }

  function Deleted(zones: seq<Zone>, id: string): seq<Zone> {
    if zones == [] then []
    else if zones[0].zoneId == id then Deleted(zones[1..], id)
    else [zones[0]] + Deleted(zones[1..], id)
  }

  lemma HasCons(z: Zone, zones: seq<Zone>)
    ensures forall id :: Has([z] + zones, id) <==> z.zoneId == id || Has(zones, id)
  {
    var all := [z] + zones;
    assert all[0] == z;
    forall id
      ensures Has(all, id) <==> z.zoneId == id || Has(zones, id)
    {
      if Has(zones, id) {
        var i :| 0 <= i < |zones| && zones[i].zoneId == id;
        assert all[i + 1].zoneId == id;
      }
      if Has(all, id) {
        var i :| 0 <= i < |all| && all[i].zoneId == id;
        assert i > 0 ==> zones[i - 1].zoneId == id;
      }
    }
  }

  /** Deleting keeps exactly the other zones, and their order. */
  lemma {:induction false} DeletedKeepsOthers(zones: seq<Zone>, id: string)
    ensures forall other :: Has(Deleted(zones, id), other) <==> other != id && Has(zones, other)
    ensures |Deleted(zones, id)| == |zones| <==> !Has(zones, id)
    ensures |Deleted(zones, id)| <= |zones|
    ensures !Has(zones, id) ==> Deleted(zones, id) == zones
    ensures UniqueIds(zones) ==> UniqueIds(Deleted(zones, id))
  {
    if zones != [] {
      var z, rest := zones[0], zones[1..];
      DeletedKeepsOthers(rest, id);
      assert zones == [z] + rest;
      HasCons(z, rest);
      HasCons(z, Deleted(rest, id));
      if UniqueIds(zones) && z.zoneId != id {
        assert !Has(rest, z.zoneId);
        assert !Has(Deleted(rest, id), z.zoneId);
      }
    }
  }

  /** A patch changes exactly the fields it names, and never the id. */
  lemma PatchChangesItsFields(z: Zone, p: Patch)
    ensures var z' := Patched(z, p);
      && z'.zoneId == z.zoneId
      && (if p.name.Some? then z'.name == p.name.value else z'.name == z.name)
      && (if p.latitude.Some? then z'.latitude == p.latitude.value else z'.latitude == z.latitude)
      && (if p.longitude.Some? then z'.longitude == p.longitude.value else z'.longitude == z.longitude)
      && (if p.radius.Some? then z'.radius == p.radius.value else z'.radius == z.radius)
      && (if p.passive.Some? then z'.passive == p.passive.value else z'.passive == z.passive)
      && (if p.icon.Some? then z'.icon == p.icon.value else z'.icon == z.icon)
  {
  }

  lemma {:induction false} DeletedOfBoth(a: seq<Zone>, b: seq<Zone>, id: string)
    ensures Deleted(a + b, id) == Deleted(a, id) + Deleted(b, id)
  {
    if a == [] {
      assert a + b == b;
    } else {
      assert (a + b)[1..] == a[1..] + b;
      DeletedOfBoth(a[1..], b, id);
    }
  }

  /** Deleting a zone by its id takes out that zone and leaves the others as they are, in order. */
  lemma DeletedTakesOneOut(before: seq<Zone>, z: Zone, behind: seq<Zone>)
    requires !Has(before, z.zoneId) && !Has(behind, z.zoneId)
    ensures Deleted(before + ([z] + behind), z.zoneId) == before + behind
  {
    DeletedOfBoth(before, [z] + behind, z.zoneId);
    DeletedKeepsOthers(before, z.zoneId);
    DeletedKeepsOthers(behind, z.zoneId);
    assert ([z] + behind)[1..] == behind;
  }

  /** Updating changes the one zone with the id and leaves the others as they are, in order. */
  lemma UpdatedPatchesOne(zones: seq<Zone>, i: nat, p: Patch)
    requires UniqueIds(zones) && i < |zones|
    ensures Updated(zones, zones[i].zoneId, p) == zones[..i] + [Patched(zones[i], p)] + zones[i + 1..]
  {
    assert Find(zones, zones[i].zoneId) == i;
  }

  /** Ids stay unique through every operation, given that a fresh suffix makes a fresh id. */
  lemma IdsStayUnique(zones: seq<Zone>, z: Zone, slug: string, suffix: string, id: string, p: Patch)
    requires UniqueIds(zones) && z.zoneId == NewId(zones, slug, suffix) && !Has(zones, slug + "_" + suffix)
    ensures UniqueIds(zones + [z]) && UniqueIds(Updated(zones, id, p)) && UniqueIds(Deleted(zones, id))
  {
    DeletedKeepsOthers(zones, id);
    assert !Has(zones, z.zoneId);
  }

  /** What creating adds to the list. */
  function NewZone(zones: seq<Zone>, name: string, slug: string, suffix: string, latitude: Option<real>,
                   longitude: Option<real>, radius: Option<real>, passive: Option<bool>, icon: Option<string>): Zone
  {
    Zone(NewId(zones, slug, suffix), name, latitude, longitude, GetOr(radius, 100.0), GetOr(passive, false), icon)
  }

  /** In literal terms: a taken slug gets the suffix behind an underscore, the radius is 100 and the zone active unless
      the caller says otherwise, and everything else is as given. */
  lemma NewZoneInFields(zones: seq<Zone>, name: string, slug: string, suffix: string, latitude: Option<real>,
                        longitude: Option<real>, radius: Option<real>, passive: Option<bool>, icon: Option<string>)
    ensures var z := NewZone(zones, name, slug, suffix, latitude, longitude, radius, passive, icon);
      && z.zoneId == (if exists i :: 0 <= i < |zones| && zones[i].zoneId == slug then slug + "_" + suffix else slug)
      && z.name == name && z.latitude == latitude && z.longitude == longitude && z.icon == icon
      && (radius == Some(z.radius) || (radius == None && z.radius == 100.0))
      && (passive == Some(z.passive) || (passive == None && !z.passive))
  {
  }

  /** Publishing is no call and cannot fail. */
  predicate Saves(fails: Option<Point>) {
    fails == None || fails == Some(Publishing)
  }

  /** The values a power loss may bring back behind a save: the saved one; or, behind a failed one, those there were,
      and the new one too if only the directory sync failed. */
  function PossibleAfterSave<V>(possible: seq<V>, v: V, fails: Option<Point>): seq<V> {
    if Saves(fails) then [v] else if fails == Some(SyncingDir) then possible + [v] else possible
  }

  /** The calls before the rename leave what may come back alone, wherever they stop. */
  lemma TmpCallsDoNotShow<V>(d: Disk<V>, v: V, mixed: Content<V>, possible: seq<V>, default: V)
    requires Sound(d) && Names(d, possible, default)
    ensures var created := CreateTmp(d);
      var file := created.tmp.value;
      var written := WriteFile(created, file, v, mixed);
      var synced := SyncFile(written, file);
      && Sound(created) && Names(created, possible, default)
      && Sound(PutContent(created, file, mixed)) && Names(PutContent(created, file, mixed), possible, default)
      && Sound(written) && Names(written, possible, default)
      && Sound(synced) && Names(synced, possible, default) && Leads(synced, synced.tmp, v, default)
  {
    var created := CreateTmp(d);
    var file := created.tmp.value;
    var written := WriteFile(created, file, v, mixed);
    SaveStepKeepsNames(d, Save([], v, Creating, 0), true, mixed, possible, default);
    SaveStepKeepsNames(created, Save([], v, Writing, file), false, mixed, possible, default);
    SaveStepKeepsNames(created, Save([], v, Writing, file), true, mixed, possible, default);
    SaveStepKeepsNames(written, Save([], v, SyncingFile, file), true, mixed, possible, default);
  }

  class ZoneStore {
    var disk: Disk<seq<Zone>>
    var cache: Option<seq<Zone>>

    /** The list of the last successful operation, and the lists of operations whose directory sync failed since:
        a power loss may bring back any of them. */
    ghost predicate Holds(zones: seq<Zone>, failed: seq<seq<Zone>>)
      reads this
    {
      && Sound(disk) && Names(disk, [zones] + failed, [])
      && (if cache.Some? then cache.value == zones else failed == [])
    }

    /** There is no cache, and the file cannot be read or does not parse. */
    predicate CannotLoad(readable: bool)
      reads this
    {
      cache == None && (!readable || ReadFinal(disk, []).ParseError?)
    }

    constructor ()
      ensures Holds([], [])
    {
      disk := Disk(map[], {}, None, None, {None}, 0);
      cache := None;
      new;
      var empty: seq<Zone> := [];
      assert Leads(disk, None, [empty][0], empty);
    }

    /** The calls of save_bytes_atomic in order. A call that fails ends the save with an error. */
    method SaveBytesAtomic(zones: seq<Zone>, fails: Option<Point>, mixed: Content<seq<Zone>>,
                           ghost possible: seq<seq<Zone>>)
      returns (ok: bool)
      requires Sound(disk) && Names(disk, possible, [])
      modifies this`disk
      ensures ok == Saves(fails)
      ensures Sound(disk) && Names(disk, PossibleAfterSave(possible, zones, fails), [])
    {
      TmpCallsDoNotShow(disk, zones, mixed, possible, []);
      if fails == Some(Creating) { return false; }
      disk := CreateTmp(disk);
      var file := disk.tmp.value;
      if fails == Some(Writing) {
        disk := PutContent(disk, file, mixed);
        return false;
      }
      disk := WriteFile(disk, file, zones, mixed);
      if fails == Some(SyncingFile) { return false; }
      disk := SyncFile(disk, file);
      if fails == Some(Renaming) { return false; }
      RenameAddsOne(disk, zones, possible, []);
      disk := RenameTmp(disk);
      if fails == Some(SyncingDir) { return false; }
      SyncDirLeavesOne(disk, possible + [zones], []);
      disk := SyncDir(disk);
      assert fails.Some? ==> fails.value.Publishing?;
      ok := true;
    }

    method Save(zones: seq<Zone>, fails: Option<Point>, mixed: Content<seq<Zone>>,
                ghost before: seq<Zone>, ghost failed: seq<seq<Zone>>)
      returns (ok: bool)
      requires Holds(before, failed) && cache.Some?
      modifies this
      ensures ok == Saves(fails)
      ensures if ok then Holds(zones, [])
              else Holds(before, if fails == Some(SyncingDir) then failed + [zones] else failed)
    {
      ok := SaveBytesAtomic(zones, fails, mixed, [before] + failed);
      assert [before] + failed + [zones] == [before] + (failed + [zones]);
      assert [zones] + [] == [zones];
      if ok {
        cache := Some(zones);
      }
    }

    /** The cache, or else the file, which then fills the cache. */
    method LoadLocked(readable: bool) returns (r: Result<seq<Zone>>)
      modifies this`cache
      ensures r.Failed? <==> old(CannotLoad(readable))
      ensures r.Ok? ==> Value(r.value) == if old(cache).Some? then Value(old(cache).value) else ReadFinal(disk, [])
      ensures cache == if r.Ok? then Some(r.value) else old(cache)
      ensures forall zones, failed :: old(Holds(zones, failed)) ==>
        Holds(zones, failed) && (r.Ok? ==> r.value == zones)
    {
      if cache.Some? {
        return Ok(cache.value);
      }
      if !readable || ReadFinal(disk, []).ParseError? {
        return Failed;
      }
      r := Ok(ReadFinal(disk, []).value);
      cache := Some(r.value);
    }

    method Create(name: string, lowered: string, isAlphanumeric: char -> bool, suffix: string,
                  latitude: Option<real>, longitude: Option<real>, radius: Option<real>, passive: Option<bool>,
                  icon: Option<string>, readable: bool, fails: Option<Point>, mixed: Content<seq<Zone>>,
                  ghost zones: seq<Zone>, ghost failed: seq<seq<Zone>>)
      returns (r: Result<Zone>)
      requires Holds(zones, failed) || CannotLoad(readable)
      modifies this
      ensures old(CannotLoad(readable)) ==> r.Failed? && unchanged(this)
      ensures !old(CannotLoad(readable)) ==>
        var slug := Slug(lowered, isAlphanumeric);
        var zone := NewZone(zones, name, slug, suffix, latitude, longitude, radius, passive, icon);
        if Trimmed(slug) == "" then r.Failed? && Holds(zones, failed)
        else if Saves(fails) then r == Ok(zone) && Holds(zones + [zone], [])
        else r.Failed? && Holds(zones, if fails == Some(SyncingDir) then failed + [zones + [zone]] else failed)
    {
      var loaded := LoadLocked(readable);
      var slug := Slugify(lowered, isAlphanumeric);
      if loaded.Failed? || Trimmed(slug) == "" {
        return Failed;
      }
      var data := loaded.value;
      var taken := exists i :: 0 <= i < |data| && data[i].zoneId == slug;
      var zone := Zone(if taken then slug + "_" + suffix else slug, name, latitude, longitude,
                       GetOr(radius, 100.0), GetOr(passive, false), icon);
      var ok := Save(data + [zone], fails, mixed, zones, failed);
      r := if ok then Ok(zone) else Failed;
    }

    method Update(id: string, p: Patch, readable: bool, fails: Option<Point>, mixed: Content<seq<Zone>>,
                  ghost zones: seq<Zone>, ghost failed: seq<seq<Zone>>)
      returns (r: Result<Option<Zone>>)
      requires Holds(zones, failed) || CannotLoad(readable)
      modifies this
      ensures old(CannotLoad(readable)) ==> r.Failed? && unchanged(this)
      ensures !old(CannotLoad(readable)) ==>
        var i := Find(zones, id);
        if !Has(zones, id) then r == Ok(None) && Holds(zones, failed)
        else if Saves(fails) then r == Ok(Some(Patched(zones[i], p))) && Holds(Updated(zones, id, p), [])
        else r.Failed? && Holds(zones, if fails == Some(SyncingDir) then failed + [Updated(zones, id, p)] else failed)
    {
      var loaded := LoadLocked(readable);
      if loaded.Failed? {
        return Failed;
      }
      var data := loaded.value;
      var i := Find(data, id);
      if i == |data| {
        return Ok(None);
      }
      var updated := Patched(data[i], p);
      var ok := Save(data[i := updated], fails, mixed, zones, failed);
      r := if ok then Ok(Some(updated)) else Failed;
    }

    method Delete(id: string, readable: bool, fails: Option<Point>, mixed: Content<seq<Zone>>,
                  ghost zones: seq<Zone>, ghost failed: seq<seq<Zone>>)
      returns (r: Result<bool>)
      requires Holds(zones, failed) || CannotLoad(readable)
      modifies this
      ensures old(CannotLoad(readable)) ==> r.Failed? && unchanged(this)
      ensures !old(CannotLoad(readable)) ==>
        if !Has(zones, id) then r == Ok(false) && Holds(zones, failed)
        else if Saves(fails) then r == Ok(true) && Holds(Deleted(zones, id), [])
        else r.Failed? && Holds(zones, if fails == Some(SyncingDir) then failed + [Deleted(zones, id)] else failed)
    {
      var loaded := LoadLocked(readable);
      if loaded.Failed? {
        return Failed;
      }
      var data := loaded.value;
      var kept := Deleted(data, id);
      DeletedKeepsOthers(data, id);
      if |kept| == |data| {
        return Ok(false);
      }
      var ok := Save(kept, fails, mixed, zones, failed);
      r := if ok then Ok(true) else Failed;
    }
  }

  /** A power loss brings back the list of the last successful operation or one of an operation whose directory sync
      failed since, and may bring back each of them. */
  lemma WhatMayComeBack(store: ZoneStore, zones: seq<Zone>, failed: seq<seq<Zone>>, back: Loaded<seq<Zone>>)
    requires store.Holds(zones, failed)
    ensures MayComeBack(store.disk, back, []) <==> back == Value(zones) || (back.Value? && back.value in failed)
  {
    ExactlyThePossible(store.disk, [zones] + failed, back, []);
  }
}
