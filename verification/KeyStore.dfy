/** The project-key cache (core/src/keystore.ts): loading and normalizing the file, the three
    edits, and what a call does when nobody interferes. */
module KeyStore {
  import opened Common

  /** A stored project, field by field; an absent field is an absent key. */
  type Record = map<string, string>

  /** What the file holds, as far as the loader can tell. */
  datatype Content =
    | Missing
    | Broken                     // not JSON, or an entry the loader cannot read
    | Legacy(items: seq<Record>) // the old array format
    | Stored(projects: map<string, Record>, origin: Option<string>, importedAt: Option<string>)
    | Other

  datatype KeyStore = KeyStore(projects: map<string, Record>, origin: Option<string>, importedAt: Option<string>)

  const EMPTY := KeyStore(map[], None, None)

  datatype Op = Save(id: string, project: Record) | Update(id: string, fields: Record) | Remove(id: string)

  const OBSOLETE := {"tier", "lease_expires_at", "expires_at"}

  predicate Truthy(r: Record, key: string) {
    key in r && r[key] != ""
  }

  // ---------------------------------------------------------------- load and save

  function LegacyRecord(item: Record, now: string): Record {
    (map k | k in item && (k == "anon_key" || k == "service_key" || ((k == "site_url" || k == "deployed_at") && item[k] != "")) :: item[k])
    + map["cached_at" := now, "source" := "legacy_projects_json"]
  }

  /** Later items of the array replace earlier ones with the same id. */
  function LegacyProjects(items: seq<Record>, now: string): map<string, Record>
    decreases |items|
  {
    if items == [] then map[]
    else
      var last := items[|items| - 1];
      var rest := LegacyProjects(items[..|items| - 1], now);
      if Truthy(last, "project_id") then rest[last["project_id"] := LegacyRecord(last, now)] else rest
  }

  function Strip(r: Record): Record {
    r - OBSOLETE
  }

  function Load(c: Content, now: string): KeyStore {
    match c
    case Legacy(items) => KeyStore(LegacyProjects(items, now), None, None)
    case Stored(projects, origin, at) => KeyStore(map id | id in projects :: Strip(projects[id]), origin, at)
    case _ => EMPTY
  }

  function KeepText(text: Option<string>): Option<string> {
    if text == Some("") then None else text
  }

  /** What `saveKeyStore` writes. */
  function Written(store: KeyStore): Content {
    Stored(store.projects, KeepText(store.origin), KeepText(store.importedAt))
  }

  /** The fields, with the old `cached_at` or a new one. */
  function Cached(r: Record, earlier: Record, now: string): Record {
    r["cached_at" := if "cached_at" in earlier then earlier["cached_at"] else now]
  }

  /** The edit of a loaded store; `None` when there is nothing to save. */
  function Edited(op: Op, store: KeyStore, now: string): Option<KeyStore> {
    match op
    case Save(id, project) => Some(store.(projects := store.projects[id := Cached(project, project, now)]))
    case Update(id, fields) =>
      if id !in store.projects then None
      else Some(store.(projects := store.projects[id := Cached(store.projects[id] + fields, store.projects[id], now)]))
    case Remove(id) => Some(store.(projects := store.projects - {id}))
  }

  /** What the file holds after `op` on file `c`: the whole of the locked section, in one step. */
  function Apply(op: Op, c: Content, loadedAt: string, now: string): Content {
    var e := Edited(op, Load(c, loadedAt), now);
    if e.None? then c else Written(e.value)
  }

  /** A reader's view of one project. */
  function GetProject(c: Content, id: string, now: string): Option<Record> {
    var projects := Load(c, now).projects;
    if id in projects then Some(projects[id]) else None
  }

  // ---------------------------------------------------------------- what the edits mean

  lemma {:induction false} LegacyClean(items: seq<Record>, now: string, id: string)
    requires id in LegacyProjects(items, now)
    ensures Strip(LegacyProjects(items, now)[id]) == LegacyProjects(items, now)[id]
    decreases |items|
  {
    var last := items[|items| - 1];
    if !(Truthy(last, "project_id") && last["project_id"] == id) {
      LegacyClean(items[..|items| - 1], now, id);
    }
  }

  lemma StripLoaded(c: Content, now: string, id: string)
    ensures id in Load(c, now).projects ==> Strip(Load(c, now).projects[id]) == Load(c, now).projects[id]
  {
    if c.Legacy? && id in Load(c, now).projects {
      LegacyClean(c.items, now, id);
    }
  }

  /** What an edit means to a reader of the project `id`. */
  function Effect(op: Op, id: string, before: Option<Record>, now: string): Option<Record> {
    if id != op.id then before
    else match op
      case Save(_, project) => Some(Strip(Cached(project, project, now)))
      case Remove(_) => None
      case Update(_, fields) => if before.None? then None else Some(Strip(Cached(before.value + fields, before.value, now)))
  }

  /** Reading back an edit: the edited project as edited, every other one as it was. (A legacy file
      an update leaves alone keeps stamping its entries at each load.) */
  lemma EffectOf(op: Op, c: Content, loadedAt: string, now: string, id: string, t: string)
    requires c.Legacy? && op.Update? ==> t == loadedAt
    ensures GetProject(Apply(op, c, loadedAt, now), id, t) == Effect(op, id, GetProject(c, id, loadedAt), now)
  {
    StripLoaded(c, loadedAt, id);
  }

  // ---------------------------------------------------------------- field by field

  /** The fields of `r` besides `cached_at` are those of `from` that are not obsolete. */
  ghost predicate FieldsOf(r: Record, from: Record) {
    forall k | k != "cached_at" ::
      if k == "tier" || k == "lease_expires_at" || k == "expires_at" then k !in r
      else (k in r <==> k in from) && (k in r ==> r[k] == from[k])
  }

  /** `r` is the project as saved: its fields, and when it was first cached. */
  ghost predicate SavedAs(r: Record, project: Record, now: string) {
    FieldsOf(r, project) && "cached_at" in r && r["cached_at"] == if "cached_at" in project then project["cached_at"] else now
  }

  /** `r` is `before` with the update's fields over its own, still cached when it was. */
  ghost predicate UpdatedAs(r: Record, before: Record, fields: Record, now: string) {
    && (forall k | k != "cached_at" ::
          if k == "tier" || k == "lease_expires_at" || k == "expires_at" then k !in r
          else (k in r <==> k in fields || k in before) && (k in r ==> r[k] == if k in fields then fields[k] else before[k]))
    && "cached_at" in r && r["cached_at"] == if "cached_at" in before then before["cached_at"] else now
  }

  lemma EffectSaves(op: Op, before: Option<Record>, now: string)
    ensures op.Save? ==> Effect(op, op.id, before, now).Some? && SavedAs(Effect(op, op.id, before, now).value, op.project, now)
    ensures op.Update? ==> Effect(op, op.id, before, now).Some? == before.Some?
    ensures op.Update? && before.Some? ==> UpdatedAs(Effect(op, op.id, before, now).value, before.value, op.fields, now)
    ensures op.Remove? ==> Effect(op, op.id, before, now).None?
    ensures forall id | id != op.id :: Effect(op, id, before, now) == before
  {
  }

  /** What a reader finds after an edit: the saved project, field by field; the updated one, if it was
      there; a removed one not at all; and every other project as it was. */
  lemma EditRead(op: Op, c: Content, loadedAt: string, now: string, id: string, t: string)
    requires c.Legacy? && op.Update? ==> t == loadedAt
    ensures var before, after := GetProject(c, id, loadedAt), GetProject(Apply(op, c, loadedAt, now), id, t);
      if id != op.id then after == before
      else match op
        case Save(_, project) => after.Some? && SavedAs(after.value, project, now)
        case Update(_, fields) => after.Some? == before.Some? && (before.Some? ==> UpdatedAs(after.value, before.value, fields, now))
        case Remove(_) => after.None?
  {
    hide *;
    EffectOf(op, c, loadedAt, now, id, t);
    EffectSaves(op, GetProject(c, id, loadedAt), now);
  }

  /** What is read of a file in the current format, of one in the old array format, and of neither. */
  lemma FileRead(c: Content, id: string, t: string)
    ensures c.Stored? ==> (GetProject(c, id, t).Some? <==> id in c.projects)
    ensures c.Stored? && id in c.projects ==> FieldsOf(GetProject(c, id, t).value, c.projects[id])
    ensures c.Stored? && id in c.projects ==>
      ("cached_at" in GetProject(c, id, t).value <==> "cached_at" in c.projects[id])
      && ("cached_at" in c.projects[id] ==> GetProject(c, id, t).value["cached_at"] == c.projects[id]["cached_at"])
    ensures c.Legacy? ==> (GetProject(c, id, t).Some? <==> exists j | 0 <= j < |c.items| :: Names(c.items[j], id))
    ensures c.Legacy? ==> forall j | 0 <= j < |c.items| && Names(c.items[j], id) && (forall m | j < m < |c.items| :: !Names(c.items[m], id)) ::
      GetProject(c, id, t).Some? && ImportedAs(GetProject(c, id, t).value, c.items[j], t)
    ensures c.Missing? || c.Broken? || c.Other? ==> GetProject(c, id, t).None?
  {
    if c.Legacy? { LegacyRead(c.items, id, t); }
  }

  predicate Names(item: Record, id: string) {
    id != "" && "project_id" in item && item["project_id"] == id
  }

  /** `r` is what an item of the old array format is imported as. */
  ghost predicate ImportedAs(r: Record, item: Record, now: string) {
    && "cached_at" in r && r["cached_at"] == now && "source" in r && r["source"] == "legacy_projects_json"
    && forall k | k != "cached_at" && k != "source" ::
         && (k in r <==> k in item && (k == "anon_key" || k == "service_key" || ((k == "site_url" || k == "deployed_at") && item[k] != "")))
         && (k in r ==> r[k] == item[k])
  }

  lemma {:induction false} LegacyRead(items: seq<Record>, id: string, t: string)
    ensures id in LegacyProjects(items, t) <==> exists j | 0 <= j < |items| :: Names(items[j], id)
    ensures forall j | 0 <= j < |items| && Names(items[j], id) && (forall m | j < m < |items| :: !Names(items[m], id)) ::
      id in LegacyProjects(items, t) && ImportedAs(LegacyProjects(items, t)[id], items[j], t)
    decreases |items|
  {
    hide ImportedAs, LegacyRecord;
    if items != [] {
      var n := |items| - 1;
      var init := items[..n];
      LegacyRead(init, id, t);
      assert forall j | 0 <= j < n :: init[j] == items[j];
      LegacyImports(items[n], t);
      if exists j | 0 <= j < |items| :: Names(items[j], id) {
        var j :| 0 <= j < |items| && Names(items[j], id);
        if j < n { assert Names(init[j], id); }
      }
    }
  }

  lemma LegacyImports(item: Record, t: string)
    ensures ImportedAs(LegacyRecord(item, t), item, t)
  {
  }

  /** Where the cache was imported from and when: kept by every edit that writes, unless empty. */
  lemma OriginKept(op: Op, c: Content, loadedAt: string, now: string, t: string)
    requires c.Stored?
    ensures var after := Apply(op, c, loadedAt, now);
      && after.Stored?
      && (after.origin == if c.origin == Some("") && after != c then None else c.origin)
      && (after.importedAt == if c.importedAt == Some("") && after != c then None else c.importedAt)
      && Load(after, t).origin == after.origin && Load(after, t).importedAt == after.importedAt
  {
  }

  lemma CommuteAt(a: Op, b: Op, c: Content, t: string, now: string, id: string)
    requires a.id != b.id
    ensures GetProject(Apply(a, Apply(b, c, t, now), t, now), id, t) == GetProject(Apply(b, Apply(a, c, t, now), t, now), id, t)
  {
    EffectOf(b, c, t, now, id, t);
    EffectOf(a, c, t, now, id, t);
    EffectOf(a, Apply(b, c, t, now), t, now, id, t);
    EffectOf(b, Apply(a, c, t, now), t, now, id, t);
    hide Apply, GetProject;
  }

  /** Edits of different projects commute for every reader. */
  lemma DifferentIdsCommute(a: Op, b: Op, c: Content, t: string, now: string)
    requires a.id != b.id
    ensures Load(Apply(a, Apply(b, c, t, now), t, now), t).projects == Load(Apply(b, Apply(a, c, t, now), t, now), t).projects
  {
    var x, y := Load(Apply(a, Apply(b, c, t, now), t, now), t).projects, Load(Apply(b, Apply(a, c, t, now), t, now), t).projects;
    forall id
      ensures (id in x <==> id in y) && (id in x ==> x[id] == y[id])
    {
      CommuteAt(a, b, c, t, now, id);
    }
  }

  // ---------------------------------------------------------------- the code's own form

  const RETRIES := 200

  /** What one try to make the lock directory meets: other processes decide. */
  datatype Attempt = Made | Exists | Fails

  datatype Acquired = Got(tries: nat) | GaveUp | Threw

  /** The first try that does not find the directory there. */
  predicate Settles(attempts: nat -> Attempt, n: nat) {
    attempts(n) != Exists && forall j: nat | j < n :: attempts(j) == Exists
  }

  /** `withFileLock` up to the locked section, against whatever the tries meet: it is entered at the
      first try that makes the directory, if every try before found it there; another error ends it. */
  method Acquire(attempts: nat -> Attempt) returns (r: Acquired)
    ensures r.Got? <==> exists n: nat | n < 200 :: Settles(attempts, n) && attempts(n) == Made
    ensures r.Threw? <==> exists n: nat | n < 200 :: Settles(attempts, n) && attempts(n) == Fails
    ensures r.GaveUp? <==> forall n: nat | n < 200 :: attempts(n) == Exists
    ensures r.Got? ==> r.tries < 200 && Settles(attempts, r.tries) && attempts(r.tries) == Made
  {
    var i := 0;
    while i < RETRIES
      invariant i <= RETRIES && forall j: nat | j < i :: attempts(j) == Exists
    {
      if attempts(i) == Fails {
        assert Settles(attempts, i);
        return Threw;
      }
      if attempts(i) == Made {
        assert Settles(attempts, i);
        return Got(i);
      }
      i := i + 1;
    }
    return GaveUp;
  }

  /** The directory, used by one process while no other runs. */
  class Disk {
    var file: Content
    var locked: bool
    var temp: map<string, Content>

    constructor (c: Content)
      ensures file == c && !locked && temp == map[]
    {
      file, locked, temp := c, false, map[];
    }

    method SaveKeyStore(store: KeyStore, name: string)
      modifies this`file, this`temp
      ensures file == Written(store) && temp == old(temp) - {name}
    {
      temp := temp[name := Written(store)];
      file := temp[name];
      temp := temp - {name};
    }

    /** One locked call: `op` takes effect and the lock is free again, or the lock was taken and
        nothing changes. */
    method Call(op: Op, name: string, loadedAt: string, now: string) returns (ok: bool)
      modifies this
      ensures ok == !old(locked) && locked == old(locked)
      ensures file == if ok then Apply(op, old(file), loadedAt, now) else old(file)
      ensures forall other | other != name :: (other in temp <==> other in old(temp)) && (other in temp ==> temp[other] == old(temp)[other])
    {
      var taken := locked;
      var attempts := (n: nat) => if taken then Exists else Made;
      var r := Acquire(attempts);
      assert !taken ==> Settles(attempts, 0) && attempts(0) == Made;
      assert taken ==> attempts(0) == Exists;
      ok := r.Got?;
      if !ok { return; }
      locked := true;
      var store := Load(file, loadedAt);
      match op {
        case Save(id, project) =>
          store := store.(projects := store.projects[id := Cached(project, project, now)]);
          SaveKeyStore(store, name);
        case Update(id, fields) =>
          if id in store.projects {
            var existing := store.projects[id];
            store := store.(projects := store.projects[id := Cached(existing + fields, existing, now)]);
            SaveKeyStore(store, name);
          }
        case Remove(id) =>
          store := store.(projects := store.projects - {id});
          SaveKeyStore(store, name);
      }
      locked := false;
    }
  }
}
