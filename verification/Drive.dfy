/** The drive's metadata store: folders, objects, their versions and bytes, and the calls that change them.
    Ids, blob keys and times are supplied with each call. */
module Drive {
  import opened Basics
  import opened Text
  import opened DriveAcl

  type Bytes = seq<bv8>

  datatype Folder = Folder(
    id: string, tenantId: string, parentId: string, name: string, createdAt: int,
    trashedAt: Option<int>, restoreParentId: string)

  datatype Version = Version(version: int, blobKey: string, size: nat, createdAt: int)

  datatype Store = Store(
    folders: map<string, Folder>, objects: map<string, Object>,
    vers: map<string, seq<Version>>, blobs: map<string, Bytes>)

  datatype Error = NotFound | Forbidden | Duplicate | InvalidInput | Locked

  datatype Result<+T> = Ok(value: T) | Err(error: Error)

  datatype NewObject = NewObject(
    tenantId: string, folderId: string, name: string, contentType: string, contentFormat: int,
    owner: string, data: Bytes)

  datatype ObjectPatch = ObjectPatch(
    name: Option<string>, folderId: Option<string>, locked: Option<bool>, trashed: Option<bool>)

  datatype FolderPatch = FolderPatch(name: Option<string>, parentId: Option<string>, trashed: Option<bool>)

  /** Two's complement wrap-around at 32 bits. */
  function Int32(n: int): int {
    (n + 0x8000_0000) % 0x1_0000_0000 - 0x8000_0000
  }

  // ------------------------------------------------------------ name clashes

  predicate SamePlace(o: Object, tenant: string, folder: string, name: string) {
    o.tenantId == tenant && o.folderId == folder && o.name == name
  }

  predicate ObjectClash(objects: map<string, Object>, tenant: string, folder: string, name: string) {
    exists k :: k in objects && SamePlace(objects[k], tenant, folder, name)
  }

  predicate OtherLive(o: Object, id: string) {
    o.id != id && o.trashedAt.None?
  }

  predicate LiveClash(objects: map<string, Object>, id: string, tenant: string, folder: string, name: string) {
    exists k :: k in objects && OtherLive(objects[k], id) && SamePlace(objects[k], tenant, folder, name)
  }

  predicate SameFolderPlace(f: Folder, tenant: string, parent: string, name: string) {
    f.tenantId == tenant && f.parentId == parent && f.name == name
  }

  predicate FolderClash(folders: map<string, Folder>, tenant: string, parent: string, name: string) {
    exists k :: k in folders && SameFolderPlace(folders[k], tenant, parent, name)
  }

  predicate OtherLiveFolder(f: Folder, id: string) {
    f.id != id && f.trashedAt.None?
  }

  predicate LiveFolderClash(folders: map<string, Folder>, id: string, tenant: string, parent: string, name: string) {
    exists k :: k in folders && OtherLiveFolder(folders[k], id) && SameFolderPlace(folders[k], tenant, parent, name)
  }

  // ------------------------------------------------------------ objects

  function Lookup(s: Store, tenant: string, id: string): Option<Object> {
    if id in s.objects && s.objects[id].tenantId == tenant then Some(s.objects[id]) else None
  }

  function KeyOr(blobKey: string, uuid: string): string {
    if blobKey == "" then "mem/" + uuid else blobKey
  }

  function NewObjectOf(input: NewObject, id: string, key: string, now: int): Object {
    Object(id, input.tenantId, input.folderId, input.name, |input.data|, input.contentType, input.contentFormat, 1,
           key, input.owner, DefaultOwnerAcl(input.owner), now, "", None, None, "")
  }

  function CreateObjectIn(s: Store, input: NewObject, id: string, key: string, now: int): (Store, Result<Object>) {
    if input.tenantId == "" || input.name == "" || input.owner == "" then (s, Err(InvalidInput))
    else if ObjectClash(s.objects, input.tenantId, input.folderId, input.name) then (s, Err(Duplicate))
    else
      var o := NewObjectOf(input, id, key, now);
      (s.(objects := s.objects[id := o], blobs := s.blobs[key := input.data],
          vers := s.vers[id := [Version(1, key, o.size, now)]]), Ok(o))
  }

  function VersionsOf(s: Store, id: string): seq<Version> {
    if id in s.vers then s.vers[id] else []
  }

  function PutVersionIn(s: Store, tenant: string, id: string, p: Principal, data: Bytes, contentType: string,
                        key: string, now: int)
    : (Store, Result<Object>)
  {
    var found := Lookup(s, tenant, id);
    if found.None? then (s, Err(NotFound))
    else if !CanWrite(found.value, p) then (s, Err(Forbidden))
    else if !CanMutateWhileLocked(found.value, p) then (s, Err(Locked))
    else
      var o := found.value.(version := Int32(found.value.version + 1), blobKey := key, size := |data|, updatedAt := now,
                            contentType := if Trim(contentType) != "" then contentType else found.value.contentType);
      (s.(objects := s.objects[id := o], blobs := s.blobs[key := data],
          vers := s.vers[id := VersionsOf(s, id) + [Version(o.version, key, o.size, now)]]), Ok(o))
  }

  function UpdateAclIn(s: Store, tenant: string, id: string, p: Principal, entries: seq<AclEntry>)
    : (Store, Result<Object>)
  {
    var found := Lookup(s, tenant, id);
    if found.None? then (s, Err(NotFound))
    else if !CanWrite(found.value, p) then (s, Err(Forbidden))
    else
      var o := found.value.(acl := entries);
      (s.(objects := s.objects[id := o]), Ok(o))
  }

  function TrashObjectIn(s: Store, tenant: string, id: string, p: Principal, now: int): (Store, Result<Object>) {
    var found := Lookup(s, tenant, id);
    if found.None? then (s, Err(NotFound))
    else if !CanWrite(found.value, p) then (s, Err(Forbidden))
    else if found.value.trashedAt.Some? then (s, Ok(found.value))
    else
      var o := found.value.(restoreFolderId := found.value.folderId, trashedAt := Some(now), updatedAt := now);
      (s.(objects := s.objects[id := o]), Ok(o))
  }

  function RestoreObjectIn(s: Store, tenant: string, id: string, p: Principal, now: int): (Store, Result<Object>) {
    var found := Lookup(s, tenant, id);
    if found.None? then (s, Err(NotFound))
    else if !CanWrite(found.value, p) then (s, Err(Forbidden))
    else if found.value.trashedAt.None? then (s, Ok(found.value))
    else if LiveClash(s.objects, id, tenant, found.value.restoreFolderId, found.value.name) then (s, Err(Duplicate))
    else
      var o := found.value.(folderId := found.value.restoreFolderId, restoreFolderId := "", trashedAt := None,
                            updatedAt := now);
      (s.(objects := s.objects[id := o]), Ok(o))
  }

  /** The object with its lock taken, released or left alone. */
  function Relocked(o: Object, p: Principal, locked: Option<bool>, now: int): Result<Object> {
    if locked.None? then Ok(o)
    else if locked.value then
      if IsLocked(o) && !IsLocker(o, p) then Err(Locked) else Ok(o.(lockedBy := p.userId, lockedAt := Some(now)))
    else
      if IsLocked(o) && !CanUnlock(o, p) then Err(Forbidden) else Ok(o.(lockedBy := "", lockedAt := None))
  }

  function EditObjectIn(s: Store, tenant: string, id: string, p: Principal, patch: ObjectPatch, now: int)
    : (Store, Result<Object>)
  {
    var found := Lookup(s, tenant, id);
    if found.None? then (s, Err(NotFound))
    else if !CanWrite(found.value, p) then (s, Err(Forbidden))
    else if (patch.name.Some? || patch.folderId.Some?) && !CanMutateWhileLocked(found.value, p) then (s, Err(Locked))
    else
      var relocked := Relocked(found.value, p, patch.locked, now);
      if relocked.Err? then (s, relocked)
      else
        var name := if patch.name.Some? then Trim(patch.name.value) else found.value.name;
        var folder := patch.folderId.GetOr(found.value.folderId);
        if patch.name.Some? && name == "" then (s, Err(InvalidInput))
        else if (name != found.value.name || folder != found.value.folderId)
                && LiveClash(s.objects, id, tenant, folder, name)
        then (s, Err(Duplicate))
        else
          var o := relocked.value.(name := name, folderId := folder, updatedAt := now);
          (s.(objects := s.objects[id := o]), Ok(o))
  }

  function UpdateObjectIn(s: Store, tenant: string, id: string, p: Principal, patch: ObjectPatch, now: int)
    : (Store, Result<Object>)
  {
    if patch.trashed.None? then EditObjectIn(s, tenant, id, p, patch, now)
    else if patch.trashed.value then TrashObjectIn(s, tenant, id, p, now)
    else RestoreObjectIn(s, tenant, id, p, now)
  }

  // ------------------------------------------------------------ folders

  function LookupFolder(s: Store, tenant: string, id: string): Option<Folder> {
    if id in s.folders && s.folders[id].tenantId == tenant then Some(s.folders[id]) else None
  }

  function CreateFolderIn(s: Store, tenant: string, parent: string, name: string, id: string, now: int)
    : (Store, Result<Folder>)
  {
    if tenant == "" || name == "" then (s, Err(InvalidInput))
    else if FolderClash(s.folders, tenant, parent, name) then (s, Err(Duplicate))
    else
      var f := Folder(id, tenant, parent, name, now, None, "");
      (s.(folders := s.folders[id := f]), Ok(f))
  }

  function TrashFolderIn(s: Store, tenant: string, id: string, now: int): (Store, Result<Folder>) {
    var found := LookupFolder(s, tenant, id);
    if id == "" then (s, Err(InvalidInput))
    else if found.None? then (s, Err(NotFound))
    else if found.value.trashedAt.Some? then (s, Ok(found.value))
    else
      var f := found.value.(restoreParentId := found.value.parentId, trashedAt := Some(now));
      (s.(folders := s.folders[id := f]), Ok(f))
  }

  function RestoreFolderIn(s: Store, tenant: string, id: string): (Store, Result<Folder>) {
    var found := LookupFolder(s, tenant, id);
    if id == "" then (s, Err(InvalidInput))
    else if found.None? then (s, Err(NotFound))
    else if found.value.trashedAt.None? then (s, Ok(found.value))
    else if LiveFolderClash(s.folders, id, tenant, found.value.restoreParentId, found.value.name)
    then (s, Err(Duplicate))
    else
      var f := found.value.(parentId := found.value.restoreParentId, restoreParentId := "", trashedAt := None);
      (s.(folders := s.folders[id := f]), Ok(f))
  }

  function EditFolderIn(s: Store, tenant: string, id: string, patch: FolderPatch): (Store, Result<Folder>) {
    var found := LookupFolder(s, tenant, id);
    if id == "" then (s, Err(InvalidInput))
    else if found.None? then (s, Err(NotFound))
    else
      var name := if patch.name.Some? then Trim(patch.name.value) else found.value.name;
      var parent := patch.parentId.GetOr(found.value.parentId);
      if patch.name.Some? && name == "" then (s, Err(InvalidInput))
      else if patch.parentId == Some(id) then (s, Err(InvalidInput))
      else if (name != found.value.name || parent != found.value.parentId)
              && LiveFolderClash(s.folders, id, tenant, parent, name)
      then (s, Err(Duplicate))
      else
        var f := found.value.(name := name, parentId := parent);
        (s.(folders := s.folders[id := f]), Ok(f))
  }

  function UpdateFolderIn(s: Store, tenant: string, id: string, patch: FolderPatch, now: int): (Store, Result<Folder>) {
    if patch.trashed.None? then EditFolderIn(s, tenant, id, patch)
    else if patch.trashed.value then TrashFolderIn(s, tenant, id, now)
    else RestoreFolderIn(s, tenant, id)
  }

  // ------------------------------------------------------------ calls

  datatype Call =
    | CreateFolder(tenant: string, parent: string, name: string, newId: string, now: int)
    | CreateObject(input: NewObject, blobKey: string, uuid: string, newId: string, now: int)
    | PutVersion(tenant: string, id: string, caller: Principal, data: Bytes, contentType: string, blobKey: string,
                 uuid: string, now: int)
    | UpdateAcl(tenant: string, id: string, caller: Principal, entries: seq<AclEntry>)
    | UpdateObject(tenant: string, id: string, caller: Principal, patch: ObjectPatch, now: int)
    | TrashObject(tenant: string, id: string, caller: Principal, now: int)
    | RestoreObject(tenant: string, id: string, caller: Principal, now: int)
    | UpdateFolder(tenant: string, folder: string, folderPatch: FolderPatch, now: int)
    | TrashFolder(tenant: string, folder: string, now: int)
    | RestoreFolder(tenant: string, folder: string)

  function Outcome<T>(r: (Store, Result<T>)): (Store, Option<Error>) {
    (r.0, if r.1.Ok? then None else Some(r.1.error))
  }

  /** The store after a call, and the error if it fails. */
  function Step(s: Store, c: Call): (Store, Option<Error>) {
    match c
    case CreateFolder(tenant, parent, name, id, now) => Outcome(CreateFolderIn(s, tenant, parent, name, id, now))
    case CreateObject(input, key, uuid, id, now) => Outcome(CreateObjectIn(s, input, id, KeyOr(key, uuid), now))
    case PutVersion(tenant, id, p, data, contentType, key, uuid, now) =>
      Outcome(PutVersionIn(s, tenant, id, p, data, contentType, KeyOr(key, uuid), now))
    case UpdateAcl(tenant, id, p, entries) => Outcome(UpdateAclIn(s, tenant, id, p, entries))
    case UpdateObject(tenant, id, p, patch, now) => Outcome(UpdateObjectIn(s, tenant, id, p, patch, now))
    case TrashObject(tenant, id, p, now) => Outcome(TrashObjectIn(s, tenant, id, p, now))
    case RestoreObject(tenant, id, p, now) => Outcome(RestoreObjectIn(s, tenant, id, p, now))
    case UpdateFolder(tenant, id, patch, now) => Outcome(UpdateFolderIn(s, tenant, id, patch, now))
    case TrashFolder(tenant, id, now) => Outcome(TrashFolderIn(s, tenant, id, now))
    case RestoreFolder(tenant, id) => Outcome(RestoreFolderIn(s, tenant, id))
  }

  function Run(s: Store, calls: seq<Call>): Store {
    if calls == [] then s else Step(Run(s, calls[..|calls|-1]), calls[|calls|-1]).0
  }

  const EMPTY_STORE: Store := Store(map[], map[], map[], map[])
}
