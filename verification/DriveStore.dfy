/** The in-memory drive store: four maps updated in place by each call. */
module DriveStore {
  import opened Basics
  import opened Text
  import opened DriveAcl
  import opened Drive
  import opened DriveRuns

  class MemoryStore {
    var folders: map<string, Folder>
    var objects: map<string, Object>
    var vers: map<string, seq<Version>>
    var blobs: map<string, Bytes>

    ghost function Value(): Store
      reads this
    {
      Store(folders, objects, vers, blobs)
    }

    constructor ()
      ensures Value() == EMPTY_STORE && Sound(Value())
    {
      folders, objects, vers, blobs := map[], map[], map[], map[];
    }

    // ------------------------------------------------------------ scans for duplicates

    method ScanObjects(tenant: string, folder: string, name: string) returns (found: bool)
      ensures found == ObjectClash(objects, tenant, folder, name)
    {
      var rest := objects.Keys;
      while rest != {}
        invariant rest <= objects.Keys
        invariant forall k :: k in objects && k !in rest ==> !SamePlace(objects[k], tenant, folder, name)
        decreases |rest|
      {
        var k :| k in rest;
        if SamePlace(objects[k], tenant, folder, name) {
          return true;
        }
        rest := rest - {k};
      }
      return false;
    }

    method ScanLiveObjects(id: string, tenant: string, folder: string, name: string) returns (found: bool)
      ensures found == LiveClash(objects, id, tenant, folder, name)
    {
      var rest := objects.Keys;
      while rest != {}
        invariant rest <= objects.Keys
        invariant forall k :: k in objects && k !in rest && OtherLive(objects[k], id) ==>
                  !SamePlace(objects[k], tenant, folder, name)
        decreases |rest|
      {
        var k :| k in rest;
        rest := rest - {k};
        if objects[k].id == id || objects[k].trashedAt.Some? {
          continue;
        }
        if SamePlace(objects[k], tenant, folder, name) {
          return true;
        }
      }
      return false;
    }

    method ScanFolders(tenant: string, parent: string, name: string) returns (found: bool)
      ensures found == FolderClash(folders, tenant, parent, name)
    {
      var rest := folders.Keys;
      while rest != {}
        invariant rest <= folders.Keys
        invariant forall k :: k in folders && k !in rest ==> !SameFolderPlace(folders[k], tenant, parent, name)
        decreases |rest|
      {
        var k :| k in rest;
        if SameFolderPlace(folders[k], tenant, parent, name) {
          return true;
        }
        rest := rest - {k};
      }
      return false;
    }

    method ScanLiveFolders(id: string, tenant: string, parent: string, name: string) returns (found: bool)
      ensures found == LiveFolderClash(folders, id, tenant, parent, name)
    {
      var rest := folders.Keys;
      while rest != {}
        invariant rest <= folders.Keys
        invariant forall k :: k in folders && k !in rest && OtherLiveFolder(folders[k], id) ==>
                    !SameFolderPlace(folders[k], tenant, parent, name)
        decreases |rest|
      {
        var k :| k in rest;
        rest := rest - {k};
        if folders[k].id == id || folders[k].trashedAt.Some? {
          continue;
        }
        if SameFolderPlace(folders[k], tenant, parent, name) {
          return true;
        }
      }
      return false;
    }

    // ------------------------------------------------------------ objects

    method CreateObject(input: NewObject, blobKey: string, uuid: string, id: string, now: int)
      returns (r: Result<Object>)
      modifies this
      ensures (Value(), r) == CreateObjectIn(old(Value()), input, id, KeyOr(blobKey, uuid), now)
    {
      hide ObjectClash;
      if input.tenantId == "" || input.name == "" || input.owner == "" {
        return Err(InvalidInput);
      }
      var key := KeyOr(blobKey, uuid);
      var o := NewObjectOf(input, id, key, now);
      var taken := ScanObjects(input.tenantId, input.folderId, input.name);
      if taken {
        return Err(Duplicate);
      }
      objects := objects[id := o];
      blobs := blobs[key := input.data];
      vers := vers[id := [Version(1, key, o.size, now)]];
      return Ok(o);
    }

    method PutVersion(tenant: string, id: string, p: Principal, data: Bytes, contentType: string, blobKey: string,
                      uuid: string, now: int)
      returns (r: Result<Object>)
      modifies this
      ensures (Value(), r) == PutVersionIn(old(Value()), tenant, id, p, data, contentType, KeyOr(blobKey, uuid), now)
    {
      hide CanWrite, CanMutateWhileLocked, Trim, Int32;
      var key := KeyOr(blobKey, uuid);
      if id !in objects || objects[id].tenantId != tenant {
        return Err(NotFound);
      }
      var o := objects[id];
      if !CanWrite(o, p) {
        return Err(Forbidden);
      }
      if !CanMutateWhileLocked(o, p) {
        return Err(Locked);
      }
      o := o.(version := Int32(o.version + 1), blobKey := key, size := |data|, updatedAt := now);
      if Trim(contentType) != "" {
        o := o.(contentType := contentType);
      }
      objects := objects[id := o];
      blobs := blobs[key := data];
      vers := vers[id := (if id in vers then vers[id] else []) + [Version(o.version, key, o.size, now)]];
      return Ok(o);
    }

    method UpdateAcl(tenant: string, id: string, p: Principal, entries: seq<AclEntry>) returns (r: Result<Object>)
      modifies this
      ensures (Value(), r) == UpdateAclIn(old(Value()), tenant, id, p, entries)
    {
      hide CanWrite;
      if id !in objects || objects[id].tenantId != tenant {
        return Err(NotFound);
      }
      var o := objects[id];
      if !CanWrite(o, p) {
        return Err(Forbidden);
      }
      o := o.(acl := entries);
      objects := objects[id := o];
      return Ok(o);
    }

    method TrashObject(tenant: string, id: string, p: Principal, now: int) returns (r: Result<Object>)
      modifies this
      ensures (Value(), r) == TrashObjectIn(old(Value()), tenant, id, p, now)
    {
      hide CanWrite;
      if id !in objects || objects[id].tenantId != tenant {
        return Err(NotFound);
      }
      var o := objects[id];
      if !CanWrite(o, p) {
        return Err(Forbidden);
      }
      if o.trashedAt.Some? {
        return Ok(o);
      }
      o := o.(restoreFolderId := o.folderId, trashedAt := Some(now), updatedAt := now);
      objects := objects[id := o];
      return Ok(o);
    }

    method RestoreObject(tenant: string, id: string, p: Principal, now: int) returns (r: Result<Object>)
      modifies this
      ensures (Value(), r) == RestoreObjectIn(old(Value()), tenant, id, p, now)
    {
      hide CanWrite, LiveClash;
      if id !in objects || objects[id].tenantId != tenant {
        return Err(NotFound);
      }
      var o := objects[id];
      if !CanWrite(o, p) {
        return Err(Forbidden);
      }
      if o.trashedAt.None? {
        return Ok(o);
      }
      var taken := ScanLiveObjects(id, tenant, o.restoreFolderId, o.name);
      if taken {
        return Err(Duplicate);
      }
      o := o.(folderId := o.restoreFolderId, restoreFolderId := "", trashedAt := None, updatedAt := now);
      objects := objects[id := o];
      return Ok(o);
    }

    method EditObject(tenant: string, id: string, p: Principal, patch: ObjectPatch, now: int)
      returns (r: Result<Object>)
      modifies this
      ensures (Value(), r) == EditObjectIn(old(Value()), tenant, id, p, patch, now)
    {
      hide CanWrite, CanMutateWhileLocked, LiveClash, Trim, Relocked;
      if id !in objects || objects[id].tenantId != tenant {
        return Err(NotFound);
      }
      var was := objects[id];
      if !CanWrite(was, p) {
        return Err(Forbidden);
      }
      if (patch.name.Some? || patch.folderId.Some?) && !CanMutateWhileLocked(was, p) {
        return Err(Locked);
      }
      var relocked := Relock(was, p, patch.locked, now);
      if relocked.Err? {
        return relocked;
      }
      var name := was.name;
      if patch.name.Some? {
        name := Trim(patch.name.value);
        if name == "" {
          return Err(InvalidInput);
        }
      }
      var folder := patch.folderId.GetOr(was.folderId);
      if name != was.name || folder != was.folderId {
        var taken := ScanLiveObjects(id, tenant, folder, name);
        if taken {
          return Err(Duplicate);
        }
      }
      var o := relocked.value.(name := name, folderId := folder, updatedAt := now);
      objects := objects[id := o];
      return Ok(o);
    }

    method UpdateObject(tenant: string, id: string, p: Principal, patch: ObjectPatch, now: int)
      returns (r: Result<Object>)
      modifies this
      ensures (Value(), r) == UpdateObjectIn(old(Value()), tenant, id, p, patch, now)
    {
      hide TrashObjectIn, RestoreObjectIn, EditObjectIn;
      if patch.trashed.Some? {
        if patch.trashed.value {
          r := TrashObject(tenant, id, p, now);
        } else {
          r := RestoreObject(tenant, id, p, now);
        }
      } else {
        r := EditObject(tenant, id, p, patch, now);
      }
    }

    /** Head and bytes of an object that the caller may read; no bytes where none are stored. In a sound
        store they are always there, and they are those of the last recorded version. */
    method GetObjectData(tenant: string, id: string, p: Principal) returns (r: Result<(Object, Bytes)>)
      ensures r.Ok? <==> Lookup(Value(), tenant, id).Some? && CanRead(objects[id], p)
      ensures r.Err? ==> r.error == if Lookup(Value(), tenant, id).None? then NotFound else Forbidden
      ensures r.Ok? ==> r.value.0 == objects[id]
      ensures r.Ok? ==> r.value.1 == if r.value.0.blobKey in blobs then blobs[r.value.0.blobKey] else []
      ensures r.Ok? && Sound(Value()) ==> r.value.0.blobKey in blobs && |r.value.1| == r.value.0.size
    {
      hide CanRead, Int32;
      if id !in objects || objects[id].tenantId != tenant {
        return Err(NotFound);
      }
      var o := objects[id];
      if !CanRead(o, p) {
        return Err(Forbidden);
      }
      if Sound(Value()) {
        assert Recorded(id, objects[id], vers[id], blobs);
      }
      return Ok((o, if o.blobKey in blobs then blobs[o.blobKey] else []));
    }

    // ------------------------------------------------------------ folders

    method CreateFolder(tenant: string, parent: string, name: string, id: string, now: int) returns (r: Result<Folder>)
      modifies this
      ensures (Value(), r) == CreateFolderIn(old(Value()), tenant, parent, name, id, now)
    {
      hide FolderClash;
      if tenant == "" || name == "" {
        return Err(InvalidInput);
      }
      var f := Folder(id, tenant, parent, name, now, None, "");
      var taken := ScanFolders(tenant, parent, name);
      if taken {
        return Err(Duplicate);
      }
      folders := folders[id := f];
      return Ok(f);
    }

    method TrashFolder(tenant: string, id: string, now: int) returns (r: Result<Folder>)
      modifies this
      ensures (Value(), r) == TrashFolderIn(old(Value()), tenant, id, now)
    {
      if id == "" {
        return Err(InvalidInput);
      }
      if id !in folders || folders[id].tenantId != tenant {
        return Err(NotFound);
      }
      var f := folders[id];
      if f.trashedAt.Some? {
        return Ok(f);
      }
      f := f.(restoreParentId := f.parentId, trashedAt := Some(now));
      folders := folders[id := f];
      return Ok(f);
    }

    method RestoreFolder(tenant: string, id: string) returns (r: Result<Folder>)
      modifies this
      ensures (Value(), r) == RestoreFolderIn(old(Value()), tenant, id)
    {
      hide LiveFolderClash;
      if id == "" {
        return Err(InvalidInput);
      }
      if id !in folders || folders[id].tenantId != tenant {
        return Err(NotFound);
      }
      var f := folders[id];
      if f.trashedAt.None? {
        return Ok(f);
      }
      var taken := ScanLiveFolders(id, tenant, f.restoreParentId, f.name);
      if taken {
        return Err(Duplicate);
      }
      f := f.(parentId := f.restoreParentId, restoreParentId := "", trashedAt := None);
      folders := folders[id := f];
      return Ok(f);
    }

    method UpdateFolder(tenant: string, id: string, patch: FolderPatch, now: int) returns (r: Result<Folder>)
      modifies this
      ensures (Value(), r) == UpdateFolderIn(old(Value()), tenant, id, patch, now)
    {
      hide TrashFolderIn, RestoreFolderIn, LiveFolderClash, Trim;
      if patch.trashed.Some? {
        if patch.trashed.value {
          r := TrashFolder(tenant, id, now);
        } else {
          r := RestoreFolder(tenant, id);
        }
        return;
      }
      if id == "" {
        return Err(InvalidInput);
      }
      if id !in folders || folders[id].tenantId != tenant {
        return Err(NotFound);
      }
      var f := folders[id];
      var name, parent := f.name, f.parentId;
      if patch.name.Some? {
        name := Trim(patch.name.value);
        if name == "" {
          return Err(InvalidInput);
        }
      }
      if patch.parentId.Some? {
        parent := patch.parentId.value;
        if parent == id {
          return Err(InvalidInput);
        }
      }
      if name != f.name || parent != f.parentId {
        var taken := ScanLiveFolders(id, tenant, parent, name);
        if taken {
          return Err(Duplicate);
        }
      }
      f := f.(name := name, parentId := parent);
      folders := folders[id := f];
      return Ok(f);
    }
  }

  method Relock(was: Object, p: Principal, locked: Option<bool>, now: int) returns (r: Result<Object>)
    ensures r == Relocked(was, p, locked, now)
  {
    hide IsLocked, IsLocker, CanUnlock;
    var o := was;
    if locked.Some? {
      if locked.value {
        if IsLocked(o) && !IsLocker(o, p) {
          return Err(Locked);
        }
        o := o.(lockedBy := p.userId, lockedAt := Some(now));
      } else {
        if IsLocked(o) && !CanUnlock(o, p) {
          return Err(Forbidden);
        }
        o := o.(lockedBy := "", lockedAt := None);
      }
    }
    return Ok(o);
  }
}
