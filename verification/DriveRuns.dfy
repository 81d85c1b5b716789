/** What every run of the drive store keeps: complete version histories, unique live names,
    and locks that only their holder or the owner can release. */
module DriveRuns {
  import opened Basics
  import opened Text
  import opened DriveAcl
  import opened Drive

  /** Ids and blob keys that a call brings along are new. */
  predicate Fresh(s: Store, c: Call) {
    match c
    case CreateFolder(_, _, _, id, _) => id !in s.folders
    case CreateObject(_, key, uuid, id, _) => id !in s.objects && KeyOr(key, uuid) !in s.blobs
    case PutVersion(_, _, _, _, _, key, uuid, _) => KeyOr(key, uuid) !in s.blobs
    case _ => true
  }

  predicate FreshRun(s: Store, calls: seq<Call>) {
    calls != [] ==>
      FreshRun(s, calls[..|calls|-1]) && Fresh(Run(s, calls[..|calls|-1]), calls[|calls|-1])
  }

  /** A failing call changes nothing. */
  lemma FailureChangesNothing(s: Store, c: Call)
    requires Step(s, c).1.Some?
    ensures Step(s, c).0 == s
  {
    hide CanWrite, CanMutateWhileLocked, LiveClash, LiveFolderClash, ObjectClash, FolderClash, IsLocked, IsLocker,
      CanUnlock, Trim;
  }

  // ------------------------------------------------------------ the invariants

  /** Versions 1 to n (as 32-bit numbers), each with its bytes, and the head equal to the last one. */
  predicate Recorded(k: string, o: Object, vs: seq<Version>, blobs: map<string, Bytes>) {
    && o.id == k
    && vs != [] && vs[|vs|-1].version == o.version && vs[|vs|-1].blobKey == o.blobKey && vs[|vs|-1].size == o.size
    && forall i :: 0 <= i < |vs| ==>
         vs[i].version == Int32(i + 1) && vs[i].blobKey in blobs && |blobs[vs[i].blobKey]| == vs[i].size
  }

  ghost predicate HistoriesComplete(s: Store) {
    s.vers.Keys == s.objects.Keys && forall k :: k in s.objects ==> Recorded(k, s.objects[k], s.vers[k], s.blobs)
  }

  /** Two live objects of a tenant in one folder under one name. */
  predicate Collide(o: Object, w: Object) {
    o.trashedAt.None? && w.trashedAt.None? && SamePlace(o, w.tenantId, w.folderId, w.name)
  }

  ghost predicate ObjectNamesUnique(objects: map<string, Object>) {
    forall a, b :: a in objects && b in objects && Collide(objects[a], objects[b]) ==> a == b
  }

  predicate FoldersCollide(f: Folder, g: Folder) {
    f.trashedAt.None? && g.trashedAt.None? && SameFolderPlace(f, g.tenantId, g.parentId, g.name)
  }

  ghost predicate FolderNamesUnique(folders: map<string, Folder>) {
    && (forall k :: k in folders ==> folders[k].id == k)
    && forall a, b :: a in folders && b in folders && FoldersCollide(folders[a], folders[b]) ==> a == b
  }

  ghost predicate Sound(s: Store) {
    HistoriesComplete(s) && ObjectNamesUnique(s.objects) && FolderNamesUnique(s.folders)
  }

  /** Nothing recorded in `s` is lost or altered in `t`. */
  ghost predicate Extends(t: Store, s: Store) {
    && (forall key :: key in s.blobs ==> key in t.blobs && t.blobs[key] == s.blobs[key])
    && (forall k :: k in s.vers ==> k in t.vers && s.vers[k] <= t.vers[k])
    && (forall k :: k in s.objects ==> k in t.objects && t.objects[k].owner == s.objects[k].owner)
  }

  // ------------------------------------------------------------ object calls

  /** Same identity and same content. */
  predicate SameContent(o: Object, w: Object) {
    && w.id == o.id && w.tenantId == o.tenantId && w.owner == o.owner
    && w.version == o.version && w.blobKey == o.blobKey && w.size == o.size
  }

  predicate ChangesMetaOnly(s: Store, t: Store, id: string) {
    && t.folders == s.folders && t.vers == s.vers && t.blobs == s.blobs
    && (t.objects == s.objects
        || (id in s.objects && id in t.objects && t.objects == s.objects[id := t.objects[id]]
            && SameContent(s.objects[id], t.objects[id])))
  }

  predicate IsMetaCall(c: Call) {
    c.UpdateAcl? || c.UpdateObject? || c.TrashObject? || c.RestoreObject?
  }

  lemma EditShape(s: Store, tenant: string, id: string, p: Principal, patch: ObjectPatch, now: int)
    ensures ChangesMetaOnly(s, EditObjectIn(s, tenant, id, p, patch, now).0, id)
  {
    hide CanWrite, CanMutateWhileLocked, LiveClash, IsLocked, IsLocker, CanUnlock, Trim;
  }

  lemma TrashShape(s: Store, tenant: string, id: string, p: Principal, now: int)
    ensures ChangesMetaOnly(s, TrashObjectIn(s, tenant, id, p, now).0, id)
    ensures ChangesMetaOnly(s, RestoreObjectIn(s, tenant, id, p, now).0, id)
  {
    hide CanWrite, LiveClash;
  }

  lemma MetaCallShape(s: Store, c: Call)
    requires IsMetaCall(c)
    ensures ChangesMetaOnly(s, Step(s, c).0, c.id)
  {
    hide CanWrite, EditObjectIn, TrashObjectIn, RestoreObjectIn, ChangesMetaOnly;
    if c.UpdateObject? {
      EditShape(s, c.tenant, c.id, c.caller, c.patch, c.now);
      TrashShape(s, c.tenant, c.id, c.caller, c.now);
    } else if c.UpdateAcl? {
      AclShape(s, c.tenant, c.id, c.caller, c.entries);
    } else {
      TrashShape(s, c.tenant, c.id, c.caller, c.now);
    }
  }

  lemma AclShape(s: Store, tenant: string, id: string, p: Principal, entries: seq<AclEntry>)
    ensures ChangesMetaOnly(s, UpdateAclIn(s, tenant, id, p, entries).0, id)
  {
    hide CanWrite;
  }

  lemma MetaKeepsHistories(s: Store, t: Store, id: string)
    requires HistoriesComplete(s) && ChangesMetaOnly(s, t, id)
    ensures HistoriesComplete(t) && Extends(t, s)
  {
    hide Recorded;
    forall k | k in t.objects ensures Recorded(k, t.objects[k], t.vers[k], t.blobs) {
      RecordedSame(k, s.objects[k], s.vers[k], s.blobs, t.objects[k]);
    }
  }

  lemma RecordedSame(k: string, o: Object, vs: seq<Version>, blobs: map<string, Bytes>, w: Object)
    requires Recorded(k, o, vs, blobs) && (w == o || SameContent(o, w))
    ensures Recorded(k, w, vs, blobs)
  {
    hide Int32;
  }

  /** Moving or reviving one object where no other live one has its name keeps names unique. */
  lemma PlaceObject(objects: map<string, Object>, id: string, o: Object)
    requires ObjectNamesUnique(objects) && (forall k :: k in objects ==> objects[k].id == k)
    requires o.trashedAt.Some? || !LiveClash(objects, id, o.tenantId, o.folderId, o.name)
    ensures ObjectNamesUnique(objects[id := o])
  {
  }

  lemma KeepPlace(objects: map<string, Object>, id: string, o: Object)
    requires ObjectNamesUnique(objects) && id in objects
    requires o.trashedAt == objects[id].trashedAt
    requires SamePlace(o, objects[id].tenantId, objects[id].folderId, objects[id].name)
    ensures ObjectNamesUnique(objects[id := o])
  {
  }

  lemma EditKeepsNames(s: Store, tenant: string, id: string, p: Principal, patch: ObjectPatch, now: int)
    requires ObjectNamesUnique(s.objects) && forall k :: k in s.objects ==> s.objects[k].id == k
    ensures ObjectNamesUnique(EditObjectIn(s, tenant, id, p, patch, now).0.objects)
  {
    hide CanWrite, CanMutateWhileLocked, LiveClash, IsLocked, IsLocker, CanUnlock, Trim, ObjectNamesUnique;
    var t := EditObjectIn(s, tenant, id, p, patch, now);
    if t.1.Ok? {
      var was, o := s.objects[id], t.1.value;
      if o.name == was.name && o.folderId == was.folderId {
        KeepPlace(s.objects, id, o);
      } else {
        PlaceObject(s.objects, id, o);
      }
    }
  }

  lemma MetaKeepsNames(s: Store, c: Call)
    requires IsMetaCall(c) && ObjectNamesUnique(s.objects) && forall k :: k in s.objects ==> s.objects[k].id == k
    ensures ObjectNamesUnique(Step(s, c).0.objects)
  {
    hide CanWrite, LiveClash, ObjectNamesUnique, EditObjectIn;
    var t := Step(s, c).0;
    if c.UpdateObject? && c.patch.trashed.None? {
      EditKeepsNames(s, c.tenant, c.id, c.caller, c.patch, c.now);
    } else if t != s {
      var o := t.objects[c.id];
      if c.UpdateAcl? {
        KeepPlace(s.objects, c.id, o);
      } else {
        PlaceObject(s.objects, c.id, o);
      }
    }
  }

  lemma Int32Next(n: int)
    ensures Int32(Int32(n) + 1) == Int32(n + 1)
  {
  }

  lemma RecordedLonger(k: string, o: Object, vs: seq<Version>, blobs: map<string, Bytes>, key: string, data: Bytes)
    requires Recorded(k, o, vs, blobs) && key !in blobs
    ensures Recorded(k, o, vs, blobs[key := data])
  {
    hide Int32;
  }

  lemma RecordedNext(k: string, o: Object, vs: seq<Version>, blobs: map<string, Bytes>, w: Object, v: Version,
                     data: Bytes)
    requires Recorded(k, o, vs, blobs) && v.blobKey !in blobs
    requires w.id == k && w.version == v.version == Int32(o.version + 1) && w.blobKey == v.blobKey
    requires w.size == v.size == |data|
    ensures Recorded(k, w, vs + [v], blobs[v.blobKey := data])
  {
    hide Int32;
    Int32Next(|vs|);
    var all := vs + [v];
    forall i | 0 <= i < |all|
      ensures all[i].version == Int32(i + 1) && all[i].blobKey in blobs[v.blobKey := data]
              && |blobs[v.blobKey := data][all[i].blobKey]| == all[i].size
    {
      if i < |vs| {
        assert all[i] == vs[i];
      }
    }
  }

  lemma CreateObjectKeeps(s: Store, input: NewObject, id: string, key: string, now: int)
    requires HistoriesComplete(s) && ObjectNamesUnique(s.objects) && id !in s.objects && key !in s.blobs
    ensures var t := CreateObjectIn(s, input, id, key, now).0;
            t.folders == s.folders && HistoriesComplete(t) && ObjectNamesUnique(t.objects) && Extends(t, s)
  {
    hide Recorded, ObjectNamesUnique, ObjectClash, NewObjectOf;
    var (t, r) := CreateObjectIn(s, input, id, key, now);
    if r.Err? {
      SameObjects(s, t);
    } else {
      FirstVersion(input, id, key, now, t.blobs);
      NewName(s.objects, id, r.value, input);
      forall k | k in t.objects ensures Recorded(k, t.objects[k], t.vers[k], t.blobs) {
        if k != id {
          RecordedLonger(k, s.objects[k], s.vers[k], s.blobs, key, input.data);
        }
      }
    }
  }

  lemma NewName(objects: map<string, Object>, id: string, o: Object, input: NewObject)
    requires ObjectNamesUnique(objects) && id !in objects && SamePlace(o, input.tenantId, input.folderId, input.name)
    requires !ObjectClash(objects, input.tenantId, input.folderId, input.name)
    ensures ObjectNamesUnique(objects[id := o])
  {
  }

  lemma FirstVersion(input: NewObject, id: string, key: string, now: int, blobs: map<string, Bytes>)
    requires key in blobs && blobs[key] == input.data
    ensures var o := NewObjectOf(input, id, key, now); Recorded(id, o, [Version(1, key, o.size, now)], blobs)
    ensures SamePlace(NewObjectOf(input, id, key, now), input.tenantId, input.folderId, input.name)
  {
    assert Int32(1) == 1;
  }

  lemma PutVersionKeeps(s: Store, tenant: string, id: string, p: Principal, data: Bytes, contentType: string,
                        key: string, now: int)
    requires HistoriesComplete(s) && ObjectNamesUnique(s.objects) && key !in s.blobs
    ensures var t := PutVersionIn(s, tenant, id, p, data, contentType, key, now).0;
            t.folders == s.folders && HistoriesComplete(t) && ObjectNamesUnique(t.objects) && Extends(t, s)
  {
    hide Int32, CanWrite, CanMutateWhileLocked, Trim, Recorded, ObjectNamesUnique;
    var (t, r) := PutVersionIn(s, tenant, id, p, data, contentType, key, now);
    if r.Ok? {
      var was, o := s.objects[id], r.value;
      KeepPlace(s.objects, id, o);
      HeadId(s, id);
      RecordedNext(id, was, s.vers[id], s.blobs, o, Version(o.version, key, o.size, now), data);
      forall k | k in t.objects ensures Recorded(k, t.objects[k], t.vers[k], t.blobs) {
        if k != id {
          RecordedLonger(k, s.objects[k], s.vers[k], s.blobs, key, data);
        }
      }
    }
  }

  lemma HeadId(s: Store, k: string)
    requires HistoriesComplete(s) && k in s.objects
    ensures s.objects[k].id == k
  {
    assert Recorded(k, s.objects[k], s.vers[k], s.blobs);
  }

  // ------------------------------------------------------------ folder calls

  predicate IsFolderCall(c: Call) {
    c.CreateFolder? || c.UpdateFolder? || c.TrashFolder? || c.RestoreFolder?
  }

  lemma PlaceFolder(folders: map<string, Folder>, id: string, f: Folder)
    requires FolderNamesUnique(folders) && f.id == id
    requires f.trashedAt.Some? || !LiveFolderClash(folders, id, f.tenantId, f.parentId, f.name)
    ensures FolderNamesUnique(folders[id := f])
  {
  }

  lemma KeepFolder(folders: map<string, Folder>, id: string, f: Folder)
    requires FolderNamesUnique(folders) && id in folders && f == folders[id]
    ensures FolderNamesUnique(folders[id := f])
  {
    assert folders[id := f] == folders;
  }

  lemma NoClashNoLiveClash(folders: map<string, Folder>, id: string, tenant: string, parent: string, name: string)
    requires !FolderClash(folders, tenant, parent, name)
    ensures !LiveFolderClash(folders, id, tenant, parent, name)
  {
  }

  lemma EditFolderKeeps(s: Store, tenant: string, id: string, patch: FolderPatch)
    requires FolderNamesUnique(s.folders)
    ensures FolderNamesUnique(EditFolderIn(s, tenant, id, patch).0.folders)
  {
    hide LiveFolderClash, Trim;
    var (t, r) := EditFolderIn(s, tenant, id, patch);
    if r.Ok? {
      var was, f := s.folders[id], r.value;
      if f.name == was.name && f.parentId == was.parentId {
        KeepFolder(s.folders, id, f);
      } else {
        PlaceFolder(s.folders, id, f);
      }
    }
  }

  lemma FolderCallKeeps(s: Store, c: Call)
    requires IsFolderCall(c) && FolderNamesUnique(s.folders) && Fresh(s, c)
    ensures var t := Step(s, c).0;
            t.objects == s.objects && t.vers == s.vers && t.blobs == s.blobs && FolderNamesUnique(t.folders)
  {
    hide LiveFolderClash, FolderClash, EditFolderIn, FolderNamesUnique;
    var t := Step(s, c).0;
    FolderIds(s.folders);
    if c.UpdateFolder? && c.folderPatch.trashed.None? {
      EditFolderKeeps(s, c.tenant, c.folder, c.folderPatch);
      EditFolderFrame(s, c.tenant, c.folder, c.folderPatch);
    } else if t != s {
      if c.CreateFolder? {
        NoClashNoLiveClash(s.folders, c.newId, c.tenant, c.parent, c.name);
        PlaceFolder(s.folders, c.newId, t.folders[c.newId]);
      } else {
        PlaceFolder(s.folders, c.folder, t.folders[c.folder]);
      }
    }
  }

  lemma FolderIds(folders: map<string, Folder>)
    requires FolderNamesUnique(folders)
    ensures forall k :: k in folders ==> folders[k].id == k
  {
  }

  lemma EditFolderFrame(s: Store, tenant: string, id: string, patch: FolderPatch)
    ensures var t := EditFolderIn(s, tenant, id, patch).0;
            t.objects == s.objects && t.vers == s.vers && t.blobs == s.blobs
  {
    hide LiveFolderClash, Trim;
  }

  // ------------------------------------------------------------ runs

  lemma StepSound(s: Store, c: Call)
    requires Sound(s) && Fresh(s, c)
    ensures Sound(Step(s, c).0) && Extends(Step(s, c).0, s)
  {
    hide HistoriesComplete, ObjectNamesUnique, FolderNamesUnique, CreateObjectIn, PutVersionIn;
    if IsFolderCall(c) {
      hide Step;
      FolderCallKeeps(s, c);
      SameObjects(s, Step(s, c).0);
    } else if IsMetaCall(c) {
      hide Step;
      MetaCallShape(s, c);
      MetaKeepsHistories(s, Step(s, c).0, c.id);
      Ids(s);
      MetaKeepsNames(s, c);
    } else if c.CreateObject? {
      CreateObjectKeeps(s, c.input, c.newId, KeyOr(c.blobKey, c.uuid), c.now);
    } else {
      PutVersionKeeps(s, c.tenant, c.id, c.caller, c.data, c.contentType, KeyOr(c.blobKey, c.uuid), c.now);
    }
  }

  lemma Ids(s: Store)
    requires HistoriesComplete(s)
    ensures forall k :: k in s.objects ==> s.objects[k].id == k
  {
    forall k | k in s.objects ensures s.objects[k].id == k { HeadId(s, k); }
  }

  lemma SameObjects(s: Store, t: Store)
    requires HistoriesComplete(s) && t.objects == s.objects && t.vers == s.vers && t.blobs == s.blobs
    ensures HistoriesComplete(t) && Extends(t, s)
  {
    hide Recorded;
  }

  lemma ExtendsTransitive(u: Store, t: Store, s: Store)
    requires Extends(u, t) && Extends(t, s)
    ensures Extends(u, s)
  {
  }

  /** Over any run with fresh ids and blob keys: each object's versions are exactly 1 to n with the head
      equal to the last entry, live names are unique in their folder, and everything recorded stays. */
  lemma {:induction false} RunSound(s: Store, calls: seq<Call>)
    requires Sound(s) && FreshRun(s, calls)
    ensures Sound(Run(s, calls)) && Extends(Run(s, calls), s)
  {
    hide Step, Sound, Fresh;
    if calls == [] {
      ExtendsItself(s);
    } else {
      hide Extends;
      var front := Run(s, calls[..|calls|-1]);
      RunSound(s, calls[..|calls|-1]);
      StepSound(front, calls[|calls|-1]);
      ExtendsTransitive(Run(s, calls), front, s);
    }
  }

  lemma ExtendsItself(s: Store)
    ensures Extends(s, s)
  {
  }
}
