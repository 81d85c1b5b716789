/** What each call on the drive store returns and writes, and the bytes of every version over whole runs. */
module DriveEffects {
  import opened Basics
  import opened Text
  import opened DriveAcl
  import opened Drive
  import opened DriveRuns

  // ------------------------------------------------------------ who may

  /** An access list with one entry for `principal`. */
  function WithEntry(o: Object, principal: string, role: int): Object {
    o.(acl := [AclEntry(principal, role)])
  }

  /** The roles 1 and 3 let write, those and 2 let read, and no other role lets anything. */
  lemma RolesGrant(o: Object, principal: string, role: int, p: Principal)
    requires !IsOwner(o, p)
    ensures CanWrite(WithEntry(o, principal, role), p) <==> PrincipalMatches(principal, p) && (role == 1 || role == 3)
    ensures CanRead(WithEntry(o, principal, role), p) <==>
            PrincipalMatches(principal, p) && (role == 1 || role == 2 || role == 3)
  {
    hide PrincipalMatches;
    var acl := WithEntry(o, principal, role).acl;
    assert acl[0] == AclEntry(principal, role);
  }

  /** A list lets in whoever any of its entries lets in. */
  lemma EntriesAdd(o: Object, p: Principal)
    ensures CanWrite(o, p) <==>
            IsOwner(o, p)
            || exists i :: 0 <= i < |o.acl| && CanWrite(WithEntry(o, o.acl[i].principal, o.acl[i].role), p)
    ensures CanRead(o, p) <==>
            IsOwner(o, p) || exists i :: 0 <= i < |o.acl| && CanRead(WithEntry(o, o.acl[i].principal, o.acl[i].role), p)
  {
    hide PrincipalMatches, CanWrite, CanRead;
    if !IsOwner(o, p) {
      forall i | 0 <= i < |o.acl|
        ensures CanWrite(WithEntry(o, o.acl[i].principal, o.acl[i].role), p) <==>
                PrincipalMatches(o.acl[i].principal, p) && (o.acl[i].role == 1 || o.acl[i].role == 3)
        ensures CanRead(WithEntry(o, o.acl[i].principal, o.acl[i].role), p) <==>
                PrincipalMatches(o.acl[i].principal, p)
                && (o.acl[i].role == 1 || o.acl[i].role == 2 || o.acl[i].role == 3)
      {
        RolesGrant(o, o.acl[i].principal, o.acl[i].role, p);
      }
      GrantedIs(o, p);
    } else {
      OwnerMay(o, p);
    }
  }

  lemma OwnerMay(o: Object, p: Principal)
    requires IsOwner(o, p)
    ensures CanWrite(o, p) && CanRead(o, p)
  {
  }

  lemma GrantedIs(o: Object, p: Principal)
    requires !IsOwner(o, p)
    ensures CanWrite(o, p) <==>
            exists i :: 0 <= i < |o.acl| && PrincipalMatches(o.acl[i].principal, p)
                        && (o.acl[i].role == 1 || o.acl[i].role == 3)
    ensures CanRead(o, p) <==>
            exists i :: 0 <= i < |o.acl| && PrincipalMatches(o.acl[i].principal, p)
                        && (o.acl[i].role == 1 || o.acl[i].role == 2 || o.acl[i].role == 3)
  {
    hide PrincipalMatches;
  }

  /** A name without spaces at its ends. */
  predicate Bare(s: string) {
    s != "" && !IsSpace(s[0]) && !IsSpace(s[|s|-1])
  }

  lemma TrimBare(s: string)
    requires Bare(s)
    ensures Trim(s) == s
  {
  }

  /** Principals: a user by id, a group by name, every caller with a tenant, and nobody under any other kind. */
  lemma PrincipalsAre(kind: string, name: string, p: Principal)
    requires kind != "" && (forall i :: 0 <= i < |kind| ==> kind[i] != ':') && Bare(kind) && Bare(name)
    ensures PrincipalMatches(kind + ":" + name, p) <==>
            || (kind == "user" && p.userId == name)
            || (kind == "group" && name in p.groups)
            || (kind == "tenant" && name == "members" && p.tenantId != "")
  {
    hide IsSpace, Trim, IndexOf;
    var s := kind + ":" + name;
    assert s[0] == kind[0] && s[|s|-1] == name[|name|-1];
    TrimBare(s);
    IndexOfPast(kind, ':', name);
    assert s[..|kind|] == kind && s[|kind|+1..] == name;
    assert "user" != "group" && "group" != "tenant";
  }

  /** Text without a colon names nobody. */
  lemma NoKindNobody(principal: string, p: Principal)
    requires Bare(principal) && forall i :: 0 <= i < |principal| ==> principal[i] != ':'
    ensures !PrincipalMatches(principal, p)
  {
    hide IsSpace, Trim, IndexOf;
    TrimBare(principal);
    IndexOfNone(principal, ':');
  }

  // ------------------------------------------------------------ which calls succeed

  predicate Found(s: Store, tenant: string, id: string) {
    id in s.objects && s.objects[id].tenantId == tenant
  }

  /** Somebody else holds a lock on the object. */
  predicate LockedOut(o: Object, p: Principal) {
    Trim(o.lockedBy) != "" && !(p.userId != "" && o.lockedBy == p.userId)
  }

  /** Another live object of the tenant is in the folder under the name. */
  ghost predicate NameTaken(s: Store, id: string, tenant: string, folder: string, name: string) {
    exists k :: k in s.objects && s.objects[k].id != id && s.objects[k].trashedAt == None
                && s.objects[k].tenantId == tenant
                && s.objects[k].folderId == folder && s.objects[k].name == name
  }

  lemma TakenIs(s: Store, id: string, tenant: string, folder: string, name: string)
    ensures LiveClash(s.objects, id, tenant, folder, name) <==> NameTaken(s, id, tenant, folder, name)
  {
  }

  /** Creating an object fails without tenant, name or owner, and if any object of the tenant, trashed or not,
      has its folder and name. The new object is as described, open to its owner, unlocked and live. */
  lemma ObjectCreated(s: Store, c: Call)
    requires c.CreateObject?
    ensures var (t, e) := Step(s, c); var x := c.input;
            && e == (if x.tenantId == "" || x.name == "" || x.owner == "" then Some(InvalidInput)
                     else if exists k :: k in s.objects && s.objects[k].tenantId == x.tenantId
                                         && s.objects[k].folderId == x.folderId && s.objects[k].name == x.name
                     then Some(Duplicate) else None)
            && (e.None? ==>
                  && c.newId in t.objects && var o := t.objects[c.newId];
                  && o.id == c.newId && o.tenantId == x.tenantId && o.folderId == x.folderId && o.name == x.name
                  && o.size == |x.data| && o.contentType == x.contentType && o.contentFormat == x.contentFormat
                  && o.version == 1 && o.owner == x.owner && o.acl == [AclEntry("user:" + x.owner, 1)]
                  && o.blobKey == (if c.blobKey == "" then "mem/" + c.uuid else c.blobKey)
                  && o.lockedBy == "" && o.lockedAt == None && o.trashedAt == None && o.updatedAt == c.now
                  && o.restoreFolderId == "" && t.vers == s.vers[c.newId := [Version(1, o.blobKey, |x.data|, c.now)]]
                  && o.blobKey in t.blobs && t.blobs[o.blobKey] == x.data
                  && forall k :: k in s.objects && k != c.newId ==> k in t.objects && t.objects[k] == s.objects[k])
  {
  }

  /** A new version needs the object, the right to write, and no lock of somebody else. It stores the caller's
      bytes, and changes version, bytes, size, time and perhaps content type of that object. */
  lemma VersionPut(s: Store, c: Call)
    requires c.PutVersion?
    ensures var (t, e) := Step(s, c);
            && e == (if !Found(s, c.tenant, c.id) then Some(NotFound)
                     else if !CanWrite(s.objects[c.id], c.caller) then Some(Forbidden)
                     else if LockedOut(s.objects[c.id], c.caller) then Some(Locked) else None)
            && (e.None? ==>
                  && c.id in t.objects && var was, o := s.objects[c.id], t.objects[c.id];
                  && o.blobKey == (if c.blobKey == "" then "mem/" + c.uuid else c.blobKey)
                  && o.blobKey in t.blobs && t.blobs[o.blobKey] == c.data && o.size == |c.data| && o.updatedAt == c.now
                  && o.contentType == (if Trim(c.contentType) == "" then was.contentType else c.contentType)
                  && was == o.(blobKey := was.blobKey, size := was.size, updatedAt := was.updatedAt,
                               contentType := was.contentType, version := was.version)
                  && (-0x8000_0000 <= was.version < 0x7fff_ffff ==> o.version == was.version + 1)
                  && (was.version == 0x7fff_ffff ==> o.version == -0x8000_0000)
                  && t.objects == s.objects[c.id := o]
                  && t.vers == s.vers[c.id := (if c.id in s.vers then s.vers[c.id] else [])
                                              + [Version(o.version, o.blobKey, |c.data|, c.now)]])
  {
    hide CanWrite, Trim;
  }

  /** Replacing the access list needs the right to write, lock or not. */
  lemma AclReplaced(s: Store, c: Call)
    requires c.UpdateAcl?
    ensures var (t, e) := Step(s, c);
            && e == (if !Found(s, c.tenant, c.id) then Some(NotFound)
                     else if !CanWrite(s.objects[c.id], c.caller) then Some(Forbidden) else None)
            && (e.None? ==> t == s.(objects := s.objects[c.id := s.objects[c.id].(acl := c.entries)]))
  {
    hide CanWrite;
  }

  /** Trashing remembers the folder; a trashed object stays as it is. */
  lemma ObjectTrashed(s: Store, tenant: string, id: string, p: Principal, now: int)
    ensures var (t, e) := Step(s, TrashObject(tenant, id, p, now));
            && e == (if !Found(s, tenant, id) then Some(NotFound)
                     else if !CanWrite(s.objects[id], p) then Some(Forbidden) else None)
            && (e.None? && s.objects[id].trashedAt.Some? ==> t == s)
            && (e.None? && s.objects[id].trashedAt.None? ==>
                  t == s.(objects := s.objects[id := s.objects[id].(
                            trashedAt := Some(now), restoreFolderId := s.objects[id].folderId, updatedAt := now)]))
    ensures forall patch: ObjectPatch :: patch.trashed == Some(true) ==>
              Step(s, UpdateObject(tenant, id, p, patch, now)) == Step(s, TrashObject(tenant, id, p, now))
  {
    hide CanWrite;
  }

  /** Restoring returns an object to the remembered folder, unless another live one has its name there. */
  lemma ObjectRestored(s: Store, tenant: string, id: string, p: Principal, now: int)
    ensures var (t, e) := Step(s, RestoreObject(tenant, id, p, now));
            && e == (if !Found(s, tenant, id) then Some(NotFound)
                     else if !CanWrite(s.objects[id], p) then Some(Forbidden)
                     else if s.objects[id].trashedAt.Some?
                             && NameTaken(s, id, tenant, s.objects[id].restoreFolderId, s.objects[id].name)
                     then Some(Duplicate) else None)
            && (e.None? && s.objects[id].trashedAt.None? ==> t == s)
            && (e.None? && s.objects[id].trashedAt.Some? ==>
                  t == s.(objects := s.objects[id := s.objects[id].(trashedAt := None, restoreFolderId := "",
                            folderId := s.objects[id].restoreFolderId, updatedAt := now)]))
    ensures forall patch: ObjectPatch :: patch.trashed == Some(false) ==>
              Step(s, UpdateObject(tenant, id, p, patch, now)) == Step(s, RestoreObject(tenant, id, p, now))
  {
    hide CanWrite, LiveClash, NameTaken;
    if Found(s, tenant, id) {
      TakenIs(s, id, tenant, s.objects[id].restoreFolderId, s.objects[id].name);
    }
  }

  /** The name and the folder that a patch asks for. */
  function NewName(o: Object, patch: ObjectPatch): string {
    if patch.name.Some? then Trim(patch.name.value) else o.name
  }

  function NewFolder(o: Object, patch: ObjectPatch): string {
    if patch.folderId.Some? then patch.folderId.value else o.folderId
  }

  /** What renaming, moving, locking and unlocking ask for: the right to write; no lock of somebody else to rename
      or move, and none to lock; the lock or the object to unlock; a name; and a free place. */
  ghost function EditError(s: Store, c: Call): Option<Error>
    requires c.UpdateObject?
  {
    if !Found(s, c.tenant, c.id) then Some(NotFound)
    else
      var o := s.objects[c.id];
      var holder := c.caller.userId != "" && o.lockedBy == c.caller.userId;
      var owner := c.caller.userId != "" && o.owner == c.caller.userId;
      if !CanWrite(o, c.caller) then Some(Forbidden)
      else if (c.patch.name.Some? || c.patch.folderId.Some?) && LockedOut(o, c.caller) then Some(Locked)
      else if c.patch.locked == Some(true) && LockedOut(o, c.caller) then Some(Locked)
      else if c.patch.locked == Some(false) && Trim(o.lockedBy) != "" && !holder && !owner then Some(Forbidden)
      else if c.patch.name.Some? && NewName(o, c.patch) == "" then Some(InvalidInput)
      else if (NewName(o, c.patch) != o.name || NewFolder(o, c.patch) != o.folderId)
              && NameTaken(s, c.id, c.tenant, NewFolder(o, c.patch), NewName(o, c.patch)) then Some(Duplicate)
      else None
  }

  /** A successful patch gives the object the trimmed name and the folder asked for, and the lock as asked. */
  lemma ObjectEdited(s: Store, c: Call)
    requires c.UpdateObject? && c.patch.trashed.None?
    ensures var (t, e) := Step(s, c);
            && e == EditError(s, c)
            && (e.None? ==>
                  && c.id in t.objects && var was, o := s.objects[c.id], t.objects[c.id];
                  && o.name == NewName(was, c.patch) && o.folderId == NewFolder(was, c.patch) && o.updatedAt == c.now
                  && (o.lockedBy, o.lockedAt) == (match c.patch.locked
                                                  case None => (was.lockedBy, was.lockedAt)
                                                  case Some(true) => (c.caller.userId, Some(c.now))
                                                  case Some(false) => ("", None))
                  && was == o.(name := was.name, folderId := was.folderId, updatedAt := was.updatedAt,
                               lockedBy := was.lockedBy, lockedAt := was.lockedAt)
                  && t == s.(objects := s.objects[c.id := o]))
  {
    hide CanWrite, LiveClash, Trim, NameTaken;
    if Found(s, c.tenant, c.id) {
      var o := s.objects[c.id];
      TakenIs(s, c.id, c.tenant, NewFolder(o, c.patch), NewName(o, c.patch));
    }
  }

  // ------------------------------------------------------------ folders

  predicate FolderFound(s: Store, tenant: string, id: string) {
    id in s.folders && s.folders[id].tenantId == tenant
  }

  ghost predicate FolderTaken(s: Store, id: string, tenant: string, parent: string, name: string) {
    exists k :: k in s.folders && s.folders[k].id != id && s.folders[k].trashedAt == None
                && s.folders[k].tenantId == tenant
                && s.folders[k].parentId == parent && s.folders[k].name == name
  }

  lemma FolderTakenIs(s: Store, id: string, tenant: string, parent: string, name: string)
    ensures LiveFolderClash(s.folders, id, tenant, parent, name) <==> FolderTaken(s, id, tenant, parent, name)
  {
  }

  /** Creating a folder fails without tenant or name, and if any folder of the tenant has its parent and name. */
  lemma FolderCreated(s: Store, c: Call)
    requires c.CreateFolder?
    ensures var (t, e) := Step(s, c);
            && e == (if c.tenant == "" || c.name == "" then Some(InvalidInput)
                     else if exists k :: k in s.folders && s.folders[k].tenantId == c.tenant
                                         && s.folders[k].parentId == c.parent && s.folders[k].name == c.name
                     then Some(Duplicate) else None)
            && (e.None? ==>
                  var f := Folder(c.newId, c.tenant, c.parent, c.name, c.now, None, "");
                  t == s.(folders := s.folders[c.newId := f]))
  {
  }

  /** Renaming and moving a folder: the trimmed name and the parent asked for, not the folder itself, and free. */
  lemma FolderEdited(s: Store, c: Call)
    requires c.UpdateFolder? && c.folderPatch.trashed.None?
    ensures var (t, e) := Step(s, c); var patch := c.folderPatch;
            if c.folder == "" then e == Some(InvalidInput) && t == s
            else if !FolderFound(s, c.tenant, c.folder) then e == Some(NotFound) && t == s
            else
              var f := s.folders[c.folder];
              var name := if patch.name.Some? then Trim(patch.name.value) else f.name;
              var parent := if patch.parentId.Some? then patch.parentId.value else f.parentId;
              && e == (if (patch.name.Some? && name == "") || patch.parentId == Some(c.folder) then Some(InvalidInput)
                       else if (name != f.name || parent != f.parentId)
                               && FolderTaken(s, c.folder, c.tenant, parent, name)
                       then Some(Duplicate) else None)
              && t == if e.Some? then s else s.(folders := s.folders[c.folder := f.(name := name, parentId := parent)])
  {
    hide LiveFolderClash, Trim, FolderTaken;
    if FolderFound(s, c.tenant, c.folder) {
      var f, patch := s.folders[c.folder], c.folderPatch;
      FolderTakenIs(s, c.folder, c.tenant, if patch.parentId.Some? then patch.parentId.value else f.parentId,
                    if patch.name.Some? then Trim(patch.name.value) else f.name);
    }
  }

  /** Trashing a folder remembers its parent; restoring returns it there, unless another live one has its name. */
  lemma FolderTrashedAndRestored(s: Store, tenant: string, id: string, now: int)
    ensures var (t, e) := Step(s, TrashFolder(tenant, id, now));
            && e == (if id == "" then Some(InvalidInput)
                     else if !FolderFound(s, tenant, id) then Some(NotFound) else None)
            && (e.None? ==>
                  t == if s.folders[id].trashedAt.Some? then s
                       else s.(folders := s.folders[id := s.folders[id].(
                                 trashedAt := Some(now), restoreParentId := s.folders[id].parentId)]))
    ensures var (t, e) := Step(s, RestoreFolder(tenant, id));
            && e == (if id == "" then Some(InvalidInput) else if !FolderFound(s, tenant, id) then Some(NotFound)
                     else if s.folders[id].trashedAt.Some?
                             && FolderTaken(s, id, tenant, s.folders[id].restoreParentId, s.folders[id].name)
                     then Some(Duplicate) else None)
            && (e.None? ==>
                  t == if s.folders[id].trashedAt.None? then s
                       else s.(folders := s.folders[id := s.folders[id].(
                                 trashedAt := None, restoreParentId := "", parentId := s.folders[id].restoreParentId)]))
    ensures forall patch: FolderPatch :: patch.trashed.Some? ==>
              Step(s, UpdateFolder(tenant, id, patch, now)) ==
              if patch.trashed.value then Step(s, TrashFolder(tenant, id, now)) else Step(s, RestoreFolder(tenant, id))
  {
    hide LiveFolderClash, FolderTaken;
    if FolderFound(s, tenant, id) {
      FolderTakenIs(s, id, tenant, s.folders[id].restoreParentId, s.folders[id].name);
    }
  }

  // ------------------------------------------------------------ the bytes of every version

  /** The bytes that a call records as a version of object `k`, if it succeeds. */
  function Recording(s: Store, c: Call, k: string): seq<Bytes> {
    if Step(s, c).1.Some? then []
    else if c.CreateObject? && c.newId == k then [c.input.data]
    else if c.PutVersion? && c.id == k then [c.data]
    else []
  }

  /** The bytes of the successful calls of the run that recorded versions of `k`, in order. */
  function Submitted(s: Store, calls: seq<Call>, k: string): seq<Bytes> {
    if calls == [] then []
    else Submitted(s, calls[..|calls|-1], k) + Recording(Run(s, calls[..|calls|-1]), calls[|calls|-1], k)
  }

  /** The stored bytes of each recorded version of `k`. */
  function Kept(s: Store, k: string): seq<Bytes> {
    if k !in s.vers then []
    else seq(|s.vers[k]|, i requires 0 <= i < |s.vers[k]| =>
               if s.vers[k][i].blobKey in s.blobs then s.blobs[s.vers[k][i].blobKey] else [])
  }

  lemma KeptSame(s: Store, t: Store, k: string)
    requires HistoriesComplete(s) && Extends(t, s) && (k in s.vers <==> k in t.vers)
             && (k in s.vers ==> t.vers[k] == s.vers[k])
    ensures Kept(t, k) == Kept(s, k)
  {
    hide Int32;
    if k in s.vers {
      assert Recorded(k, s.objects[k], s.vers[k], s.blobs);
    }
  }

  lemma KeptMore(s: Store, t: Store, k: string, v: Version, data: Bytes)
    requires HistoriesComplete(s) && Extends(t, s) && k in t.vers && t.vers[k] == VersionsOf(s, k) + [v]
    requires v.blobKey in t.blobs && t.blobs[v.blobKey] == data
    ensures Kept(t, k) == Kept(s, k) + [data]
  {
    hide Int32;
    if k in s.vers {
      assert Recorded(k, s.objects[k], s.vers[k], s.blobs);
    }
  }

  lemma StepKeepsBytes(s: Store, c: Call, k: string)
    requires Sound(s) && Fresh(s, c)
    ensures Kept(Step(s, c).0, k) == Kept(s, k) + Recording(s, c, k)
  {
    hide HistoriesComplete, ObjectNamesUnique, FolderNamesUnique, Extends, CanWrite, LockedOut, Int32, Kept, Trim;
    var (t, e) := Step(s, c);
    StepSound(s, c);
    assert Kept(s, k) + [] == Kept(s, k);
    if e.Some? {
      FailureChangesNothing(s, c);
    } else if IsFolderCall(c) {
      hide Step;
      FolderCallKeeps(s, c);
      KeptSame(s, t, k);
    } else if IsMetaCall(c) {
      hide Step;
      MetaCallShape(s, c);
      KeptSame(s, t, k);
    } else if c.CreateObject? {
      NewIsUnknown(s, c.newId);
      if c.newId == k {
        assert t.vers[k] == VersionsOf(s, k) + [Version(1, KeyOr(c.blobKey, c.uuid), |c.input.data|, c.now)];
        KeptMore(s, t, k, Version(1, KeyOr(c.blobKey, c.uuid), |c.input.data|, c.now), c.input.data);
      } else {
        KeptSame(s, t, k);
      }
    } else if c.id == k {
      var o := t.objects[k];
      KeptMore(s, t, k, Version(o.version, KeyOr(c.blobKey, c.uuid), |c.data|, c.now), c.data);
    } else {
      SameKeysKnown(s, c.id);
      KeptSame(s, t, k);
    }
  }

  lemma NewIsUnknown(s: Store, k: string)
    requires HistoriesComplete(s) && k !in s.objects
    ensures k !in s.vers
  {
  }

  lemma SameKeysKnown(s: Store, k: string)
    requires HistoriesComplete(s) && k in s.objects
    ensures k in s.vers
  {
  }

  /** Over any run with fresh ids and keys, the stored bytes of the versions of each object are those it had
      before, followed by what the successful calls of the run submitted for it, byte for byte and in order. */
  lemma {:induction false} BytesAreSubmitted(s: Store, calls: seq<Call>, k: string)
    requires Sound(s) && FreshRun(s, calls)
    ensures Kept(Run(s, calls), k) == Kept(s, k) + Submitted(s, calls, k)
  {
    hide Step, Sound, Fresh, Kept, Recording;
    if calls == [] {
      assert Kept(s, k) + [] == Kept(s, k);
    } else {
      var front := Run(s, calls[..|calls|-1]);
      BytesAreSubmitted(s, calls[..|calls|-1], k);
      RunSound(s, calls[..|calls|-1]);
      StepKeepsBytes(front, calls[|calls|-1], k);
    }
  }
}
