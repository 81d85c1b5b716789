/** Locks over whole runs, and trash undone by restore. */
module DriveLocks {
  import opened Basics
  import opened Text
  import opened DriveAcl
  import opened Drive
  import opened DriveRuns

  predicate LockHeld(s: Store, k: string, u: string) {
    k in s.objects && s.objects[k].lockedBy == u && Trim(u) != ""
  }

  predicate AsksUnlock(c: Call, k: string) {
    c.UpdateObject? && c.id == k && c.patch.trashed.None? && c.patch.locked == Some(false)
  }

  /** An unlock by the holder `u` or by the owner. */
  predicate Releases(c: Call, k: string, u: string, owner: string) {
    AsksUnlock(c, k) && c.caller.userId != "" && (c.caller.userId == u || c.caller.userId == owner)
  }

  /** A call on the object by `u`. */
  predicate ActsOn(c: Call, k: string, u: string) {
    (c.PutVersion? || c.UpdateAcl? || c.UpdateObject? || c.TrashObject? || c.RestoreObject?)
    && c.id == k && c.caller.userId == u
  }

  /** Same name, content and lock; where it is filed, its access list and whether it is in the trash may differ. */
  predicate Untouched(o: Object, w: Object) {
    && w.name == o.name && w.version == o.version && w.blobKey == o.blobKey && w.size == o.size
    && w.contentType == o.contentType && w.lockedBy == o.lockedBy && w.lockedAt == o.lockedAt && w.owner == o.owner
  }

  lemma EditLocked(s: Store, tenant: string, k: string, p: Principal, patch: ObjectPatch, now: int, u: string)
    requires LockHeld(s, k, u)
    ensures var (t, r) := EditObjectIn(s, tenant, k, p, patch, now);
            && k in t.objects && t.objects[k].owner == s.objects[k].owner && t.vers == s.vers
            && (p.userId != u && patch.locked != Some(false) ==> Untouched(s.objects[k], t.objects[k]))
            && (p.userId != u && r.Ok? ==> patch.locked != Some(false) || IsOwner(s.objects[k], p))
            && (r.Ok? && patch.locked != Some(false) ==> t.objects[k].lockedBy == u)
            && (r.Ok? && patch.locked == Some(false) ==> t.objects[k].lockedBy == "")
            && (r.Err? ==> t == s)
  {
    hide CanWrite, LiveClash, Trim;
    assert u != "" by { TrimNothing(); }
  }

  lemma TrimNothing()
    ensures Trim("") == ""
  {
  }

  lemma FolderFrame(s: Store, c: Call)
    requires IsFolderCall(c)
    ensures var t := Step(s, c).0; t.objects == s.objects && t.vers == s.vers
  {
    hide LiveFolderClash, FolderClash, EditFolderIn;
    if c.UpdateFolder? {
      EditFolderFrame(s, c.tenant, c.folder, c.folderPatch);
    }
  }

  lemma OtherObject(s: Store, c: Call, k: string)
    requires k in s.objects && Fresh(s, c) && (ActsOnObject(c) ==> c.id != k)
    ensures var t := Step(s, c).0;
            k in t.objects && t.objects[k] == s.objects[k] && (k in s.vers ==> k in t.vers && t.vers[k] == s.vers[k])
  {
    hide CanWrite, CanMutateWhileLocked, ObjectClash, NewObjectOf, Trim, Int32;
    if IsFolderCall(c) {
      hide Step;
      FolderFrame(s, c);
    } else if IsMetaCall(c) {
      hide Step;
      MetaCallShape(s, c);
    }
  }

  predicate ActsOnObject(c: Call) {
    c.PutVersion? || c.UpdateAcl? || c.UpdateObject? || c.TrashObject? || c.RestoreObject?
  }

  lemma FilingKeeps(s: Store, tenant: string, k: string, p: Principal, now: int)
    requires k in s.objects
    ensures var t := TrashObjectIn(s, tenant, k, p, now).0;
            k in t.objects && Untouched(s.objects[k], t.objects[k]) && t.vers == s.vers
    ensures var t := RestoreObjectIn(s, tenant, k, p, now).0;
            k in t.objects && Untouched(s.objects[k], t.objects[k]) && t.vers == s.vers
  {
    hide CanWrite, LiveClash;
  }

  lemma AclKeeps(s: Store, tenant: string, k: string, p: Principal, entries: seq<AclEntry>)
    requires k in s.objects
    ensures var t := UpdateAclIn(s, tenant, k, p, entries).0;
            k in t.objects && Untouched(s.objects[k], t.objects[k]) && t.vers == s.vers
  {
    hide CanWrite;
  }

  lemma PutLocked(s: Store, tenant: string, k: string, p: Principal, data: Bytes, contentType: string, key: string,
                  now: int, u: string)
    requires LockHeld(s, k, u)
    ensures var (t, r) := PutVersionIn(s, tenant, k, p, data, contentType, key, now);
            && k in t.objects && t.objects[k].lockedBy == u && t.objects[k].owner == s.objects[k].owner
            && (k in s.vers ==> k in t.vers) && (p.userId != u ==> t == s)
  {
    hide CanWrite, Trim, Int32;
  }

  /** One call: the lock is lost exactly when the call is a successful unlock by the holder or the owner,
      and a call by anyone else that is not such an unlock leaves name, content, versions and lock alone. */
  lemma LockStep(s: Store, c: Call, k: string, u: string)
    requires LockHeld(s, k, u) && Fresh(s, c) && k in s.vers
    ensures var (t, e) := Step(s, c);
            var owner := s.objects[k].owner;
            && k in t.objects && k in t.vers && t.objects[k].owner == owner
            && (LockHeld(t, k, u) <==> !(Releases(c, k, u, owner) && e.None?))
            && (!ActsOn(c, k, u) && !Releases(c, k, u, owner) ==>
                  Untouched(s.objects[k], t.objects[k]) && t.vers[k] == s.vers[k])
  {
    hide EditObjectIn, TrashObjectIn, RestoreObjectIn, UpdateAclIn, PutVersionIn, Trim, CanWrite;
    TrimNothing();
    if !ActsOnObject(c) || c.id != k {
      hide Step;
      OtherObject(s, c, k);
    } else if c.PutVersion? {
      PutLocked(s, c.tenant, k, c.caller, c.data, c.contentType, KeyOr(c.blobKey, c.uuid), c.now, u);
    } else if c.UpdateAcl? {
      AclKeeps(s, c.tenant, k, c.caller, c.entries);
    } else {
      FilingKeeps(s, c.tenant, k, c.caller, c.now);
      if c.UpdateObject? {
        EditLocked(s, c.tenant, k, c.caller, c.patch, c.now, u);
      }
    }
  }

  /** The `n`th call of the run is an unlock by the holder or the owner, and succeeds. */
  predicate ReleasedAt(s: Store, calls: seq<Call>, k: string, u: string, n: nat)
    requires n < |calls| && k in s.objects
  {
    Releases(calls[n], k, u, s.objects[k].owner) && Step(Run(s, calls[..n]), calls[n]).1.None?
  }

  /** The object and its versions are in `t` as they are in `s`. */
  predicate SameObject(s: Store, t: Store, k: string) {
    && k in s.objects && k in t.objects && Untouched(s.objects[k], t.objects[k])
    && k in s.vers && k in t.vers && t.vers[k] == s.vers[k]
  }

  /** A call by someone other than the holder that takes nothing from the lock changes nothing of what it guards. */
  lemma OtherCall(s: Store, c: Call, k: string, u: string)
    requires LockHeld(s, k, u) && Fresh(s, c) && k in s.vers
    requires !(Releases(c, k, u, s.objects[k].owner) && Step(s, c).1.None?)
    ensures LockHeld(Step(s, c).0, k, u) && k in Step(s, c).0.vers
    ensures Step(s, c).0.objects[k].owner == s.objects[k].owner
    ensures !ActsOn(c, k, u) ==> SameObject(s, Step(s, c).0, k)
  {
    hide Step, Releases, ActsOn, LockHeld;
    HeldIsObject(s, k, u);
    LockStep(s, c, k, u);
    if Step(s, c).1.Some? {
      FailureChangesNothing(s, c);
    }
  }

  /** From a lock held by `u`, as long as no unlock by `u` or the owner succeeds: `u` still holds it after
      every call of the run, and every call by anyone else leaves name, content, versions and lock as the
      calls before it left them, whatever `u` does in between. */
  lemma {:induction false} LockExclusive(s: Store, calls: seq<Call>, k: string, u: string)
    requires LockHeld(s, k, u) && FreshRun(s, calls) && k in s.vers
    requires forall n: nat :: n < |calls| ==> !ReleasedAt(s, calls, k, u, n)
    ensures forall n: nat :: n <= |calls| ==> LockHeld(Run(s, calls[..n]), k, u)
    ensures forall n: nat :: n < |calls| && !ActsOn(calls[n], k, u) ==>
              SameObject(Run(s, calls[..n]), Run(s, calls[..n+1]), k)
  {
    hide Step, Fresh, Releases, ActsOn, LockHeld, SameObject;
    HeldIsObject(s, k, u);
    forall n: nat | n <= |calls|
      ensures LockHeld(Run(s, calls[..n]), k, u)
      ensures n < |calls| && !ActsOn(calls[n], k, u) ==> SameObject(Run(s, calls[..n]), Run(s, calls[..n+1]), k)
    {
      LockAlong(s, calls, k, u, n);
    }
  }

  lemma {:induction false} LockAlong(s: Store, calls: seq<Call>, k: string, u: string, n: nat)
    requires LockHeld(s, k, u) && FreshRun(s, calls) && k in s.vers && n <= |calls|
    requires forall m: nat :: m < |calls| ==> !ReleasedAt(s, calls, k, u, m)
    ensures var t := Run(s, calls[..n]);
            && LockHeld(t, k, u) && k in t.vers && t.objects[k].owner == s.objects[k].owner
            && (n < |calls| && !ActsOn(calls[n], k, u) ==> SameObject(t, Run(s, calls[..n+1]), k))
    decreases n
  {
    hide Step, Fresh, Releases, ActsOn, LockHeld, SameObject;
    HeldIsObject(s, k, u);
    var t := Run(s, calls[..n]);
    if n == 0 {
      assert calls[..n] == [];
    } else {
      LockAlong(s, calls, k, u, n - 1);
      FreshPrefix(s, calls, n - 1);
      assert calls[..n][..n-1] == calls[..n-1];
      assert !ReleasedAt(s, calls, k, u, n - 1);
      OtherCall(Run(s, calls[..n-1]), calls[n-1], k, u);
    }
    HeldIsObject(t, k, u);
    if n < |calls| {
      FreshPrefix(s, calls, n);
      assert calls[..n+1][..n] == calls[..n];
      assert !ReleasedAt(s, calls, k, u, n);
      OtherCall(t, calls[n], k, u);
    }
  }

  lemma {:induction false} FreshPrefix(s: Store, calls: seq<Call>, n: nat)
    requires FreshRun(s, calls) && n < |calls|
    ensures Fresh(Run(s, calls[..n]), calls[n])
  {
    hide Step, Fresh;
    if n < |calls| - 1 {
      FreshPrefix(s, calls[..|calls|-1], n);
      assert calls[..|calls|-1][..n] == calls[..n];
    }
  }

  lemma HeldIsObject(s: Store, k: string, u: string)
    requires LockHeld(s, k, u)
    ensures k in s.objects
  {
  }

  /** Taking a lock: it succeeds only where nobody else holds one. */
  lemma LockTaken(s: Store, c: Call)
    requires c.UpdateObject? && c.patch.trashed.None? && c.patch.locked == Some(true) && Trim(c.caller.userId) != ""
    requires Step(s, c).1.None?
    ensures LockHeld(Step(s, c).0, c.id, c.caller.userId)
    ensures c.id in s.objects && (IsLocked(s.objects[c.id]) ==> s.objects[c.id].lockedBy == c.caller.userId)
  {
    hide CanWrite, LiveClash, Trim;
  }

  // ------------------------------------------------------------ trash and restore

  /** Trashing a live object and restoring it always succeeds and brings back everything but the time
      of the last change. */
  lemma TrashThenRestore(s: Store, tenant: string, k: string, p: Principal, now: int, later: int)
    requires Sound(s) && Lookup(s, tenant, k).Some? && CanWrite(s.objects[k], p) && s.objects[k].trashedAt.None?
    ensures var t := TrashObjectIn(s, tenant, k, p, now).0;
            var (r, res) := RestoreObjectIn(t, tenant, k, p, later);
            res.Ok? && r == s.(objects := s.objects[k := s.objects[k].(updatedAt := later, restoreFolderId := "")])
  {
    hide HistoriesComplete, FolderNamesUnique, Granted;
    var o := s.objects[k];
    Ids(s);
    var t := TrashObjectIn(s, tenant, k, p, now).0;
    assert t.objects[k].restoreFolderId == o.folderId && CanWrite(t.objects[k], p);
    assert !LiveClash(t.objects, k, tenant, o.folderId, o.name);
  }

  lemma TrashThenRestoreFolder(s: Store, tenant: string, k: string, now: int)
    requires Sound(s) && LookupFolder(s, tenant, k).Some? && k != "" && s.folders[k].trashedAt.None?
    ensures var t := TrashFolderIn(s, tenant, k, now).0;
            var (r, res) := RestoreFolderIn(t, tenant, k);
            res.Ok? && r == s.(folders := s.folders[k := s.folders[k].(restoreParentId := "")])
  {
    hide HistoriesComplete, ObjectNamesUnique;
    var f := s.folders[k];
    var t := TrashFolderIn(s, tenant, k, now).0;
    assert !LiveFolderClash(t.folders, k, tenant, f.parentId, f.name);
  }
}
