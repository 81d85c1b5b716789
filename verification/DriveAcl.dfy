/** Who may read, write, lock and unlock a drive object. */
module DriveAcl {
  import opened Basics
  import opened Text

  const ROLE_OWNER: int := 1
  const ROLE_READ: int := 2
  const ROLE_WRITE: int := 3

  datatype AclEntry = AclEntry(principal: string, role: int)

  datatype Principal = Principal(tenantId: string, userId: string, groups: seq<string>)

  datatype Object = Object(
    id: string, tenantId: string, folderId: string, name: string, size: nat, contentType: string,
    contentFormat: int, version: int, blobKey: string, owner: string, acl: seq<AclEntry>, updatedAt: int,
    lockedBy: string, lockedAt: Option<int>, trashedAt: Option<int>, restoreFolderId: string)

  /** `user:<id>`, `group:<name>` or `tenant:members`. The last one asks only that the caller
      has a tenant, and does not compare it with the object's. */
  predicate PrincipalMatches(principal: string, p: Principal) {
    var t := Trim(principal);
    var i := IndexOf(t, ':');
    i < |t| &&
    var kind, rest := t[..i], t[i+1..];
    if kind == "user" then p.userId != "" && rest == p.userId
    else if kind == "group" then rest in p.groups
    else kind == "tenant" && rest == "members" && p.tenantId != ""
  }

  predicate Granted(acl: seq<AclEntry>, p: Principal, roles: set<int>) {
    exists i :: 0 <= i < |acl| && PrincipalMatches(acl[i].principal, p) && acl[i].role in roles
  }

  predicate IsOwner(o: Object, p: Principal) {
    p.userId != "" && o.owner == p.userId
  }

  predicate CanRead(o: Object, p: Principal) {
    IsOwner(o, p) || Granted(o.acl, p, {ROLE_OWNER, ROLE_READ, ROLE_WRITE})
  }

  predicate CanWrite(o: Object, p: Principal) {
    IsOwner(o, p) || Granted(o.acl, p, {ROLE_OWNER, ROLE_WRITE})
  }

  predicate IsLocked(o: Object) {
    Trim(o.lockedBy) != ""
  }

  predicate IsLocker(o: Object, p: Principal) {
    IsLocked(o) && p.userId != "" && o.lockedBy == p.userId
  }

  predicate CanMutateWhileLocked(o: Object, p: Principal) {
    !IsLocked(o) || IsLocker(o, p)
  }

  predicate CanUnlock(o: Object, p: Principal) {
    IsLocker(o, p) || IsOwner(o, p)
  }

  function DefaultOwnerAcl(owner: string): seq<AclEntry> {
    [AclEntry("user:" + owner, ROLE_OWNER)]
  }

  lemma TrimUser(owner: string)
    ensures Trim("user:" + owner) == "user:" + TrimEnd(owner, IsSpace)
  {
    var s := "user:" + owner;
    assert s[0] == 'u' && !IsSpace(s[0]);
    assert TrimStart(s, IsSpace) == s;
    TrimEndKeeps("user:", owner);
  }

  lemma {:induction false} TrimEndKeeps(a: string, b: string)
    requires a != "" && !IsSpace(a[|a|-1])
    ensures TrimEnd(a + b, IsSpace) == a + TrimEnd(b, IsSpace)
    decreases |b|
  {
    hide IsSpace;
    var s := a + b;
    if b == "" {
      assert s == a;
      assert TrimEnd(a, IsSpace) == a;
      assert a + TrimEnd(b, IsSpace) == a;
    } else {
      assert s[|s|-1] == b[|b|-1];
      assert s[..|s|-1] == a + b[..|b|-1];
      TrimEndKeeps(a, b[..|b|-1]);
    }
  }

  /** The access list of a new object lets in its owner, and nobody else, except that spaces at the
      end of the owner's id do not count in it. */
  lemma NewObjectAccess(o: Object, p: Principal)
    requires o.acl == DefaultOwnerAcl(o.owner)
    ensures CanWrite(o, p) <==> p.userId != "" && (p.userId == o.owner || p.userId == TrimEnd(o.owner, IsSpace))
    ensures CanRead(o, p) <==> CanWrite(o, p)
  {
    hide IsSpace, Trim;
    TrimUser(o.owner);
    var t, rest := Trim(o.acl[0].principal), TrimEnd(o.owner, IsSpace);
    assert t == "user" + ":" + rest;
    IndexOfPast("user", ':', rest);
    assert t[..4] == "user" && t[5..] == rest;
    assert PrincipalMatches(o.acl[0].principal, p) <==> p.userId != "" && rest == p.userId;
  }
}
