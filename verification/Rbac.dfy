/** Roles with inheritance and permission checks, `auth/rbac/rbac.go` over the store in memory of
    `auth/rbac/store.go`. Parents are looked up by name, and may form cycles. */
module Rbac {
  import opened Options

  // ---------- Permission strings ----------

  datatype Permission = Permission(resource: string, action: string) {
    function ToString(): string { resource + ":" + action }
  }

  /** `SplitN` at the first colon, into at most two parts. */
  function Split(s: string): (string, string)
    requires ':' in s
  {
    if s[0] == ':' then ("", s[1..])
    else
      var (before, after) := Split(s[1..]);
      ([s[0]] + before, after)
  }

  function ParsePermission(s: string): Permission {
    if ':' in s then Permission(Split(s).0, Split(s).1) else Permission(s, "*")
  }

  predicate Matches(p: Permission, resource: string, action: string) {
    (p.resource == "*" || p.resource == resource) && (p.action == "*" || p.action == action)
  }

  lemma {:induction false} SplitJoin(a: string, b: string)
    requires ':' !in a
    ensures Split(a + ":" + b) == (a, b)
  {
    var s := a + ":" + b;
    if a == "" {
      assert s[1..] == b;
    } else {
      assert s[1..] == a[1..] + ":" + b && s[|a|] == ':';
      assert ':' in s[1..] by {
        assert s[1..][|a| - 1] == ':';
      }
      SplitJoin(a[1..], b);
      assert [s[0]] + a[1..] == a;
    }
  }

  lemma {:induction false} JoinSplit(s: string)
    requires ':' in s
    ensures var (a, b) := Split(s); s == a + ":" + b && ':' !in a
  {
    if s[0] != ':' {
      JoinSplit(s[1..]);
    }
  }

  /** Parsing gives back what was printed exactly when the resource has no colon. */
  lemma ParsePrint(p: Permission)
    ensures ParsePermission(p.ToString()) == p <==> ':' !in p.resource
  {
    if ':' !in p.resource {
      SplitJoin(p.resource, p.action);
    } else {
      assert p.ToString()[|p.resource|] == ':';
      JoinSplit(p.ToString());
    }
  }

  /** Printing gives back what was parsed; a string without a colon means every action. */
  lemma PrintParse(s: string)
    ensures ParsePermission(s).ToString() == if ':' in s then s else s + ":*"
  {
    if ':' in s {
      JoinSplit(s);
    }
  }

  /** The permission strings that allow an action on a resource. */
  function Granting(resource: string, action: string): set<string> {
    {"*", Permission("*", "*").ToString(), Permission("*", action).ToString()}
    + if ':' in resource then {}
      else {resource, Permission(resource, "*").ToString(), Permission(resource, action).ToString()}
  }

  lemma PrintedIs(s: string, p: Permission)
    requires ':' !in p.resource
    ensures s == p.ToString() <==> ':' in s && ParsePermission(s) == p
  {
    assert p.ToString()[|p.resource|] == ':';
    ParsePrint(p);
    PrintParse(s);
  }

  lemma MatchesIffGranting(s: string, resource: string, action: string)
    ensures Matches(ParsePermission(s), resource, action) <==> s in Granting(resource, action)
  {
    PrintedIs(s, Permission("*", "*"));
    PrintedIs(s, Permission("*", action));
    if ':' !in resource {
      PrintedIs(s, Permission(resource, "*"));
      PrintedIs(s, Permission(resource, action));
    }
    if ':' in s {
      JoinSplit(s);
    }
  }

  // ---------- Inheritance ----------

  datatype Role = Role(name: string, permissions: seq<string>, parent: string)

  type Roles = map<string, Role>

  const MAX_INHERITANCE_DEPTH := 10

  /** The ancestor `k` generations up, if the chain of parents goes that far. */
  function Ancestor(roles: Roles, role: Role, k: nat): Option<Role> {
    if k == 0 then Some(role)
    else
      var child := Ancestor(roles, role, k - 1);
      if child.None? || child.value.parent == "" || child.value.parent !in roles then None
      else Some(roles[child.value.parent])
  }

  /** What a role is to be granted: the permissions of the first ten in its chain of parents. */
  ghost predicate Inherits(roles: Roles, role: Role, perm: string) {
    Has(roles, role, perm, MAX_INHERITANCE_DEPTH)
  }

  ghost predicate Has(roles: Roles, role: Role, perm: string, n: nat) {
    exists k: nat :: HasAt(roles, role, k, perm) && k < n
  }

  predicate HasAt(roles: Roles, role: Role, k: nat, perm: string) {
    var a := Ancestor(roles, role, k);
    a.Some? && perm in a.value.permissions
  }

  /** `collectPermissions`. */
  function Collected(roles: Roles, role: Role, visited: set<string>): seq<string>
    decreases MAX_INHERITANCE_DEPTH - |visited|
  {
    if role.name in visited || |visited| >= MAX_INHERITANCE_DEPTH then []
    else
      role.permissions +
      if role.parent != "" && role.parent in roles
      then Collected(roles, roles[role.parent], visited + {role.name}) else []
  }

  predicate Named(roles: Roles) {
    forall n :: n in roles ==> roles[n].name == n
  }

  predicate Stored(roles: Roles, role: Role) { role.name in roles && roles[role.name] == role }

  lemma {:induction false} AncestorsStored(roles: Roles, role: Role, k: nat)
    requires Named(roles) && Stored(roles, role) && Ancestor(roles, role, k).Some?
    ensures Stored(roles, Ancestor(roles, role, k).value)
    ensures forall j :: 0 <= j < k ==> Ancestor(roles, role, j).Some?
  {
    if k > 0 {
      AncestorsStored(roles, role, k - 1);
    }
  }

  /** Once the chain comes back to a role it has passed, it brings nothing new. */
  lemma {:induction false} ChainRepeats(roles: Roles, role: Role, j: nat, i: nat, k: nat)
    requires j < i <= k && Ancestor(roles, role, i) == Ancestor(roles, role, j)
    ensures exists m: nat :: m < i && Ancestor(roles, role, m) == Ancestor(roles, role, k)
    decreases k
  {
    if k == i {
      assert Ancestor(roles, role, j) == Ancestor(roles, role, k);
    } else {
      ChainRepeats(roles, role, j, i, k - 1);
      var m: nat :| m < i && Ancestor(roles, role, m) == Ancestor(roles, role, k - 1);
      assert Ancestor(roles, role, m + 1) == Ancestor(roles, role, k);
      if m + 1 == i {
        assert Ancestor(roles, role, j) == Ancestor(roles, role, k);
      }
    }
  }

  function Names(roles: Roles, role: Role, i: nat): set<string> {
    set k: nat | k < i && Ancestor(roles, role, k).Some? :: Ancestor(roles, role, k).value.name
  }

  /** With the first `i` roles of the chain visited, all different: these and what is collected from
      role `i` on are together what is inherited. */
  lemma {:induction false} CollectedFrom(roles: Roles, role: Role, i: nat, perm: string)
    requires Named(roles) && Stored(roles, role) && Ancestor(roles, role, i).Some?
    requires |Names(roles, role, i)| == i <= MAX_INHERITANCE_DEPTH
    ensures perm in Collected(roles, Ancestor(roles, role, i).value, Names(roles, role, i)) || Has(roles, role, perm, i)
            <==> Has(roles, role, perm, MAX_INHERITANCE_DEPTH)
    decreases MAX_INHERITANCE_DEPTH - i
  {
    var a, visited := Ancestor(roles, role, i).value, Names(roles, role, i);
    if i < MAX_INHERITANCE_DEPTH {
      if a.name in visited {
        NothingNew(roles, role, i, perm);
      } else {
        AncestorsStored(roles, role, i);
        assert Names(roles, role, i + 1) == visited + {a.name};
        HasOneMore(roles, role, perm, i);
        if Ancestor(roles, role, i + 1).Some? {
          CollectedFrom(roles, role, i + 1, perm);
        } else {
          ChainEnds(roles, role, i + 1);
        }
      }
    }
  }

  lemma HasOneMore(roles: Roles, role: Role, perm: string, i: nat)
    requires Ancestor(roles, role, i).Some?
    ensures Has(roles, role, perm, i + 1) <==> Has(roles, role, perm, i)
                                               || perm in Ancestor(roles, role, i).value.permissions
  {
    assert HasAt(roles, role, i, perm) <==> perm in Ancestor(roles, role, i).value.permissions;
  }

  lemma NothingNew(roles: Roles, role: Role, i: nat, perm: string)
    requires Named(roles) && Stored(roles, role) && Ancestor(roles, role, i).Some? && i <= MAX_INHERITANCE_DEPTH
    requires Ancestor(roles, role, i).value.name in Names(roles, role, i)
    ensures Has(roles, role, perm, i) <==> Has(roles, role, perm, MAX_INHERITANCE_DEPTH)
  {
    var a := Ancestor(roles, role, i).value;
    var j: nat :| j < i && Ancestor(roles, role, j).Some? && Ancestor(roles, role, j).value.name == a.name;
    AncestorsStored(roles, role, i);
    AncestorsStored(roles, role, j);
    if k: nat :| HasAt(roles, role, k, perm) && i <= k {
      ChainRepeats(roles, role, j, i, k);
      var m: nat :| m < i && Ancestor(roles, role, m) == Ancestor(roles, role, k);
      assert HasAt(roles, role, m, perm);
    }
  }

  lemma {:induction false} ChainEnds(roles: Roles, role: Role, i: nat)
    requires Ancestor(roles, role, i).None?
    ensures forall k: nat :: k >= i ==> Ancestor(roles, role, k).None?
  {
    forall k: nat | k >= i ensures Ancestor(roles, role, k).None? {
      ChainEndsAt(roles, role, i, k);
    }
  }

  lemma {:induction false} ChainEndsAt(roles: Roles, role: Role, i: nat, k: nat)
    requires Ancestor(roles, role, i).None? && k >= i
    ensures Ancestor(roles, role, k).None?
  {
    if k > i {
      ChainEndsAt(roles, role, i, k - 1);
    }
  }

  /** On any parent graph, what is collected is exactly what the first ten ancestors hold. */
  lemma CollectsWhatIsInherited(roles: Roles, role: Role, perm: string)
    requires Named(roles) && Stored(roles, role)
    ensures perm in Collected(roles, role, {}) <==> Inherits(roles, role, perm)
  {
    assert Names(roles, role, 0) == {};
    CollectedFrom(roles, role, 0, perm);
  }

  // ---------- What users may do ----------

  ghost predicate RoleAllows(roles: Roles, superAdmin: string, name: string, resource: string, action: string) {
    && name in roles
    && ((superAdmin != "" && name == superAdmin)
        || exists perm :: perm in Granting(resource, action) && Inherits(roles, roles[name], perm))
  }

  /** Some role that the user has been assigned, and that exists, is the super admin or holds or inherits
      a permission for this. */
  ghost predicate Allowed(roles: Roles, superAdmin: string, held: set<string>, resource: string, action: string) {
    exists name :: name in held && RoleAllows(roles, superAdmin, name, resource, action)
  }

  ghost predicate UserInherits(roles: Roles, held: set<string>, perm: string) {
    exists name :: name in held && name in roles && Inherits(roles, roles[name], perm)
  }

  /** For users without the super admin role, asking for a permission is the same as looking for a match
      among all their permissions. */
  lemma AllowedIffPermissionMatches(roles: Roles, superAdmin: string, held: set<string>,
                                    resource: string, action: string)
    requires superAdmin == "" || superAdmin !in held || superAdmin !in roles
    ensures Allowed(roles, superAdmin, held, resource, action)
            <==> exists perm :: UserInherits(roles, held, perm) && Matches(ParsePermission(perm), resource, action)
  {
    if Allowed(roles, superAdmin, held, resource, action) {
      var name :| name in held && RoleAllows(roles, superAdmin, name, resource, action);
      var perm :| perm in Granting(resource, action) && Inherits(roles, roles[name], perm);
      MatchesIffGranting(perm, resource, action);
      assert UserInherits(roles, held, perm);
    }
    if perm :| UserInherits(roles, held, perm) && Matches(ParsePermission(perm), resource, action) {
      MatchesIffGranting(perm, resource, action);
      var name :| name in held && name in roles && Inherits(roles, roles[name], perm);
      assert RoleAllows(roles, superAdmin, name, resource, action);
    }
  }

  /** A line of existing roles, by name, each the parent of the one before. */
  ghost predicate Lineage(roles: Roles, line: seq<string>) {
    && line != []
    && (forall i :: 0 <= i < |line| ==> line[i] in roles)
    && (forall i :: 0 < i < |line| ==> line[i] != "" && line[i] == roles[line[i - 1]].parent)
  }

  /** The permission is held by the last of a line of at most ten roles that starts with `name`. */
  ghost predicate Reaches(roles: Roles, name: string, line: seq<string>, perm: string) {
    && Lineage(roles, line) && |line| <= 10 && line[0] == name
    && perm in roles[line[|line| - 1]].permissions
  }

  lemma {:induction false} LineOf(roles: Roles, role: Role, k: nat) returns (line: seq<string>)
    requires Named(roles) && Stored(roles, role) && Ancestor(roles, role, k).Some?
    ensures Lineage(roles, line) && |line| == k + 1 && line[0] == role.name
    ensures roles[line[k]] == Ancestor(roles, role, k).value
  {
    if k == 0 {
      line := [role.name];
    } else {
      line := LineOf(roles, role, k - 1);
      line := line + [roles[line[k - 1]].parent];
    }
  }

  lemma {:induction false} LineLeads(roles: Roles, line: seq<string>, k: nat)
    requires Lineage(roles, line) && k < |line|
    ensures Ancestor(roles, roles[line[0]], k) == Some(roles[line[k]])
  {
    if k > 0 {
      LineLeads(roles, line, k - 1);
    }
  }

  lemma InheritsIffReached(roles: Roles, name: string, perm: string)
    requires Named(roles) && name in roles
    ensures Inherits(roles, roles[name], perm) <==> exists line :: Reaches(roles, name, line, perm)
  {
    if Inherits(roles, roles[name], perm) {
      var k: nat :| HasAt(roles, roles[name], k, perm) && k < MAX_INHERITANCE_DEPTH;
      var line := LineOf(roles, roles[name], k);
      assert Reaches(roles, name, line, perm);
    }
    if line :| Reaches(roles, name, line, perm) {
      LineLeads(roles, line, |line| - 1);
      assert HasAt(roles, roles[name], |line| - 1, perm);
    }
  }

  ghost predicate UserReaches(roles: Roles, held: set<string>, perm: string) {
    exists name, line :: name in held && Reaches(roles, name, line, perm)
  }

  lemma UserInheritsIffReaches(roles: Roles, held: set<string>, perm: string)
    requires Named(roles)
    ensures UserInherits(roles, held, perm) <==> UserReaches(roles, held, perm)
  {
    if UserInherits(roles, held, perm) {
      var name :| name in held && name in roles && Inherits(roles, roles[name], perm);
      InheritsIffReached(roles, name, perm);
    }
    if name, line :| name in held && Reaches(roles, name, line, perm) {
      InheritsIffReached(roles, name, perm);
    }
  }

  /** The right to do something, told by lines of parents: the user has the existing super admin role, or
      a role from which a line of at most ten leads to one that holds a matching permission. */
  ghost predicate Entitled(roles: Roles, superAdmin: string, held: set<string>, resource: string, action: string) {
    || (superAdmin != "" && superAdmin in held && superAdmin in roles)
    || exists name, line, perm :: name in held && Reaches(roles, name, line, perm)
                                  && Matches(ParsePermission(perm), resource, action)
  }

  lemma AllowedIffEntitled(roles: Roles, superAdmin: string, held: set<string>, resource: string, action: string)
    requires Named(roles)
    ensures Allowed(roles, superAdmin, held, resource, action) <==> Entitled(roles, superAdmin, held, resource, action)
  {
    if Allowed(roles, superAdmin, held, resource, action) {
      var name :| name in held && RoleAllows(roles, superAdmin, name, resource, action);
      if !(superAdmin != "" && name == superAdmin) {
        var perm :| perm in Granting(resource, action) && Inherits(roles, roles[name], perm);
        InheritsIffReached(roles, name, perm);
        var line :| Reaches(roles, name, line, perm);
        MatchesIffGranting(perm, resource, action);
      }
    }
    if superAdmin != "" && superAdmin in held && superAdmin in roles {
      assert RoleAllows(roles, superAdmin, superAdmin, resource, action);
    }
    if name, line, perm :| name in held && Reaches(roles, name, line, perm)
                           && Matches(ParsePermission(perm), resource, action) {
      InheritsIffReached(roles, name, perm);
      MatchesIffGranting(perm, resource, action);
      assert RoleAllows(roles, superAdmin, name, resource, action);
    }
  }

  lemma {:induction false} AncestorWithout(roles: Roles, gone: string, role: Role, k: nat)
    ensures var a := Ancestor(roles - {gone}, role, k); a.Some? ==> Ancestor(roles, role, k) == a
  {
    if k > 0 {
      AncestorWithout(roles, gone, role, k - 1);
    }
  }

  /** Deleting a role or revoking one never allows anything new. */
  lemma LessIsAllowedWithLess(roles: Roles, superAdmin: string, held: set<string>, gone: string, revoked: set<string>,
                              resource: string, action: string)
    requires Allowed(roles - {gone}, superAdmin, held - revoked, resource, action)
    ensures Allowed(roles, superAdmin, held, resource, action)
  {
    var rest := roles - {gone};
    var name :| name in held - revoked && RoleAllows(rest, superAdmin, name, resource, action);
    if !(superAdmin != "" && name == superAdmin) {
      var perm :| perm in Granting(resource, action) && Inherits(rest, rest[name], perm);
      var k: nat :| HasAt(rest, rest[name], k, perm) && k < MAX_INHERITANCE_DEPTH;
      AncestorWithout(roles, gone, roles[name], k);
      assert HasAt(roles, roles[name], k, perm);
      assert Inherits(roles, roles[name], perm);
    }
    assert RoleAllows(roles, superAdmin, name, resource, action);
  }

  // ---------- The manager ----------

  datatype Result = Ok | RoleExists | RoleNotFound

  class Manager {
    const superAdmin: string
    var roles: Roles
    var userRoles: map<string, set<string>>

    ghost predicate Valid()
      reads this
    {
      Named(roles)
    }

    function Assigned(user: string): set<string>
      reads this
    {
      if user in userRoles then userRoles[user] else {}
    }

    constructor (superAdmin: string)
      ensures Valid() && roles == map[] && userRoles == map[] && this.superAdmin == superAdmin
    {
      this.superAdmin, roles, userRoles := superAdmin, map[], map[];
    }

    method CreateRole(role: Role) returns (r: Result)
      requires Valid()
      modifies this`roles
      ensures Valid() && r == if role.name in old(roles) then RoleExists else Ok
      ensures roles == if r.Ok? then old(roles)[role.name := role] else old(roles)
    {
      if role.name in roles {
        return RoleExists;
      }
      roles := roles[role.name := role];
      return Ok;
    }

    method DeleteRole(name: string) returns (r: Result)
      requires Valid()
      modifies this`roles
      ensures Valid() && roles == old(roles) - {name}
      ensures r == if name in old(roles) then Ok else RoleNotFound
    {
      if name !in roles {
        assert roles == roles - {name};
        return RoleNotFound;
      }
      roles := roles - {name};
      return Ok;
    }

    method AssignRole(user: string, name: string) returns (r: Result)
      modifies this`userRoles
      ensures r == if name in roles then Ok else RoleNotFound
      ensures userRoles == if r.Ok? then old(userRoles)[user := old(Assigned(user)) + {name}] else old(userRoles)
    {
      if name !in roles {
        return RoleNotFound;
      }
      userRoles := userRoles[user := Assigned(user) + {name}];
      return Ok;
    }

    method RevokeRole(user: string, name: string)
      modifies this`userRoles
      ensures forall u :: Assigned(u) == if u == user then old(Assigned(u)) - {name} else old(Assigned(u))
    {
      if user in userRoles {
        userRoles := userRoles[user := userRoles[user] - {name}];
      }
    }

    /** In any order. Names of roles that do not exist are passed over. */
    method GetUserRoles(user: string) returns (found: seq<Role>)
      requires Valid()
      ensures forall role :: role in found
                <==> role.name in Assigned(user) && role.name in roles && roles[role.name] == role
    {
      found := [];
      var left := Assigned(user);
      while left != {}
        invariant left <= Assigned(user)
        invariant forall role :: role in found
                    <==> role.name in Assigned(user) - left && role.name in roles && roles[role.name] == role
        decreases |left|
      {
        var name :| name in left;
        left := left - {name};
        if name in roles {
          found := found + [roles[name]];
        }
      }
    }

    /** The set of visited names is shared by all the calls. */
    method CollectPermissions(role: Role, visited: set<string>) returns (perms: seq<string>, visited': set<string>)
      ensures perms == Collected(roles, role, visited)
      ensures visited <= visited' && |visited'|
                                      <= if |visited| <= MAX_INHERITANCE_DEPTH then MAX_INHERITANCE_DEPTH else |visited|
      decreases MAX_INHERITANCE_DEPTH - |visited|
    {
      perms, visited' := [], visited;
      if role.name in visited {
        return;
      }
      if |visited| >= MAX_INHERITANCE_DEPTH {
        return;
      }
      visited' := visited + {role.name};
      perms := role.permissions;
      if role.parent != "" {
        if role.parent in roles {
          var more;
          more, visited' := CollectPermissions(roles[role.parent], visited');
          perms := perms + more;
        }
      }
    }

    method HasPermission(user: string, resource: string, action: string) returns (ok: bool)
      requires Valid()
      ensures ok <==> Allowed(roles, superAdmin, Assigned(user), resource, action)
      ensures ok <==> Entitled(roles, superAdmin, Assigned(user), resource, action)
    {
      AllowedIffEntitled(roles, superAdmin, Assigned(user), resource, action);
      var found := GetUserRoles(user);
      for i := 0 to |found|
        invariant forall j :: 0 <= j < i ==> !RoleAllows(roles, superAdmin, found[j].name, resource, action)
      {
        ok := RolePermits(found[i], resource, action);
        if ok {
          assert found[i] in found;
          return true;
        }
      }
      forall name | name in Assigned(user) && name in roles
        ensures !RoleAllows(roles, superAdmin, name, resource, action)
      {
        assert roles[name] in found;
      }
      return false;
    }

    method RolePermits(role: Role, resource: string, action: string) returns (ok: bool)
      requires Valid() && Stored(roles, role)
      ensures ok <==> RoleAllows(roles, superAdmin, role.name, resource, action)
    {
      if superAdmin != "" && role.name == superAdmin {
        return true;
      }
      var perms, _ := CollectPermissions(role, {});
      for i := 0 to |perms|
        invariant forall j :: 0 <= j < i ==> perms[j] !in Granting(resource, action)
      {
        MatchesIffGranting(perms[i], resource, action);
        if Matches(ParsePermission(perms[i]), resource, action) {
          CollectsWhatIsInherited(roles, role, perms[i]);
          return true;
        }
      }
      forall perm | perm in Granting(resource, action) ensures !Inherits(roles, role, perm) {
        CollectsWhatIsInherited(roles, role, perm);
      }
      return false;
    }

    method AddPermissions(role: Role, perms: set<string>) returns (result: set<string>)
      requires Valid() && Stored(roles, role)
      ensures forall perm :: perm in result <==> perm in perms || Inherits(roles, role, perm)
    {
      var more, _ := CollectPermissions(role, {});
      forall perm ensures perm in more <==> Inherits(roles, role, perm) {
        CollectsWhatIsInherited(roles, role, perm);
      }
      result := perms + set perm | perm in more;
    }

    /** In any order, each once. */
    method GetUserPermissions(user: string) returns (result: set<string>)
      requires Valid()
      ensures forall perm :: perm in result <==> UserInherits(roles, Assigned(user), perm)
      ensures forall perm :: perm in result <==> UserReaches(roles, Assigned(user), perm)
    {
      var found := GetUserRoles(user);
      result := {};
      for i := 0 to |found|
        invariant forall perm :: perm in result <==> SomeInherits(found[..i], perm)
      {
        assert found[i] in found;
        forall perm ensures SomeInherits(found[..i + 1], perm)
                            <==> SomeInherits(found[..i], perm) || Inherits(roles, found[i], perm) {
          OneMoreInherits(found, i, perm);
        }
        result := AddPermissions(found[i], result);
      }
      assert found[..|found|] == found;
      InheritedTold(found, Assigned(user));
    }

    lemma InheritedTold(found: seq<Role>, held: set<string>)
      requires forall role :: role in found <==> role.name in held && role.name in roles && roles[role.name] == role
      requires Valid()
      ensures forall perm :: SomeInherits(found, perm) <==> UserInherits(roles, held, perm)
      ensures forall perm :: UserInherits(roles, held, perm) <==> UserReaches(roles, held, perm)
    {
      forall perm
        ensures SomeInherits(found, perm) <==> UserInherits(roles, held, perm)
        ensures UserInherits(roles, held, perm) <==> UserReaches(roles, held, perm)
      {
        InheritedBySome(found, held, perm);
        UserInheritsIffReaches(roles, held, perm);
      }
    }

    ghost predicate SomeInherits(found: seq<Role>, perm: string)
      reads this
    {
      exists j :: 0 <= j < |found| && Inherits(roles, found[j], perm)
    }

    lemma OneMoreInherits(found: seq<Role>, i: nat, perm: string)
      requires i < |found|
      ensures SomeInherits(found[..i + 1], perm) <==> SomeInherits(found[..i], perm) || Inherits(roles, found[i], perm)
    {
      if Inherits(roles, found[i], perm) {
        assert found[..i + 1][i] == found[i];
      }
      if j :| 0 <= j < i && Inherits(roles, found[..i][j], perm) {
        assert found[..i + 1][j] == found[..i][j];
      }
    }

    lemma InheritedBySome(found: seq<Role>, held: set<string>, perm: string)
      requires forall role :: role in found <==> role.name in held && role.name in roles && roles[role.name] == role
      requires Valid()
      ensures SomeInherits(found, perm) <==> UserInherits(roles, held, perm)
    {
      if j :| 0 <= j < |found| && Inherits(roles, found[j], perm) {
        assert found[j] in found;
      }
      if UserInherits(roles, held, perm) {
        var name :| name in held && name in roles && Inherits(roles, roles[name], perm);
        assert roles[name] in found;
      }
    }
  }
}
