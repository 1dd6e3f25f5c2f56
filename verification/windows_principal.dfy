/** `waffle.apache.GenericWindowsPrincipal`: the principal built from a Windows identity. Its role
    list is the user's own names under the principal format followed by every group's names under
    the role format, and its group map is keyed by group fqn. */
module WindowsPrincipals {
  import opened Octets
  import JavaStrings

  /** `waffle.windows.auth.PrincipalFormat`. */
  datatype PrincipalFormat = FQN | SID | BOTH | NONE

  /** A Windows account (`IWindowsAccount` / `WindowsAccount`) as far as principals use it. */
  datatype Account = Account(fqn: string, sidString: string)

  /** What the authentication provider hands back for a logged-on user (`IWindowsIdentity`). */
  datatype Identity = Identity(fqn: string, sid: Bytes, sidString: string, groups: seq<Account>, isGuest: bool)

  /** The principal: Tomcat's name/password/roles plus the SID and the group map. */
  datatype WindowsPrincipal = WindowsPrincipal(
    name: string,
    password: string,
    roles: seq<string>,
    sid: Bytes,
    sidString: string,
    groups: map<string, Account>)

  predicate ShowsFqn(f: PrincipalFormat) {
    f == FQN || f == BOTH
  }

  predicate ShowsSid(f: PrincipalFormat) {
    f == SID || f == BOTH
  }

  /** How many names one account contributes under a format. */
  function Width(f: PrincipalFormat): nat {
    (if ShowsFqn(f) then 1 else 0) + (if ShowsSid(f) then 1 else 0)
  }

  /** The rule shared by `getPrincipalNames` and `getRoleNames`: the fqn when the format shows
      it, then the SID string when the format shows it. */
  function Names(fqn: string, sidString: string, f: PrincipalFormat): (r: seq<string>)
    ensures |r| == Width(f)
    ensures ShowsFqn(f) ==> r[0] == fqn
    ensures ShowsSid(f) ==> r[|r| - 1] == sidString
    ensures forall x :: x in r <==> (ShowsFqn(f) && x == fqn) || (ShowsSid(f) && x == sidString)
  {
    match f
    case FQN => [fqn]
    case SID => [sidString]
    case BOTH => [fqn, sidString]
    case NONE => []
  }

  /** `getPrincipalNames`: the user's fqn, then the user's SID string, each when the format
      shows it. */
  function PrincipalNames(id: Identity, f: PrincipalFormat): (r: seq<string>)
    ensures |r| == Width(f)
    ensures ShowsFqn(f) ==> r[0] == id.fqn
    ensures ShowsSid(f) ==> r[|r| - 1] == id.sidString
  {
    Names(id.fqn, id.sidString, f)
  }

  /** `getRoleNames`: the group's fqn, then the group's SID string, each when the format
      shows it. */
  function RoleNames(g: Account, f: PrincipalFormat): (r: seq<string>)
    ensures |r| == Width(f)
    ensures ShowsFqn(f) ==> r[0] == g.fqn
    ensures ShowsSid(f) ==> r[|r| - 1] == g.sidString
  {
    Names(g.fqn, g.sidString, f)
  }

  /** The groups' role names, group after group in array order. */
  function GroupRoles(gs: seq<Account>, f: PrincipalFormat): (r: seq<string>)
    ensures |r| == |gs| * Width(f)
    decreases |gs|
  {
    if |gs| == 0 then [] else RoleNames(gs[0], f) + GroupRoles(gs[1..], f)
  }

  /** `getRoles`: principal names first, then every group's role names; nothing is removed. */
  function Roles(id: Identity, pf: PrincipalFormat, rf: PrincipalFormat): (r: seq<string>)
    ensures |r| == Width(pf) + |id.groups| * Width(rf)
  {
    PrincipalNames(id, pf) + GroupRoles(id.groups, rf)
  }

  /** `getGroups`: every group put under its fqn in array order, so a later group with the same
      fqn replaces an earlier one. */
  function GroupMap(gs: seq<Account>): (m: map<string, Account>)
    ensures forall k :: k in m ==> m[k].fqn == k && m[k] in gs
    decreases |gs|
  {
    if |gs| == 0 then map[]
    else
      var last := gs[|gs| - 1];
      GroupMap(gs[..|gs| - 1])[last.fqn := last]
  }

  /** The constructor: name is the fqn, password empty, roles and groups as above. */
  function NewPrincipal(id: Identity, pf: PrincipalFormat, rf: PrincipalFormat): (p: WindowsPrincipal)
    ensures p.name == id.fqn && p.password == ""
    ensures p.sid == id.sid && p.sidString == id.sidString
    ensures |p.roles| == Width(pf) + |id.groups| * Width(rf)
    ensures p.roles[..Width(pf)] == PrincipalNames(id, pf)
    ensures p.roles[Width(pf)..] == GroupRoles(id.groups, rf)
    ensures p.groups.Keys == set g | g in id.groups :: g.fqn
  {
    GroupMapKeys(id.groups);
    WindowsPrincipal(id.fqn, "", Roles(id, pf, rf), id.sid, id.sidString, GroupMap(id.groups))
  }

  /** `getSid`: a fresh array holding the stored SID. The stored SID is an immutable value, so
      writes to the copy cannot reach it. */
  method GetSid(p: WindowsPrincipal) returns (a: array<Byte>)
    ensures fresh(a)
    ensures a[..] == p.sid
  {
    a := new Byte[|p.sid|](i requires 0 <= i < |p.sid| => p.sid[i]);
  }

  /** `getRolesString`: the roles joined with ", ". */
  function RolesString(p: WindowsPrincipal): (r: string)
    ensures |p.roles| == 0 ==> r == ""
    ensures |p.roles| > 0 && (forall i :: 0 <= i < |p.roles| ==> ',' !in p.roles[i]) ==>
              JavaStrings.Split(r, ", ") == p.roles
  {
    if |p.roles| > 0 && forall i :: 0 <= i < |p.roles| ==> ',' !in p.roles[i] then
      JavaStrings.SplitJoin(p.roles, ", ");
      JavaStrings.Join(p.roles, ", ")
    else JavaStrings.Join(p.roles, ", ")
  }

  /** `isUserInRole` on a request carrying this principal. */
  predicate HasRole(p: WindowsPrincipal, role: string) {
    role in p.roles
  }

  // ---------------------------------------------------------------------------
  // The layout of the role list
  // ---------------------------------------------------------------------------

  lemma NamesOfFormats(fqn: string, sidString: string)
    ensures Names(fqn, sidString, FQN) == [fqn]
    ensures Names(fqn, sidString, SID) == [sidString]
    ensures Names(fqn, sidString, BOTH) == [fqn, sidString]
    ensures Names(fqn, sidString, NONE) == []
  {
  }

  lemma {:induction false} GroupRolesAppend(a: seq<Account>, b: seq<Account>, f: PrincipalFormat)
    ensures GroupRoles(a + b, f) == GroupRoles(a, f) + GroupRoles(b, f)
    decreases |a|
  {
    if |a| > 0 {
      assert (a + b)[0] == a[0] && (a + b)[1..] == a[1..] + b;
      GroupRolesAppend(a[1..], b, f);
    } else {
      assert a + b == b;
    }
  }

  /** Group `k` contributes its own names right after the names of the groups before it
      (`k * Width(f)` of them) and before those of the groups after it. */
  lemma GroupRolesLayout(gs: seq<Account>, f: PrincipalFormat, k: nat)
    requires k < |gs|
    ensures GroupRoles(gs, f) == GroupRoles(gs[..k], f) + RoleNames(gs[k], f) + GroupRoles(gs[k + 1..], f)
  {
    var before, after := gs[..k], gs[k + 1..];
    JavaStrings.SplitAround(gs, k);
    GroupRolesAppend(before, [gs[k]] + after, f);
    GroupRolesCons(gs[k], after, f);
  }

  lemma GroupRolesCons(g: Account, gs: seq<Account>, f: PrincipalFormat)
    ensures GroupRoles([g] + gs, f) == RoleNames(g, f) + GroupRoles(gs, f)
  {
    assert ([g] + gs)[0] == g && ([g] + gs)[1..] == gs;
  }

  /** The role list is the principal names, then the blocks of the groups before `k`, then
      group `k`'s names, then the blocks of the groups after it. */
  lemma RolesLayout(id: Identity, pf: PrincipalFormat, rf: PrincipalFormat, k: nat)
    requires k < |id.groups|
    ensures Roles(id, pf, rf) ==
      PrincipalNames(id, pf) + GroupRoles(id.groups[..k], rf) + RoleNames(id.groups[k], rf)
        + GroupRoles(id.groups[k + 1..], rf)
    ensures |PrincipalNames(id, pf) + GroupRoles(id.groups[..k], rf)| == Width(pf) + k * Width(rf)
  {
    var gs := id.groups;
    var pn, before, own, after :=
      PrincipalNames(id, pf), GroupRoles(gs[..k], rf), RoleNames(gs[k], rf), GroupRoles(gs[k + 1..], rf);
    GroupRolesLayout(gs, rf, k);
    Regroup(pn, before, own, after);
    PrefixWidth(gs, rf, k);
  }

  lemma Regroup<T>(a: seq<T>, b: seq<T>, c: seq<T>, d: seq<T>)
    ensures a + (b + c + d) == a + b + c + d
  {
  }

  lemma PrefixWidth(gs: seq<Account>, f: PrincipalFormat, k: nat)
    requires k <= |gs|
    ensures |GroupRoles(gs[..k], f)| == k * Width(f)
  {
    assert |gs[..k]| == k;
  }

  /** A name is among the groups' roles exactly when some group shows it under the format. */
  lemma {:induction false} GroupRolesMembership(gs: seq<Account>, f: PrincipalFormat, x: string)
    ensures x in GroupRoles(gs, f) <==> exists k :: 0 <= k < |gs| && x in RoleNames(gs[k], f)
    decreases |gs|
  {
    if |gs| > 0 {
      GroupRolesMembership(gs[1..], f, x);
      if x in GroupRoles(gs[1..], f) {
        var k :| 0 <= k < |gs[1..]| && x in RoleNames(gs[1..][k], f);
        assert x in RoleNames(gs[k + 1], f);
      }
      if exists k :: 0 <= k < |gs| && x in RoleNames(gs[k], f) {
        var k :| 0 <= k < |gs| && x in RoleNames(gs[k], f);
        if k > 0 {
          assert x in RoleNames(gs[1..][k - 1], f);
        }
      }
    }
  }

  /** A role is held exactly when the user's own names or some group's names include it. */
  lemma RoleMembership(id: Identity, pf: PrincipalFormat, rf: PrincipalFormat, x: string)
    ensures x in Roles(id, pf, rf) <==>
      x in PrincipalNames(id, pf) || exists k :: 0 <= k < |id.groups| && x in RoleNames(id.groups[k], rf)
  {
    GroupRolesMembership(id.groups, rf, x);
  }

  /** Under role format BOTH, every group's fqn and SID string are both roles. */
  lemma BothRolesHoldGroupNameAndSid(id: Identity, pf: PrincipalFormat, k: nat)
    requires k < |id.groups|
    ensures id.groups[k].fqn in Roles(id, pf, BOTH)
    ensures id.groups[k].sidString in Roles(id, pf, BOTH)
  {
    RoleMembership(id, pf, BOTH, id.groups[k].fqn);
    RoleMembership(id, pf, BOTH, id.groups[k].sidString);
  }

  // ---------------------------------------------------------------------------
  // The group map
  // ---------------------------------------------------------------------------

  /** The keys of the group map are exactly the group fqns. */
  lemma {:induction false} GroupMapKeys(gs: seq<Account>)
    ensures GroupMap(gs).Keys == set g | g in gs :: g.fqn
    decreases |gs|
  {
    if |gs| > 0 {
      var init := gs[..|gs| - 1];
      GroupMapKeys(init);
      assert gs == init + [gs[|gs| - 1]];
      assert (set g | g in gs :: g.fqn) == (set g | g in init :: g.fqn) + {gs[|gs| - 1].fqn};
    }
  }

  /** A group that no later group shadows is the map's value for its fqn. */
  lemma {:induction false} GroupMapLastWins(gs: seq<Account>, j: nat)
    requires j < |gs|
    requires forall i :: j < i < |gs| ==> gs[i].fqn != gs[j].fqn
    ensures gs[j].fqn in GroupMap(gs) && GroupMap(gs)[gs[j].fqn] == gs[j]
    decreases |gs|
  {
    if j < |gs| - 1 {
      var init := gs[..|gs| - 1];
      assert forall i :: j < i < |init| ==> init[i] == gs[i];
      GroupMapLastWins(init, j);
    }
  }

  /** The value under a key comes from the last group with that fqn. */
  lemma {:induction false} GroupMapValueIsLast(gs: seq<Account>, key: string)
    requires key in GroupMap(gs)
    ensures exists j :: 0 <= j < |gs| && gs[j] == GroupMap(gs)[key] &&
                        forall i :: j < i < |gs| ==> gs[i].fqn != key
    decreases |gs|
  {
    var last := gs[|gs| - 1];
    var init := gs[..|gs| - 1];
    if last.fqn == key {
      assert gs[|gs| - 1] == GroupMap(gs)[key];
    } else {
      assert GroupMap(gs)[key] == GroupMap(init)[key];
      GroupMapValueIsLast(init, key);
      var j :| 0 <= j < |init| && init[j] == GroupMap(init)[key] &&
        forall i :: j < i < |init| ==> init[i].fqn != key;
      UnshadowedInPrefix(gs, init, key, j);
    }
  }

  /** A group no later group of the prefix shadows stays unshadowed when the last group has
      another fqn. */
  lemma UnshadowedInPrefix(gs: seq<Account>, init: seq<Account>, key: string, j: nat)
    requires 0 < |gs| && init == gs[..|gs| - 1] && j < |init| && gs[|gs| - 1].fqn != key
    requires forall i :: j < i < |init| ==> init[i].fqn != key
    ensures forall i :: j < i < |gs| ==> gs[i].fqn != key
  {
    forall i | j < i < |gs| ensures gs[i].fqn != key {
      if i < |init| {
        assert gs[i] == init[i];
      }
    }
  }

  // ---------------------------------------------------------------------------
  // The constructed principal
  // ---------------------------------------------------------------------------

  /** A principal built from an identity holds a role exactly when the user's own names or some
      group's names under the role format include it. */
  lemma NewPrincipalHasRole(id: Identity, pf: PrincipalFormat, rf: PrincipalFormat, x: string)
    ensures HasRole(NewPrincipal(id, pf, rf), x) <==>
      x in PrincipalNames(id, pf) || exists k :: 0 <= k < |id.groups| && x in RoleNames(id.groups[k], rf)
  {
    RoleMembership(id, pf, rf, x);
  }

  /** The principal's group map answers for a key exactly when some group has that fqn, and
      then with the last such group of the identity's array. */
  lemma NewPrincipalGroup(id: Identity, pf: PrincipalFormat, rf: PrincipalFormat, key: string)
    ensures key in NewPrincipal(id, pf, rf).groups <==> exists j :: 0 <= j < |id.groups| && id.groups[j].fqn == key
    ensures key in NewPrincipal(id, pf, rf).groups ==>
      exists j :: 0 <= j < |id.groups| && NewPrincipal(id, pf, rf).groups[key] == id.groups[j] &&
                  forall i :: j < i < |id.groups| ==> id.groups[i].fqn != key
  {
    var gs := id.groups;
    if exists j :: 0 <= j < |gs| && gs[j].fqn == key {
      var j :| 0 <= j < |gs| && gs[j].fqn == key;
      assert gs[j] in gs;
    }
    if key in GroupMap(gs) {
      GroupMapValueIsLast(gs, key);
    }
  }

  /** A group no later group shadows is what the principal's group map holds for its fqn. */
  lemma NewPrincipalLastGroupWins(id: Identity, pf: PrincipalFormat, rf: PrincipalFormat, j: nat)
    requires j < |id.groups|
    requires forall i :: j < i < |id.groups| ==> id.groups[i].fqn != id.groups[j].fqn
    ensures NewPrincipal(id, pf, rf).groups[id.groups[j].fqn] == id.groups[j]
  {
    GroupMapLastWins(id.groups, j);
  }

  // ---------------------------------------------------------------------------
  // The roles string
  // ---------------------------------------------------------------------------

  /** The roles string starts with the first role, ends with the last, and puts exactly one
      ", " between consecutive roles. */
  lemma RolesStringShape(p: WindowsPrincipal)
    requires |p.roles| > 0
    ensures p.roles[0] <= RolesString(p)
    ensures JavaStrings.EndsWith(RolesString(p), p.roles[|p.roles| - 1])
    ensures |RolesString(p)| == JavaStrings.TotalLength(p.roles) + 2 * (|p.roles| - 1)
  {
    JavaStrings.JoinShape(p.roles, ", ");
  }

  lemma RolesStringOfNoRoles(p: WindowsPrincipal)
    requires |p.roles| == 0
    ensures RolesString(p) == ""
  {
  }

  /** When no role contains a comma, cutting the roles string at every ", " gives back the
      roles, so the separator only ever sits between roles. */
  lemma RolesStringSplits(p: WindowsPrincipal)
    requires |p.roles| > 0
    requires forall i :: 0 <= i < |p.roles| ==> ',' !in p.roles[i]
    ensures JavaStrings.Split(RolesString(p), ", ") == p.roles
  {
    JavaStrings.SplitJoin(p.roles, ", ");
  }
}
