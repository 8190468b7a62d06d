/** Who holds a realm role (scripts/keycloak_mfa.py): group and user role mappings and the
    service account of the API client, brought to exactly what is wanted. */
module KeycloakRoles {
  import opened Basics
  import opened Text

  datatype GroupTree = GroupTree(id: nat, name: string, subGroups: seq<GroupTree>)

  datatype Group = Group(id: nat, name: string)

  /** The groups in the order all_groups walks them. */
  function PreOrder(trees: seq<GroupTree>): seq<Group>
    decreases trees
  {
    if trees == [] then []
    else [Group(trees[0].id, trees[0].name)] + PreOrder(trees[0].subGroups) + PreOrder(trees[1..])
  }

  /** all_groups: the first group of each name, in walking order. */
  function Walk(trees: seq<GroupTree>, found: map<string, nat>): map<string, nat>
    decreases trees
  {
    if trees == [] then found
    else
      var g := trees[0];
      var here := if g.name in found then found else found[g.name := g.id];
      Walk(trees[1..], Walk(g.subGroups, here))
  }

  function FirstOf(groups: seq<Group>, found: map<string, nat>): map<string, nat> {
    if groups == [] then found
    else
      var g := groups[0];
      FirstOf(groups[1..], if g.name in found then found else found[g.name := g.id])
  }

  lemma {:induction false} FirstOfConcat(a: seq<Group>, b: seq<Group>, found: map<string, nat>)
    ensures FirstOf(a + b, found) == FirstOf(b, FirstOf(a, found))
  {
    if a == [] {
      assert a + b == b;
    } else {
      assert (a + b)[1..] == a[1..] + b;
      FirstOfConcat(a[1..], b, if a[0].name in found then found else found[a[0].name := a[0].id]);
    }
  }

  lemma {:induction false} WalkIsFirst(trees: seq<GroupTree>, found: map<string, nat>)
    ensures Walk(trees, found) == FirstOf(PreOrder(trees), found)
    decreases trees
  {
    if trees != [] {
      var g := trees[0];
      var here := if g.name in found then found else found[g.name := g.id];
      WalkIsFirst(g.subGroups, here);
      WalkIsFirst(trees[1..], Walk(g.subGroups, here));
      FirstOfConcat([Group(g.id, g.name)] + PreOrder(g.subGroups), PreOrder(trees[1..]), found);
      FirstOfConcat([Group(g.id, g.name)], PreOrder(g.subGroups), found);
      assert [Group(g.id, g.name)][1..] == [];
    }
  }

  /** Ids are unique, as the server makes them. */
  ghost predicate UniqueIds(groups: seq<Group>) {
    forall i, j :: 0 <= i < j < |groups| ==> groups[i].id != groups[j].id
  }

  /** `present` gives each group's name a group of that name. */
  ghost predicate NamesGroups(present: map<string, nat>, groups: seq<Group>) {
    && (forall g :: g in groups ==> g.name in present)
    && (forall n :: n in present ==> Group(present[n], n) in groups)
  }

  lemma {:induction false} FirstOfFinds(groups: seq<Group>, found: map<string, nat>)
    ensures var r := FirstOf(groups, found);
            && (forall n :: n in found ==> n in r && r[n] == found[n])
            && (forall g :: g in groups ==> g.name in r)
            && (forall n :: n in r && n !in found ==> Group(r[n], n) in groups)
  {
    if groups != [] {
      var g := groups[0];
      var here := if g.name in found then found else found[g.name := g.id];
      FirstOfFinds(groups[1..], here);
      assert groups == [g] + groups[1..];
      var r := FirstOf(groups, found);
      forall n | n in r && n !in found ensures Group(r[n], n) in groups {
        if n == g.name { assert r[n] == g.id; }
      }
    }
  }

  /** A name leads to the earliest group that has it. */
  lemma {:induction false} NameLeadsToFirst(groups: seq<Group>, found: map<string, nat>, i: nat)
    requires i < |groups| && groups[i].name !in found
    requires forall j :: 0 <= j < i ==> groups[j].name != groups[i].name
    ensures groups[i].name in FirstOf(groups, found) && FirstOf(groups, found)[groups[i].name] == groups[i].id
  {
    var g := groups[0];
    var here := if g.name in found then found else found[g.name := g.id];
    if i == 0 {
      FirstOfFinds(groups[1..], here);
    } else {
      NameLeadsToFirst(groups[1..], here, i - 1);
    }
  }

  lemma WalkNamesGroups(trees: seq<GroupTree>)
    ensures NamesGroups(Walk(trees, map[]), PreOrder(trees))
  {
    WalkIsFirst(trees, map[]);
    FirstOfFinds(PreOrder(trees), map[]);
  }

  ghost function HolderNames(groups: seq<Group>, holders: set<nat>): set<string> {
    set g | g in groups && g.id in holders :: g.name
  }

  /** The groups holding the role once the run has gone through. */
  ghost function HoldersAfter(present: map<string, nat>, groups: seq<Group>, holders: set<nat>, wanted: seq<string>): set<nat> {
    var names := HolderNames(groups, holders);
    holders + (set n | n in wanted && n in present && n !in names :: present[n])
      - (set n | n in names && n !in wanted && n in present :: present[n])
  }

  ghost function WantedPresent(present: map<string, nat>, wanted: seq<string>): set<string> {
    set n | n in wanted && n in present
  }

  /** The groups the wanted names lead to: those that should hold the role. */
  ghost function WantedIds(present: map<string, nat>, wanted: seq<string>): set<nat> {
    set n | n in wanted && n in present :: present[n]
  }

  ghost function Ids(groups: seq<Group>): set<nat> {
    set g | g in groups :: g.id
  }

  /** Every holder is the group its name leads to. */
  ghost predicate HoldersAreFound(present: map<string, nat>, groups: seq<Group>, holders: set<nat>) {
    forall g :: g in groups && g.id in holders && g.name in present ==> present[g.name] == g.id
  }

  /** The role ends up with exactly the groups the wanted names lead to if and only if no holder,
      wanted or not, hides behind another group of the same name. */
  lemma GroupRoleConverges(present: map<string, nat>, groups: seq<Group>, holders: set<nat>, wanted: seq<string>)
    requires UniqueIds(groups) && NamesGroups(present, groups) && holders <= Ids(groups)
    ensures HoldersAfter(present, groups, holders, wanted) == WantedIds(present, wanted)
            <==> HoldersAreFound(present, groups, holders)
  {
    if HoldersAreFound(present, groups, holders) {
      FoundHoldersConverge(present, groups, holders, wanted);
    } else {
      var g :| g in groups && g.id in holders && g.name in present && present[g.name] != g.id;
      HiddenHolderStays(present, groups, holders, wanted, g);
    }
  }

  /** No name leads to a hidden group, so nothing takes the role from it. */
  lemma HiddenHolderStays(present: map<string, nat>, groups: seq<Group>, holders: set<nat>, wanted: seq<string>, g: Group)
    requires UniqueIds(groups) && NamesGroups(present, groups)
    requires g in groups && g.id in holders && g.name in present && present[g.name] != g.id
    ensures g.id in HoldersAfter(present, groups, holders, wanted) && g.id !in WantedIds(present, wanted)
  {
    forall n | n in present ensures present[n] != g.id {
      SameIdSameGroup(groups, Group(present[n], n), g);
    }
  }

  lemma FoundHoldersConverge(present: map<string, nat>, groups: seq<Group>, holders: set<nat>, wanted: seq<string>)
    requires UniqueIds(groups) && NamesGroups(present, groups) && holders <= Ids(groups)
    requires HoldersAreFound(present, groups, holders)
    ensures HoldersAfter(present, groups, holders, wanted) == WantedIds(present, wanted)
  {
    var names := HolderNames(groups, holders);
    forall id | id in WantedIds(present, wanted) ensures id in HoldersAfter(present, groups, holders, wanted) {
      var n :| n in wanted && n in present && present[n] == id;
      if n in names {
        var g :| g in groups && g.id in holders && g.name == n;
      }
      forall m | m in present && m !in wanted ensures present[m] != id {
        SameIdSameGroup(groups, Group(present[m], m), Group(id, n));
      }
    }
    forall id | id in HoldersAfter(present, groups, holders, wanted) ensures id in WantedIds(present, wanted) {
      if id in holders {
        var g :| g in groups && g.id == id;
        assert g.name in names && g.name in present;
        assert present[g.name] == id;
      }
    }
  }

  /** Every unwanted holder is the group its name leads to. */
  ghost predicate NoShadowedHolder(present: map<string, nat>, groups: seq<Group>, holders: set<nat>, wanted: seq<string>) {
    forall g :: g in groups && g.id in holders && g.name !in wanted && g.name in present ==> present[g.name] == g.id
  }

  /** Seen by name only, as the script sees it: the names of the holders end up as the wanted ones
      that exist if and only if no unwanted holder hides behind another group of its name. */
  lemma HolderNamesConverge(present: map<string, nat>, groups: seq<Group>, holders: set<nat>, wanted: seq<string>)
    requires UniqueIds(groups) && NamesGroups(present, groups)
    ensures HolderNames(groups, HoldersAfter(present, groups, holders, wanted)) == WantedPresent(present, wanted)
            <==> NoShadowedHolder(present, groups, holders, wanted)
  {
    var names := HolderNames(groups, holders);
    var after := HoldersAfter(present, groups, holders, wanted);
    var left := HolderNames(groups, after);
    forall n | n in WantedPresent(present, wanted) ensures n in left {
      if n in names {
        var g :| g in groups && g.id in holders && g.name == n;
        forall m | m in names && m !in wanted && m in present ensures present[m] != g.id {
          SameIdSameGroup(groups, Group(present[m], m), g);
        }
        assert g.id in after;
      } else {
        var g := Group(present[n], n);
        assert g in groups;
        forall m | m in names && m !in wanted && m in present ensures present[m] != g.id {
          SameIdSameGroup(groups, Group(present[m], m), g);
        }
        assert g.id in after;
      }
    }
    if NoShadowedHolder(present, groups, holders, wanted) {
      forall n | n in left ensures n in wanted && n in present {
        var g :| g in groups && g.id in after && g.name == n;
        if n !in wanted {
          if g.id !in holders {
            var m :| m in wanted && m in present && m !in names && present[m] == g.id;
            SameIdSameGroup(groups, Group(present[m], m), g);
          }
          assert false;
        }
      }
    } else {
      var g :| g in groups && g.id in holders && g.name !in wanted && g.name in present && present[g.name] != g.id;
      forall m | m in names && m !in wanted && m in present ensures present[m] != g.id {
        SameIdSameGroup(groups, Group(present[m], m), g);
      }
      assert g.id in after;
      assert g.name in left && g.name !in wanted;
    }
  }

  lemma SameIdSameGroup(groups: seq<Group>, a: Group, b: Group)
    requires UniqueIds(groups) && a in groups && b in groups
    ensures a.id == b.id ==> a == b
  {
    var i :| 0 <= i < |groups| && groups[i] == a;
    var j :| 0 <= j < |groups| && groups[j] == b;
  }

  /** Two groups named alike: the role stays with the one the name does not lead to. */
  lemma ShadowedHolderKeepsTheRole()
    ensures var trees := [GroupTree(1, "staff", []), GroupTree(2, "staff", [])];
            var present := Walk(trees, map[]);
            HolderNames(PreOrder(trees), HoldersAfter(present, PreOrder(trees), {2}, [])) == {"staff"}
  {
    var trees := [GroupTree(1, "staff", []), GroupTree(2, "staff", [])];
    var groups := [Group(1, "staff"), Group(2, "staff")];
    assert trees[1..] == [GroupTree(2, "staff", [])] && trees[1..][1..] == [];
    assert PreOrder(trees[1..]) == [Group(2, "staff")];
    assert PreOrder(trees) == groups;
    var present := Walk(trees, map[]);
    assert Walk(trees[1..], map["staff" := 1]) == map["staff" := 1];
    assert present == map["staff" := 1];
    assert HoldersAfter(present, groups, {2}, []) == {2} by {
      assert groups[1] in groups;
      assert "staff" in HolderNames(groups, {2});
    }
    assert groups[1] in groups;
  }

  /** Two groups named alike, the second holding the role: the first, which the wanted name leads
      to, never gets it, and the names look right. */
  lemma WantedNamesakeIsPassedOver()
    ensures var groups := [Group(1, "staff"), Group(2, "staff")];
            var present := FirstOf(groups, map[]);
            && HoldersAfter(present, groups, {2}, ["staff"]) == {2}
            && WantedIds(present, ["staff"]) == {1}
            && HolderNames(groups, {2}) == WantedPresent(present, ["staff"])
  {
    var groups := [Group(1, "staff"), Group(2, "staff")];
    assert groups[1..] == [Group(2, "staff")] && groups[1..][1..] == [];
    assert FirstOf(groups, map[]) == map["staff" := 1];
    var present := map["staff" := 1];
    assert groups[0] in groups && groups[1] in groups;
    assert HolderNames(groups, {2}) == {"staff"};
    assert "staff" in ["staff"];
    assert WantedIds(present, ["staff"]) == {1};
    assert HoldersAfter(present, groups, {2}, ["staff"]) == {2};
  }

  class Realm {
    const groups: seq<GroupTree>
    const users: set<string>
    /** Every call is answered, and none fails. */
    const reliable: bool
    var groupHolders: set<nat>
    var userHolders: set<string>
    /** The API client's secret, once it exists, and the realm-management roles its service
        account holds. */
    var clientSecret: Option<string>
    var clientRoles: set<string>
    /** The realm-management roles there are to grant. */
    const offered: set<string>
    var changed: seq<string>

    constructor (groups: seq<GroupTree>, users: set<string>, groupHolders: set<nat>, userHolders: set<string>,
                 clientSecret: Option<string>, clientRoles: set<string>, offered: set<string>, reliable: bool)
      ensures this.groups == groups && this.users == users && this.offered == offered && changed == []
      ensures this.groupHolders == groupHolders && this.userHolders == userHolders
      ensures this.clientSecret == clientSecret && this.clientRoles == clientRoles && this.reliable == reliable
    {
      this.groups, this.users, this.groupHolders, this.userHolders := groups, users, groupHolders, userHolders;
      this.clientSecret, this.clientRoles, this.offered, this.reliable := clientSecret, clientRoles, offered, reliable;
      changed := [];
    }

    /** A reading call. */
    method Get() returns (ok: bool)
      ensures reliable ==> ok
    {
      ok := *;
      ok := ok || reliable;
    }

    /** A role mapping call; when it raises it may or may not have landed. */
    method Map(holders: set<nat>) returns (ok: bool)
      modifies this`groupHolders
      ensures ok ==> groupHolders == holders
      ensures groupHolders == old(groupHolders) || groupHolders == holders
      ensures reliable ==> ok
    {
      var landed: bool := *;
      ok := *;
      ok := ok || reliable;
      if landed || ok { groupHolders := holders; }
    }

    method MapUser(holders: set<string>) returns (ok: bool)
      modifies this`userHolders
      ensures ok ==> userHolders == holders
      ensures userHolders == old(userHolders) || userHolders == holders
      ensures reliable ==> ok
    {
      var landed: bool := *;
      ok := *;
      ok := ok || reliable;
      if landed || ok { userHolders := holders; }
    }

    /** The names of the groups that hold the role. */
    method GroupHolderNames() returns (names: set<string>)
      ensures names == HolderNames(PreOrder(groups), groupHolders)
    {
      names := {};
      var flat := PreOrder(groups);
      for i := 0 to |flat|
        invariant names == HolderNames(flat[..i], groupHolders)
      {
        assert forall g :: g in flat[..i + 1] <==> g in flat[..i] || g == flat[i];
        if flat[i].id in groupHolders {
          names := names + {flat[i].name};
        }
      }
      assert flat[..|flat|] == flat;
    }

    /** Grants the role to the named groups that exist and are not listed as holders. */
    method GrantGroups(wanted: seq<string>, present: map<string, nat>, names: set<string>) returns (ok: bool)
      modifies this`groupHolders, this`changed
      ensures ok ==> groupHolders == old(groupHolders) + set n | n in wanted && n in present && n !in names :: present[n]
      ensures (forall n :: n in wanted && n in present ==> n in names)
              ==> ok && groupHolders == old(groupHolders) && changed == old(changed)
      ensures ok && (exists n :: n in wanted && n in present && n !in names) ==> |changed| > |old(changed)|
      ensures |changed| >= |old(changed)|
      ensures reliable ==> ok
    {
      ok := true;
      for i := 0 to |wanted|
        invariant ok && |changed| >= |old(changed)|
        invariant groupHolders == old(groupHolders) + set n | n in wanted[..i] && n in present && n !in names :: present[n]
        invariant (forall n :: n in wanted[..i] && n in present ==> n in names) ==> changed == old(changed) && groupHolders == old(groupHolders)
        invariant (exists n :: n in wanted[..i] && n in present && n !in names) ==> |changed| > |old(changed)|
      {
        var name := wanted[i];
        assert name in wanted;
        assert forall n :: n in wanted[..i + 1] <==> n in wanted[..i] || n == name;
        if name in present && name !in names {
          ok := Map(groupHolders + {present[name]});
          if !ok { return; }
          changed := changed + ["group granted " + name];
        }
      }
      assert wanted[..|wanted|] == wanted;
    }

    /** Takes the role from the named groups. */
    method DropGroups(extra: set<string>, present: map<string, nat>) returns (ok: bool)
      requires extra <= present.Keys
      modifies this`groupHolders, this`changed
      ensures ok ==> groupHolders == old(groupHolders) - set n | n in extra && n in present :: present[n]
      ensures extra == {} ==> ok && groupHolders == old(groupHolders) && changed == old(changed)
      ensures ok && extra != {} ==> |changed| > |old(changed)|
      ensures |changed| >= |old(changed)|
      ensures reliable ==> ok
    {
      ok := true;
      var left := extra;
      while left != {}
        invariant ok && left <= extra && |changed| >= |old(changed)|
        invariant groupHolders == old(groupHolders) - set n | n in extra - left && n in present :: present[n]
        invariant left != extra ==> |changed| > |old(changed)|
        invariant left == extra ==> changed == old(changed)
        decreases left
      {
        var name :| name in left;
        assert extra - (left - {name}) == (extra - left) + {name};
        left := left - {name};
        ok := Map(groupHolders - {present[name]});
        if !ok { return; }
        changed := changed + ["group removed " + name];
      }
    }

    /** Brings the role to the wanted groups; a change is recorded exactly when the names of its
        holders were not already those of the wanted groups that exist. */
    method EnsureGroupRole(wanted: seq<string>) returns (ok: bool)
      requires UniqueIds(PreOrder(groups))
      modifies this`groupHolders, this`changed
      ensures ok ==> groupHolders == HoldersAfter(Walk(groups, map[]), PreOrder(groups), old(groupHolders), wanted)
      ensures ok ==> (|changed| > |old(changed)| <==>
                      HolderNames(PreOrder(groups), old(groupHolders)) != WantedPresent(Walk(groups, map[]), wanted))
      ensures HolderNames(PreOrder(groups), old(groupHolders)) == WantedPresent(Walk(groups, map[]), wanted)
              ==> groupHolders == old(groupHolders) && changed == old(changed)
      ensures reliable ==> ok
    {
      ok := Get();
      if !ok { return; }
      var present := Walk(groups, map[]);
      WalkNamesGroups(groups);
      var names := GroupHolderNames();
      NamesAgree(names, present, wanted);
      ok := GrantGroups(wanted, present, names);
      if !ok { return; }
      var extra := set n | n in names && n !in wanted && n in present;
      ok := DropGroups(extra, present);
      SameTargets(extra, names, present, wanted);
    }

    lemma SameTargets(extra: set<string>, names: set<string>, present: map<string, nat>, wanted: seq<string>)
      requires extra == set n | n in names && n !in wanted && n in present
      ensures (set n | n in extra && n in present :: present[n])
              == (set n | n in names && n !in wanted && n in present :: present[n])
    {
    }

    /** Two runs in a row: the second records nothing, and changes nothing, exactly when no
        unwanted holder was hidden; the role is where it belongs exactly when no holder was. */
    method EnsureGroupRoleTwice(wanted: seq<string>)
      returns (first: bool, second: bool, ghost between: (set<nat>, seq<string>))
      requires UniqueIds(PreOrder(groups)) && groupHolders <= Ids(PreOrder(groups))
      modifies this`groupHolders, this`changed
      ensures first ==> (between.0 == WantedIds(Walk(groups, map[]), wanted)
                         <==> HoldersAreFound(Walk(groups, map[]), PreOrder(groups), old(groupHolders)))
      ensures first && NoShadowedHolder(Walk(groups, map[]), PreOrder(groups), old(groupHolders), wanted)
              ==> (groupHolders, changed) == between
      ensures first && second && !NoShadowedHolder(Walk(groups, map[]), PreOrder(groups), old(groupHolders), wanted)
              ==> |changed| > |between.1|
      ensures reliable ==> first && second
    {
      ghost var present, all := Walk(groups, map[]), PreOrder(groups);
      WalkNamesGroups(groups);
      first := EnsureGroupRole(wanted);
      second := false;
      between := (groupHolders, changed);
      GroupRoleConverges(present, all, old(groupHolders), wanted);
      HolderNamesConverge(present, all, old(groupHolders), wanted);
      if first {
        second := EnsureGroupRole(wanted);
      }
    }

    lemma NamesAgree(names: set<string>, present: map<string, nat>, wanted: seq<string>)
      requires names <= present.Keys
      ensures names == WantedPresent(present, wanted) <==>
              (forall n :: n in wanted && n in present ==> n in names) && (set n | n in names && n !in wanted && n in present) == {}
    {
      var extra := set n | n in names && n !in wanted && n in present;
      if extra == {} {
        assert forall n :: n in names && n !in wanted ==> n in extra;
      }
    }

    /** The role is held directly by exactly the wanted users that exist; a change is recorded
        exactly when that was not so. */
    method EnsureUserRole(usernames: seq<string>) returns (ok: bool)
      modifies this`userHolders, this`changed
      requires userHolders <= users
      ensures ok ==> userHolders == set n | n in Lowered(usernames) && n in users
      ensures old(userHolders) == (set n | n in Lowered(usernames) && n in users)
              ==> userHolders == old(userHolders) && changed == old(changed)
      ensures ok && old(userHolders) != (set n | n in Lowered(usernames) && n in users) ==> |changed| > |old(changed)|
      ensures reliable ==> ok
    {
      ok := Get();
      if !ok { return; }
      var want := Lowered(usernames);
      var holders := userHolders;
      ok := true;
      var left := want - holders;
      while left != {}
        invariant ok && left <= want - holders
        invariant userHolders == holders + ((want - holders - left) * users)
        invariant userHolders == holders ==> changed == old(changed)
        invariant userHolders != holders ==> |changed| > |old(changed)|
        decreases left
      {
        var name :| name in left;
        left := left - {name};
        if name in users {
          ok := MapUser(userHolders + {name});
          if !ok { return; }
          changed := changed + ["user granted " + name];
        }
      }
      ghost var granted := userHolders;
      ghost var changedSoFar := changed;
      left := holders - want;
      while left != {}
        invariant ok && left <= holders - want
        invariant userHolders == granted - (holders - want - left)
        invariant left == holders - want ==> changed == changedSoFar
        invariant left != holders - want ==> |changed| > |changedSoFar|
        decreases left
      {
        var name :| name in left;
        left := left - {name};
        ok := MapUser(userHolders - {name});
        if !ok { return; }
        changed := changed + ["user removed " + name];
      }
    }

    method EnsureUserRoleTwice(usernames: seq<string>)
      returns (first: bool, second: bool, ghost between: (set<string>, seq<string>))
      requires userHolders <= users
      modifies this`userHolders, this`changed
      ensures first ==> between.0 == set n | n in Lowered(usernames) && n in users
      ensures first ==> (userHolders, changed) == between
      ensures reliable ==> first && second
    {
      first := EnsureUserRole(usernames);
      second := false;
      between := (userHolders, changed);
      if first {
        second := EnsureUserRole(usernames);
      }
    }

    // ── the API client ───────────────────────────────────────────────

    method PutSecret(secret: string) returns (ok: bool)
      modifies this`clientSecret
      ensures ok ==> clientSecret == Some(secret)
      ensures clientSecret == old(clientSecret) || clientSecret == Some(secret)
      ensures reliable ==> ok
    {
      var landed: bool := *;
      ok := *;
      ok := ok || reliable;
      if landed || ok { clientSecret := Some(secret); }
    }

    method MapClient(roles: set<string>) returns (ok: bool)
      modifies this`clientRoles
      ensures ok ==> clientRoles == roles
      ensures clientRoles == old(clientRoles) || clientRoles == roles
      ensures reliable ==> ok
    {
      var landed: bool := *;
      ok := *;
      ok := ok || reliable;
      if landed || ok { clientRoles := roles; }
    }

    /** The client exists with this secret: created, or its secret set. */
    method EnsureClient(secret: string) returns (ok: bool)
      modifies this`clientSecret, this`changed
      ensures ok ==> clientSecret == Some(secret)
      ensures ok ==> (|changed| > |old(changed)| <==> old(clientSecret) != Some(secret))
      ensures old(clientSecret) == Some(secret) ==> clientSecret == old(clientSecret) && changed == old(changed)
      ensures |changed| >= |old(changed)|
      ensures reliable ==> ok
    {
      ok := Get();
      if !ok { return; }
      if clientSecret == None {
        ok := PutSecret(secret);
        if !ok { return; }
        changed := changed + ["client created"];
      }
      ok := Get();
      if !ok { return; }
      if clientSecret != Some(secret) {
        ok := PutSecret(secret);
        if !ok { return; }
        changed := changed + ["client secret set"];
      }
    }

    /** The service account's roles: one POST for all that are missing and offered, one DELETE for
        all that are too many. Whichever call fails, no wanted role is taken and no unwanted one
        given. */
    method EnsureClientRoles() returns (ok: bool)
      modifies this`clientRoles, this`changed
      ensures ok ==> clientRoles == API_CLIENT_ROLES * (old(clientRoles) + offered)
      ensures ok ==> (|changed| > |old(changed)| <==> clientRoles != old(clientRoles))
      ensures old(clientRoles) == API_CLIENT_ROLES * (old(clientRoles) + offered)
              ==> clientRoles == old(clientRoles) && changed == old(changed)
      ensures old(clientRoles) * API_CLIENT_ROLES <= clientRoles <= old(clientRoles) + API_CLIENT_ROLES * offered
      ensures |changed| >= |old(changed)|
      ensures reliable ==> ok
    {
      ok := Get();
      if !ok { return; }
      var have := clientRoles;
      var available := offered - have;
      var grant := set r | r in available && r in API_CLIENT_ROLES && r !in have;
      if grant != {} {
        ok := MapClient(clientRoles + grant);
        if !ok { return; }
        changed := changed + ["client roles granted"];
      }
      var extra := set r | r in have && r !in API_CLIENT_ROLES;
      if extra != {} {
        ok := MapClient(clientRoles - extra);
        if !ok { return; }
        changed := changed + ["client roles removed"];
      }
      RolesChange(old(clientRoles), grant, extra);
    }

    lemma RolesChange(have: set<string>, grant: set<string>, extra: set<string>)
      requires grant !! have && extra <= have
      ensures have + grant - extra == have <==> grant == {} && extra == {}
    {
      if grant != {} {
        var r :| r in grant;
        assert r in have + grant - extra && r !in have;
      }
      if extra != {} {
        var r :| r in extra;
        assert r !in have + grant - extra && r in have;
      }
    }

    method EnsureApiClient(secret: string) returns (ok: bool)
      modifies this`clientSecret, this`clientRoles, this`changed
      ensures ok ==> clientSecret == Some(secret) && clientRoles == API_CLIENT_ROLES * (old(clientRoles) + offered)
      ensures ok ==> (|changed| > |old(changed)| <==> old(clientSecret) != Some(secret) || clientRoles != old(clientRoles))
      ensures old(clientSecret) == Some(secret) && old(clientRoles) == API_CLIENT_ROLES * (old(clientRoles) + offered)
              ==> clientSecret == old(clientSecret) && clientRoles == old(clientRoles) && changed == old(changed)
      ensures old(clientRoles) * API_CLIENT_ROLES <= clientRoles <= old(clientRoles) + API_CLIENT_ROLES * offered
      ensures reliable ==> ok
    {
      ok := EnsureClient(secret);
      if !ok { return; }
      ok := EnsureClientRoles();
    }

    /** The account holds exactly the two roles if and only if each was held or is offered; and a
        second run changes and records nothing. */
    method EnsureApiClientTwice(secret: string)
      returns (first: bool, second: bool, ghost between: (set<string>, seq<string>))
      modifies this`clientSecret, this`clientRoles, this`changed
      ensures first ==> (between.0 == {"view-realm", "manage-users"}
                         <==> {"view-realm", "manage-users"} <= old(clientRoles) + offered)
      ensures first ==> clientSecret == Some(secret) && (clientRoles, changed) == between
      ensures reliable ==> first && second
    {
      first := EnsureApiClient(secret);
      second := false;
      between := (clientRoles, changed);
      if first {
        second := EnsureApiClient(secret);
      }
    }
  }

  function Lowered(names: seq<string>): set<string> {
    set i | 0 <= i < |names| :: Lower(names[i])
  }

  /** The user names asked for, in small letters. */
  lemma LoweredMeans(names: seq<string>, user: string)
    ensures user in Lowered(names) <==> exists name :: name in names && Lower(name) == user
  {
    if user in Lowered(names) {
      var i :| 0 <= i < |names| && Lower(names[i]) == user;
      assert names[i] in names;
    }
  }

  const API_CLIENT_ROLES: set<string> := {"view-realm", "manage-users"}
}
