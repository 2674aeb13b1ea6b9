/** Whether one cargo build reuses what another compiled: the unit graphs of the two,
  * a digest for each unit, and the units that come out otherwise.
  */
module Prebuilt {

  datatype Role = Target | Host

  /** What tells a unit from another, whatever it was compiled with. */
  datatype Slot = Slot(package: string, target: string, kinds: seq<string>, mode: string, profile: string, platform: string)

  datatype Compiled = Compiled(slot: Slot, features: seq<string>, dependencies: seq<nat>)

  type Units = seq<Compiled>

  /** A graph of compiled units without cycles: a unit ranks above what it depends on. */
  ghost predicate Ranked(units: Units, rank: seq<nat>) {
    && |rank| == |units|
    && forall i, k :: 0 <= i < |units| && 0 <= k < |units[i].dependencies| ==>
         units[i].dependencies[k] < |units| && rank[units[i].dependencies[k]] < rank[i]
  }

  // ---------------------------------------------------------------------
  // Roles
  // ---------------------------------------------------------------------

  /** A proc macro, or a build script being compiled, is for the host. */
  predicate ForHost(unit: Compiled) {
    "proc-macro" in unit.slot.kinds || ("custom-build" in unit.slot.kinds && unit.slot.mode == "build")
  }

  function Own(unit: Compiled, role: Role): Role {
    if ForHost(unit) then Host else role
  }

  /** A way down from a root of the build. */
  ghost predicate Descends(units: Units, roots: seq<nat>, path: seq<nat>) {
    && path != [] && path[0] in roots
    && (forall k :: 0 <= k < |path| ==> path[k] < |units|)
    && (forall k :: 0 < k < |path| ==> path[k] in units[path[k - 1]].dependencies)
  }

  /** A proc macro, or a build script that is compiled and not run. */
  ghost predicate RunsOnHost(slot: Slot) {
    exists kind :: kind in slot.kinds && (kind == "proc-macro" || (kind == "custom-build" && slot.mode == "build"))
  }

  lemma ForHostMeans(unit: Compiled)
    ensures ForHost(unit) <==> RunsOnHost(unit.slot)
  {
  }

  /** A unit has the host's role on a way through any unit for the host. */
  ghost function RoleAlong(units: Units, path: seq<nat>): Role
    requires forall k :: 0 <= k < |path| ==> path[k] < |units|
  {
    if exists k :: 0 <= k < |path| && RunsOnHost(units[path[k]].slot) then Host else Target
  }

  ghost predicate HasRole(units: Units, roots: seq<nat>, index: nat, role: Role) {
    exists path :: Descends(units, roots, path) && path[|path| - 1] == index && RoleAlong(units, path) == role
  }

  /** One step further down. */
  lemma HasRoleBelow(units: Units, roots: seq<nat>, index: nat, role: Role, next: nat)
    requires HasRole(units, roots, index, role) && index < |units|
    requires next in units[index].dependencies && next < |units|
    ensures HasRole(units, roots, next, Own(units[next], role))
  {
    var path :| Descends(units, roots, path) && path[|path| - 1] == index && RoleAlong(units, path) == role;
    RoleAlongNext(units, path, next);
    assert Descends(units, roots, path + [next]);
  }

  lemma RoleAlongNext(units: Units, path: seq<nat>, next: nat)
    requires next < |units| && forall k :: 0 <= k < |path| ==> path[k] < |units|
    ensures RoleAlong(units, path + [next]) == Own(units[next], RoleAlong(units, path))
  {
    var longer := path + [next];
    assert longer[|path|] == next;
    assert forall k :: 0 <= k < |path| ==> longer[k] == path[k];
    ForHostMeans(units[next]);
    if k :| 0 <= k < |path| && RunsOnHost(units[path[k]].slot) {
      assert RunsOnHost(units[longer[k]].slot);
    }
  }

  lemma HasRoleAtRoot(units: Units, roots: seq<nat>, root: nat)
    requires root in roots && root < |units|
    ensures HasRole(units, roots, root, Own(units[root], Target))
  {
    var path := [root];
    assert Descends(units, roots, path);
    ForHostMeans(units[root]);
    if ForHost(units[root]) { assert RunsOnHost(units[path[0]].slot); }
  }

  /** Every pair marked has those below it marked, `open` aside. */
  ghost predicate ClosedBut(units: Units, roles: seq<set<Role>>, open: set<(nat, Role)>)
    requires |roles| == |units|
  {
    forall i: nat, r, k :: i < |units| && r in roles[i] && (i, r) !in open && 0 <= k < |units[i].dependencies| ==>
      Marked(units, roles, units[i].dependencies[k], r)
  }

  ghost predicate Marked(units: Units, roles: seq<set<Role>>, index: nat, role: Role)
    requires |roles| == |units|
  {
    index < |units| && Own(units[index], role) in roles[index]
  }

  ghost predicate AllHave(units: Units, roots: seq<nat>, roles: seq<set<Role>>)
    requires |roles| == |units|
  {
    forall i, r :: 0 <= i < |units| && r in roles[i] ==> HasRole(units, roots, i, r)
  }

  ghost predicate Within(before: seq<set<Role>>, after: seq<set<Role>>) {
    |after| == |before| && forall i :: 0 <= i < |before| ==> before[i] <= after[i]
  }

  /** The first `count` units below are marked. */
  ghost predicate BelowMarked(units: Units, roles: seq<set<Role>>, index: nat, own: Role, count: nat)
    requires |roles| == |units| && index < |units| && count <= |units[index].dependencies|
  {
    forall j :: 0 <= j < count ==> Marked(units, roles, units[index].dependencies[j], own)
  }

  lemma BelowStays(units: Units, before: seq<set<Role>>, after: seq<set<Role>>, index: nat, own: Role, count: nat)
    requires |before| == |units| && Within(before, after) && index < |units| && count < |units[index].dependencies|
    requires BelowMarked(units, before, index, own, count)
    requires Marked(units, after, units[index].dependencies[count], own)
    ensures BelowMarked(units, after, index, own, count + 1)
  {
    forall j | 0 <= j < count ensures Marked(units, after, units[index].dependencies[j], own) {
      assert Marked(units, before, units[index].dependencies[j], own);
    }
  }

  lemma MarkOne(units: Units, roots: seq<nat>, roles: seq<set<Role>>, index: nat, own: Role, open: set<(nat, Role)>)
    requires |roles| == |units| && index < |units| && ClosedBut(units, roles, open) && AllHave(units, roots, roles)
    requires HasRole(units, roots, index, own)
    ensures var marked := roles[index := roles[index] + {own}];
      ClosedBut(units, marked, open + {(index, own)}) && AllHave(units, roots, marked) && Within(roles, marked)
  {
    var marked := roles[index := roles[index] + {own}];
    forall i: nat, r, k | i < |units| && r in marked[i] && (i, r) !in open + {(index, own)}
                          && 0 <= k < |units[i].dependencies|
      ensures Marked(units, marked, units[i].dependencies[k], r)
    {
      assert r in roles[i];
      assert Marked(units, roles, units[i].dependencies[k], r);
    }
    forall i, r | 0 <= i < |units| && r in marked[i] ensures HasRole(units, roots, i, r) {
      if r in roles[i] { } else { assert i == index && r == own; }
    }
  }

  lemma CloseOff(units: Units, roles: seq<set<Role>>, index: nat, own: Role, open: set<(nat, Role)>)
    requires |roles| == |units| && index < |units| && ClosedBut(units, roles, open + {(index, own)})
    requires BelowMarked(units, roles, index, own, |units[index].dependencies|)
    ensures ClosedBut(units, roles, open)
  {
    forall i: nat, r, k | i < |units| && r in roles[i] && (i, r) !in open && 0 <= k < |units[i].dependencies|
      ensures Marked(units, roles, units[i].dependencies[k], r)
    {
      if (i, r) != (index, own) { assert (i, r) !in open + {(index, own)}; }
    }
  }

  class Roles {
    const units: Units
    const roots: seq<nat>
    var roles: seq<set<Role>>

    constructor (units: Units, roots: seq<nat>)
      ensures this.units == units && this.roots == roots && |roles| == |units|
      ensures forall i :: 0 <= i < |units| ==> roles[i] == {}
    {
      this.units, this.roots := units, roots;
      roles := seq(|units|, _ => {});
    }

    ghost predicate Valid(open: set<(nat, Role)>)
      reads this
    {
      |roles| == |units| && ClosedBut(units, roles, open) && AllHave(units, roots, roles)
    }

    /** Marks a unit, and what is below it, with the role it gets where `role` comes in. */
    method Visit(index: nat, role: Role, ghost rank: seq<nat>, ghost open: set<(nat, Role)>)
      requires Ranked(units, rank) && index < |units| && Valid(open)
      requires HasRole(units, roots, index, Own(units[index], role))
      modifies this
      decreases rank[index]
      ensures Valid(open) && Within(old(roles), roles) && Marked(units, roles, index, role)
    {
      var own := Own(units[index], role);
      if own in roles[index] { return; }
      MarkOne(units, roots, roles, index, own, open);
      ghost var before := roles;
      roles := roles[index := roles[index] + {own}];
      var dependencies := units[index].dependencies;
      ghost var open' := open + {(index, own)};
      for k := 0 to |dependencies|
        invariant Valid(open') && Within(before, roles) && own in roles[index]
        invariant BelowMarked(units, roles, index, own, k)
      {
        ghost var sofar := roles;
        HasRoleBelow(units, roots, index, own, dependencies[k]);
        Visit(dependencies[k], own, rank, open');
        BelowStays(units, sofar, roles, index, own, k);
      }
      CloseOff(units, roles, index, own, open);
    }
  }

  lemma {:induction false} ClosedReaches(units: Units, roots: seq<nat>, roles: seq<set<Role>>, path: seq<nat>)
    requires |roles| == |units| && ClosedBut(units, roles, {})
    requires RootsMarked(units, roots, roles, |roots|)
    requires Descends(units, roots, path)
    ensures RoleAlong(units, path) in roles[path[|path| - 1]]
    decreases |path|
  {
    var above, last := path[..|path| - 1], path[|path| - 1];
    assert path == above + [last];
    RoleAlongNext(units, above, last);
    if above == [] {
      var i :| 0 <= i < |roots| && roots[i] == last;
      assert Marked(units, roles, roots[i], Target);
    } else {
      assert Descends(units, roots, above);
      ClosedReaches(units, roots, roles, above);
      var i := above[|above| - 1];
      var k :| 0 <= k < |units[i].dependencies| && units[i].dependencies[k] == last;
      assert Marked(units, roles, units[i].dependencies[k], RoleAlong(units, above));
    }
  }

  /** The roles of every unit: those it has along some way down from a root. */
  method RolesOf(units: Units, roots: seq<nat>, ghost rank: seq<nat>) returns (roles: seq<set<Role>>)
    requires Ranked(units, rank) && forall i :: 0 <= i < |roots| ==> roots[i] < |units|
    ensures |roles| == |units|
    ensures forall i, r :: 0 <= i < |units| ==> (r in roles[i] <==> HasRole(units, roots, i, r))
  {
    var visitor := new Roles(units, roots);
    for i := 0 to |roots|
      invariant visitor.units == units && visitor.roots == roots && visitor.Valid({})
      invariant RootsMarked(units, roots, visitor.roles, i)
    {
      ghost var sofar := visitor.roles;
      HasRoleAtRoot(units, roots, roots[i]);
      visitor.Visit(roots[i], Target, rank, {});
      RootsStay(units, roots, sofar, visitor.roles, i);
    }
    roles := visitor.roles;
    RolesExact(units, roots, roles);
  }

  lemma RolesExact(units: Units, roots: seq<nat>, roles: seq<set<Role>>)
    requires |roles| == |units| && ClosedBut(units, roles, {}) && AllHave(units, roots, roles)
    requires RootsMarked(units, roots, roles, |roots|)
    ensures forall i, r :: 0 <= i < |units| ==> (r in roles[i] <==> HasRole(units, roots, i, r))
  {
    forall i, r | 0 <= i < |units| && HasRole(units, roots, i, r) ensures r in roles[i] {
      var path :| Descends(units, roots, path) && path[|path| - 1] == i && RoleAlong(units, path) == r;
      ClosedReaches(units, roots, roles, path);
    }
  }

  lemma RootsStay(units: Units, roots: seq<nat>, before: seq<set<Role>>, after: seq<set<Role>>, count: nat)
    requires |before| == |units| && Within(before, after) && count < |roots|
    requires RootsMarked(units, roots, before, count) && Marked(units, after, roots[count], Target)
    ensures RootsMarked(units, roots, after, count + 1)
  {
    forall i | 0 <= i < count ensures Marked(units, after, roots[i], Target) {
      assert Marked(units, before, roots[i], Target);
    }
  }

  ghost predicate RootsMarked(units: Units, roots: seq<nat>, roles: seq<set<Role>>, count: nat)
    requires |roles| == |units| && count <= |roots|
  {
    forall i :: 0 <= i < count ==> Marked(units, roles, roots[i], Target)
  }
}
