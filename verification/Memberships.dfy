/**
  The group membership store: five tables, an ancestor walk with a shared visited map, and a
  cycle check before every new parent-child row.
*/
module Memberships {
  import opened Wrappers

  datatype Group = Group(name: string, description: string)

  /** A row of a two-column table. */
  type Row = (string, string)

  /**
    The contents of the database. Rows are (user, group), (owner group, owned group), (parent, child),
    (user, group).
  */
  datatype Tables = Tables(
    groups: map<string, string>,
    owners: set<Row>,
    ownerGroups: set<Row>,
    edges: set<Row>,
    members: set<Row>)

  const EMPTY := Tables(map[], {}, {}, {}, {})

  // ---------------------------------------------------------------- reachability

  /** p climbs from child to parent along rows of the table and stays out of `avoid`. */
  ghost predicate Path(edges: set<Row>, avoid: set<string>, p: seq<string>) {
    && p != []
    && (forall i | 0 <= i < |p| :: p[i] !in avoid)
    && forall i | 0 <= i < |p| - 1 :: (p[i + 1], p[i]) in edges
  }

  ghost predicate Reaches(edges: set<Row>, avoid: set<string>, a: string, b: string) {
    exists p :: Path(edges, avoid, p) && p[0] == a && p[|p| - 1] == b
  }

  /** No group is a proper ancestor of itself. */
  ghost predicate Acyclic(edges: set<Row>) {
    forall q, a | (q, a) in edges :: !Reaches(edges, {}, q, a)
  }

  /** The transitive groups of a user: those reachable from a group the user is a direct member of. */
  ghost predicate Belongs(t: Tables, user: string, x: string) {
    exists g :: (user, g) in t.members && g in t.groups && Reaches(t.edges, {}, g, x)
  }

  lemma ReachSelf(edges: set<Row>, avoid: set<string>, a: string)
    requires a !in avoid
    ensures Reaches(edges, avoid, a, a)
  {
    assert Path(edges, avoid, [a]) && [a][0] == a && [a][|[a]| - 1] == a;
  }

  lemma ReachTrans(edges: set<Row>, avoid: set<string>, a: string, b: string, c: string)
    requires Reaches(edges, avoid, a, b) && Reaches(edges, avoid, b, c)
    ensures Reaches(edges, avoid, a, c)
  {
    var p :| Path(edges, avoid, p) && p[0] == a && p[|p| - 1] == b;
    var q :| Path(edges, avoid, q) && q[0] == b && q[|q| - 1] == c;
    var r := p + q[1..];
    forall i | 0 <= i < |r| - 1 ensures (r[i + 1], r[i]) in edges {
      if i >= |p| - 1 { assert (q[i - |p| + 2], q[i - |p| + 1]) in edges; }
    }
    assert Path(edges, avoid, r) && r[0] == a && r[|r| - 1] == c;
  }

  lemma ReachStep(edges: set<Row>, avoid: set<string>, a: string, q: string, b: string)
    requires (q, a) in edges && a !in avoid && Reaches(edges, avoid, q, b)
    ensures Reaches(edges, avoid, a, b)
  {
    var p :| Path(edges, avoid, p) && p[0] == q && p[|p| - 1] == b;
    var r := [a] + p;
    forall i | 0 <= i < |r| - 1 ensures (r[i + 1], r[i]) in edges {
      if i > 0 { assert (p[i], p[i - 1]) in edges; }
    }
    assert Path(edges, avoid, r) && r[0] == a && r[|r| - 1] == b;
  }

  lemma ReachMonotone(edges: set<Row>, more: set<Row>, avoid: set<string>, less: set<string>, a: string, b: string)
    requires edges <= more && less <= avoid && Reaches(edges, avoid, a, b)
    ensures Reaches(more, less, a, b)
  {
    var p :| Path(edges, avoid, p) && p[0] == a && p[|p| - 1] == b;
    assert Path(more, less, p);
  }

  /** A set that holds the start, and all parents outside `avoid` of what it holds, holds every reachable group. */
  lemma {:induction false} ReachClosed(edges: set<Row>, avoid: set<string>, closed: set<string>, p: seq<string>)
    requires Path(edges, avoid, p) && p[0] in closed
    requires forall q, a | (q, a) in edges && a in closed && q !in avoid :: q in closed
    ensures p[|p| - 1] in closed
  {
    if |p| > 1 {
      assert (p[1], p[0]) in edges;
      PathTail(edges, avoid, p, 1);
      ReachClosed(edges, avoid, closed, p[1..]);
    }
  }

  lemma PathTail(edges: set<Row>, avoid: set<string>, p: seq<string>, k: nat)
    requires Path(edges, avoid, p) && k < |p|
    ensures Path(edges, avoid, p[k..])
  {
    forall i | 0 <= i < |p[k..]| - 1 ensures (p[k..][i + 1], p[k..][i]) in edges {
      assert (p[k + i + 1], p[k + i]) in edges;
    }
  }

  /** A path away from a can be cut so that it never comes back to a. */
  lemma {:induction false} LeaveForGood(edges: set<Row>, p: seq<string>) returns (q: string)
    requires Path(edges, {}, p) && p[|p| - 1] != p[0]
    ensures (q, p[0]) in edges && Reaches(edges, {p[0]}, q, p[|p| - 1])
    decreases |p|
  {
    if k :| 1 <= k < |p| && p[k] == p[0] {
      PathTail(edges, {}, p, k);
      q := LeaveForGood(edges, p[k..]);
    } else {
      q := p[1];
      PathTail(edges, {}, p, 1);
      assert (p[1], p[0]) in edges;
      assert Path(edges, {p[0]}, p[1..]);
    }
  }

  /** With one more row, a path either does without it or splits at it. */
  lemma {:induction false} InsertPath(edges: set<Row>, parent: string, child: string, p: seq<string>)
    requires Path(edges + {(parent, child)}, {}, p)
    ensures Reaches(edges, {}, p[0], p[|p| - 1])
            || (Reaches(edges, {}, p[0], child) && Reaches(edges, {}, parent, p[|p| - 1]))
    decreases |p|
  {
    if |p| == 1 {
      ReachSelf(edges, {}, p[0]);
    } else {
      var e := edges + {(parent, child)};
      PathTail(e, {}, p, 1);
      InsertPath(edges, parent, child, p[1..]);
      assert (p[1], p[0]) in e;
      if (p[1], p[0]) in edges {
        if Reaches(edges, {}, p[1], p[|p| - 1]) {
          ReachStep(edges, {}, p[0], p[1], p[|p| - 1]);
        } else {
          ReachStep(edges, {}, p[0], p[1], child);
        }
      } else {
        ReachSelf(edges, {}, child);
      }
    }
  }

  /** The exact effect of one more row on reachability. */
  lemma InsertReach(edges: set<Row>, parent: string, child: string, a: string, b: string)
    ensures Reaches(edges + {(parent, child)}, {}, a, b) <==>
            Reaches(edges, {}, a, b) || (Reaches(edges, {}, a, child) && Reaches(edges, {}, parent, b))
  {
    var e := edges + {(parent, child)};
    if Reaches(e, {}, a, b) {
      var p :| Path(e, {}, p) && p[0] == a && p[|p| - 1] == b;
      InsertPath(edges, parent, child, p);
    }
    if Reaches(edges, {}, a, b) { ReachMonotone(edges, e, {}, {}, a, b); }
    if Reaches(edges, {}, a, child) && Reaches(edges, {}, parent, b) {
      ReachMonotone(edges, e, {}, {}, a, child);
      ReachMonotone(edges, e, {}, {}, parent, b);
      ReachStep(e, {}, child, parent, b);
      ReachTrans(e, {}, a, child, b);
    }
  }

  /** A new row closes a cycle exactly when its child is already reachable from its parent. */
  lemma InsertAcyclic(edges: set<Row>, parent: string, child: string)
    requires Acyclic(edges)
    ensures Acyclic(edges + {(parent, child)}) <==> !Reaches(edges, {}, parent, child)
  {
    var e := edges + {(parent, child)};
    if Reaches(edges, {}, parent, child) {
      ReachMonotone(edges, e, {}, {}, parent, child);
      assert (parent, child) in e;
    } else {
      forall q, a | (q, a) in e ensures !Reaches(e, {}, q, a) {
        InsertReach(edges, parent, child, q, a);
        if Reaches(edges, {}, q, child) && Reaches(edges, {}, parent, a) && (q, a) in edges {
          assert a !in {};
          ReachStep(edges, {}, a, q, child);
          ReachTrans(edges, {}, parent, a, child);
        }
      }
    }
  }

  lemma SubsetAcyclic(edges: set<Row>, fewer: set<Row>)
    requires Acyclic(edges) && fewer <= edges
    ensures Acyclic(fewer)
  {
    forall q, a | (q, a) in fewer ensures !Reaches(fewer, {}, q, a) {
      if Reaches(fewer, {}, q, a) { ReachMonotone(fewer, edges, {}, {}, q, a); }
    }
  }

  // ---------------------------------------------------------------- what each store call does

  datatype Call =
    | Init(owner: string, names: seq<string>)
    | CreateGroup(owner: string, group: Group)
    | AddChildGroup(parent: string, child: string)
    | RemoveFromGroupToGroup(parent: string, child: string)
    | AddGroupMember(user: string, name: string)
    | AddGroupOwner(user: string, name: string)
    | RemoveMember(user: string, name: string)
    | RemoveOwner(user: string, name: string)
    | AddOwnerGroup(ownerGroup: string, ownedGroup: string)

  function Rows(user: string, names: seq<string>): set<Row> { set x | x in names :: (user, x) }

  function Undescribed(names: seq<string>): map<string, string> { map x | x in names :: "" }

  function OwnersOf(t: Tables, name: string): set<string> { set r | r in t.owners && r.1 == name :: r.0 }

  /** Whether the call succeeds. `fk` says whether the database enforces foreign keys. */
  ghost predicate Accepts(t: Tables, c: Call, fk: bool) {
    match c
    case Init(owner, names) =>
      t.groups == map[] && Distinct(names)
      && Rows(owner, names) !! t.owners + t.members
    case CreateGroup(owner, g) => g.name !in t.groups && (owner, g.name) !in t.owners
    case AddChildGroup(parent, child) =>
      && parent in t.groups && child in t.groups
      && !Reaches(t.edges, {}, parent, child)
      && (parent, child) !in t.edges
    case RemoveFromGroupToGroup(parent, child) => (parent, child) in t.edges
    case AddGroupMember(user, name) => (user, name) !in t.members && (fk ==> name in t.groups)
    case AddGroupOwner(user, name) => (user, name) !in t.owners && (fk ==> name in t.groups)
    case RemoveMember(user, name) => (user, name) in t.members
    case RemoveOwner(user, name) => (user, name) in t.owners && |OwnersOf(t, name)| != 1
    case AddOwnerGroup(og, name) => og != name && og in t.groups && name in t.groups && (og, name) !in t.ownerGroups
  }

  /** The tables after an accepted call. */
  function After(t: Tables, c: Call): Tables {
    match c
    case Init(owner, names) =>
      t.(groups := Undescribed(names),
         owners := t.owners + Rows(owner, names), members := t.members + Rows(owner, names))
    case CreateGroup(owner, g) =>
      t.(groups := t.groups[g.name := g.description], owners := t.owners + {(owner, g.name)})
    case AddChildGroup(parent, child) => t.(edges := t.edges + {(parent, child)})
    case RemoveFromGroupToGroup(parent, child) => t.(edges := t.edges - {(parent, child)})
    case AddGroupMember(user, name) => t.(members := t.members + {(user, name)})
    case AddGroupOwner(user, name) => t.(owners := t.owners + {(user, name)})
    case RemoveMember(user, name) => t.(members := t.members - {(user, name)})
    case RemoveOwner(user, name) => t.(owners := t.owners - {(user, name)})
    case AddOwnerGroup(og, name) => t.(ownerGroups := t.ownerGroups + {(og, name)})
  }

  ghost function Apply(t: Tables, c: Call, fk: bool): Tables {
    if Accepts(t, c, fk) then After(t, c) else t
  }

  ghost function Serve(t: Tables, calls: seq<Call>, fk: bool): Tables {
    if calls == [] then t else Apply(Serve(t, calls[..|calls| - 1], fk), calls[|calls| - 1], fk)
  }

  /** What every serialised run of store calls keeps. */
  ghost predicate Kept(t: Tables) {
    && Acyclic(t.edges)
    && (forall r | r in t.edges + t.ownerGroups :: r.0 in t.groups && r.1 in t.groups)
    && (forall r | r in t.edges + t.ownerGroups :: r.0 != r.1)
    && (forall g | g in t.groups :: OwnersOf(t, g) != {})
  }

  lemma OwnerRemains(t: Tables, user: string, name: string, g: string)
    requires OwnersOf(t, g) != {} && (user, name) in t.owners && |OwnersOf(t, name)| != 1
    ensures OwnersOf(After(t, RemoveOwner(user, name)), g) != {}
  {
    var rest := OwnersOf(After(t, RemoveOwner(user, name)), g);
    if g == name {
      if forall u | u in OwnersOf(t, g) :: u == user {
        assert (user, name) in t.owners;
        assert OwnersOf(t, g) == {user};
      } else {
        var u :| u in OwnersOf(t, g) && u != user;
        assert (u, g) in t.owners;
        assert u in rest;
      }
    } else {
      var u :| u in OwnersOf(t, g);
      assert (u, g) in t.owners;
      assert u in rest;
    }
  }

  lemma OwnersGrow(t: Tables, more: Tables, g: string)
    requires t.owners <= more.owners && OwnersOf(t, g) != {}
    ensures OwnersOf(more, g) != {}
  {
    var u :| u in OwnersOf(t, g);
    assert (u, g) in more.owners;
    assert u in OwnersOf(more, g);
  }

  lemma OwnerListed(t: Tables, user: string, g: string)
    requires (user, g) in t.owners
    ensures OwnersOf(t, g) != {}
  {
    assert user in OwnersOf(t, g);
  }

  lemma ApplyOwners(t: Tables, c: Call, fk: bool)
    requires Kept(t)
    ensures forall g | g in Apply(t, c, fk).groups :: OwnersOf(Apply(t, c, fk), g) != {}
  {
    var u := Apply(t, c, fk);
    forall g | g in u.groups ensures OwnersOf(u, g) != {} {
      if !Accepts(t, c, fk) {
      } else if c.RemoveOwner? {
        OwnerRemains(t, c.user, c.name, g);
      } else if g in t.groups {
        OwnersGrow(t, u, g);
      } else if c.Init? {
        assert (c.owner, g) in Rows(c.owner, c.names);
        OwnerListed(u, c.owner, g);
      } else {
        OwnerListed(u, c.owner, g);
      }
    }
  }

  lemma ApplyKept(t: Tables, c: Call, fk: bool)
    requires Kept(t)
    ensures Kept(Apply(t, c, fk))
  {
    ApplyOwners(t, c, fk);
    match c
    case AddChildGroup(parent, child) =>
      InsertAcyclic(t.edges, parent, child);
      if parent == child { ReachSelf(t.edges, {}, parent); }
    case RemoveFromGroupToGroup(parent, child) => SubsetAcyclic(t.edges, t.edges - {(parent, child)});
    case _ =>
  }

  /**
    In every serialised run of store calls from empty tables the parent-child graph stays acyclic,
    rows only mention existing groups, and no group loses its last owner.
  */
  lemma {:induction false} EveryRunKept(calls: seq<Call>, fk: bool)
    ensures Kept(Serve(EMPTY, calls, fk))
  {
    if calls != [] {
      EveryRunKept(calls[..|calls| - 1], fk);
      ApplyKept(Serve(EMPTY, calls[..|calls| - 1], fk), calls[|calls| - 1], fk);
    }
  }

  /** In a kept store, a child row is refused for its shape exactly when it would close a cycle. */
  lemma RefusesExactlyCycles(t: Tables, parent: string, child: string, fk: bool)
    requires Kept(t) && parent in t.groups && child in t.groups && (parent, child) !in t.edges
    ensures Accepts(t, AddChildGroup(parent, child), fk) <==> Acyclic(t.edges + {(parent, child)})
  {
    InsertAcyclic(t.edges, parent, child);
  }

  /**
    Two calls that are both accepted on the same tables and then both insert their rows, which the program
    allows, close a cycle exactly when each child is reachable from the other call's parent.
  */
  lemma TwoCallsExactly(t: Tables, p1: string, c1: string, p2: string, c2: string, fk: bool)
    requires Kept(t) && Accepts(t, AddChildGroup(p1, c1), fk) && Accepts(t, AddChildGroup(p2, c2), fk)
    ensures Acyclic(After(After(t, AddChildGroup(p2, c2)), AddChildGroup(p1, c1)).edges)
      <==> !(Reaches(t.edges, {}, p1, c2) && Reaches(t.edges, {}, p2, c1))
  {
    InsertAcyclic(t.edges, p2, c2);
    InsertAcyclic(t.edges + {(p2, c2)}, p1, c1);
    InsertReach(t.edges, p2, c2, p1, c1);
  }

  /** So do calls that make two unrelated groups children of each other. */
  lemma CrossedCalls(t: Tables, a: string, b: string, fk: bool)
    requires Kept(t) && a in t.groups && b in t.groups && a != b
    requires !Reaches(t.edges, {}, a, b) && !Reaches(t.edges, {}, b, a)
    ensures Accepts(t, AddChildGroup(a, b), fk) && Accepts(t, AddChildGroup(b, a), fk)
    ensures !Acyclic(After(After(t, AddChildGroup(b, a)), AddChildGroup(a, b)).edges)
  {
    if (a, b) in t.edges {
      ReachSelf(t.edges, {}, a);
      ReachStep(t.edges, {}, b, a, a);
    }
    if (b, a) in t.edges {
      ReachSelf(t.edges, {}, b);
      ReachStep(t.edges, {}, a, b, b);
    }
    ReachSelf(t.edges, {}, a);
    ReachSelf(t.edges, {}, b);
    TwoCallsExactly(t, a, b, b, a, fk);
  }

  /**
    Adding a parent-child row changes a user's transitive groups exactly by the parent and its
    ancestors, when the child was among them; removing the row again restores every table.
  */
  lemma AddChildDelta(t: Tables, parent: string, child: string, fk: bool, user: string, x: string)
    requires Accepts(t, AddChildGroup(parent, child), fk)
    ensures
      var u := Apply(t, AddChildGroup(parent, child), fk);
      && (Belongs(u, user, x) <==>
            Belongs(t, user, x) || (Belongs(t, user, child) && Reaches(t.edges, {}, parent, x)))
      && Apply(u, RemoveFromGroupToGroup(parent, child), fk) == t
  {
    var u := After(t, AddChildGroup(parent, child));
    assert u.edges - {(parent, child)} == t.edges;
    if Belongs(u, user, x) {
      var g :| (user, g) in u.members && g in u.groups && Reaches(u.edges, {}, g, x);
      InsertReach(t.edges, parent, child, g, x);
    }
    if Belongs(t, user, x) {
      var g :| (user, g) in t.members && g in t.groups && Reaches(t.edges, {}, g, x);
      InsertReach(t.edges, parent, child, g, x);
    }
    if Belongs(t, user, child) && Reaches(t.edges, {}, parent, x) {
      var g :| (user, g) in t.members && g in t.groups && Reaches(t.edges, {}, g, child);
      InsertReach(t.edges, parent, child, g, x);
    }
  }

  /**
    A new membership adds exactly the group and its ancestors to that user's groups; removing it restores
    every table.
  */
  lemma AddMemberDelta(t: Tables, user: string, name: string, fk: bool, other: string, x: string)
    requires Accepts(t, AddGroupMember(user, name), fk)
    ensures
      var u := Apply(t, AddGroupMember(user, name), fk);
      && (Belongs(u, other, x) <==>
            Belongs(t, other, x) || (other == user && name in t.groups && Reaches(t.edges, {}, name, x)))
      && Apply(u, RemoveMember(user, name), fk) == t
  {
    var u := After(t, AddGroupMember(user, name));
    assert u.members - {(user, name)} == t.members;
    if Belongs(t, other, x) {
      var g :| (other, g) in t.members && g in t.groups && Reaches(t.edges, {}, g, x);
      assert (other, g) in u.members;
    }
  }

  /** Without a membership, a user belongs to what is reachable from the other groups the user is a member of. */
  lemma RemoveMemberDelta(t: Tables, user: string, name: string, fk: bool, other: string, x: string)
    requires Accepts(t, RemoveMember(user, name), fk)
    ensures
      var u := Apply(t, RemoveMember(user, name), fk);
      Belongs(u, other, x) <==>
        exists g :: (other, g) in t.members && (other, g) != (user, name) && g in t.groups && Reaches(t.edges, {}, g, x)
  {
    var u := After(t, RemoveMember(user, name));
    assert forall g :: (other, g) in u.members <==> (other, g) in t.members && (other, g) != (user, name);
  }

  // ---------------------------------------------------------------- where every row comes from

  datatype Table = GroupTable | OwnerTable | OwnerGroupTable | EdgeTable | MemberTable

  /** The table holds the row; the rows of the group table are names with their descriptions. */
  predicate Has(t: Tables, table: Table, row: Row) {
    match table
    case GroupTable => row.0 in t.groups && t.groups[row.0] == row.1
    case OwnerTable => row in t.owners
    case OwnerGroupTable => row in t.ownerGroups
    case EdgeTable => row in t.edges
    case MemberTable => row in t.members
  }

  /** The call is there to make the row. */
  predicate Makes(c: Call, table: Table, row: Row) {
    match c
    case Init(owner, names) =>
      || (table.GroupTable? && row.0 in names && row.1 == "")
      || ((table.OwnerTable? || table.MemberTable?) && row.0 == owner && row.1 in names)
    case CreateGroup(owner, g) =>
      (table.GroupTable? && row == (g.name, g.description)) || (table.OwnerTable? && row == (owner, g.name))
    case AddChildGroup(parent, child) => table.EdgeTable? && row == (parent, child)
    case AddGroupMember(user, name) => table.MemberTable? && row == (user, name)
    case AddGroupOwner(user, name) => table.OwnerTable? && row == (user, name)
    case AddOwnerGroup(og, name) => table.OwnerGroupTable? && row == (og, name)
    case _ => false
  }

  /** The call is there to remove the row. */
  predicate Drops(c: Call, table: Table, row: Row) {
    match c
    case RemoveFromGroupToGroup(parent, child) => table.EdgeTable? && row == (parent, child)
    case RemoveMember(user, name) => table.MemberTable? && row == (user, name)
    case RemoveOwner(user, name) => table.OwnerTable? && row == (user, name)
    case _ => false
  }

  /** One call: it makes what it is there to make, removes what it is there to remove, and touches no other row. */
  lemma ApplyRow(t: Tables, c: Call, fk: bool, table: Table, row: Row)
    ensures Has(Apply(t, c, fk), table, row) <==>
      if Accepts(t, c, fk) && Makes(c, table, row) then true
      else if Accepts(t, c, fk) && Drops(c, table, row) then false
      else Has(t, table, row)
  {
    if c.Init? && Accepts(t, c, fk) { InitRow(t, c, fk, table, row); }
  }

  lemma InitRow(t: Tables, c: Call, fk: bool, table: Table, row: Row)
    requires c.Init? && Accepts(t, c, fk)
    ensures Has(After(t, c), table, row) <==> Makes(c, table, row) || Has(t, table, row)
  {
    assert row in Rows(c.owner, c.names) <==> row.0 == c.owner && row.1 in c.names;
  }

  /** The table has a row with that key; the key of a group is its name. */
  predicate Keyed(t: Tables, table: Table, row: Row) {
    if table.GroupTable? then row.0 in t.groups else Has(t, table, row)
  }

  /** Rows of users mention existing groups. */
  predicate Refers(t: Tables) { forall r | r in t.owners + t.members :: r.1 in t.groups }

  /** Every row that the call is there to make is new, and every row that it is there to remove is there. */
  ghost predicate Due(t: Tables, c: Call) {
    && (forall table, row :: Makes(c, table, row) ==> !Keyed(t, table, row))
    && (forall table, row :: Drops(c, table, row) ==> Has(t, table, row))
  }

  /**
    Apart from the first initialisation and the last-owner rule, a call is accepted if and only if its rows
    are due and the tables after it keep the invariants and, if they are enforced, the foreign keys.
  */
  lemma AcceptsExactly(t: Tables, c: Call, fk: bool)
    requires Kept(t) && (fk ==> Refers(t)) && !c.Init? && !c.RemoveOwner?
    ensures Accepts(t, c, fk) <==> Due(t, c) && Kept(After(t, c)) && (fk ==> Refers(After(t, c)))
  {
    if Accepts(t, c, fk) { ApplyKept(t, c, fk); }
    match c
    case CreateGroup(owner, g) =>
      assert Makes(c, GroupTable, (g.name, g.description)) && Makes(c, OwnerTable, (owner, g.name));
    case AddChildGroup(parent, child) =>
      assert Makes(c, EdgeTable, (parent, child)) && (parent, child) in After(t, c).edges;
      InsertAcyclic(t.edges, parent, child);
    case RemoveFromGroupToGroup(parent, child) => assert Drops(c, EdgeTable, (parent, child));
    case AddGroupMember(user, name) =>
      assert Makes(c, MemberTable, (user, name)) && (user, name) in After(t, c).members;
    case AddGroupOwner(user, name) =>
      assert Makes(c, OwnerTable, (user, name)) && (user, name) in After(t, c).owners;
    case RemoveMember(user, name) => assert Drops(c, MemberTable, (user, name));
    case AddOwnerGroup(og, name) =>
      assert Makes(c, OwnerGroupTable, (og, name)) && (og, name) in After(t, c).ownerGroups;
  }

  /** The i-th call of the run is accepted. */
  ghost predicate AcceptedAt(calls: seq<Call>, fk: bool, i: nat)
    requires i < |calls|
  {
    Accepts(Serve(EMPTY, calls[..i], fk), calls[i], fk)
  }

  /** The i-th call of the run made the row, and no later one removed it. */
  ghost predicate LastMade(calls: seq<Call>, fk: bool, table: Table, row: Row, i: nat)
    requires i < |calls|
  {
    && AcceptedAt(calls, fk, i) && Makes(calls[i], table, row)
    && forall j | i < j < |calls| :: !(AcceptedAt(calls, fk, j) && Drops(calls[j], table, row))
  }

  lemma AcceptedPrefix(calls: seq<Call>, fk: bool, i: nat)
    requires i < |calls| - 1
    ensures AcceptedAt(calls[..|calls| - 1], fk, i) == AcceptedAt(calls, fk, i)
  {
    assert calls[..|calls| - 1][..i] == calls[..i];
  }

  lemma PrefixMade(calls: seq<Call>, fk: bool, table: Table, row: Row, i: nat)
    requires i < |calls| - 1
    ensures LastMade(calls, fk, table, row, i) <==>
      && LastMade(calls[..|calls| - 1], fk, table, row, i)
      && !(AcceptedAt(calls, fk, |calls| - 1) && Drops(calls[|calls| - 1], table, row))
  {
    hide AcceptedAt, Makes, Drops;
    forall j: nat | j < |calls| - 1 ensures AcceptedAt(calls[..|calls| - 1], fk, j) == AcceptedAt(calls, fk, j) {
      AcceptedPrefix(calls, fk, j);
    }
    var init := calls[..|calls| - 1];
    assert forall j | 0 <= j < |init| :: init[j] == calls[j];
    if LastMade(calls, fk, table, row, i) {
      assert !(AcceptedAt(calls, fk, |calls| - 1) && Drops(calls[|calls| - 1], table, row));
      forall j | i < j < |init| ensures !(AcceptedAt(init, fk, j) && Drops(init[j], table, row)) {
        assert !(AcceptedAt(calls, fk, j) && Drops(calls[j], table, row));
      }
    } else if LastMade(init, fk, table, row, i) {
      forall j | i < j < |init| ensures !(AcceptedAt(calls, fk, j) && Drops(calls[j], table, row)) {
        assert !(AcceptedAt(init, fk, j) && Drops(init[j], table, row));
      }
    }
  }

  /**
    In every serialised run from empty tables, a table holds a row if and only if some accepted call that is
    there to make it did so and no later accepted call that is there to remove it came after.
  */
  lemma {:induction false} EveryRowMade(calls: seq<Call>, fk: bool, table: Table, row: Row)
    ensures Has(Serve(EMPTY, calls, fk), table, row) <==>
      exists i :: 0 <= i < |calls| && LastMade(calls, fk, table, row, i)
  {
    hide AcceptedAt, LastMade, Accepts, Apply, Makes, Drops;
    if calls == [] {
      EmptyHas(table, row);
    } else {
      var n, init := |calls| - 1, calls[..|calls| - 1];
      EveryRowMade(init, fk, table, row);
      ApplyRow(Serve(EMPTY, init, fk), calls[n], fk, table, row);
      LastAccepted(calls, fk, table, row);
      MadeDrops(calls[n], table, row);
      forall i: nat | i < n
        ensures LastMade(calls, fk, table, row, i) <==>
          LastMade(init, fk, table, row, i) && !(AcceptedAt(calls, fk, n) && Drops(calls[n], table, row))
      {
        PrefixMade(calls, fk, table, row, i);
      }
    }
  }

  lemma EmptyHas(table: Table, row: Row)
    ensures !Has(EMPTY, table, row)
  {
  }

  lemma MadeDrops(c: Call, table: Table, row: Row)
    ensures !(Makes(c, table, row) && Drops(c, table, row))
  {
  }

  lemma LastAccepted(calls: seq<Call>, fk: bool, table: Table, row: Row)
    requires calls != []
    ensures
      var n := |calls| - 1;
      && AcceptedAt(calls, fk, n) == Accepts(Serve(EMPTY, calls[..n], fk), calls[n], fk)
      && LastMade(calls, fk, table, row, n) == (AcceptedAt(calls, fk, n) && Makes(calls[n], table, row))
  {
  }

  // ---------------------------------------------------------------- the store object

  function Names(gs: seq<Group>): set<string> { set i | 0 <= i < |gs| :: gs[i].name }

  predicate DistinctNames(gs: seq<Group>) { forall i, j | 0 <= i < j < |gs| :: gs[i].name != gs[j].name }

  /** x is reachable, outside `avoid`, from one of the groups of the list. */
  ghost predicate ReachedFrom(edges: set<Row>, avoid: set<string>, starts: seq<Group>, x: string) {
    exists i | 0 <= i < |starts| :: Reaches(edges, avoid, starts[i].name, x)
  }

  /** The visited set holds the starts, and with every new name all its parents. */
  ghost predicate ClosedUp(edges: set<Row>, visited: set<string>, found: set<string>) {
    forall q, a | (q, a) in edges && a in found :: q in visited
  }

  /** Closed up names are all the reachable ones. */
  lemma ClosedIsComplete(edges: set<Row>, avoid: set<string>, starts: seq<Group>, found: set<string>, x: string)
    requires ClosedUp(edges, avoid + found, found) && Names(starts) <= avoid + found
    requires ReachedFrom(edges, avoid, starts, x)
    ensures x in found
  {
    var i :| 0 <= i < |starts| && Reaches(edges, avoid, starts[i].name, x);
    var p :| Path(edges, avoid, p) && p[0] == starts[i].name && p[|p| - 1] == x;
    assert p[0] in Names(starts);
    ReachClosed(edges, avoid, found, p);
  }

  /** What is reachable from the parents of g while avoiding g is reachable from g. */
  lemma ReachedThrough(edges: set<Row>, avoid: set<string>, more: set<string>, g: string, parents: seq<Group>,
    x: string)
    requires avoid <= more && g !in avoid && ReachedFrom(edges, more, parents, x)
    requires forall q | q in Names(parents) :: (q, g) in edges
    ensures Reaches(edges, avoid, g, x)
  {
    var i :| 0 <= i < |parents| && Reaches(edges, more, parents[i].name, x);
    assert parents[i].name in Names(parents);
    ReachMonotone(edges, edges, more, avoid, parents[i].name, x);
    ReachStep(edges, avoid, g, parents[i].name, x);
  }

  lemma NamesConcat(a: seq<Group>, b: seq<Group>)
    ensures Names(a + b) == Names(a) + Names(b)
    ensures DistinctNames(a) && DistinctNames(b) && Names(a) !! Names(b) ==> DistinctNames(a + b)
  {
    forall x | x in Names(a) + Names(b) ensures x in Names(a + b) {
      if x in Names(a) {
        var i :| 0 <= i < |a| && a[i].name == x;
        assert (a + b)[i].name == x;
      } else {
        var i :| 0 <= i < |b| && b[i].name == x;
        assert (a + b)[|a| + i].name == x;
      }
    }
    if DistinctNames(a) && DistinctNames(b) && Names(a) !! Names(b) {
      forall i, j | 0 <= i < j < |a + b| ensures (a + b)[i].name != (a + b)[j].name {
        if i < |a| <= j {
          assert a[i].name in Names(a) && b[j - |a|].name in Names(b);
        }
      }
    }
  }

  lemma RowsAppend(user: string, names: seq<string>, x: string)
    ensures Rows(user, names + [x]) == Rows(user, names) + {(user, x)}
    ensures Undescribed(names + [x]) == Undescribed(names)[x := ""]
    ensures Distinct(names + [x]) <==> Distinct(names) && x !in names
    ensures (user, x) in Rows(user, names) <==> x in names
  {
    var more := names + [x];
    if Distinct(more) {
      forall i | 0 <= i < |names| ensures names[i] != x {
        assert more[i] != more[|names|];
      }
      forall i, j | 0 <= i < j < |names| ensures names[i] != names[j] {
        assert more[i] != more[j];
      }
    }
  }

  lemma RowsPrefix(user: string, names: seq<string>, k: nat, taken: set<Row>)
    requires k <= |names| && !(Distinct(names[..k]) && Rows(user, names[..k]) !! taken)
    ensures !(Distinct(names) && Rows(user, names) !! taken)
  {
    if Distinct(names) {
      assert Distinct(names[..k]);
      var r :| r in Rows(user, names[..k]) && r in taken;
      assert r in Rows(user, names);
    }
  }

  /** What one ancestor walk has established after its first k start groups. */
  ghost predicate Walked(edges: set<Row>, avoid: set<string>, gs: seq<Group>, k: nat, ret: seq<Group>,
    visited: set<string>)
    requires k <= |gs|
  {
    && visited == avoid + Names(ret) && Names(ret) !! avoid && DistinctNames(ret)
    && (forall i | 0 <= i < k :: gs[i].name in visited)
    && ClosedUp(edges, visited, Names(ret))
    && forall x | x in Names(ret) :: ReachedFrom(edges, avoid, gs, x)
  }

  lemma WalkStart(edges: set<Row>, avoid: set<string>, gs: seq<Group>)
    ensures Walked(edges, avoid, gs, 0, [], avoid)
  {
  }

  lemma WalkSkip(edges: set<Row>, avoid: set<string>, gs: seq<Group>, k: nat, ret: seq<Group>, visited: set<string>)
    requires k < |gs| && Walked(edges, avoid, gs, k, ret, visited) && gs[k].name in visited
    ensures Walked(edges, avoid, gs, k + 1, ret, visited)
  {
  }

  /** One more start group, with what the recursive call on its parents found. */
  lemma WalkStep(edges: set<Row>, avoid: set<string>, gs: seq<Group>, k: nat, ret: seq<Group>, before: set<string>,
                 parents: seq<Group>, res: seq<Group>, after: set<string>)
    requires k < |gs| && Walked(edges, avoid, gs, k, ret, before)
    requires
      var g := gs[k].name;
      && g !in before
      && (forall q :: q in Names(parents) <==> (q, g) in edges)
      && Walked(edges, before + {g}, parents, |parents|, res, after)
    ensures Walked(edges, avoid, gs, k + 1, ret + [gs[k]] + res, after)
  {
    var g := gs[k];
    assert [g][0].name == g.name;
    assert Names([g]) == {g.name};
    NamesConcat(ret, [g]);
    NamesConcat(ret + [g], res);
    forall x | x in Names(res) + {g.name} ensures ReachedFrom(edges, avoid, gs, x) {
      if x == g.name {
        ReachSelf(edges, avoid, x);
      } else {
        ReachedThrough(edges, avoid, before + {g.name}, g.name, parents, x);
      }
      assert Reaches(edges, avoid, gs[k].name, x);
    }
    forall q | (q, g.name) in edges ensures q in after {
      assert q in Names(parents);
    }
  }

  /** The list names exactly the groups reachable from the starts outside `avoid`. */
  ghost predicate Exact(edges: set<Row>, avoid: set<string>, starts: seq<Group>, ret: seq<Group>) {
    forall x :: x in Names(ret) <==> ReachedFrom(edges, avoid, starts, x)
  }

  /** A finished walk found exactly what is reachable. */
  lemma WalkExact(edges: set<Row>, avoid: set<string>, gs: seq<Group>, ret: seq<Group>, visited: set<string>)
    requires Walked(edges, avoid, gs, |gs|, ret, visited)
    ensures Exact(edges, avoid, gs, ret)
  {
    forall x | ReachedFrom(edges, avoid, gs, x) ensures x in Names(ret) {
      ClosedIsComplete(edges, avoid, gs, Names(ret), x);
    }
  }

  /** The visited map that one ancestor walk shares between all its recursive calls. */
  class Visited {
    var names: set<string>
    constructor (names: set<string>)
      ensures this.names == names
    {
      this.names := names;
    }
  }

  class SqliteStore {
    const fk: bool
    var groups: map<string, string>
    var owners: set<Row>
    var ownerGroups: set<Row>
    var edges: set<Row>
    var members: set<Row>

    ghost function Contents(): Tables
      reads this
    {
      Tables(groups, owners, ownerGroups, edges, members)
    }

    constructor (fk: bool)
      ensures Contents() == EMPTY && this.fk == fk
    {
      this.fk := fk;
      groups, owners, ownerGroups, edges, members := map[], {}, {}, {}, {};
    }

    /** The rows come back in an order that the database chooses. */
    method QueryGroups(names: set<string>) returns (gs: seq<Group>)
      requires names <= groups.Keys
      ensures DistinctNames(gs) && Names(gs) == names
      ensures forall i | 0 <= i < |gs| :: gs[i].name in groups && gs[i].description == groups[gs[i].name]
    {
      gs := [];
      var rest := names;
      while rest != {}
        invariant rest <= names && DistinctNames(gs) && Names(gs) == names - rest
        invariant forall i | 0 <= i < |gs| :: gs[i].name in groups && gs[i].description == groups[gs[i].name]
        decreases rest
      {
        var x :| x in rest;
        var next := gs + [Group(x, groups[x])];
        forall i | 0 <= i < |gs| ensures gs[i].name != x {
          assert gs[i].name in Names(gs);
        }
        assert Names(next) == Names(gs) + {x} by {
          forall y | y in Names(gs) + {x} ensures y in Names(next) {
            if y == x { assert next[|gs|].name == x; } else {
              var i :| 0 <= i < |gs| && gs[i].name == y;
              assert next[i].name == y;
            }
          }
        }
        gs, rest := next, rest - {x};
      }
    }

    method GetGroupsUserBelongsTo(user: string) returns (gs: seq<Group>)
      ensures DistinctNames(gs)
      ensures forall i | 0 <= i < |gs| :: gs[i].name in groups && gs[i].description == groups[gs[i].name]
      ensures forall x :: x in Names(gs) <==> (user, x) in members && x in groups
    {
      gs := QueryGroups(set r | r in members && r.0 == user && r.1 in groups :: r.1);
      assert forall x | (user, x) in members :: (user, x).1 == x;
    }

    method GetGroupsGroupBelongsTo(group: string) returns (gs: seq<Group>)
      ensures DistinctNames(gs)
      ensures forall i | 0 <= i < |gs| :: gs[i].name in groups && gs[i].description == groups[gs[i].name]
      ensures forall q :: q in Names(gs) <==> (q, group) in edges && q in groups
    {
      gs := QueryGroups(set r | r in edges && r.1 == group && r.0 in groups :: r.0);
      assert forall q | (q, group) in edges :: (q, group).0 == q;
    }

    predicate Described(gs: seq<Group>)
      reads this
    {
      forall i | 0 <= i < |gs| :: gs[i].name in groups && gs[i].description == groups[gs[i].name]
    }

    /** Rows mention existing groups, so the joins with the groups table lose nothing. */
    predicate Referential()
      reads this
    {
      forall r | r in edges :: r.0 in groups
    }

    /**
      The walk returns, without duplicates, exactly the groups reachable from the list along paths
      that avoid everything visited before, and adds exactly those to the visited map.
    */
    method GetAllParentGroupsRecursive(gs: seq<Group>, visited: Visited) returns (ret: seq<Group>)
      requires Referential() && Described(gs)
      modifies visited
      ensures old(visited.names) <= visited.names && Described(ret)
      ensures Walked(edges, old(visited.names), gs, |gs|, ret, visited.names)
      ensures Exact(edges, old(visited.names), gs, ret)
      decreases groups.Keys - visited.names
    {
      hide Walked, Exact, Names, DistinctNames;
      ret := [];
      ghost var avoid := visited.names;
      WalkStart(edges, avoid, gs);
      for k := 0 to |gs|
        invariant avoid <= visited.names && Described(ret)
        invariant Walked(edges, avoid, gs, k, ret, visited.names)
      {
        var g := gs[k];
        if g.name !in visited.names {
          ghost var before := visited.names;
          visited.names := visited.names + {g.name};
          var p := GetGroupsGroupBelongsTo(g.name);
          var res := GetAllParentGroupsRecursive(p, visited);
          WalkStep(edges, avoid, gs, k, ret, before, p, res, visited.names);
          ret := ret + [g] + res;
        } else {
          WalkSkip(edges, avoid, gs, k, ret, visited.names);
        }
      }
      WalkExact(edges, avoid, gs, ret, visited.names);
    }

    /** The transitive groups of a user are exactly the reachability closure of the direct ones. */
    method GetAllTransitiveGroupsForUser(user: string) returns (ret: seq<Group>)
      requires Referential()
      ensures DistinctNames(ret) && Described(ret)
      ensures forall x :: x in Names(ret) <==> Belongs(Contents(), user, x)
    {
      var gs := GetGroupsUserBelongsTo(user);
      var visited := new Visited({});
      ret := GetAllParentGroupsRecursive(gs, visited);
      forall x ensures x in Names(ret) <==> Belongs(Contents(), user, x) {
        if x in Names(ret) {
          var i :| 0 <= i < |gs| && Reaches(edges, {}, gs[i].name, x);
          assert gs[i].name in Names(gs);
        }
        if Belongs(Contents(), user, x) {
          var g :| (user, g) in members && g in groups && Reaches(edges, {}, g, x);
          assert g in Names(gs);
        }
      }
    }

    /** The proper ancestors of a group. */
    method GetAllTransitiveGroupsForGroup(group: string) returns (ret: seq<Group>)
      requires Referential()
      ensures DistinctNames(ret) && Described(ret)
      ensures forall x :: x in Names(ret) <==> x != group && Reaches(edges, {}, group, x)
    {
      var gs := GetGroupsGroupBelongsTo(group);
      var visited := new Visited({group});
      ret := GetAllParentGroupsRecursive(gs, visited);
      forall x ensures x in Names(ret) <==> x != group && Reaches(edges, {}, group, x) {
        if x in Names(ret) {
          ReachedThrough(edges, {}, {group}, group, gs, x);
        }
        if x != group && Reaches(edges, {}, group, x) {
          var p :| Path(edges, {}, p) && p[0] == group && p[|p| - 1] == x;
          var q := LeaveForGood(edges, p);
          assert q in Names(gs);
        }
      }
    }

    /** The cycle check: the child is among the ancestors that the walk returns. */
    method IsAncestor(child: string, parent: string) returns (found: bool)
      requires Referential()
      ensures found <==> child != parent && Reaches(edges, {}, parent, child)
    {
      var ancestors := GetAllTransitiveGroupsForGroup(parent);
      found := false;
      for i := 0 to |ancestors|
        invariant !found && forall j | 0 <= j < i :: ancestors[j].name != child
      {
        if ancestors[i].name == child {
          assert child in Names(ancestors);
          return true;
        }
      }
    }

    method AddChildGroup(parent: string, child: string) returns (ok: bool)
      requires Kept(Contents())
      modifies this`edges
      ensures ok == Accepts(old(Contents()), Call.AddChildGroup(parent, child), fk)
      ensures Contents() == Apply(old(Contents()), Call.AddChildGroup(parent, child), fk) && Kept(Contents())
    {
      ApplyKept(Contents(), Call.AddChildGroup(parent, child), fk);
      if parent == child {
        ReachSelf(edges, {}, parent);
        return false;
      }
      if parent !in groups || child !in groups { return false; }
      var cycle := IsAncestor(child, parent);
      if cycle || (parent, child) in edges { return false; }
      edges := edges + {(parent, child)};
      ok := true;
    }

    method RemoveFromGroupToGroup(parent: string, child: string) returns (ok: bool)
      requires Kept(Contents())
      modifies this`edges
      ensures ok == Accepts(old(Contents()), Call.RemoveFromGroupToGroup(parent, child), fk)
      ensures Contents() == Apply(old(Contents()), Call.RemoveFromGroupToGroup(parent, child), fk) && Kept(Contents())
    {
      ApplyKept(Contents(), Call.RemoveFromGroupToGroup(parent, child), fk);
      ok := (parent, child) in edges;
      edges := edges - {(parent, child)};
    }

    method CreateGroup(owner: string, group: Group) returns (ok: bool)
      requires Kept(Contents())
      modifies this`groups, this`owners
      ensures ok == Accepts(old(Contents()), Call.CreateGroup(owner, group), fk)
      ensures Contents() == Apply(old(Contents()), Call.CreateGroup(owner, group), fk) && Kept(Contents())
    {
      ApplyKept(Contents(), Call.CreateGroup(owner, group), fk);
      var savedGroups, savedOwners := groups, owners;
      if group.name in groups { return false; }
      groups := groups[group.name := group.description];
      if (owner, group.name) in owners {
        groups, owners := savedGroups, savedOwners;
        return false;
      }
      owners := owners + {(owner, group.name)};
      ok := true;
    }

    method RemoveOwner(user: string, group: string) returns (ok: bool)
      requires Kept(Contents())
      modifies this`owners
      ensures ok == Accepts(old(Contents()), Call.RemoveOwner(user, group), fk)
      ensures Contents() == Apply(old(Contents()), Call.RemoveOwner(user, group), fk) && Kept(Contents())
    {
      ApplyKept(Contents(), Call.RemoveOwner(user, group), fk);
      var current := set r | r in owners && r.1 == group :: r.0;
      if |current| == 1 { return false; }
      ok := (user, group) in owners;
      owners := owners - {(user, group)};
    }

    method RemoveMember(user: string, group: string) returns (ok: bool)
      requires Kept(Contents())
      modifies this`members
      ensures ok == Accepts(old(Contents()), Call.RemoveMember(user, group), fk)
      ensures Contents() == Apply(old(Contents()), Call.RemoveMember(user, group), fk) && Kept(Contents())
    {
      ApplyKept(Contents(), Call.RemoveMember(user, group), fk);
      ok := (user, group) in members;
      members := members - {(user, group)};
    }

    method AddGroupMember(user: string, group: string) returns (ok: bool)
      requires Kept(Contents())
      modifies this`members
      ensures ok == Accepts(old(Contents()), Call.AddGroupMember(user, group), fk)
      ensures Contents() == Apply(old(Contents()), Call.AddGroupMember(user, group), fk) && Kept(Contents())
    {
      ApplyKept(Contents(), Call.AddGroupMember(user, group), fk);
      ok := (user, group) !in members && (fk ==> group in groups);
      if ok { members := members + {(user, group)}; }
    }

    method AddGroupOwner(user: string, group: string) returns (ok: bool)
      requires Kept(Contents())
      modifies this`owners
      ensures ok == Accepts(old(Contents()), Call.AddGroupOwner(user, group), fk)
      ensures Contents() == Apply(old(Contents()), Call.AddGroupOwner(user, group), fk) && Kept(Contents())
    {
      ApplyKept(Contents(), Call.AddGroupOwner(user, group), fk);
      ok := (user, group) !in owners && (fk ==> group in groups);
      if ok { owners := owners + {(user, group)}; }
    }

    method AddOwnerGroup(ownerGroup: string, ownedGroup: string) returns (ok: bool)
      requires Kept(Contents())
      modifies this`ownerGroups
      ensures ok == Accepts(old(Contents()), Call.AddOwnerGroup(ownerGroup, ownedGroup), fk)
      ensures Contents() == Apply(old(Contents()), Call.AddOwnerGroup(ownerGroup, ownedGroup), fk) && Kept(Contents())
    {
      ApplyKept(Contents(), Call.AddOwnerGroup(ownerGroup, ownedGroup), fk);
      if ownedGroup == ownerGroup || ownedGroup !in groups || ownerGroup !in groups { return false; }
      if (ownerGroup, ownedGroup) in ownerGroups { return false; }
      ownerGroups := ownerGroups + {(ownerGroup, ownedGroup)};
      ok := true;
    }

    /** One transaction: the first insert that violates a constraint rolls back all of them. */
    method InsertAll(owner: string, names: seq<string>) returns (ok: bool)
      requires groups == map[]
      modifies this`groups, this`owners, this`members
      ensures ok <==> Distinct(names) && Rows(owner, names) !! old(owners) + old(members)
      ensures ok ==> groups == Undescribed(names)
      ensures ok ==> owners == old(owners) + Rows(owner, names) && members == old(members) + Rows(owner, names)
      ensures !ok ==> groups == map[] && owners == old(owners) && members == old(members)
    {
      var savedOwners, savedMembers := owners, members;
      for i := 0 to |names|
        invariant groups == Undescribed(names[..i])
        invariant owners == savedOwners + Rows(owner, names[..i]) && members == savedMembers + Rows(owner, names[..i])
        invariant Distinct(names[..i]) && Rows(owner, names[..i]) !! savedOwners + savedMembers
      {
        var g := names[i];
        RowsAppend(owner, names[..i], g);
        assert names[..i + 1] == names[..i] + [g];
        if g in groups || (owner, g) in owners || (owner, g) in members {
          RowsPrefix(owner, names, i + 1, savedOwners + savedMembers);
          groups, owners, members := map[], savedOwners, savedMembers;
          return false;
        }
        groups, owners, members := groups[g := ""], owners + {(owner, g)}, members + {(owner, g)};
      }
      assert names[..|names|] == names;
      ok := true;
    }

    method Init(owner: string, names: seq<string>) returns (ok: bool)
      requires Kept(Contents())
      modifies this`groups, this`owners, this`members
      ensures ok == Accepts(old(Contents()), Call.Init(owner, names), fk)
      ensures Contents() == Apply(old(Contents()), Call.Init(owner, names), fk) && Kept(Contents())
    {
      ApplyKept(Contents(), Call.Init(owner, names), fk);
      if groups != map[] { return false; }
      ok := InsertAll(owner, names);
    }
  }
}
