/**
  `UserGroupRelation`: the membership of a user in an account-book group,
  and the table of such rows that the group service reads and writes.

  The table is keyed by row id (the entity's generated id). Ids grow as
  rows are added, so "in id order" is the order rows were created in.
*/
module GroupMembership {
  import opened Common

  type UserId = nat
  type GroupId = nat
  type RowId = nat

  /** The role column: 1 owner, 2 maintainer, 3 visitor, 4 invited and not
      yet agreed. */
  datatype Role = Owner | Maintainer | Visitor | Invited
  {
    /** The integer stored in the column; it decodes back to this role. */
    function Code(): (c: int)
      ensures 1 <= c <= 4
      ensures RoleOfCode(c) == Some(this)
    {
      match this
      case Owner => 1
      case Maintainer => 2
      case Visitor => 3
      case Invited => 4
    }
  }

  /** Reading the role column: only the four documented codes mean a role. */
  function RoleOfCode(c: int): (r: Option<Role>)
    ensures r.Some? <==> 1 <= c <= 4
  {
    if c == 1 then Some(Owner)
    else if c == 2 then Some(Maintainer)
    else if c == 3 then Some(Visitor)
    else if c == 4 then Some(Invited)
    else None
  }

  /** Decoding a code and encoding the role gives the code back. */
  lemma RoleCodeRoundTrip(c: int)
    requires RoleOfCode(c).Some?
    ensures RoleOfCode(c).value.Code() == c
  {
  }

  /** One row: user, group and role are all required, so a row always has
      all three; the constructor sets exactly these. */
  datatype Relation = Relation(user: UserId, group: GroupId, role: Role)

  type Table = map<RowId, Relation>

  /** The unique constraint on (user_id, group_id). */
  predicate UniquePairs(t: Table) {
    forall a, b | a in t && b in t && t[a].user == t[b].user && t[a].group == t[b].group :: a == b
  }

  /** No group has two owner rows. */
  predicate SingleOwner(t: Table) {
    forall a, b | a in t && b in t && t[a].group == t[b].group && t[a].role == Owner && t[b].role == Owner :: a == b
  }

  /** `findByGroupAndUser(group, user).isPresent()`. */
  predicate Related(t: Table, u: UserId, g: GroupId) {
    exists k | k in t :: t[k].user == u && t[k].group == g
  }

  /** `u` has a row in `g` with role `role`. */
  predicate HasRole(t: Table, u: UserId, g: GroupId, role: Role) {
    Relation(u, g, role) in t.Values
  }

  /** Under the unique constraint a user has at most one role in a group:
      the row `findByGroupAndUser` returns is the one with that role. */
  lemma RoleDetermined(t: Table, u: UserId, g: GroupId, r1: Role, r2: Role)
    requires UniquePairs(t)
    requires HasRole(t, u, g, r1) && HasRole(t, u, g, r2)
    ensures r1 == r2
  {
    var a :| a in t && t[a] == Relation(u, g, r1);
    var b :| b in t && t[b] == Relation(u, g, r2);
  }

  /** A user has role `role` in a group exactly when they have a row in it
      and every role they have there is `role`. */
  lemma RoleOfRow(t: Table, u: UserId, g: GroupId, role: Role)
    requires UniquePairs(t)
    ensures HasRole(t, u, g, role) <==> Related(t, u, g) && forall other | HasRole(t, u, g, other) :: other == role
  {
    if HasRole(t, u, g, role) {
      forall other | HasRole(t, u, g, other)
        ensures other == role
      {
        RoleDetermined(t, u, g, role, other);
      }
    }
    if Related(t, u, g) {
      var k :| k in t && t[k].user == u && t[k].group == g;
      assert HasRole(t, u, g, t[k].role);
    }
  }

  /** Every row of `sub` is a row of `t`, under the same id. */
  predicate SubTable(sub: Table, t: Table) {
    forall k | k in sub :: k in t && sub[k] == t[k]
  }

  /** Deleting rows keeps the unique constraint and the single owner. */
  lemma SubTableKeeps(sub: Table, t: Table)
    requires SubTable(sub, t)
    ensures UniquePairs(t) ==> UniquePairs(sub)
    ensures SingleOwner(t) ==> SingleOwner(sub)
  {
  }

  /** `deleteByGroup(group)`. */
  function WithoutGroup(t: Table, g: GroupId): (r: Table)
    ensures SubTable(r, t)
    ensures forall k | k in t :: k in r <==> t[k].group != g
  {
    map k | k in t && t[k].group != g :: t[k]
  }

  /** Deleting the row of `u` in `g`. */
  function WithoutPair(t: Table, u: UserId, g: GroupId): (r: Table)
    ensures SubTable(r, t)
    ensures forall k | k in t :: k in r <==> !(t[k].user == u && t[k].group == g)
  {
    map k | k in t && !(t[k].user == u && t[k].group == g) :: t[k]
  }

  /** `relation.setRole(role)` on the row of `u` in `g`. */
  function WithRole(t: Table, u: UserId, g: GroupId, role: Role): (r: Table)
    ensures r.Keys == t.Keys
    ensures forall k | k in t :: r[k] == if t[k].user == u && t[k].group == g then Relation(u, g, role) else t[k]
  {
    map k | k in t :: if t[k].user == u && t[k].group == g then Relation(u, g, role) else t[k]
  }

  /** Changing a role to anything but owner keeps both constraints. */
  lemma WithRoleKeeps(t: Table, u: UserId, g: GroupId, role: Role)
    requires UniquePairs(t) && SingleOwner(t)
    requires role != Owner && !HasRole(t, u, g, Owner)
    ensures UniquePairs(WithRole(t, u, g, role)) && SingleOwner(WithRole(t, u, g, role))
  {
    var r := WithRole(t, u, g, role);
    forall a, b | a in r && b in r && r[a].group == r[b].group && r[a].role == Owner && r[b].role == Owner
      ensures a == b
    {
      assert r[a] == t[a] && r[b] == t[b];
    }
  }

  /** Adding a row under a new id for a pair that has none keeps the unique
      constraint; an owner row also needs a group without an owner. */
  lemma InsertKeeps(t: Table, id: RowId, rel: Relation)
    requires UniquePairs(t) && SingleOwner(t)
    requires id !in t && !Related(t, rel.user, rel.group)
    requires rel.role == Owner ==> forall k | k in t :: t[k].group != rel.group
    ensures UniquePairs(t[id := rel]) && SingleOwner(t[id := rel])
  {
  }

  /** `findByUserAndRole(u, 1)` over the rows with id below `n`, in id
      order: the groups `u` owns. */
  function OwnedGroups(t: Table, u: UserId, n: nat): seq<GroupId> {
    if n == 0 then []
    else OwnedGroups(t, u, n - 1)
         + (if n - 1 in t && t[n - 1].user == u && t[n - 1].role == Owner then [t[n - 1].group] else [])
  }

  /** A group is listed exactly when `u` has an owner row for it below `n`. */
  lemma {:induction false} OwnedGroupsListed(t: Table, u: UserId, n: nat, g: GroupId)
    ensures g in OwnedGroups(t, u, n) <==> exists k | k < n :: k in t && t[k] == Relation(u, g, Owner)
  {
    if n > 0 {
      OwnedGroupsListed(t, u, n - 1, g);
      if g in OwnedGroups(t, u, n) && g !in OwnedGroups(t, u, n - 1) {
        assert t[n - 1] == Relation(u, g, Owner);
      }
      if exists k | k < n :: k in t && t[k] == Relation(u, g, Owner) {
        var k :| k < n && k in t && t[k] == Relation(u, g, Owner);
        if k == n - 1 {
          assert g in OwnedGroups(t, u, n)[|OwnedGroups(t, u, n)| - 1..];
        }
      }
    }
  }

  /** Deleting a group's rows takes that group out of what each user owns,
      and nothing else: a user loses exactly one owned group if they owned
      it, none otherwise. */
  lemma {:induction false} OwnedWithoutGroup(t: Table, u: UserId, g: GroupId, n: nat)
    requires UniquePairs(t)
    ensures |OwnedGroups(WithoutGroup(t, g), u, n)|
            + (if exists k | k < n :: k in t && t[k] == Relation(u, g, Owner) then 1 else 0)
            == |OwnedGroups(t, u, n)|
  {
    if n > 0 {
      OwnedWithoutGroup(t, u, g, n - 1);
      var w := WithoutGroup(t, g);
      var k := n - 1;
      if k in t && t[k] == Relation(u, g, Owner) {
        assert !exists j | j < k :: j in t && t[j] == Relation(u, g, Owner);
      }
    }
  }

  /** Deleting a group's rows leaves every owner of another group the
      groups it owned, in the same order. */
  lemma {:induction false} OwnedOutsideGroup(t: Table, u: UserId, g: GroupId, n: nat)
    requires forall k | k < n && k in t :: !(t[k].user == u && t[k].group == g && t[k].role == Owner)
    ensures OwnedGroups(WithoutGroup(t, g), u, n) == OwnedGroups(t, u, n)
  {
    if n > 0 {
      OwnedOutsideGroup(t, u, g, n - 1);
    }
  }

  /** Deleting the rows of a group whose single owner `u` owns other groups
      too: `u` loses that one group and keeps at least one, every other user
      keeps what they own, and both constraints still hold. */
  lemma RemoveOwnedGroup(t: Table, u: UserId, g: GroupId, n: nat)
    requires UniquePairs(t) && SingleOwner(t)
    requires forall k | k in t :: k < n
    requires HasRole(t, u, g, Owner) && |OwnedGroups(t, u, n)| > 1
    ensures |OwnedGroups(WithoutGroup(t, g), u, n)| == |OwnedGroups(t, u, n)| - 1 >= 1
    ensures forall v | v != u :: OwnedGroups(WithoutGroup(t, g), v, n) == OwnedGroups(t, v, n)
    ensures UniquePairs(WithoutGroup(t, g)) && SingleOwner(WithoutGroup(t, g))
  {
    var k :| k in t && t[k] == Relation(u, g, Owner);
    OwnedWithoutGroup(t, u, g, n);
    forall v | v != u
      ensures OwnedGroups(WithoutGroup(t, g), v, n) == OwnedGroups(t, v, n)
    {
      OwnedOutsideGroup(t, v, g, n);
    }
    SubTableKeeps(WithoutGroup(t, g), t);
  }

  /** Deleting a row that is not an owner row, or changing such a row's
      role to one that is not owner, changes no one's owned groups. */
  lemma {:induction false} OwnedKeptBy(t: Table, t': Table, u: UserId, n: nat)
    requires forall k | k < n :: (k in t && t[k].role == Owner) <==> (k in t' && t'[k].role == Owner)
    requires forall k | k < n && k in t && t[k].role == Owner :: t'[k] == t[k]
    ensures OwnedGroups(t', u, n) == OwnedGroups(t, u, n)
  {
    if n > 0 {
      OwnedKeptBy(t, t', u, n - 1);
    }
  }

  /** The ids of the rows of `g` below `n`, in id order: the rows
      `findAll(group == g)` returns. */
  function MemberRows(t: Table, g: GroupId, n: nat): (r: seq<RowId>)
    ensures forall i | 0 <= i < |r| :: r[i] < n && r[i] in t && t[r[i]].group == g
  {
    if n == 0 then []
    else MemberRows(t, g, n - 1) + (if n - 1 in t && t[n - 1].group == g then [n - 1] else [])
  }

  /** Every row of the group below `n` is listed. */
  lemma {:induction false} MemberRowsComplete(t: Table, g: GroupId, n: nat)
    ensures forall k | k < n && k in t && t[k].group == g :: k in MemberRows(t, g, n)
  {
    if n > 0 {
      MemberRowsComplete(t, g, n - 1);
      var prev := MemberRows(t, g, n - 1);
      var r := MemberRows(t, g, n);
      assert r[..|prev|] == prev;
      forall k | k < n && k in t && t[k].group == g
        ensures k in r
      {
        if k == n - 1 {
          assert r[|r| - 1] == k;
        } else {
          assert k in prev;
        }
      }
    }
  }

  /** The rows are listed in id order, so each at most once. */
  lemma {:induction false} MemberRowsIncreasing(t: Table, g: GroupId, n: nat)
    ensures forall i, j | 0 <= i < j < |MemberRows(t, g, n)| :: MemberRows(t, g, n)[i] < MemberRows(t, g, n)[j]
  {
    if n > 0 {
      MemberRowsIncreasing(t, g, n - 1);
      var prev := MemberRows(t, g, n - 1);
      var r := MemberRows(t, g, n);
      assert r[..|prev|] == prev;
      forall i, j | 0 <= i < j < |r|
        ensures r[i] < r[j]
      {
        if j >= |prev| {
          assert r[i] == prev[i];
        } else {
          assert r[i] == prev[i] && r[j] == prev[j];
        }
      }
    }
  }
}
