/**
  `GroupService`: creating, updating and deleting account-book groups, and
  inviting, admitting and removing their members.

  The service's repositories become tables held in the fields of one
  object; the signed-in user and the group they are working in come from
  the session. The service is transactional: a call that fails leaves
  every table as it was.
*/
module GroupService {
  import opened Common
  import opened GroupMembership

  type BookId = nat

  datatype User = User(username: string, nickName: string, defaultGroup: GroupId, defaultBook: BookId)

  datatype Group = Group(name: string, notes: string, currencyCode: string, creator: UserId, defaultBook: BookId)

  datatype Book = Book(name: string, group: GroupId, enable: bool)

  /** A book template offered when a group is created. */
  datatype BookTemplate = BookTemplate(id: int, name: string)

  datatype AddForm = AddForm(name: string, notes: string, currencyCode: string, templateId: int)

  datatype UpdateForm = UpdateForm(name: string, notes: string, currencyCode: string, defaultBookId: BookId)

  /** One entry of `getUsers`. */
  datatype GroupUser = GroupUser(id: UserId, username: string, nickName: string, roleId: int)

  /** Why a call fails: a message key, a missing item, a currency code the
      currency service refuses, or an index past the end of a list. */
  datatype Failure = Message(key: string) | ItemNotFound | UnknownCurrency | IndexOutOfBounds

  const MaxCountKey := "group.max.count"
  const AuthKey := "group.update.auth.error"
  const DeleteSizeKey := "group.delete.size.error"
  const HasFlowKey := "group.delete.has.flow"
  const NoSuchUserKey := "invite.user.not.exists"
  const HasRoleKey := "invite.user.has.role"
  const RemoveSelfKey := "group.remove.user.self"

  /** Rows of a table whose rows belong to a book (categories, payees,
      tags, balance flows): row id to book. */
  type BookRows = map<nat, BookId>

  /** `deleteByBook` for each of the books `bs`. */
  function WithoutBooks(rows: BookRows, bs: set<BookId>): (r: BookRows)
    ensures forall k :: k in r <==> k in rows && rows[k] !in bs
    ensures forall k | k in r :: r[k] == rows[k]
  {
    map k | k in rows && rows[k] !in bs :: rows[k]
  }

  /** Deleting by one more book is deleting by the larger set. */
  lemma WithoutOneMoreBook(rows: BookRows, done: set<BookId>, b: BookId)
    ensures WithoutBooks(WithoutBooks(rows, done), {b}) == WithoutBooks(rows, done + {b})
  {
  }

  /** `bookRepository.findAllByGroup(g)`. */
  function BooksOf(books: map<BookId, Book>, g: GroupId): (r: set<BookId>)
    ensures forall b :: b in r <==> b in books && books[b].group == g
  {
    set b | b in books && books[b].group == g
  }

  /** `groupRepository.countByCreator(u)`. */
  function CountCreated(groups: map<GroupId, Group>, u: UserId): nat {
    |set g | g in groups && groups[g].creator == u|
  }

  /** The first template with the given id, as `filter(...).findFirst()`. */
  function FindTemplate(templates: seq<BookTemplate>, id: int): (r: Option<BookTemplate>)
    ensures r.None? <==> forall i | 0 <= i < |templates| :: templates[i].id != id
    ensures r.Some? ==> exists i | 0 <= i < |templates| :: templates[i] == r.value
                          && r.value.id == id && forall j | 0 <= j < i :: templates[j].id != id
  {
    if templates == [] then None
    else if templates[0].id == id then Some(templates[0])
    else
      var r := FindTemplate(templates[1..], id);
      if r.Some? then
        var i :| 0 <= i < |templates[1..]| && templates[1..][i] == r.value && r.value.id == id
                 && forall j | 0 <= j < i :: templates[1..][j].id != id;
        assert templates[i + 1] == r.value;
        r
      else r
  }

  /** `userRepository.findOneByUsername(name)`, over the users with id
      below `n`: the first one with that username. */
  function FindByUsername(users: map<UserId, User>, name: string, n: nat): (r: Option<UserId>)
    ensures r.Some? ==> r.value < n && r.value in users && users[r.value].username == name
    ensures r.None? <==> forall u | u < n && u in users :: users[u].username != name
  {
    if n == 0 then None
    else
      match FindByUsername(users, name, n - 1)
      case Some(u) => Some(u)
      case None => if n - 1 in users && users[n - 1].username == name then Some(n - 1) else None
  }

  /** What the tables keep between calls: the constraints on member rows,
      rows that name existing users and groups, ids below the next id, and
      a signed-in user who exists. */
  ghost predicate Consistent(users: map<UserId, User>, groups: map<GroupId, Group>, books: map<BookId, Book>,
                             relations: Table, nextId: nat, sessionUser: UserId)
  {
    && UniquePairs(relations)
    && SingleOwner(relations)
    && (forall k | k in relations :: k < nextId && relations[k].user in users && relations[k].group in groups)
    && (forall u | u in users :: u < nextId)
    && (forall g | g in groups :: g < nextId)
    && (forall b | b in books :: b < nextId)
    && sessionUser in users
  }

  /** A new group, its first book and its owner row, all under new ids,
      keep the tables consistent. */
  lemma AddKeepsConsistent(users: map<UserId, User>, groups: map<GroupId, Group>, books: map<BookId, Book>,
                           relations: Table, nextId: nat, sessionUser: UserId, group: Group, book: Book)
    requires Consistent(users, groups, books, relations, nextId, sessionUser)
    ensures Consistent(users, groups[nextId := group], books[nextId + 1 := book],
                       relations[nextId + 2 := Relation(sessionUser, nextId, Owner)], nextId + 3, sessionUser)
  {
    InsertKeeps(relations, nextId + 2, Relation(sessionUser, nextId, Owner));
  }

  /** Deleting a group, some books and the group's member rows keeps the
      tables consistent. */
  lemma RemoveKeepsConsistent(users: map<UserId, User>, groups: map<GroupId, Group>, books: map<BookId, Book>,
                              relations: Table, nextId: nat, sessionUser: UserId, id: GroupId, bs: set<BookId>)
    requires Consistent(users, groups, books, relations, nextId, sessionUser)
    ensures Consistent(users, groups - {id}, books - bs, WithoutGroup(relations, id), nextId, sessionUser)
  {
    SubTableKeeps(WithoutGroup(relations, id), relations);
  }

  /** A new invited row for a user and group that have none, under a new
      id, keeps the tables consistent. */
  lemma InviteKeepsConsistent(users: map<UserId, User>, groups: map<GroupId, Group>, books: map<BookId, Book>,
                              relations: Table, nextId: nat, sessionUser: UserId, u: UserId, g: GroupId)
    requires Consistent(users, groups, books, relations, nextId, sessionUser)
    requires u in users && g in groups && !Related(relations, u, g)
    ensures Consistent(users, groups, books, relations[nextId := Relation(u, g, Invited)], nextId + 1, sessionUser)
  {
    InsertKeeps(relations, nextId, Relation(u, g, Invited));
  }

  /** Deleting one member row, and editing users in place, keeps the tables
      consistent. */
  lemma DropRowKeepsConsistent(users: map<UserId, User>, users': map<UserId, User>, groups: map<GroupId, Group>,
                               books: map<BookId, Book>, relations: Table, nextId: nat, sessionUser: UserId,
                               u: UserId, g: GroupId)
    requires Consistent(users, groups, books, relations, nextId, sessionUser)
    requires users'.Keys == users.Keys
    ensures Consistent(users', groups, books, WithoutPair(relations, u, g), nextId, sessionUser)
  {
    SubTableKeeps(WithoutPair(relations, u, g), relations);
  }

  /** Turning a row that is not an owner row into a maintainer row keeps
      the tables consistent. */
  lemma AgreeKeepsConsistent(users: map<UserId, User>, groups: map<GroupId, Group>, books: map<BookId, Book>,
                             relations: Table, nextId: nat, sessionUser: UserId, g: GroupId)
    requires Consistent(users, groups, books, relations, nextId, sessionUser)
    requires !HasRole(relations, sessionUser, g, Owner)
    ensures Consistent(users, groups, books, WithRole(relations, sessionUser, g, Maintainer), nextId, sessionUser)
  {
    WithRoleKeeps(relations, sessionUser, g, Maintainer);
  }

  class GroupService {
    var users: map<UserId, User>
    var groups: map<GroupId, Group>
    var books: map<BookId, Book>
    var relations: Table
    var categories: BookRows
    var payees: BookRows
    var tags: BookRows
    var flows: BookRows
    /** The next id the database hands out; every id in use is below it. */
    var nextId: nat
    /** The session: who is signed in and which group they work in. */
    const sessionUser: UserId
    const sessionGroup: GroupId
    /** `Limitation.group_max_count`. */
    const groupMaxCount: nat
    /** The codes `currencyService.checkCode` accepts. */
    const currencies: set<string>
    /** The book templates of the application scope. */
    const templates: seq<BookTemplate>

    ghost predicate Valid()
      reads this
    {
      Consistent(users, groups, books, relations, nextId, sessionUser)
    }

    constructor (users0: map<UserId, User>, groups0: map<GroupId, Group>, books0: map<BookId, Book>,
                 relations0: Table, categories0: BookRows, payees0: BookRows, tags0: BookRows, flows0: BookRows,
                 nextId0: nat, sessionUser0: UserId, sessionGroup0: GroupId, groupMaxCount0: nat,
                 currencies0: set<string>, templates0: seq<BookTemplate>)
      ensures users == users0 && groups == groups0 && books == books0 && relations == relations0
      ensures categories == categories0 && payees == payees0 && tags == tags0 && flows == flows0
      ensures nextId == nextId0 && sessionUser == sessionUser0 && sessionGroup == sessionGroup0
      ensures groupMaxCount == groupMaxCount0 && currencies == currencies0 && templates == templates0
    {
      users, groups, books, relations := users0, groups0, books0, relations0;
      categories, payees, tags, flows := categories0, payees0, tags0, flows0;
      nextId, sessionUser, sessionGroup := nextId0, sessionUser0, sessionGroup0;
      groupMaxCount, currencies, templates := groupMaxCount0, currencies0, templates0;
    }

    /** The shared shape of `checkRole` and `checkInvite`: the signed-in
        user's row in `g` must exist and have role `role`. */
    function RoleCheck(g: GroupId, role: Role): (r: Option<Failure>)
      requires UniquePairs(relations)
      reads this
      ensures r.None? <==> Related(relations, sessionUser, g)
                           && forall other | HasRole(relations, sessionUser, g, other) :: other == role
      ensures r.Some? ==> r.value == Message(AuthKey)
    {
      RoleOfRow(relations, sessionUser, g, role);
      if HasRole(relations, sessionUser, g, role) then None else Some(Message(AuthKey))
    }

    /** `checkRole`: the signed-in user must own `g`. */
    function CheckRole(g: GroupId): (r: Option<Failure>)
      requires UniquePairs(relations)
      reads this
      ensures r.None? <==> HasRole(relations, sessionUser, g, Owner)
      ensures r.Some? ==> r.value == Message(AuthKey)
    {
      RoleOfRow(relations, sessionUser, g, Owner);
      RoleCheck(g, Owner)
    }

    /** `checkInvite`: the signed-in user must have a pending invitation
        to `g`. */
    function CheckInvite(g: GroupId): (r: Option<Failure>)
      requires UniquePairs(relations)
      reads this
      ensures r.None? <==> HasRole(relations, sessionUser, g, Invited)
      ensures r.Some? ==> r.value == Message(AuthKey)
    {
      RoleOfRow(relations, sessionUser, g, Invited);
      RoleCheck(g, Invited)
    }

    /** The checks of `add`, in the order it makes them. */
    function AddRefusal(form: AddForm): Option<Failure>
      reads this
    {
      if CountCreated(groups, sessionUser) >= groupMaxCount then Some(Message(MaxCountKey))
      else if form.currencyCode !in currencies then Some(UnknownCurrency)
      else if FindTemplate(templates, form.templateId).None? then Some(ItemNotFound)
      else None
    }

    /** `add`: create a group for the signed-in user, with a first book made
        from the chosen template as its default book, and make the user its
        owner. */
    method Add(form: AddForm) returns (r: Option<Failure>)
      requires Valid()
      modifies this
      ensures Valid()
      ensures old(AddRefusal(form)).Some? ==> r == old(AddRefusal(form)) && unchanged(this)
      ensures old(AddRefusal(form)).None? ==>
                var g, b, k := old(nextId), old(nextId) + 1, old(nextId) + 2;
                && r.None?
                && g !in old(groups) && b !in old(books) && k !in old(relations)
                && groups == old(groups)[g := Group(form.name, form.notes, form.currencyCode, sessionUser, b)]
                && books == old(books)[b := Book(FindTemplate(templates, form.templateId).value.name, g, true)]
                && relations == old(relations)[k := Relation(sessionUser, g, Owner)]
                && nextId == old(nextId) + 3
      ensures unchanged(this`users, this`categories, this`payees, this`tags, this`flows)
    {
      r := AddRefusal(form);
      if r.Some? {
        return;
      }
      var template := FindTemplate(templates, form.templateId).value;
      var g, b, k := nextId, nextId + 1, nextId + 2;
      var group := Group(form.name, form.notes, form.currencyCode, sessionUser, b);
      var book := Book(template.name, g, true);
      AddKeepsConsistent(users, groups, books, relations, nextId, sessionUser, group, book);
      groups := groups[g := group];
      books := books[b := book];
      relations := relations[k := Relation(sessionUser, g, Owner)];
      nextId := nextId + 3;
    }

    /** `baseService.getBookInGroup(id)`: a book of the group the signed-in
        user works in. */
    predicate BookInGroup(id: BookId)
      reads this
    {
      id in books && books[id].group == sessionGroup
    }

    /** The checks of `update`, in the order it makes them. */
    function UpdateRefusal(id: GroupId, form: UpdateForm): Option<Failure>
      requires UniquePairs(relations)
      reads this
    {
      if form.currencyCode !in currencies then Some(UnknownCurrency)
      else if id !in groups then Some(ItemNotFound)
      else if CheckRole(id).Some? then CheckRole(id)
      else if !BookInGroup(form.defaultBookId) then Some(ItemNotFound)
      else if !books[form.defaultBookId].enable then Some(ItemNotFound)
      else None
    }

    /** `update`: rename a group the signed-in user owns, change its
        currency, and make an enabled book of the current group its default
        book. */
    method Update(id: GroupId, form: UpdateForm) returns (r: Option<Failure>)
      requires Valid()
      modifies this
      ensures Valid()
      ensures old(UpdateRefusal(id, form)).Some? ==> r == old(UpdateRefusal(id, form)) && unchanged(this)
      ensures old(UpdateRefusal(id, form)).None? ==>
                && r.None? && id in old(groups)
                && groups == old(groups)[id := old(groups)[id].(name := form.name, notes := form.notes,
                                         currencyCode := form.currencyCode, defaultBook := form.defaultBookId)]
      ensures unchanged(this`users, this`books, this`relations, this`categories, this`payees, this`tags,
                        this`flows, this`nextId)
    {
      r := UpdateRefusal(id, form);
      if r.Some? {
        return;
      }
      groups := groups[id := groups[id].(name := form.name, notes := form.notes,
                                         currencyCode := form.currencyCode, defaultBook := form.defaultBookId)];
    }

    /** Lines 161-170: go through the group's books; any book with a
        balance flow fails the whole deletion, otherwise each book and its
        categories, payees and tags are deleted. */
    method DeleteBooks(id: GroupId) returns (r: Option<Failure>)
      modifies this`books, this`categories, this`payees, this`tags
      ensures r.Some? <==> exists b | b in BooksOf(old(books), id) :: b in flows.Values
      ensures r.Some? ==> r.value == Message(HasFlowKey)
      ensures r.Some? ==> unchanged(this)
      ensures r.None? ==> && books == old(books) - BooksOf(old(books), id)
                          && categories == WithoutBooks(old(categories), BooksOf(old(books), id))
                          && payees == WithoutBooks(old(payees), BooksOf(old(books), id))
                          && tags == WithoutBooks(old(tags), BooksOf(old(books), id))
    {
      var all := BooksOf(books, id);
      var todo := all;
      var bks, cats, pays, tgs := books, categories, payees, tags;
      WithoutNoBooks(cats);
      WithoutNoBooks(pays);
      WithoutNoBooks(tgs);
      while todo != {}
        invariant unchanged(this)
        invariant todo <= all
        invariant forall b | b in all - todo :: b !in flows.Values
        invariant bks == books - (all - todo)
        invariant cats == WithoutBooks(categories, all - todo)
        invariant pays == WithoutBooks(payees, all - todo)
        invariant tgs == WithoutBooks(tags, all - todo)
        decreases todo
      {
        var b :| b in todo;
        if b in flows.Values {
          return Some(Message(HasFlowKey));
        }
        WithoutOneMoreBook(categories, all - todo, b);
        WithoutOneMoreBook(payees, all - todo, b);
        WithoutOneMoreBook(tags, all - todo, b);
        cats := WithoutBooks(cats, {b});
        pays := WithoutBooks(pays, {b});
        tgs := WithoutBooks(tgs, {b});
        bks := bks - {b};
        assert all - (todo - {b}) == (all - todo) + {b};
        todo := todo - {b};
      }
      assert all - todo == all;
      books, categories, payees, tags := bks, cats, pays, tgs;
      r := None;
    }

    /** The checks `remove` makes before it looks at the books, in order. */
    function RemoveRefusal(id: GroupId): Option<Failure>
      requires UniquePairs(relations)
      reads this
    {
      if id !in groups then Some(ItemNotFound)
      else if CheckRole(id).Some? then CheckRole(id)
      else if id == sessionGroup then Some(Message(AuthKey))
      else if |OwnedGroups(relations, sessionUser, nextId)| <= 1 then Some(Message(DeleteSizeKey))
      else None
    }

    /** `remove`: delete a group the signed-in user owns, other than the
        one they are working in, as long as they own another group and none
        of its books has a balance flow: its books with their categories,
        payees and tags, all its member rows and the group go. */
    method Remove(id: GroupId) returns (r: Option<Failure>)
      requires Valid()
      modifies this
      ensures Valid()
      ensures old(RemoveRefusal(id)).Some? ==> r == old(RemoveRefusal(id)) && unchanged(this)
      ensures old(RemoveRefusal(id)).None? && (exists b | b in BooksOf(old(books), id) :: b in flows.Values)
              ==> r == Some(Message(HasFlowKey)) && unchanged(this)
      // Once every check passes and no book has a flow, the deletion happens.
      ensures old(RemoveRefusal(id)).None? && (forall b | b in BooksOf(old(books), id) :: b !in flows.Values)
              ==> r.None?
      ensures r.None? ==> && old(RemoveRefusal(id)).None?
                          && (forall b | b in BooksOf(old(books), id) :: b !in flows.Values)
                          && groups == old(groups) - {id}
                          && books == old(books) - BooksOf(old(books), id)
                          && categories == WithoutBooks(old(categories), BooksOf(old(books), id))
                          && payees == WithoutBooks(old(payees), BooksOf(old(books), id))
                          && tags == WithoutBooks(old(tags), BooksOf(old(books), id))
                          && relations == WithoutGroup(old(relations), id)
      // The signed-in user keeps at least one group they own, and no one
      // else loses a group they own.
      ensures r.None? ==> |OwnedGroups(relations, sessionUser, nextId)|
                          == |OwnedGroups(old(relations), sessionUser, nextId)| - 1 >= 1
      ensures r.None? ==> forall u | u != sessionUser :: OwnedGroups(relations, u, nextId) == OwnedGroups(old(relations), u, nextId)
      ensures unchanged(this`users, this`flows, this`nextId)
    {
      r := RemoveRefusal(id);
      if r.Some? {
        return;
      }
      r := DeleteBooks(id);
      if r.Some? {
        return;
      }
      RemoveOwnedGroup(relations, sessionUser, id, nextId);
      RemoveKeepsConsistent(users, groups, old(books), relations, nextId, sessionUser, id, BooksOf(old(books), id));
      relations := WithoutGroup(relations, id);
      groups := groups - {id};
    }

    /** The checks of `inviteUser`, in the order it makes them. */
    function InviteRefusal(id: GroupId, username: string): Option<Failure>
      requires UniquePairs(relations)
      reads this
    {
      var invitee := FindByUsername(users, username, nextId);
      if invitee.None? then Some(Message(NoSuchUserKey))
      else if id !in groups then Some(ItemNotFound)
      else if CheckRole(id).Some? then CheckRole(id)
      else if Related(relations, invitee.value, id) then Some(Message(HasRoleKey))
      else None
    }

    /** `inviteUser`: the owner of a group invites a user, by username, who
        has no row in it yet; the new row has role invited. */
    method InviteUser(id: GroupId, username: string) returns (r: Option<Failure>)
      requires Valid()
      modifies this
      ensures Valid()
      ensures old(InviteRefusal(id, username)).Some? ==> r == old(InviteRefusal(id, username)) && unchanged(this)
      ensures old(InviteRefusal(id, username)).None? ==>
                var invitee := old(FindByUsername(users, username, nextId)).value;
                && r.None?
                && old(nextId) !in old(relations)
                && relations == old(relations)[old(nextId) := Relation(invitee, id, Invited)]
                && nextId == old(nextId) + 1
      ensures unchanged(this`users, this`groups, this`books, this`categories, this`payees, this`tags, this`flows)
    {
      r := InviteRefusal(id, username);
      if r.Some? {
        return;
      }
      var invitee := FindByUsername(users, username, nextId).value;
      InviteKeepsConsistent(users, groups, books, relations, nextId, sessionUser, invitee, id);
      relations := relations[nextId := Relation(invitee, id, Invited)];
      nextId := nextId + 1;
    }

    /** The checks of `removeUser`, in the order it makes them: the last
        one is `relations.get(0)` on a member who owns no group. */
    function RemoveUserRefusal(groupId: GroupId, userId: UserId): Option<Failure>
      requires UniquePairs(relations)
      reads this
    {
      if groupId !in groups then Some(ItemNotFound)
      else if CheckRole(groupId).Some? then CheckRole(groupId)
      else if userId !in users then Some(ItemNotFound)
      else if !Related(relations, userId, groupId) then Some(ItemNotFound)
      else if HasRole(relations, userId, groupId, Owner) then Some(Message(RemoveSelfKey))
      else if groupId == users[userId].defaultGroup && OwnedGroups(relations, userId, nextId) == [] then
        Some(IndexOutOfBounds)
      else None
    }

    /** `relations.get(0).getGroup()` after `findByUserAndRole(user, 1)`:
        the group `u` has owned the longest. */
    function FirstOwnedGroup(u: UserId): (g: GroupId)
      requires Valid() && OwnedGroups(relations, u, nextId) != []
      reads this
      ensures g == OwnedGroups(relations, u, nextId)[0]
      ensures g in groups && HasRole(relations, u, g, Owner)
    {
      var g := OwnedGroups(relations, u, nextId)[0];
      OwnedGroupsListed(relations, u, nextId, g);
      g
    }

    /** Lines 200-208: a member whose default group is `groupId` gets the
        first group they own, and its default book, as defaults. */
    method MoveDefault(groupId: GroupId, userId: UserId)
      requires Valid() && userId in users
      requires groupId == users[userId].defaultGroup ==> OwnedGroups(relations, userId, nextId) != []
      modifies this`users
      ensures users.Keys == old(users).Keys
      ensures old(users)[userId].defaultGroup != groupId ==> users == old(users)
      ensures old(users)[userId].defaultGroup == groupId ==>
                users == old(users)[userId := old(users)[userId].(defaultGroup := old(FirstOwnedGroup(userId)),
                                                defaultBook := groups[old(FirstOwnedGroup(userId))].defaultBook)]
    {
      var user := users[userId];
      if groupId == user.defaultGroup {
        var first := FirstOwnedGroup(userId);
        users := users[userId := user.(defaultGroup := first, defaultBook := groups[first].defaultBook)];
      }
    }

    /** `removeUser`: the owner of a group removes another member. A member
        whose default group it was gets, as default group, the first group
        they own (and its default book) instead; that group is never the
        one they are removed from. */
    method RemoveUser(groupId: GroupId, userId: UserId) returns (r: Option<Failure>)
      requires Valid()
      modifies this
      ensures Valid()
      ensures old(RemoveUserRefusal(groupId, userId)).Some? ==> r == old(RemoveUserRefusal(groupId, userId)) && unchanged(this)
      ensures old(RemoveUserRefusal(groupId, userId)).None? ==>
                && r.None?
                && relations == WithoutPair(old(relations), userId, groupId)
                && (old(users)[userId].defaultGroup != groupId ==> users == old(users))
      ensures old(RemoveUserRefusal(groupId, userId)).None? && old(users)[userId].defaultGroup == groupId ==>
                var first := old(FirstOwnedGroup(userId));
                && first != groupId
                && users == old(users)[userId := old(users)[userId].(defaultGroup := first,
                                                                    defaultBook := old(groups)[first].defaultBook)]
      ensures unchanged(this`groups, this`books, this`categories, this`payees, this`tags, this`flows, this`nextId)
    {
      r := RemoveUserRefusal(groupId, userId);
      if r.Some? {
        return;
      }
      ghost var users0 := users;
      MoveDefault(groupId, userId);
      DropRowKeepsConsistent(users0, users, groups, books, relations, nextId, sessionUser, userId, groupId);
      relations := WithoutPair(relations, userId, groupId);
    }

    /** The checks of `agreeInvite` and `rejectInvite`, in order. */
    function InviteeRefusal(id: GroupId): Option<Failure>
      requires UniquePairs(relations)
      reads this
    {
      if id !in groups then Some(ItemNotFound) else CheckInvite(id)
    }

    /** `agreeInvite`: the signed-in user accepts a pending invitation;
        exactly that row's role becomes maintainer. */
    method AgreeInvite(id: GroupId) returns (r: Option<Failure>)
      requires Valid()
      modifies this
      ensures Valid()
      ensures old(InviteeRefusal(id)).Some? ==> r == old(InviteeRefusal(id)) && unchanged(this)
      ensures old(InviteeRefusal(id)).None? ==> r.None? && relations == WithRole(old(relations), sessionUser, id, Maintainer)
      ensures unchanged(this`users, this`groups, this`books, this`categories, this`payees, this`tags,
                        this`flows, this`nextId)
    {
      r := InviteeRefusal(id);
      if r.Some? {
        return;
      }
      assert !HasRole(relations, sessionUser, id, Owner) by {
        if HasRole(relations, sessionUser, id, Owner) {
          RoleDetermined(relations, sessionUser, id, Owner, Invited);
        }
      }
      AgreeKeepsConsistent(users, groups, books, relations, nextId, sessionUser, id);
      relations := WithRole(relations, sessionUser, id, Maintainer);
    }

    /** `rejectInvite`: the signed-in user declines a pending invitation;
        exactly that row is deleted. */
    method RejectInvite(id: GroupId) returns (r: Option<Failure>)
      requires Valid()
      modifies this
      ensures Valid()
      ensures old(InviteeRefusal(id)).Some? ==> r == old(InviteeRefusal(id)) && unchanged(this)
      ensures old(InviteeRefusal(id)).None? ==> r.None? && relations == WithoutPair(old(relations), sessionUser, id)
      ensures unchanged(this`users, this`groups, this`books, this`categories, this`payees, this`tags,
                        this`flows, this`nextId)
    {
      r := InviteeRefusal(id);
      if r.Some? {
        return;
      }
      DropRowKeepsConsistent(users, users, groups, books, relations, nextId, sessionUser, sessionUser, id);
      relations := WithoutPair(relations, sessionUser, id);
    }

    /** `getUsers`: for a group the signed-in user owns, one entry per row
        of the group, in id order, naming the member and the row's role. */
    method GetUsers(id: GroupId) returns (r: Result<seq<GroupUser>, Failure>)
      requires Valid()
      ensures id !in groups ==> r == Err(ItemNotFound)
      ensures id in groups && !HasRole(relations, sessionUser, id, Owner) ==> r == Err(Message(AuthKey))
      ensures r.Ok? <==> id in groups && HasRole(relations, sessionUser, id, Owner)
      ensures r.Ok? ==> var rows := MemberRows(relations, id, nextId);
                        && |r.value| == |rows|
                        && forall i | 0 <= i < |rows| ::
                             var rel := relations[rows[i]];
                             r.value[i] == GroupUser(rel.user, users[rel.user].username, users[rel.user].nickName,
                                                     rel.role.Code())
    {
      if id !in groups {
        return Err(ItemNotFound);
      }
      var denied := CheckRole(id);
      if denied.Some? {
        return Err(denied.value);
      }
      var list: seq<GroupUser> := [];
      for n := 0 to nextId
        invariant |list| == |MemberRows(relations, id, n)|
        invariant forall i | 0 <= i < |list| ::
                    var rel := relations[MemberRows(relations, id, n)[i]];
                    list[i] == GroupUser(rel.user, users[rel.user].username, users[rel.user].nickName, rel.role.Code())
      {
        if n in relations && relations[n].group == id {
          var rel := relations[n];
          list := list + [GroupUser(rel.user, users[rel.user].username, users[rel.user].nickName, rel.role.Code())];
        }
      }
      r := Ok(list);
    }
  }

  /** Deleting by no book deletes nothing. */
  lemma WithoutNoBooks(rows: BookRows)
    ensures WithoutBooks(rows, {}) == rows
  {
  }
}
