/**
 * The cached user repository: queries over the cached users, authentication
 * against a password hash, saving a user (a new one first obtains its id), and
 * removing a user together with every per-user entry of the group filters.
 * The cache is kept as the sequence of its values in enumeration order; the
 * group-filter repository as a sequence of filters; writes to other repositories
 * and calls into services are recorded, in order, in an effect log.
 */
module UserRepository {
  import opened Wrappers
  import opened Text

  /** A user record; the three flags are stored as integers, 1 meaning set. */
  datatype User = User(id: int, username: string, password: string, isAdmin: int, isAniDBUser: int, isTraktUser: int)

  /** A group filter's per-user caches: user id to the ids of the groups and of the series it lets through. */
  datatype GroupFilter = GroupFilter(id: int, groupsIds: map<int, set<int>>, seriesIds: map<int, set<int>>)

  /** A write to another repository or a call into a service. */
  datatype RepoEffect =
    | SavedUser(userID: int)
    | SavedFilters(filters: seq<GroupFilter>)
    | DeletedUserRecords(userID: int)
    | UpdatedGroupFilters(userID: int)

  /** An administrator has the admin flag set to 1. */
  predicate IsAdminUser(u: User) {
    u.isAdmin == 1
  }

  /** The ids of a list of users, as a set. */
  function UserIds(users: seq<User>): set<int> {
    if |users| == 0 then {} else UserIds(users[..|users| - 1]) + {users[|users| - 1].id}
  }

  /** The cache holds each user once, under a positive id. */
  predicate Keyed(users: seq<User>) {
    && (forall i :: 0 <= i < |users| ==> users[i].id > 0)
    && (forall i, j :: 0 <= i < j < |users| ==> users[i].id != users[j].id)
  }

  /** The users satisfying a condition, in cache order. */
  function Where(users: seq<User>, p: User -> bool): (r: seq<User>)
    ensures |r| <= |users|
    ensures forall u :: u in r <==> u in users && p(u)
  {
    if |users| == 0 then []
    else Where(users[..|users| - 1], p) + (if p(users[|users| - 1]) then [users[|users| - 1]] else [])
  }

  /** The first user satisfying a condition, if any. */
  function FirstOrDefault(users: seq<User>, p: User -> bool): (r: Option<User>)
    ensures r.Some? ==> r.value in users && p(r.value)
    ensures r.None? <==> forall u :: u in users ==> !p(u)
  {
    if |users| == 0 then None else if p(users[0]) then Some(users[0]) else FirstOrDefault(users[1..], p)
  }

  /** The user stored under `id`, if any. */
  function FindById(users: seq<User>, id: int): Option<User> {
    FirstOrDefault(users, (u: User) => u.id == id)
  }

  /** The cache without the user stored under `id`. */
  function RemoveById(users: seq<User>, id: int): seq<User> {
    Where(users, (u: User) => u.id != id)
  }

  /** The cache after saving `u`: its record is replaced in place, or appended when it is new. */
  function Upsert(users: seq<User>, u: User): seq<User> {
    if |users| == 0 then [u]
    else if users[0].id == u.id then [u] + users[1..]
    else [users[0]] + Upsert(users[1..], u)
  }

  /** The filter with the user's entries removed from both per-user caches. */
  function Strip(f: GroupFilter, userID: int): (r: GroupFilter)
    ensures userID !in r.groupsIds && userID !in r.seriesIds
  {
    f.(groupsIds := f.groupsIds - {userID}, seriesIds := f.seriesIds - {userID})
  }

  /** Whether the filter holds an entry for the user. */
  predicate HasEntry(f: GroupFilter, userID: int) {
    userID in f.groupsIds || userID in f.seriesIds
  }

  /** Every filter with the user's entries removed. */
  function StripAll(fs: seq<GroupFilter>, userID: int): (r: seq<GroupFilter>)
    ensures |r| == |fs|
  {
    seq(|fs|, i requires 0 <= i < |fs| => Strip(fs[i], userID))
  }

  /** The filters that held an entry for the user, stripped of it, in order: those to save. */
  function ChangedFilters(fs: seq<GroupFilter>, userID: int): seq<GroupFilter> {
    if |fs| == 0 then []
    else
      ChangedFilters(fs[..|fs| - 1], userID)
      + (if HasEntry(fs[|fs| - 1], userID) then [Strip(fs[|fs| - 1], userID)] else [])
  }

  /** Whether an administrator other than the user with id `userID` remains. */
  predicate OtherAdminExists(users: seq<User>, userID: int) {
    exists u :: u in users && IsAdminUser(u) && u.id != userID
  }

  class JMMUserRepository {
    /** The cached users, in enumeration order. */
    var users: seq<User>
    /** The group-filter repository. */
    var filters: seq<GroupFilter>
    /** Writes to other repositories and calls into services, in order. */
    var effects: seq<RepoEffect>

    predicate Valid()
      reads this
    {
      Keyed(users)
    }

    constructor (users: seq<User>, filters: seq<GroupFilter>)
      requires Keyed(users)
      ensures Valid()
      ensures this.users == users && this.filters == filters && effects == []
    {
      this.users := users;
      this.filters := filters;
      effects := [];
    }

    /** The first cached user whose name equals `username`, ignoring case. */
    function GetByUsername(username: string): (r: Option<User>)
      reads this
      ensures r.Some? ==> r.value in users && EqualsIgnoreCase(r.value.username, username)
      ensures r.None? <==> forall u :: u in users ==> !EqualsIgnoreCase(u.username, username)
    {
      FirstOrDefault(users, (u: User) => EqualsIgnoreCase(u.username, username))
    }

    /** The cached users whose AniDB flag is 1, in cache order. */
    function GetAniDBUsers(): (r: seq<User>)
      reads this
      ensures forall u :: u in r <==> u in users && u.isAniDBUser == 1
    {
      Where(users, (u: User) => u.isAniDBUser == 1)
    }

    /** The cached users whose Trakt flag is 1, in cache order. */
    function GetTraktUsers(): (r: seq<User>)
      reads this
      ensures forall u :: u in r <==> u in users && u.isTraktUser == 1
    {
      Where(users, (u: User) => u.isTraktUser == 1)
    }

    /**
     * The first cached user whose name equals `userName` ignoring case and whose
     * stored password equals the hash of `password`; a missing password is hashed
     * as the empty string. `hash` stands for the password digest.
     */
    function AuthenticateUser(userName: string, password: Option<string>, hash: string -> string): (r: Option<User>)
      reads this
      ensures r.Some? ==> r.value in users && EqualsIgnoreCase(r.value.username, userName)
                          && r.value.password == hash(password.GetOr(""))
      ensures r.None? <==> forall u :: u in users ==>
        !(EqualsIgnoreCase(u.username, userName) && u.password == hash(password.GetOr("")))
    {
      var hashedPassword := hash(if password.None? then "" else password.value);
      FirstOrDefault(users, (u: User) => EqualsIgnoreCase(u.username, userName) && u.password == hashedPassword)
    }

    /** The number of cache keys. */
    function GetTotalRecordCount(): (r: int)
      reads this
      requires Valid()
      ensures r == |UserIds(users)|
    {
      KeyedCount(users);
      |users|
    }

    /**
     * Removes a user. Unless `skipValidation`, refuses (returning false and changing
     * nothing) when no administrator other than this user would remain. Otherwise
     * strips the user's entries from every group filter and saves the filters that
     * had one, deletes the user's per-user records, removes the user from the cache
     * and returns true.
     */
    method RemoveUser(userID: int, skipValidation: bool) returns (removed: bool)
      requires Valid()
      modifies this
      ensures Valid()
      ensures removed <==> skipValidation || OtherAdminExists(old(users), userID)
      ensures !removed ==> unchanged(this)
      ensures removed ==>
        && users == RemoveById(old(users), userID)
        && filters == StripAll(old(filters), userID)
        && effects == old(effects) + [SavedFilters(ChangedFilters(old(filters), userID)), DeletedUserRecords(userID)]
    {
      if !skipValidation {
        var otherAdmins := Where(users, (u: User) => IsAdminUser(u) && u.id != userID);
        if |otherAdmins| < 1 {
          assert otherAdmins == [];
          return false;
        }
        assert otherAdmins[0] in otherAdmins;
      }
      var toSave := StripFilters(userID);
      effects := effects + [SavedFilters(toSave), DeletedUserRecords(userID)];
      RemoveKeepsKeyed(users, userID);
      users := RemoveById(users, userID);
      removed := true;
    }

    /** Strips the user's entries from every filter in place; returns the filters that had one, stripped. */
    method StripFilters(userID: int) returns (toSave: seq<GroupFilter>)
      modifies this
      ensures users == old(users) && effects == old(effects)
      ensures filters == StripAll(old(filters), userID)
      ensures toSave == ChangedFilters(old(filters), userID)
    {
      var i := 0;
      toSave := [];
      while i < |filters|
        invariant 0 <= i <= |filters| == |old(filters)|
        invariant users == old(users) && effects == old(effects)
        invariant filters[..i] == StripAll(old(filters)[..i], userID)
        invariant filters[i..] == old(filters)[i..]
        invariant toSave == ChangedFilters(old(filters)[..i], userID)
      {
        var f := filters[i];
        assert f == old(filters)[i];
        assert old(filters)[..i + 1][..i] == old(filters)[..i];
        var changed := false;
        if userID in f.groupsIds {
          f := f.(groupsIds := f.groupsIds - {userID});
          changed := true;
        }
        if userID in f.seriesIds {
          f := f.(seriesIds := f.seriesIds - {userID});
          changed := true;
        }
        assert f == Strip(old(filters)[i], userID);
        filters := filters[i := f];
        if changed {
          toSave := toSave + [f];
        }
        i := i + 1;
      }
      assert old(filters)[..i] == old(filters);
      assert filters == filters[..i];
    }

    /**
     * `Save(obj, updateGroupFilters)`: a new user (id 0) is saved first, which gives
     * it the id `assignedID`. When asked to, compares the stored record (none for a
     * new user) with the user being saved, using `compareUser`, then saves the user
     * and refreshes the group filters only if the comparison reported a change.
     */
    method Save(u: User, updateGroupFilters: bool, assignedID: int, compareUser: (Option<User>, User) -> bool)
      returns (saved: User)
      requires Valid()
      requires u.id != 0 ==> u.id > 0
      requires u.id == 0 ==> assignedID > 0 && assignedID !in UserIds(users)
      modifies this
      ensures Valid()
      ensures saved == (if u.id == 0 then u.(id := assignedID) else u)
      ensures users == Upsert(old(users), saved)
      ensures filters == old(filters)
      ensures
        var refresh := updateGroupFilters && compareUser(if u.id == 0 then None else FindById(old(users), u.id), saved);
        effects == old(effects) + (if u.id == 0 then [SavedUser(saved.id)] else []) + [SavedUser(saved.id)]
                   + (if refresh then [UpdatedGroupFilters(saved.id)] else [])
    {
      saved := u;
      var isNew := false;
      if u.id == 0 {
        isNew := true;
        saved := u.(id := assignedID);
        UpsertKeyed(users, saved);
        users := Upsert(users, saved);
        effects := effects + [SavedUser(saved.id)];
      }
      assert users == (if isNew then Upsert(old(users), saved) else old(users));
      var refresh := updateGroupFilters;
      if refresh {
        var stored := if isNew then None else FindById(users, saved.id);
        refresh := compareUser(stored, saved);
      }
      UpsertKeyed(users, saved);
      UpsertTwice(old(users), saved);
      users := Upsert(users, saved);
      effects := effects + [SavedUser(saved.id)];
      if refresh {
        effects := effects + [UpdatedGroupFilters(saved.id)];
      }
    }

    /** `Save(obj)`: saves and refreshes the group filters when the comparison reports a change. */
    method SaveAndRefresh(u: User, assignedID: int, compareUser: (Option<User>, User) -> bool) returns (saved: User)
      requires Valid()
      requires u.id != 0 ==> u.id > 0
      requires u.id == 0 ==> assignedID > 0 && assignedID !in UserIds(users)
      modifies this
      ensures Valid()
      ensures saved == (if u.id == 0 then u.(id := assignedID) else u)
      ensures users == Upsert(old(users), saved) && filters == old(filters)
      ensures
        var refresh := compareUser(if u.id == 0 then None else FindById(old(users), u.id), saved);
        effects == old(effects) + (if u.id == 0 then [SavedUser(saved.id)] else []) + [SavedUser(saved.id)]
                   + (if refresh then [UpdatedGroupFilters(saved.id)] else [])
    {
      saved := Save(u, true, assignedID, compareUser);
    }
  }

  // ---------------------------------------------------------------------------
  // Properties
  // ---------------------------------------------------------------------------

  /** The set of ids holds exactly the ids of the listed users. */
  lemma {:induction false} UserIdsMembers(users: seq<User>)
    ensures forall id :: id in UserIds(users) <==> exists i :: 0 <= i < |users| && users[i].id == id
  {
    if |users| > 0 {
      var prefix := users[..|users| - 1];
      UserIdsMembers(prefix);
      forall id | id in UserIds(users) ensures exists i :: 0 <= i < |users| && users[i].id == id {
        if id in UserIds(prefix) {
          var i :| 0 <= i < |prefix| && prefix[i].id == id;
          assert users[i].id == id;
        } else {
          assert users[|users| - 1].id == id;
        }
      }
      forall id | exists i :: 0 <= i < |users| && users[i].id == id ensures id in UserIds(users) {
        var i :| 0 <= i < |users| && users[i].id == id;
        if i < |users| - 1 {
          assert prefix[i].id == id;
        }
      }
    }
  }

  /** In a keyed cache there are as many keys as users. */
  lemma {:induction false} KeyedCount(users: seq<User>)
    requires Keyed(users)
    ensures |UserIds(users)| == |users|
  {
    if |users| > 0 {
      var prefix := users[..|users| - 1];
      var last := users[|users| - 1];
      assert Keyed(prefix);
      KeyedCount(prefix);
      UserIdsMembers(prefix);
      assert last.id !in UserIds(prefix) by {
        forall i | 0 <= i < |prefix| ensures prefix[i].id != last.id {
          assert users[i] == prefix[i];
        }
      }
    }
  }

  /** Removal takes out exactly the user stored under the id and keeps the others in order. */
  lemma RemoveByIdSpec(users: seq<User>, id: int)
    ensures forall u :: u in RemoveById(users, id) <==> u in users && u.id != id
    ensures forall i :: 0 <= i < |RemoveById(users, id)| ==> RemoveById(users, id)[i].id != id
  {
  }

  /** Removing a user keeps the cache keyed. */
  lemma {:induction false} RemoveKeepsKeyed(users: seq<User>, id: int)
    requires Keyed(users)
    ensures Keyed(RemoveById(users, id))
  {
    if |users| > 0 {
      var prefix := users[..|users| - 1];
      var last := users[|users| - 1];
      assert Keyed(prefix);
      RemoveKeepsKeyed(prefix, id);
      var r := RemoveById(prefix, id);
      if last.id != id {
        forall i | 0 <= i < |r| ensures r[i].id != last.id {
          assert r[i] in r;
          var j :| 0 <= j < |prefix| && prefix[j] == r[i];
          assert users[j] == r[i];
        }
      }
    }
  }

  /** Saving a user with a positive id keeps the cache keyed. */
  lemma {:induction false} UpsertKeyed(users: seq<User>, u: User)
    requires Keyed(users) && u.id > 0
    ensures Keyed(Upsert(users, u))
    ensures forall v :: v in Upsert(users, u) ==> v == u || v in users
  {
    if |users| > 0 && users[0].id != u.id {
      var tail := users[1..];
      assert Keyed(tail);
      UpsertKeyed(tail, u);
      var rest := Upsert(tail, u);
      assert Upsert(users, u) == [users[0]] + rest;
      forall i | 0 <= i < |rest| ensures rest[i].id != users[0].id {
        assert rest[i] in rest;
        if rest[i] != u {
          var j :| 0 <= j < |tail| && tail[j] == rest[i];
          assert users[j + 1] == rest[i];
        }
      }
    } else if |users| > 0 {
      assert Upsert(users, u) == [u] + users[1..];
    }
  }

  /** After saving, looking the user's id up finds the saved record. */
  lemma {:induction false} UpsertFind(users: seq<User>, u: User)
    ensures FindById(Upsert(users, u), u.id) == Some(u)
  {
    if |users| > 0 && users[0].id != u.id {
      UpsertFind(users[1..], u);
      assert Upsert(users, u)[1..] == Upsert(users[1..], u);
    }
  }

  /** Saving changes no record stored under another id. */
  lemma {:induction false} UpsertOthers(users: seq<User>, u: User)
    ensures forall v: User :: v.id != u.id ==> (v in Upsert(users, u) <==> v in users)
  {
    if |users| > 0 {
      UpsertOthers(users[1..], u);
      assert users == [users[0]] + users[1..];
    }
  }

  /** Saving the same user twice leaves the cache as saving it once. */
  lemma {:induction false} UpsertTwice(users: seq<User>, u: User)
    ensures Upsert(Upsert(users, u), u) == Upsert(users, u)
  {
    if |users| > 0 && users[0].id != u.id {
      UpsertTwice(users[1..], u);
      assert ([users[0]] + Upsert(users[1..], u))[1..] == Upsert(users[1..], u);
    } else if |users| > 0 {
      assert ([u] + users[1..])[1..] == users[1..];
    }
  }

  /** After stripping, no filter holds an entry for the user, and every other user's entries are exactly as before. */
  lemma StripAllSpec(fs: seq<GroupFilter>, userID: int)
    ensures forall i :: 0 <= i < |fs| ==> !HasEntry(StripAll(fs, userID)[i], userID)
    ensures forall i, k :: 0 <= i < |fs| && k != userID ==>
      (k in StripAll(fs, userID)[i].groupsIds <==> k in fs[i].groupsIds)
      && (k in fs[i].groupsIds ==> StripAll(fs, userID)[i].groupsIds[k] == fs[i].groupsIds[k])
      && (k in StripAll(fs, userID)[i].seriesIds <==> k in fs[i].seriesIds)
      && (k in fs[i].seriesIds ==> StripAll(fs, userID)[i].seriesIds[k] == fs[i].seriesIds[k])
    ensures forall i :: 0 <= i < |fs| ==> StripAll(fs, userID)[i].id == fs[i].id
  {
  }

  /** The filters saved are exactly those that held an entry for the user, stripped of it, in order. */
  lemma {:induction false} ChangedFiltersExact(fs: seq<GroupFilter>, userID: int)
    ensures forall i :: 0 <= i < |fs| && HasEntry(fs[i], userID) ==> Strip(fs[i], userID) in ChangedFilters(fs, userID)
    ensures forall f :: f in ChangedFilters(fs, userID) ==>
      exists i :: 0 <= i < |fs| && HasEntry(fs[i], userID) && f == Strip(fs[i], userID)
    ensures |ChangedFilters(fs, userID)| <= |fs|
  {
    if |fs| > 0 {
      var prefix := fs[..|fs| - 1];
      ChangedFiltersExact(prefix, userID);
      forall f | f in ChangedFilters(prefix, userID)
        ensures exists i :: 0 <= i < |fs| && HasEntry(fs[i], userID) && f == Strip(fs[i], userID)
      {
        var i :| 0 <= i < |prefix| && HasEntry(prefix[i], userID) && f == Strip(prefix[i], userID);
        assert fs[i] == prefix[i];
      }
      forall i | 0 <= i < |fs| - 1 && HasEntry(fs[i], userID)
        ensures Strip(fs[i], userID) in ChangedFilters(fs, userID)
      {
        assert fs[i] == prefix[i];
      }
    }
  }

  /** A filter without an entry for the user is left out of the save, whatever else it holds. */
  lemma {:induction false} NoEntryNotSaved(fs: seq<GroupFilter>, userID: int)
    requires forall i :: 0 <= i < |fs| ==> !HasEntry(fs[i], userID)
    ensures ChangedFilters(fs, userID) == []
  {
    if |fs| > 0 {
      NoEntryNotSaved(fs[..|fs| - 1], userID);
    }
  }

  /**
   * The guard keeps the server administrable: when the removal it lets through is
   * validated, an administrator remains in the cache afterwards; and a cache
   * whose only administrator is the user fails the guard.
   */
  lemma RemovalKeepsAnAdmin(users: seq<User>, userID: int)
    ensures OtherAdminExists(users, userID) ==> exists u :: u in RemoveById(users, userID) && IsAdminUser(u)
    ensures (forall u :: u in users && IsAdminUser(u) ==> u.id == userID) ==> !OtherAdminExists(users, userID)
  {
    if OtherAdminExists(users, userID) {
      var w :| w in users && IsAdminUser(w) && w.id != userID;
      RemoveByIdSpec(users, userID);
      assert w in RemoveById(users, userID);
    }
  }

  /** The name comparison ignores case, so a query differing only in case finds the same user. */
  lemma UsernameCaseInsensitive(users: seq<User>, a: string, b: string)
    requires ToLower(a) == ToLower(b)
    ensures FirstOrDefault(users, (u: User) => EqualsIgnoreCase(u.username, a))
         == FirstOrDefault(users, (u: User) => EqualsIgnoreCase(u.username, b))
  {
    var p := (u: User) => EqualsIgnoreCase(u.username, a);
    var q := (u: User) => EqualsIgnoreCase(u.username, b);
    assert forall u :: p(u) == q(u);
    FirstOrDefaultExtensional(users, p, q);
  }

  /** Two conditions that agree on every user pick the same first user. */
  lemma {:induction false} FirstOrDefaultExtensional(users: seq<User>, p: User -> bool, q: User -> bool)
    requires forall u :: p(u) == q(u)
    ensures FirstOrDefault(users, p) == FirstOrDefault(users, q)
  {
    if |users| > 0 {
      FirstOrDefaultExtensional(users[1..], p, q);
    }
  }
}
