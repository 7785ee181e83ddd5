/**
 The user registry of `RideDataHandler`: lookup by alias and registration,
 which refuses an alias that is already taken.
 */
module Registry {
  import opened Options
  import opened Seqs
  import opened Domain

  /** Position of the first user with this alias. */
  function UserIndex(users: seq<User>, alias: string): Option<nat>
  {
    FirstIndex(users, (u: User) => u.alias == alias)
  }

  /** `get_usuario`: the first registered user with this alias, if any. */
  function GetUser(users: seq<User>, alias: string): (r: Option<User>)
    ensures r.Some? ==> r.value.alias == alias && r.value in users
    ensures r.None? <==> forall i :: 0 <= i < |users| ==> users[i].alias != alias
  {
    match UserIndex(users, alias)
    case None => None
    case Some(i) => Some(users[i])
  }

  /** No two registered users share an alias. */
  predicate AliasesUnique(users: seq<User>)
  {
    forall i, j :: 0 <= i < j < |users| ==> users[i].alias != users[j].alias
  }

  /** With unique aliases, lookup finds exactly the registered user with that alias. */
  lemma GetUserExact(users: seq<User>, u: User)
    requires AliasesUnique(users)
    ensures GetUser(users, u.alias) == Some(u) <==> u in users
  {
    if u in users {
      var k :| 0 <= k < |users| && users[k] == u;
      FirstIndexIs(users, (v: User) => v.alias == u.alias, k);
    }
  }

  /** Registering leaves every earlier lookup as it was. */
  lemma GetUserAfterAppend(users: seq<User>, u: User, alias: string)
    ensures GetUser(users, alias).Some? ==> GetUser(users + [u], alias) == GetUser(users, alias)
    ensures GetUser(users, alias).None? && u.alias == alias ==> GetUser(users + [u], alias) == Some(u)
    ensures GetUser(users, alias).None? && u.alias != alias ==> GetUser(users + [u], alias).None?
  {
    FirstIndexAppend(users, u, (v: User) => v.alias == alias);
  }

  /**
   `crear_usuario` (and its duplicate `crear_usuarioD`): false and no change
   when the alias is taken; otherwise the new user is appended and true.
   */
  function CreateUser(s: Store, alias: string, name: string, carPlate: Option<string>): (r: Reply<bool>)
    ensures r.value <==> GetUser(s.users, alias).None?
    ensures !r.value ==> r.store == s
    ensures r.value ==> r.store.rides == s.rides
    ensures r.value ==> |r.store.users| == |s.users| + 1 && r.store.users[..|s.users|] == s.users
    ensures r.value ==> GetUser(r.store.users, alias) == Some(User(alias, name, carPlate))
    ensures AliasesUnique(s.users) ==> AliasesUnique(r.store.users)
  {
    if GetUser(s.users, alias).Some? then
      Reply(s, false)
    else
      var u := User(alias, name, carPlate);
      GetUserAfterAppend(s.users, u, alias);
      assert (s.users + [u])[..|s.users|] == s.users;
      Reply(s.(users := s.users + [u]), true)
  }

  /** Registering the same alias twice: the second attempt fails and changes nothing. */
  lemma CreateUserTwice(s: Store, alias: string, name: string, carPlate: Option<string>,
                        name': string, carPlate': Option<string>)
    ensures var r := CreateUser(s, alias, name, carPlate);
            var r' := CreateUser(r.store, alias, name', carPlate');
            !r'.value && r'.store == r.store
  {
  }
}
