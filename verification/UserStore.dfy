/** Users and their settings, read through a cache and written through to it. */
module UserStore {
  import opened Wrappers
  import opened Strings
  import C = Cache

  type ID = i: int | -0x8000_0000 <= i <= 0x7fff_ffff

  // ----- Users

  datatype User = User(id: ID, fields: map<string, string>)

  const SYSTEM_BOT_ID: ID := 0
  const SYSTEM_BOT :=
      User(SYSTEM_BOT_ID, map["username" := "system_bot", "role" := "ADMIN", "email" := "", "nickname" := "Bot"])

  /** IDs that are no character of their own: converting one to a string gives the replacement character. */
  predicate IsReplaced(id: ID)
  {
    id < 0 || 0xD800 <= id < 0xE000 || id > 0x10FFFF || id == 0xFFFD
  }

  /** An ID is cached under the text of the character it numbers. */
  function UserKey(id: ID): string
  {
    if id < 0 || 0xD800 <= id < 0xE000 || id > 0x10FFFF then "\U{FFFD}" else [id as char]
  }

  /** Two IDs share a key exactly when they are equal or both replaced. */
  lemma UserKeysCollide(a: ID, b: ID)
    ensures UserKey(a) == UserKey(b) <==> a == b || (IsReplaced(a) && IsReplaced(b))
  {
    assert UserKey(a) == UserKey(b) <==> UserKey(a)[0] == UserKey(b)[0];
  }

  /** Every cached user is the stored one, under its own key. */
  ghost predicate UsersCoherent(data: map<string, C.Item<User>>, users: map<ID, User>)
  {
    && (forall id :: id in users ==> users[id].id == id)
    && forall k :: k in data ==>
         var u := data[k].value; k == UserKey(u.id) && u.id in users && users[u.id] == u
  }

  datatype FindUser = FindUser(id: Option<ID>, others: User -> bool)

  predicate Wanted(find: FindUser, u: User) { (find.id.Some? ==> u.id == find.id.value) && find.others(u) }

  /** What the driver may answer: the wanted users, in any order. */
  ghost predicate IsAnswer(list: seq<User>, users: map<ID, User>, find: FindUser)
  {
    && (forall i :: 0 <= i < |list| ==> list[i].id in users && users[list[i].id] == list[i] && Wanted(find, list[i]))
    && (forall id :: id in users && Wanted(find, users[id]) ==> users[id] in list)
  }

  datatype DriverError = DriverError

  class Users {
    const cache: C.Cache<User>
    /** The database. */
    var users: map<ID, User>

    constructor (maxItems: int, ttl: int, users: map<ID, User>)
      requires forall id :: id in users ==> users[id].id == id
      ensures Valid() && fresh(cache) && this.users == users
      ensures cache.data == map[] && cache.maxItems == maxItems && cache.defaultTTL == ttl
    {
      var c := new C.Cache(maxItems, ttl);
      cache, this.users := c, users;
    }

    ghost predicate Valid()
      reads this, cache
    {
      cache.Valid() && UsersCoherent(cache.data, users)
    }

    /** Caching a stored user keeps the cache coherent. */
    method Remember(u: User, now: int)
      requires Valid() && u.id in users && users[u.id] == u
      modifies cache
      ensures Valid()
      ensures |old(cache.data)| < cache.maxItems ==>
                cache.data == old(cache.data)[UserKey(u.id) := C.Item(u, now + cache.defaultTTL)]
    {
      hide UserKey;
      cache.Set(UserKey(u.id), u, now);
      forall k | k in cache.data
        ensures k == UserKey(cache.data[k].value.id) && cache.data[k].value.id in users
        && users[cache.data[k].value.id] == cache.data[k].value {
        assert cache.latest[k] == cache.data[k];
      }
    }

    /** `works` tells whether the driver answers; when it does not, nothing has changed. */
    method CreateUser(u: User, works: bool, now: int) returns (r: Result<User, DriverError>)
      requires Valid() && u.id !in users
      modifies this, cache
      ensures Valid()
      ensures r == (if works then Ok(u) else Err(DriverError)) && users == if works then old(users)[u.id := u]
              else old(users)
      ensures works && |old(cache.data)| < cache.maxItems ==>
                cache.data == old(cache.data)[UserKey(u.id) := C.Item(u, now + cache.defaultTTL)]
    {
      if !works { return Err(DriverError); }
      users := users[u.id := u];
      Remember(u, now);
      return Ok(u);
    }

    method UpdateUser(u: User, works: bool, now: int) returns (r: Result<User, DriverError>)
      requires Valid()
      modifies this, cache
      ensures Valid()
      ensures r.Ok? <==> works && u.id in old(users)
      ensures users == if r.Ok? then old(users)[u.id := u] else old(users)
    {
      if !works || u.id !in users { return Err(DriverError); }
      var key := UserKey(u.id);
      users := users[u.id := u];
      cache.Set(key, u, now);
      forall k | k in cache.data
        ensures k == UserKey(cache.data[k].value.id) && cache.data[k].value.id in users
        && users[cache.data[k].value.id] == cache.data[k].value {
        assert cache.latest[k] == cache.data[k];
      }
      return Ok(u);
    }

    method ListUsers(find: FindUser, answer: seq<User>, works: bool, now: int)
      returns (r: Result<seq<User>, DriverError>)
      requires Valid() && IsAnswer(answer, users, find)
      modifies cache
      ensures Valid() && users == old(users)
      ensures r == if works then Ok(answer) else Err(DriverError)
    {
      if !works { return Err(DriverError); }
      for i := 0 to |answer|
        invariant Valid()
      {
        Remember(answer[i], now);
      }
      return Ok(answer);
    }

    /** Reading by ID gives the stored user, whatever was cached, expired or evicted before, unless the
        ID is one of those that share a key. A cached user is returned without looking at the other
        conditions. */
    method GetUser(find: FindUser, answer: seq<User>, works: bool, now: int)
      returns (r: Result<Option<User>, DriverError>)
      requires Valid() && IsAnswer(answer, users, find)
      modifies cache
      ensures Valid() && users == old(users)
      ensures r.Err? ==> !works
      ensures find.id == Some(SYSTEM_BOT_ID) ==> r == Ok(Some(SYSTEM_BOT))
      ensures find.id.Some? && find.id.value != SYSTEM_BOT_ID && !IsReplaced(find.id.value) && r.Ok? ==>
                var id := find.id.value;
                && (r.value.Some? ==> id in users && r.value.value == users[id])
                && (id in users && find.others(users[id]) ==> r.value == Some(users[id]))
      ensures find.id.None? && r.Ok? ==> r.value == if answer == [] then None else Some(answer[0])
      ensures find.id.Some? && find.id.value != SYSTEM_BOT_ID && UserKey(find.id.value) in old(cache.data)
              && now <= old(cache.data)[UserKey(find.id.value)].expiration ==>
                r == Ok(Some(old(cache.data)[UserKey(find.id.value)].value))
    {
      hide UserKey, IsReplaced;
      if find.id.Some? {
        if find.id.value == SYSTEM_BOT_ID { return Ok(Some(SYSTEM_BOT)); }
        var cached := cache.Get(UserKey(find.id.value), now);
        if cached.Some? {
          UserKeysCollide(cached.value.id, find.id.value);
          return Ok(cached);
        }
      }
      var list := ListUsers(find, answer, works, now);
      if list.Err? { return Err(list.error); }
      if |list.value| == 0 { return Ok(None); }
      Remember(list.value[0], now);
      return Ok(Some(list.value[0]));
    }

    method DeleteUser(id: ID, works: bool) returns (r: Result<(), DriverError>)
      requires Valid()
      modifies this, cache
      ensures Valid() && (r.Ok? <==> works) && users == if works then old(users) - {id} else old(users)
    {
      if !works { return Err(DriverError); }
      users := users - {id};
      cache.Delete(UserKey(id));
      return Ok(());
    }

    /** Expiry and eviction, at any moment. */
    method Cleanup(clock: string -> int)
      requires Valid()
      modifies cache
      ensures Valid() && users == old(users)
    {
      cache.Cleanup(clock);
    }
  }

  /** For any two replaced IDs there is a run that reads one user and gets the other. */
  method ReplacedIDsConfuseUsers(a: ID, b: ID, now: int) returns (read: Result<Option<User>, DriverError>)
    requires a != b && IsReplaced(a) && IsReplaced(b)
    ensures read == Ok(Some(User(b, map[])))
  {
    assert a != SYSTEM_BOT_ID;
    UserKeysCollide(a, b);
    hide IsReplaced, UserKey, UsersCoherent;
    var store := new Users(1000, 600, map[]);
    var _ := store.CreateUser(User(a, map[]), true, now);
    var _ := store.CreateUser(User(b, map[]), true, now);
    var find := FindUser(Some(a), (u: User) => true);
    OneAnswer(store.users, find, a);
    read := store.GetUser(find, [store.users[a]], true, now);
  }

  lemma OneAnswer(users: map<ID, User>, find: FindUser, id: ID)
    requires id in users && find.id == Some(id) && find.others(users[id])
    requires forall i :: i in users ==> users[i].id == i
    ensures IsAnswer([users[id]], users, find)
  {
  }
}
