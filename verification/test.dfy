/**
 The pool of users and its lazily filled registry. A `Pool` owns a mutable
 map from id to `User`; a `User` names at most one friend by id and resolves
 it on demand through its pool, inserting a friendless placeholder user when
 the id is not registered yet.
 */
module Test {
  import opened Wrappers
  import opened FriendRead

  /** Every entry of `users` is stored under its own id and points back to `pool`. */
  predicate Owned(users: map<int, User>, pool: Pool) {
    forall k :: k in users ==> users[k].id == k && users[k].pool == pool
  }

  /** Owned registries stay owned under a read whose placeholder belongs to the pool and carries the friend id. */
  lemma ResolveKeepsOwned(users: map<int, User>, friendId: Option<int>, made: User, pool: Pool)
    requires Owned(users, pool)
    requires made.pool == pool && (Truthy(friendId) ==> made.id == friendId.value)
    ensures Owned(Resolve(users, friendId, made).users, pool)
  {
  }

  /**
   Owned registries stay owned under any sequence of reads whose placeholders
   belong to the pool and carry the id they are built for.
   */
  lemma {:induction false} ResolveAllKeepsOwned(users: map<int, User>, friendIds: seq<Option<int>>, made: seq<User>, pool: Pool)
    requires |made| == |friendIds|
    requires Owned(users, pool)
    requires forall i :: 0 <= i < |made| ==> made[i].pool == pool && (Truthy(friendIds[i]) ==> made[i].id == friendIds[i].value)
    ensures Owned(ResolveAll(users, friendIds, made).users, pool)
    decreases |friendIds|
  {
    if friendIds != [] {
      ResolveKeepsOwned(users, friendIds[0], made[0], pool);
      var first := Resolve(users, friendIds[0], made[0]);
      forall i | 0 <= i < |made| - 1
        ensures made[1..][i].pool == pool && (Truthy(friendIds[1..][i]) ==> made[1..][i].id == friendIds[1..][i].value)
      {
        assert made[1..][i] == made[i + 1] && friendIds[1..][i] == friendIds[i + 1];
      }
      ResolveAllKeepsOwned(first.users, friendIds[1..], made[1..], pool);
    }
  }

  class Pool {
    var users: map<int, User>

    ghost predicate Valid()
      reads this
    {
      Owned(users, this)
    }

    /** Seeds user 1, who has no friend, and user 2, whose friend is user 1. */
    constructor ()
      ensures Valid()
      ensures users.Keys == {1, 2}
      ensures fresh(users[1]) && fresh(users[2]) && users[1] != users[2]
      ensures users[1].friendId == None && users[2].friendId == Some(1)
    {
      users := map[];
      new;
      var one := new User(this, 1, None);
      users := users[1 := one];
      var two := new User(this, 2, Some(1));
      users := users[2 := two];
    }
  }

  class User {
    const id: int
    var friendId: Option<int>
    const pool: Pool

    constructor (pool: Pool, id: int, friendId: Option<int>)
      ensures this.pool == pool && this.id == id && this.friendId == friendId
    {
      this.pool := pool;
      this.id := id;
      this.friendId := friendId;
    }

    /**
     The `friend` getter: no friend for a falsy id, the registered user for a
     known id, and otherwise a new friendless user that is registered under
     the id before it is returned.
     */
    method Friend() returns (r: User?)
      modifies pool
      ensures friendId == old(friendId)
      ensures r == null ==> !Truthy(friendId) && pool.users == old(pool.users)
      ensures r != null ==> Resolve(old(pool.users), friendId, r) == Read(Some(r), pool.users)
      ensures r != null && friendId.value !in old(pool.users) ==>
                fresh(r) && r.id == friendId.value && r.friendId == None && r.pool == pool
      ensures old(pool.Valid()) ==> pool.Valid()
    {
      if !Truthy(friendId) {
        return null;
      }
      var id := friendId.value;
      if id in pool.users {
        return pool.users[id];
      }
      var user := new User(pool, id, None);
      pool.users := pool.users[user.id := user];
      r := user;
    }
  }

  /**
   A fresh pool: user 2 resolves its friend to the seeded user 1 and the
   registry keeps exactly the seeded ids.
   */
  method SeedScenario() returns (one: User, friend: User?, ids: set<int>)
    ensures one.id == 1 && one.friendId == None
    ensures friend == one
    ensures ids == {1, 2}
  {
    var pool := new Pool();
    one := pool.users[1];
    friend := pool.users[2].Friend();
    ids := pool.users.Keys;
  }

  /**
   A user whose friend id is not registered: the first read registers a new
   friendless user under that id, the second returns the same user, and a
   user whose friend id is 0 resolves to nothing.
   */
  method LazyScenario() returns (friend: User?, again: User?, none: User?, ids: set<int>)
    ensures friend != null && friend.id == 99 && friend.friendId == None
    ensures again == friend
    ensures none == null
    ensures ids == {1, 2, 99}
  {
    var pool := new Pool();
    var reader := new User(pool, 3, Some(99));
    friend := reader.Friend();
    again := reader.Friend();
    var zero := new User(pool, 4, Some(0));
    none := zero.Friend();
    ids := pool.users.Keys;
  }
}
