/**
 The value-level meaning of the `friend` getter of a user: one read of the
 getter, seen as a function from the pool's registry before the read to the
 returned friend and the registry after it. The registry maps ids to entries
 of any type `V`; the class model in module Test instantiates `V` with its
 `User` objects, so "the same entry" below is object identity there.
 */
module FriendRead {
  import opened Wrappers

  /** How the getter tests its `friendId`: an absent id and the id 0 are both falsy. */
  predicate Truthy(friendId: Option<int>) {
    friendId.Some? && friendId.value != 0
  }

  /** What one read returns and what the registry holds afterwards. */
  datatype Read<V> = Read(friend: Option<V>, users: map<int, V>)

  /**
   One read of the getter on registry `users`. `made` is the friendless
   placeholder the getter would build if the id is missing.
   */
  function Resolve<V>(users: map<int, V>, friendId: Option<int>, made: V): (r: Read<V>)
    // a friend comes back exactly when the id is truthy
    ensures r.friend.Some? <==> Truthy(friendId)
    // the only key that can appear is the friend id (lazy materialisation) ...
    ensures r.users.Keys == if Truthy(friendId) then users.Keys + {friendId.value} else users.Keys
    // ... and no entry that was there is removed or replaced
    ensures forall k :: k in users ==> r.users[k] == users[k]
    // what is returned is what the registry now stores under the id
    ensures r.friend.Some? ==> r.users[friendId.value] == r.friend.value
    // a missing id is filled with the placeholder, which is what comes back
    ensures Truthy(friendId) && friendId.value !in users ==> r.friend == Some(made)
  {
    if !Truthy(friendId) then
      Read(None, users)
    else if friendId.value in users then
      Read(Some(users[friendId.value]), users)
    else
      Read(Some(made), users[friendId.value := made])
  }

  /**
   A second read with no mutation in between returns the same entry as the
   first and leaves the registry as the first read left it, whatever
   placeholder it would have built.
   */
  lemma ResolveIdempotent<V>(users: map<int, V>, friendId: Option<int>, made: V, made': V)
    ensures var first := Resolve(users, friendId, made);
            Resolve(first.users, friendId, made') == first
  {
  }

  /** The ids a sequence of reads materialises: its truthy friend ids. */
  function MaterialisedIds(friendIds: seq<Option<int>>): (ids: set<int>)
    ensures forall i :: 0 <= i < |friendIds| && Truthy(friendIds[i]) ==> friendIds[i].value in ids
    ensures forall k :: k in ids ==> Some(k) in friendIds && k != 0
    decreases |friendIds|
  {
    if friendIds == [] then {}
    else
      var rest := MaterialisedIds(friendIds[1..]);
      if Truthy(friendIds[0]) then {friendIds[0].value} + rest else rest
  }

  /** What a sequence of reads returns, one friend per read, and the final registry. */
  datatype Reads<V> = Reads(friends: seq<Option<V>>, users: map<int, V>)

  /**
   A sequence of getter reads, by any users of the same pool, one after the
   other; read `i` reads the friend id `friendIds[i]` and would build the
   placeholder `made[i]`.
   */
  function ResolveAll<V>(users: map<int, V>, friendIds: seq<Option<int>>, made: seq<V>): (r: Reads<V>)
    requires |made| == |friendIds|
    ensures |r.friends| == |friendIds|
    // the registry grows by exactly the truthy ids read
    ensures r.users.Keys == users.Keys + MaterialisedIds(friendIds)
    // no entry that was there is removed or replaced
    ensures forall k :: k in users ==> r.users[k] == users[k]
    ensures forall i :: 0 <= i < |friendIds| ==> (r.friends[i].Some? <==> Truthy(friendIds[i]))
    // every read returned what the registry holds under its id at the end,
    // so all reads of one id return the same entry
    ensures forall i :: 0 <= i < |friendIds| && r.friends[i].Some? ==>
              r.users[friendIds[i].value] == r.friends[i].value
    decreases |friendIds|
  {
    if friendIds == [] then
      Reads([], users)
    else
      var first := Resolve(users, friendIds[0], made[0]);
      var rest := ResolveAll(first.users, friendIds[1..], made[1..]);
      var friends := [first.friend] + rest.friends;
      assert forall i :: 1 <= i < |friendIds| ==> friends[i] == rest.friends[i - 1] && friendIds[i] == friendIds[1..][i - 1];
      Reads(friends, rest.users)
  }

  /**
   The first read of an id that is missing from the registry builds the user
   that is returned and that the registry keeps to the end, whatever is read
   afterwards.
   */
  lemma {:induction false} FirstReadMaterialises<V>(users: map<int, V>, friendIds: seq<Option<int>>, made: seq<V>, i: nat)
    requires |made| == |friendIds|
    requires i < |friendIds| && Truthy(friendIds[i]) && friendIds[i].value !in users
    requires forall j :: 0 <= j < i ==> friendIds[j] != friendIds[i]
    ensures ResolveAll(users, friendIds, made).friends[i] == Some(made[i])
    ensures ResolveAll(users, friendIds, made).users[friendIds[i].value] == made[i]
    decreases i
  {
    var first := Resolve(users, friendIds[0], made[0]);
    if i > 0 {
      assert friendIds[1..][i - 1] == friendIds[i];
      forall j | 0 <= j < i - 1
        ensures friendIds[1..][j] != friendIds[i]
      {
        assert friendIds[1..][j] == friendIds[j + 1];
      }
      assert friendIds[0] != friendIds[i];
      FirstReadMaterialises(first.users, friendIds[1..], made[1..], i - 1);
    }
  }

  /**
   Reads by different users of the same id return the same entry, wherever
   they fall in the sequence and whatever was read in between.
   */
  lemma SameIdSameFriend<V>(users: map<int, V>, friendIds: seq<Option<int>>, made: seq<V>, i: nat, j: nat)
    requires |made| == |friendIds|
    requires i < |friendIds| && j < |friendIds|
    requires friendIds[i] == friendIds[j]
    ensures ResolveAll(users, friendIds, made).friends[i] == ResolveAll(users, friendIds, made).friends[j]
  {
  }

  /**
   Replaying a sequence of reads on the registry it produced changes nothing
   and returns the same entries: once materialised, an id stays resolved.
   */
  lemma ReplayStable<V>(users: map<int, V>, friendIds: seq<Option<int>>, made: seq<V>, made': seq<V>)
    requires |made| == |friendIds| && |made'| == |friendIds|
    ensures var first := ResolveAll(users, friendIds, made);
            ResolveAll(first.users, friendIds, made') == first
  {
    var first := ResolveAll(users, friendIds, made);
    var second := ResolveAll(first.users, friendIds, made');
    assert second.users.Keys == first.users.Keys;
    assert second.users == first.users;
    assert second.friends == first.friends;
  }
}
