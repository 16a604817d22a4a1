/** The users table and a user's orders, as UserPg reads and writes them. */
module UserRepository {
  import opened Domain
  import opened Consts
  import opened Store

  /** The order is one of the user's, and active (paid, not yet delivered) when only active ones are asked for. */
  predicate Listed(o: Order, userId: int, active: bool) {
    o.userId == userId && (active ==> OrderPaid <= o.status <= OrderEnRoute)
  }

  /** The ids of the rows the order listing query selects. */
  function MatchingIds(orders: map<int, Order>, userId: int, active: bool): (ids: set<int>)
    ensures forall id :: id in ids <==> id in orders && Listed(orders[id], userId, active)
  {
    set id | id in orders && Listed(orders[id], userId, active)
  }

  /** With the active flag the listing keeps exactly the user's orders whose status is active. */
  lemma ActiveListingIsActiveStatus(orders: map<int, Order>, userId: int)
    ensures MatchingIds(orders, userId, true) ==
            set id | id in MatchingIds(orders, userId, false) && IsActiveStatus(orders[id].status)
  {
  }

  /** The ids of the orders of a list. */
  function IdsOf(list: seq<Order>): (ids: set<int>)
    ensures forall i :: 0 <= i < |list| ==> list[i].id in ids
    ensures forall id :: id in ids ==> exists i :: 0 <= i < |list| && list[i].id == id
  {
    if list == [] then {} else {list[0].id} + IdsOf(list[1..])
  }

  /** A list whose ids are pairwise distinct has as many ids as entries. */
  lemma {:induction false} DistinctIdsCount(list: seq<Order>)
    requires forall i, j :: 0 <= i < j < |list| ==> list[i].id != list[j].id
    ensures |IdsOf(list)| == |list|
  {
    if list != [] {
      DistinctIdsCount(list[1..]);
      forall i | 0 <= i < |list[1..]|
        ensures list[1..][i].id != list[0].id
      {
        assert list[1..][i] == list[i + 1];
      }
    }
  }

  /** A subset has no more elements than the set that holds it. */
  lemma {:induction false} SubsetSize(a: set<int>, b: set<int>)
    requires a <= b
    ensures |a| <= |b|
    decreases a
  {
    if exists x :: x in a {
      var x :| x in a;
      SubsetSize(a - {x}, b - {x});
    } else {
      assert a == {};
    }
  }

  /**
   * A list of distinct ids, all from ids and as many as there are ids, lists
   * every one of them: nothing selected is missing from the listing.
   */
  lemma ListingCoversSelection(list: seq<Order>, ids: set<int>)
    requires forall i :: 0 <= i < |list| ==> list[i].id in ids
    requires forall i, j :: 0 <= i < j < |list| ==> list[i].id != list[j].id
    requires |list| == |ids|
    ensures forall id :: id in ids ==> exists i :: 0 <= i < |list| && list[i].id == id
  {
    DistinctIdsCount(list);
    forall id | id in ids
      ensures exists i :: 0 <= i < |list| && list[i].id == id
    {
      if id !in IdsOf(list) {
        SubsetSize(IdsOf(list), ids - {id});
        assert false;
      }
    }
  }

  /** Another user than except already uses the phone number (phones are unique in the table). */
  predicate PhoneTaken(users: map<int, User>, phone: string, except: int) {
    exists id :: id in users && id != except && users[id].phone == phone
  }

  /**
   * The row the users UPDATE leaves: name, password and email are overwritten
   * by the non-empty input values; id, phone and address are not touched.
   */
  function PatchUser(stored: User, input: User): (r: User)
    ensures r.id == stored.id && r.phone == stored.phone && r.address == stored.address
    ensures r.name == (if input.name != "" then input.name else stored.name)
    ensures r.password == (if input.password != "" then input.password else stored.password)
    ensures r.email == (if input.email != "" then input.email else stored.email)
  {
    stored.(
      name := if input.name != "" then input.name else stored.name,
      password := if input.password != "" then input.password else stored.password,
      email := if input.email != "" then input.email else stored.email)
  }

  /** An address is rewritten only when both of its coordinates are non-zero. */
  predicate MovesAddress(input: User) {
    input.address.latitude != 0.0 && input.address.longitude != 0.0
  }

  /** The users table after the address rewrite of an update, which runs outside the transaction. */
  function WithAddress(users: map<int, User>, userId: int, input: User): (r: map<int, User>)
    ensures r.Keys == users.Keys
    ensures forall id :: id in users && id != userId ==> r[id] == users[id]
    ensures userId in users ==>
              r[userId] == (if MovesAddress(input) then users[userId].(address := input.address) else users[userId])
  {
    if userId in users && MovesAddress(input) then users[userId := users[userId].(address := input.address)]
    else users
  }

  class UserPg {
    const db: Database

    constructor (db: Database)
      ensures this.db == db
    {
      this.db := db;
    }

    /**
     * Inserts the user with its address and returns the fresh id; a phone
     * already in use makes the insert fail and nothing is stored.
     */
    method Create(user: User) returns (r: Result<int>)
      requires db.Valid()
      modifies db`users, db`nextUserId
      ensures db.Valid()
      ensures r.Ok? <==> !PhoneTaken(old(db.users), user.phone, 0)
      ensures r.Err? ==> r.error == UniqueViolation && db.users == old(db.users)
      ensures r.Ok? ==> r.value > 0 && r.value !in old(db.users)
                        && db.users == old(db.users)[r.value := user.(id := r.value)]
    {
      if exists id :: id in db.users && id != 0 && db.users[id].phone == user.phone {
        return Err(UniqueViolation);
      }
      var id := db.nextUserId;
      db.users := db.users[id := user.(id := id)];
      db.nextUserId := id + 1;
      r := Ok(id);
    }

    /**
     * The user's orders (only the active ones when active is set), in no
     * particular order. A row in badRows fails to scan and an error of the
     * cursor after the last row is iterError; either discards the rows read
     * so far and returns the error.
     */
    method GetAllOrders(userId: int, active: bool, badRows: set<int>, iterError: bool) returns (r: Result<seq<Order>>)
      requires db.Valid()
      ensures r.Ok? <==> MatchingIds(db.orders, userId, active) !! badRows && !iterError
      ensures r.Err? ==> r.error == if MatchingIds(db.orders, userId, active) !! badRows then IterationFailed else ScanFailed
      ensures r.Ok? ==> |r.value| == |MatchingIds(db.orders, userId, active)|
      ensures r.Ok? ==> forall i :: 0 <= i < |r.value| ==>
                          r.value[i].id in db.orders && db.orders[r.value[i].id] == r.value[i]
                          && Listed(r.value[i], userId, active)
      ensures r.Ok? ==> forall i, j :: 0 <= i < j < |r.value| ==> r.value[i].id != r.value[j].id
      ensures r.Ok? ==> forall id :: id in MatchingIds(db.orders, userId, active) ==>
                          exists i :: 0 <= i < |r.value| && r.value[i].id == id
    {
      var matching := MatchingIds(db.orders, userId, active);
      var orders: seq<Order> := [];
      var rest, done := matching, {};
      while exists id :: id in rest
        invariant rest + done == matching && rest !! done
        invariant done !! badRows
        invariant |orders| == |done|
        invariant forall i :: 0 <= i < |orders| ==> orders[i].id in done && db.orders[orders[i].id] == orders[i]
        invariant forall i, j :: 0 <= i < j < |orders| ==> orders[i].id != orders[j].id
        decreases rest
      {
        var id :| id in rest;
        if id in badRows {
          return Err(ScanFailed);
        }
        orders := orders + [db.orders[id]];
        rest, done := rest - {id}, done + {id};
      }
      if iterError {
        return Err(IterationFailed);
      }
      ListingCoversSelection(orders, matching);
      r := Ok(orders);
    }

    /**
     * Rewrites the user's address when both coordinates are non-zero (a
     * statement outside the transaction, so it stays written), then writes
     * the non-empty name, password and email. With none of those the UPDATE
     * has an empty SET list and fails, after the address was rewritten.
     */
    method Update(userId: int, input: User) returns (r: Outcome)
      requires db.Valid()
      modifies db`users
      ensures db.Valid()
      ensures r.Pass? <==> input.name != "" || input.password != "" || input.email != ""
      ensures r.Fail? ==> r.error == MalformedQuery
      ensures var moved := WithAddress(old(db.users), userId, input);
              db.users == if r.Pass? && userId in moved then moved[userId := PatchUser(moved[userId], input)] else moved
    {
      var setValues: seq<string> := [];
      if input.name != "" {
        setValues := setValues + ["name"];
      }
      if input.password != "" {
        setValues := setValues + ["password_hash"];
      }
      if input.email != "" {
        setValues := setValues + ["email"];
      }
      if input.address.latitude != 0.0 && input.address.longitude != 0.0 {
        if userId in db.users {
          db.users := db.users[userId := db.users[userId].(address := input.address)];
        }
      }
      if setValues == [] {
        return Fail(MalformedQuery);
      }
      if userId in db.users {
        db.users := db.users[userId := PatchUser(db.users[userId], input)];
      }
      r := Pass;
    }

    /** The user with this id, without its password, or no row. */
    function GetById(userId: int): (r: Result<User>)
      requires db.Valid()
      reads db
      ensures r.Ok? <==> userId in db.users
      ensures r.Err? ==> r.error == NoRows
      ensures r.Ok? ==> r.value.password == "" && r.value.id == userId
                        && r.value.(password := db.users[userId].password) == db.users[userId]
    {
      if userId in db.users then Ok(db.users[userId].(password := "")) else Err(NoRows)
    }
  }
}
