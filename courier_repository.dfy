/** The couriers table, as CourierPg reads and writes it. */
module CourierRepository {
  import opened Domain
  import opened Store

  /** Another courier than except already uses the phone number (phones are unique in the table). */
  predicate PhoneTaken(couriers: map<int, Courier>, phone: string, except: int) {
    exists id :: id in couriers && id != except && couriers[id].phone == phone
  }

  /**
   * The row a partial UPDATE leaves: name, password, phone and email are
   * overwritten by the non-empty input values; the working status and the
   * address are never written.
   */
  function PatchCourier(stored: Courier, input: Courier): (r: Courier)
    ensures r.id == stored.id && r.workingStatus == stored.workingStatus && r.address == stored.address
    ensures input.name != "" ==> r.name == input.name
    ensures input.name == "" ==> r.name == stored.name
    ensures input.password != "" ==> r.password == input.password
    ensures input.password == "" ==> r.password == stored.password
    ensures input.phone != "" ==> r.phone == input.phone
    ensures input.phone == "" ==> r.phone == stored.phone
    ensures input.email != "" ==> r.email == input.email
    ensures input.email == "" ==> r.email == stored.email
  {
    stored.(
      name := if input.name != "" then input.name else stored.name,
      password := if input.password != "" then input.password else stored.password,
      phone := if input.phone != "" then input.phone else stored.phone,
      email := if input.email != "" then input.email else stored.email)
  }

  /** The columns an UPDATE with this input sets, in the order the statement lists them. */
  function UpdatedColumns(input: Courier): (cols: seq<string>)
    ensures cols == [] <==> input.name == "" && input.password == "" && input.phone == "" && input.email == ""
    ensures |cols| == (if input.name != "" then 1 else 0) + (if input.password != "" then 1 else 0)
                      + (if input.phone != "" then 1 else 0) + (if input.email != "" then 1 else 0)
  {
    (if input.name != "" then ["name"] else [])
    + (if input.password != "" then ["password_hash"] else [])
    + (if input.phone != "" then ["phone"] else [])
    + (if input.email != "" then ["email"] else [])
  }

  /** An input with no profile field set changes no column, whatever its status or address. */
  lemma EmptyInputPatchesNothing(stored: Courier, input: Courier)
    requires UpdatedColumns(input) == []
    ensures PatchCourier(stored, input) == stored
  {
  }

  class CourierPg {
    const db: Database

    constructor (db: Database)
      ensures this.db == db
    {
      this.db := db;
    }

    /**
     * Inserts the courier with its address and returns the fresh id; a phone
     * already in use makes the insert fail and nothing is stored.
     */
    method Create(courier: Courier) returns (r: Result<int>)
      requires db.Valid()
      modifies db`couriers, db`nextCourierId
      ensures db.Valid()
      ensures r.Ok? <==> !PhoneTaken(old(db.couriers), courier.phone, 0)
      ensures r.Err? ==> r.error == UniqueViolation && db.couriers == old(db.couriers)
      ensures r.Ok? ==> r.value > 0 && r.value !in old(db.couriers)
                        && db.couriers == old(db.couriers)[r.value := courier.(id := r.value)]
    {
      if exists id :: id in db.couriers && id != 0 && db.couriers[id].phone == courier.phone {
        return Err(UniqueViolation);
      }
      var id := db.nextCourierId;
      db.couriers := db.couriers[id := courier.(id := id)];
      db.nextCourierId := id + 1;
      r := Ok(id);
    }

    /** The courier with this id, without its password, or no row. */
    function GetById(courierId: int): (r: Result<Courier>)
      requires db.Valid()
      reads db
      ensures r.Ok? <==> courierId in db.couriers
      ensures r.Err? ==> r.error == NoRows
      ensures r.Ok? ==> r.value.password == "" && r.value.id == courierId
                        && r.value.(password := db.couriers[courierId].password) == db.couriers[courierId]
    {
      if courierId in db.couriers then Ok(db.couriers[courierId].(password := "")) else Err(NoRows)
    }

    /**
     * Writes the non-empty name, password, phone and email of input. With
     * none of them it writes nothing and reports no error; otherwise it runs
     * the UPDATE (which a phone used by another courier makes fail, silently)
     * and then returns the statement's text as an error in every case.
     */
    method Update(courierId: int, input: Courier) returns (r: Outcome)
      requires db.Valid()
      modifies db`couriers
      ensures db.Valid()
      ensures r.Pass? <==> UpdatedColumns(input) == []
      ensures r.Fail? ==> r.error == QueryText(UpdatedColumns(input))
      ensures db.couriers == if && r.Fail? && courierId in old(db.couriers)
                                && !(input.phone != "" && PhoneTaken(old(db.couriers), input.phone, courierId))
                             then old(db.couriers)[courierId := PatchCourier(old(db.couriers)[courierId], input)]
                             else old(db.couriers)
    {
      var setValues: seq<string> := [];
      if input.name != "" {
        setValues := setValues + ["name"];
      }
      if input.password != "" {
        setValues := setValues + ["password_hash"];
      }
      if input.phone != "" {
        setValues := setValues + ["phone"];
      }
      if input.email != "" {
        setValues := setValues + ["email"];
      }
      assert setValues == UpdatedColumns(input);
      if setValues == [] {
        return Pass;
      }
      var clash := input.phone != "" && exists id :: id in db.couriers && id != courierId && db.couriers[id].phone == input.phone;
      if courierId in db.couriers && !clash {
        db.couriers := db.couriers[courierId := PatchCourier(db.couriers[courierId], input)];
      }
      r := Fail(QueryText(setValues));
    }
  }
}
