/**
 * The courier use cases: an admin signs couriers up; users, restaurants and
 * the courier read a courier; the courier or an admin changes its record,
 * whose working status may move only between neighbouring states.
 */
module CourierService {
  import opened Domain
  import opened Consts
  import opened Roles
  import opened Store
  import opened CourierRepository

  /** The move between two working statuses skips the middle one (unable to working or back). */
  predicate JumpsOverState(stored: int, next: int) {
    stored - next == 2 || stored - next == -2
  }

  /** Between valid statuses, a jump is exactly a move between Unable and Working. */
  lemma JumpIsUnableWorking(stored: int, next: int)
    requires IsCourierStatus(stored) && IsCourierStatus(next)
    ensures JumpsOverState(stored, next) <==>
              (stored == CourierUnable && next == CourierWorking) || (stored == CourierWorking && next == CourierUnable)
  {
  }

  /** The input a courier's own update is reduced to: no profile field, only status and address. */
  function StripProfile(input: Courier): (r: Courier)
    ensures r.email == "" && r.name == "" && r.phone == "" && r.password == ""
    ensures r.(email := input.email, name := input.name, phone := input.phone, password := input.password) == input
  {
    input.(email := "", name := "", phone := "", password := "")
  }

  /** Only an admin or the courier itself may change a courier's record. */
  predicate MayEdit(clientId: int, role: Role, courierId: int) {
    (role == CourierRole && courierId == clientId) || role == AdminRole
  }

  /** The guard of the active-order lookup: only the courier itself, for its own id. */
  function GetActiveOrderGuard(clientId: int, role: Role, courierId: int): (r: Outcome)
    ensures r.Pass? <==> role == CourierRole && courierId == clientId
    ensures r.Fail? ==> r.error == Forbidden(role)
  {
    if role != CourierRole || (role == CourierRole && courierId != clientId) then
      Fail(Forbidden(role))
    else
      Pass
  }

  class CourierService {
    const repo: CourierPg

    constructor (repo: CourierPg)
      ensures this.repo == repo
    {
      this.repo := repo;
    }

    /** An admin registers a courier; any other client type is refused and nothing is stored. */
    method SignUp(courier: Courier, role: Role) returns (r: Result<int>)
      requires repo.db.Valid()
      modifies repo.db`couriers, repo.db`nextCourierId
      ensures repo.db.Valid()
      ensures role != AdminRole ==> r == Err(Message("forbidden"))
      ensures r.Ok? <==> role == AdminRole && !PhoneTaken(old(repo.db.couriers), courier.phone, 0)
      ensures r.Err? ==> repo.db.couriers == old(repo.db.couriers)
      ensures r.Ok? ==> r.value !in old(repo.db.couriers)
                        && repo.db.couriers == old(repo.db.couriers)[r.value := courier.(id := r.value)]
    {
      if role != AdminRole {
        return Err(Message("forbidden"));
      }
      r := repo.Create(courier);
    }

    /**
     * A courier, without its password, for any user or restaurant, or for a
     * client whose id is the courier's id, whatever its role.
     */
    function GetById(clientId: int, role: Role, courierId: int): (r: Result<Courier>)
      requires repo.db.Valid()
      reads repo.db
      ensures r.Ok? <==> (role == UserRole || role == RestaurantRole || clientId == courierId)
                         && courierId in repo.db.couriers
      ensures !(role == UserRole || role == RestaurantRole || clientId == courierId) ==> r == Err(Message("Forbidden"))
      ensures (role == UserRole || role == RestaurantRole || clientId == courierId) && courierId !in repo.db.couriers
              ==> r == Err(NoRows)
      ensures r.Ok? ==> r.value == repo.db.couriers[courierId].(password := "") && r.value.id == courierId
    {
      if !(role == UserRole || role == RestaurantRole || clientId == courierId) then
        Err(Message("Forbidden"))
      else
        repo.GetById(courierId)
    }

    /**
     * Changes a courier's record. The new working status is validated first
     * (a known status, no jump over the middle state), then the caller: the
     * courier itself has its profile fields stripped, an admin's input goes
     * through as given, anyone else is refused. What is written is what the
     * repository's partial update writes, which never includes the status.
     */
    method Update(clientId: int, role: Role, courierId: int, input: Courier) returns (r: Outcome)
      requires repo.db.Valid()
      modifies repo.db`couriers
      ensures repo.db.Valid()
      ensures !IsCourierStatus(input.workingStatus) ==> r == Fail(Message("working_status input error"))
      ensures IsCourierStatus(input.workingStatus) && courierId !in old(repo.db.couriers) ==> r == Fail(NoRows)
      ensures IsCourierStatus(input.workingStatus) && courierId in old(repo.db.couriers)
              && JumpsOverState(old(repo.db.couriers)[courierId].workingStatus, input.workingStatus)
              ==> r == Fail(Message("jump over states"))
      ensures && IsCourierStatus(input.workingStatus) && courierId in old(repo.db.couriers)
              && !JumpsOverState(old(repo.db.couriers)[courierId].workingStatus, input.workingStatus)
              && !MayEdit(clientId, role, courierId)
              ==> r == Fail(Message("forbidden"))
      ensures role == CourierRole && courierId == clientId ==> repo.db.couriers == old(repo.db.couriers)
      ensures role == CourierRole && courierId == clientId && IsCourierStatus(input.workingStatus)
              && courierId in old(repo.db.couriers)
              && !JumpsOverState(old(repo.db.couriers)[courierId].workingStatus, input.workingStatus)
              ==> r == Pass
      ensures role == AdminRole && IsCourierStatus(input.workingStatus) && courierId in old(repo.db.couriers)
              && !JumpsOverState(old(repo.db.couriers)[courierId].workingStatus, input.workingStatus)
              ==> && (r.Pass? <==> UpdatedColumns(input) == [])
                  && (r.Fail? ==> r.error == QueryText(UpdatedColumns(input)))
      ensures role == AdminRole && IsCourierStatus(input.workingStatus) && courierId in old(repo.db.couriers)
              && !JumpsOverState(old(repo.db.couriers)[courierId].workingStatus, input.workingStatus)
              ==> repo.db.couriers ==
                    if UpdatedColumns(input) != [] && !(input.phone != "" && PhoneTaken(old(repo.db.couriers), input.phone, courierId))
                    then old(repo.db.couriers)[courierId := PatchCourier(old(repo.db.couriers)[courierId], input)]
                    else old(repo.db.couriers)
      ensures r.Pass? ==> repo.db.couriers == old(repo.db.couriers)
      ensures r.Fail? && !r.error.QueryText? ==> repo.db.couriers == old(repo.db.couriers)
      ensures repo.db.couriers != old(repo.db.couriers) ==>
                && role == AdminRole && courierId in old(repo.db.couriers)
                && repo.db.couriers == old(repo.db.couriers)[courierId := PatchCourier(old(repo.db.couriers)[courierId], input)]
    {
      if !IsCourierStatus(input.workingStatus) {
        return Fail(Message("working_status input error"));
      }
      var courier := repo.GetById(courierId);
      if courier.Err? {
        return Fail(courier.error);
      }
      var diff := courier.value.workingStatus - input.workingStatus;
      if diff == 2 || diff == -2 {
        return Fail(Message("jump over states"));
      }
      var patch := input;
      if role == CourierRole && courierId == clientId {
        patch := StripProfile(input);
      } else if role != AdminRole {
        return Fail(Message("forbidden"));
      }
      r := repo.Update(courierId, patch);
    }
  }
}
