/**
 * The restaurants table as RestaurantPg reads it, and the restaurant use
 * cases: signing in, listing restaurants for a user, reading one restaurant
 * and its menu.
 */
module RestaurantService {
  import opened Domain
  import opened Roles
  import opened Store

  /** The restaurant as the listing and lookup queries read it: every column but the password. */
  function Public(r: Restaurant): (p: Restaurant)
    ensures p.password == "" && p.(password := r.password) == r
  {
    r.(password := "")
  }

  /** Only users, and a restaurant for itself, may read a restaurant's data. */
  predicate MayReadRestaurant(clientId: int, role: Role, restaurantId: int) {
    role == UserRole || (role == RestaurantRole && restaurantId == clientId)
  }

  class RestaurantPg {
    const db: Database

    constructor (db: Database)
      ensures this.db == db
    {
      this.db := db;
    }

    /** A restaurant with this phone and password, or no row. */
    method GetByCredentials(phone: string, password: string) returns (r: Result<Restaurant>)
      ensures r.Err? <==> forall id :: id in db.restaurants ==>
                            !(db.restaurants[id].phone == phone && db.restaurants[id].password == password)
      ensures r.Err? ==> r.error == NoRows
      ensures r.Ok? ==> r.value in db.restaurants.Values && r.value.phone == phone && r.value.password == password
    {
      if exists id :: id in db.restaurants && db.restaurants[id].phone == phone && db.restaurants[id].password == password {
        var id :| id in db.restaurants && db.restaurants[id].phone == phone && db.restaurants[id].password == password;
        r := Ok(db.restaurants[id]);
      } else {
        r := Err(NoRows);
      }
    }

    /**
     * Every restaurant, without its password, paired with the address of the
     * user userId; with no such user the pairing, and so the listing, is empty.
     */
    function GetAll(userId: int): (r: set<Restaurant>)
      reads db
      ensures userId !in db.users ==> r == {}
      ensures forall x :: x in r ==> exists id :: id in db.restaurants && x == Public(db.restaurants[id])
      ensures userId in db.users ==> forall id :: id in db.restaurants ==> Public(db.restaurants[id]) in r
    {
      if userId in db.users then set id | id in db.restaurants :: Public(db.restaurants[id]) else {}
    }

    /** The restaurant with this id, without its password, or no row. */
    function GetById(restaurantId: int): (r: Result<Restaurant>)
      requires db.Valid()
      reads db
      ensures r.Ok? <==> restaurantId in db.restaurants
      ensures r.Err? ==> r.error == NoRows
      ensures r.Ok? ==> r.value == Public(db.restaurants[restaurantId]) && r.value.id == restaurantId
    {
      if restaurantId in db.restaurants then Ok(Public(db.restaurants[restaurantId])) else Err(NoRows)
    }

    /** The menu items of the restaurant, in no particular order. */
    function GetMenu(restaurantId: int): (r: set<MenuItem>)
      reads db
      ensures forall m :: m in r ==> m in db.menuItems.Values && m.restaurantId == restaurantId
      ensures forall id :: id in db.menuItems && db.menuItems[id].restaurantId == restaurantId
                ==> db.menuItems[id] in r
    {
      set id | id in db.menuItems && db.menuItems[id].restaurantId == restaurantId :: db.menuItems[id]
    }
  }

  class RestaurantService {
    const repo: RestaurantPg

    constructor (repo: RestaurantPg)
      ensures this.repo == repo
    {
      this.repo := repo;
    }

    /**
     * Signs a restaurant in: the id of a restaurant with these credentials,
     * or the lookup's error and no token.
     */
    method SignIn(phone: string, password: string) returns (r: Result<int>)
      ensures r.Err? <==> forall id :: id in repo.db.restaurants ==>
                            !(repo.db.restaurants[id].phone == phone && repo.db.restaurants[id].password == password)
      ensures r.Err? ==> r.error == NoRows
      ensures r.Ok? ==> exists x :: x in repo.db.restaurants.Values && x.id == r.value
                                    && x.phone == phone && x.password == password
    {
      var restaurant := repo.GetByCredentials(phone, password);
      if restaurant.Err? {
        return Err(restaurant.error);
      }
      r := Ok(restaurant.value.id);
    }

    /** The restaurants, for users only, listed around the caller's own address. */
    function GetAll(clientId: int, role: Role): (r: Result<set<Restaurant>>)
      reads repo.db
      ensures r.Ok? <==> role == UserRole
      ensures r.Err? ==> r.error == Message("Forbidden")
      ensures r.Ok? ==> r.value == repo.GetAll(clientId)
    {
      if role != UserRole then Err(Message("Forbidden")) else Ok(repo.GetAll(clientId))
    }

    /** A restaurant, for any user or for the restaurant itself; a failed lookup is passed on. */
    function GetById(clientId: int, role: Role, restaurantId: int): (r: Result<Restaurant>)
      requires repo.db.Valid()
      reads repo.db
      ensures !MayReadRestaurant(clientId, role, restaurantId) ==> r == Err(Message("Forbidden"))
      ensures MayReadRestaurant(clientId, role, restaurantId) ==> r == repo.GetById(restaurantId)
      ensures r.Ok? <==> MayReadRestaurant(clientId, role, restaurantId) && restaurantId in repo.db.restaurants
    {
      if !MayReadRestaurant(clientId, role, restaurantId) then Err(Message("Forbidden"))
      else repo.GetById(restaurantId)
    }

    /** A restaurant's menu, for any user or for the restaurant itself. */
    function GetMenu(clientId: int, role: Role, restaurantId: int): (r: Result<set<MenuItem>>)
      reads repo.db
      ensures r.Ok? <==> MayReadRestaurant(clientId, role, restaurantId)
      ensures r.Err? ==> r.error == Message("Forbidden")
      ensures r.Ok? ==> forall m :: m in r.value <==> m in repo.db.menuItems.Values && m.restaurantId == restaurantId
    {
      if !(role == UserRole || (role == RestaurantRole && restaurantId == clientId)) then Err(Message("Forbidden"))
      else Ok(repo.GetMenu(restaurantId))
    }
  }
}
