/** The category use cases: a restaurant creates its own categories; users and the restaurant list them. */
module CategoryService {
  import opened Domain
  import opened Roles
  import opened Store
  import opened CategoryRepository

  class CategoryService {
    const repo: CategoryPg

    constructor (repo: CategoryPg)
      ensures this.repo == repo
    {
      this.repo := repo;
    }

    /** A restaurant creates a category of its own; anything else is refused and nothing is stored. */
    method Create(clientId: int, role: Role, category: Category) returns (r: Result<int>)
      requires repo.db.Valid()
      modifies repo.db`categories, repo.db`nextCategoryId
      ensures repo.db.Valid()
      ensures r.Ok? <==> role == RestaurantRole && category.restaurantId == clientId
      ensures r.Err? ==> r.error == Message("Forbidden") && repo.db.categories == old(repo.db.categories)
      ensures r.Ok? ==> r.value !in old(repo.db.categories)
                        && repo.db.categories == old(repo.db.categories)[r.value := category.(id := r.value)]
    {
      if !(role == RestaurantRole && category.restaurantId == clientId) {
        return Err(Message("Forbidden"));
      }
      var id := repo.Create(category);
      r := Ok(id);
    }

    /** A restaurant's categories, for any user or for the restaurant itself. */
    function GetAll(clientId: int, role: Role, restaurantId: int): (r: Result<set<Category>>)
      reads repo.db
      ensures r.Ok? <==> role == UserRole || (role == RestaurantRole && restaurantId == clientId)
      ensures r.Err? ==> r.error == Message("Forbidden")
      ensures r.Ok? ==> forall c :: c in r.value <==> c in repo.db.categories.Values && c.restaurantId == restaurantId
    {
      if !(role == UserRole || (role == RestaurantRole && restaurantId == clientId)) then
        Err(Message("Forbidden"))
      else
        Ok(repo.GetAll(restaurantId))
    }
  }
}
