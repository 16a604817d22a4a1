/**
 * The menu item use cases: users and the owning restaurant read menu items;
 * only the owning restaurant creates, changes and deletes them.
 */
module MenuService {
  import opened Domain
  import opened Roles
  import opened Store
  import opened CategoryRepository
  import opened MenuRepository

  /** The error of a menu item that exists but is listed under another restaurant. */
  const NoSuchItem := Message("No such menu item for this restaurant")

  /** The restaurant acts on its own data. */
  predicate IsRestaurantItself(clientId: int, role: Role, restaurantId: int) {
    role == RestaurantRole && restaurantId == clientId
  }

  class MenuItemService {
    const repo: MenuItemPg
    const categoryRepo: CategoryPg

    constructor (repo: MenuItemPg, categoryRepo: CategoryPg)
      ensures this.repo == repo && this.categoryRepo == categoryRepo
    {
      this.repo := repo;
      this.categoryRepo := categoryRepo;
    }

    /**
     * A menu item of the restaurant, without its price, for any user or for
     * the restaurant itself.
     */
    function GetById(clientId: int, role: Role, menuItemId: int, restaurantId: int): (r: Result<MenuItem>)
      requires repo.db.Valid()
      reads repo.db
      ensures !(role == UserRole || IsRestaurantItself(clientId, role, restaurantId)) ==> r == Err(Message("Forbidden"))
      ensures r.Ok? <==> && (role == UserRole || IsRestaurantItself(clientId, role, restaurantId))
                         && menuItemId in repo.db.menuItems && repo.db.menuItems[menuItemId].restaurantId == restaurantId
      ensures (role == UserRole || IsRestaurantItself(clientId, role, restaurantId)) && menuItemId !in repo.db.menuItems
              ==> r == Err(NoRows)
      ensures ((role == UserRole || IsRestaurantItself(clientId, role, restaurantId)) && menuItemId in repo.db.menuItems
               && repo.db.menuItems[menuItemId].restaurantId != restaurantId) ==> r == Err(NoSuchItem)
      ensures r.Ok? ==> r.value == repo.db.menuItems[menuItemId].(price := 0)
    {
      if !(role == UserRole || (role == RestaurantRole && restaurantId == clientId)) then
        Err(Message("Forbidden"))
      else
        var item := repo.GetById(menuItemId);
        if item.Err? then Err(item.error)
        else if item.value.restaurantId != restaurantId then Err(NoSuchItem)
        else Ok(item.value)
    }

    /** The restaurant itself updates one of its menu items, as the repository's partial update does. */
    method UpdateMenuItem(clientId: int, role: Role, restaurantId: int, menuItemId: int, categoryId: int,
                          input: MenuItem) returns (r: Outcome)
      requires repo.db.Valid()
      modifies repo.db`menuItems, repo.db`categoryItems
      ensures repo.db.Valid()
      ensures !IsRestaurantItself(clientId, role, restaurantId) ==>
                r == Fail(Message("forbidden")) && repo.db.menuItems == old(repo.db.menuItems)
                && repo.db.categoryItems == old(repo.db.categoryItems)
      ensures r.Pass? <==> && IsRestaurantItself(clientId, role, restaurantId)
                           && OwnsItem(old(repo.db.menuItems), restaurantId, menuItemId)
                           && (categoryId != 0 ==> Owns(repo.db.categories, restaurantId, categoryId))
                           && SetsSomeColumn(input)
      ensures repo.db.menuItems == if r.Pass?
                                   then old(repo.db.menuItems)[menuItemId := PatchMenuItem(old(repo.db.menuItems)[menuItemId], input)]
                                   else old(repo.db.menuItems)
      ensures IsRestaurantItself(clientId, role, restaurantId) ==>
                repo.db.categoryItems ==
                  if && categoryId != 0 && OwnsItem(old(repo.db.menuItems), restaurantId, menuItemId)
                     && Owns(repo.db.categories, restaurantId, categoryId)
                  then RelinkItem(old(repo.db.categoryItems), menuItemId, categoryId)
                  else old(repo.db.categoryItems)
      ensures repo.db.categoryItems != old(repo.db.categoryItems) ==>
                && IsRestaurantItself(clientId, role, restaurantId) && categoryId != 0
                && OwnsItem(old(repo.db.menuItems), restaurantId, menuItemId)
                && Owns(repo.db.categories, restaurantId, categoryId)
                && repo.db.categoryItems == RelinkItem(old(repo.db.categoryItems), menuItemId, categoryId)
    {
      if !(role == RestaurantRole && restaurantId == clientId) {
        return Fail(Message("forbidden"));
      }
      r := repo.UpdateMenuItem(restaurantId, menuItemId, categoryId, input);
    }

    /**
     * A restaurant adds a menu item of its own to one of its own categories;
     * anything else, including a category that cannot be found, is refused.
     */
    method Create(clientId: int, role: Role, menuItem: MenuItem, categoryId: int) returns (r: Result<int>)
      requires repo.db == categoryRepo.db  // both repositories share one connection
      requires repo.db.Valid()
      modifies repo.db`menuItems, repo.db`nextMenuItemId, repo.db`categoryItems
      ensures repo.db.Valid()
      ensures r.Ok? <==> && IsRestaurantItself(clientId, role, menuItem.restaurantId)
                         && Owns(old(repo.db.categories), clientId, categoryId)
      ensures r.Err? ==> r.error == Message("forbidden")
                         && repo.db.menuItems == old(repo.db.menuItems)
                         && repo.db.categoryItems == old(repo.db.categoryItems)
      ensures r.Ok? ==> && r.value !in old(repo.db.menuItems)
                        && repo.db.menuItems == old(repo.db.menuItems)[r.value := menuItem.(id := r.value)]
                        && repo.db.categoryItems == old(repo.db.categoryItems) + {CategoryLink(categoryId, r.value)}
    {
      if !(role == RestaurantRole && menuItem.restaurantId == clientId) {
        return Err(Message("forbidden"));
      }
      var category := categoryRepo.GetById(categoryId);
      if category.Err? || clientId != category.value.restaurantId {
        return Err(Message("forbidden"));
      }
      var id := repo.Create(menuItem, categoryId);
      r := Ok(id);
    }

    /**
     * The restaurant itself sets the image of one of its menu items and gets
     * the item back as read after the write.
     */
    method UpdateImage(clientId: int, role: Role, restaurantId: int, menuItemId: int, image: string)
      returns (r: Result<MenuItem>)
      requires repo.db.Valid()
      modifies repo.db`menuItems
      ensures repo.db.Valid()
      ensures !IsRestaurantItself(clientId, role, restaurantId) ==> r == Err(Message("Forbidden"))
      ensures IsRestaurantItself(clientId, role, restaurantId) && menuItemId !in old(repo.db.menuItems) ==> r == Err(NoRows)
      ensures (IsRestaurantItself(clientId, role, restaurantId) && menuItemId in old(repo.db.menuItems)
               && old(repo.db.menuItems)[menuItemId].restaurantId != restaurantId) ==> r == Err(NoSuchItem)
      ensures r.Ok? <==> IsRestaurantItself(clientId, role, restaurantId) && OwnsItem(old(repo.db.menuItems), restaurantId, menuItemId)
      ensures r.Ok? ==> repo.db.menuItems == old(repo.db.menuItems)[menuItemId := old(repo.db.menuItems)[menuItemId].(image := image)]
                        && r.value == repo.db.menuItems[menuItemId].(price := 0) && r.value.image == image
      ensures r.Err? ==> repo.db.menuItems == old(repo.db.menuItems)
    {
      if role != RestaurantRole || restaurantId != clientId {
        return Err(Message("Forbidden"));
      }
      var item := repo.GetById(menuItemId);
      if item.Err? {
        return Err(item.error);
      }
      if item.value.restaurantId != restaurantId {
        return Err(NoSuchItem);
      }
      repo.UpdateImage(menuItemId, image);
      r := repo.GetById(menuItemId);
    }

    /**
     * The restaurant itself deletes one of its menu items; the lookup comes
     * first, so a missing item is reported before the caller is checked.
     */
    method Delete(clientId: int, role: Role, restaurantId: int, menuItemId: int) returns (r: Outcome)
      requires repo.db.Valid()
      modifies repo.db`menuItems
      ensures repo.db.Valid()
      ensures menuItemId !in old(repo.db.menuItems) ==> r == Fail(NoRows)
      ensures r.Pass? <==> && menuItemId in old(repo.db.menuItems) && role == RestaurantRole
                           && old(repo.db.menuItems)[menuItemId].restaurantId == clientId && restaurantId == clientId
      ensures menuItemId in old(repo.db.menuItems) && r.Fail? ==> r == Fail(Forbidden(role))
      ensures repo.db.menuItems == if r.Pass? then old(repo.db.menuItems) - {menuItemId} else old(repo.db.menuItems)
    {
      var item := repo.GetById(menuItemId);
      if item.Err? {
        return Fail(item.error);
      }
      if !(role == RestaurantRole && item.value.restaurantId == clientId && restaurantId == clientId) {
        return Fail(Forbidden(role));
      }
      repo.DeleteItem(menuItemId);
      r := Pass;
    }
  }
}
