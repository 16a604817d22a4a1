/** The categories table and its category_items links, as CategoryPg reads and writes them. */
module CategoryRepository {
  import opened Domain
  import opened Store

  /** The error of a category lookup by id and restaurant that found no row. */
  const NotRestaurantsCategory := Message("category does not belong to this restaurant")

  /** A category with this id exists and belongs to the restaurant. */
  predicate Owns(categories: map<int, Category>, restaurantId: int, categoryId: int) {
    categoryId in categories && categories[categoryId].restaurantId == restaurantId
  }

  /** The links that remain once every link of the category is deleted. */
  function UnlinkCategory(links: set<CategoryLink>, categoryId: int): (r: set<CategoryLink>)
    ensures forall l :: l in r <==> l in links && l.categoryId != categoryId
  {
    set l | l in links && l.categoryId != categoryId
  }

  class CategoryPg {
    const db: Database

    constructor (db: Database)
      ensures this.db == db
    {
      this.db := db;
    }

    /** Inserts the category and returns its fresh id. */
    method Create(category: Category) returns (id: int)
      requires db.Valid()
      modifies db`categories, db`nextCategoryId
      ensures db.Valid()
      ensures id > 0 && id !in old(db.categories)
      ensures db.categories == old(db.categories)[id := category.(id := id)]
    {
      id := db.nextCategoryId;
      db.categories := db.categories[id := category.(id := id)];
      db.nextCategoryId := id + 1;
    }

    /** The restaurant's categories, in no particular order. */
    function GetAll(restaurantId: int): (r: set<Category>)
      reads db
      ensures forall c :: c in r ==> c in db.categories.Values && c.restaurantId == restaurantId
      ensures forall id :: id in db.categories && db.categories[id].restaurantId == restaurantId
                ==> db.categories[id] in r
    {
      set id | id in db.categories && db.categories[id].restaurantId == restaurantId :: db.categories[id]
    }

    /** The category with this id, or no row. */
    function GetById(categoryId: int): (r: Result<Category>)
      requires db.Valid()
      reads db
      ensures r.Ok? <==> categoryId in db.categories
      ensures r.Err? ==> r.error == NoRows
      ensures r.Ok? ==> r.value == db.categories[categoryId] && r.value.id == categoryId
    {
      if categoryId in db.categories then Ok(db.categories[categoryId]) else Err(NoRows)
    }

    /** The menu items a category_items link puts in the category, in no particular order. */
    function GetAllItems(categoryId: int): (r: set<MenuItem>)
      requires db.Valid()
      reads db
      ensures forall m :: m in r ==> m in db.menuItems.Values && CategoryLink(categoryId, m.id) in db.categoryItems
      ensures forall id :: id in db.menuItems && CategoryLink(categoryId, id) in db.categoryItems
                ==> db.menuItems[id] in r
    {
      set id | id in db.menuItems && CategoryLink(categoryId, id) in db.categoryItems :: db.menuItems[id]
    }

    /**
     * Deletes a category of the restaurant together with every link to it;
     * a category that is not the restaurant's is refused and nothing changes.
     */
    method DeleteCategory(restaurantId: int, categoryId: int) returns (r: Outcome)
      requires db.Valid()
      modifies db`categories, db`categoryItems
      ensures db.Valid()
      ensures r.Pass? <==> Owns(old(db.categories), restaurantId, categoryId)
      ensures r.Fail? ==> r.error == NotRestaurantsCategory
                          && db.categories == old(db.categories) && db.categoryItems == old(db.categoryItems)
      ensures r.Pass? ==> db.categories == old(db.categories) - {categoryId}
                          && db.categoryItems == UnlinkCategory(old(db.categoryItems), categoryId)
    {
      if !(categoryId in db.categories && db.categories[categoryId].restaurantId == restaurantId) {
        return Fail(NotRestaurantsCategory);
      }
      db.categoryItems := UnlinkCategory(db.categoryItems, categoryId);
      db.categories := db.categories - {categoryId};
      r := Pass;
    }

    /**
     * Renames a category of the restaurant when the new title is non-empty;
     * a category that is not the restaurant's is refused and nothing changes.
     */
    method UpdateCategory(restaurantId: int, categoryId: int, input: Category) returns (r: Outcome)
      requires db.Valid()
      modifies db`categories
      ensures db.Valid()
      ensures r.Pass? <==> Owns(old(db.categories), restaurantId, categoryId)
      ensures r.Fail? ==> r.error == NotRestaurantsCategory
      ensures db.categories == if r.Pass? && input.title != ""
                               then old(db.categories)[categoryId := old(db.categories)[categoryId].(title := input.title)]
                               else old(db.categories)
    {
      if !(categoryId in db.categories && db.categories[categoryId].restaurantId == restaurantId) {
        return Fail(NotRestaurantsCategory);
      }
      if input.title != "" {
        db.categories := db.categories[categoryId := db.categories[categoryId].(title := input.title)];
      }
      r := Pass;
    }
  }
}
