/** The menu_items table and the category links of its rows, as MenuItemPg reads and writes them. */
module MenuRepository {
  import opened Domain
  import opened Store
  import opened CategoryRepository

  /** The error of a menu item lookup by id and restaurant that found no row. */
  const NotRestaurantsItem := Message("menu item does not belong to this restaurant")

  /** A menu item with this id exists and belongs to the restaurant. */
  predicate OwnsItem(items: map<int, MenuItem>, restaurantId: int, menuItemId: int) {
    menuItemId in items && items[menuItemId].restaurantId == restaurantId
  }

  /**
   * The row a partial UPDATE leaves: the non-empty title, image and
   * description and a non-zero price of input overwrite the stored ones.
   */
  function PatchMenuItem(stored: MenuItem, input: MenuItem): (r: MenuItem)
    ensures r.id == stored.id && r.restaurantId == stored.restaurantId
    ensures r.title == (if input.title != "" then input.title else stored.title)
    ensures r.image == (if input.image != "" then input.image else stored.image)
    ensures r.description == (if input.description != "" then input.description else stored.description)
    ensures r.price == (if input.price != 0 then input.price else stored.price)
  {
    stored.(
      title := if input.title != "" then input.title else stored.title,
      image := if input.image != "" then input.image else stored.image,
      description := if input.description != "" then input.description else stored.description,
      price := if input.price != 0 then input.price else stored.price)
  }

  /** The input sets at least one column of the UPDATE. */
  predicate SetsSomeColumn(input: MenuItem) {
    input.title != "" || input.image != "" || input.description != "" || input.price != 0
  }

  /** The links after every link of the item is deleted and one link to the category is inserted. */
  function RelinkItem(links: set<CategoryLink>, menuItemId: int, categoryId: int): (r: set<CategoryLink>)
    ensures forall l :: l in r <==> (l in links && l.menuItemId != menuItemId) || l == CategoryLink(categoryId, menuItemId)
  {
    (set l | l in links && l.menuItemId != menuItemId) + {CategoryLink(categoryId, menuItemId)}
  }

  /** After relinking, the item is listed in exactly the one category, and every other item keeps its links. */
  lemma RelinkItemSingleCategory(links: set<CategoryLink>, menuItemId: int, categoryId: int, c: int)
    ensures CategoryLink(c, menuItemId) in RelinkItem(links, menuItemId, categoryId) <==> c == categoryId
    ensures forall m :: m != menuItemId ==>
              (CategoryLink(c, m) in RelinkItem(links, menuItemId, categoryId) <==> CategoryLink(c, m) in links)
  {
  }

  class MenuItemPg {
    const db: Database

    constructor (db: Database)
      ensures this.db == db
    {
      this.db := db;
    }

    /** The menu item with this id, read without its price (which reads as 0), or no row. */
    function GetById(menuItemId: int): (r: Result<MenuItem>)
      requires db.Valid()
      reads db
      ensures r.Ok? <==> menuItemId in db.menuItems
      ensures r.Err? ==> r.error == NoRows
      ensures r.Ok? ==> r.value.price == 0 && r.value.id == menuItemId
                        && r.value.(price := db.menuItems[menuItemId].price) == db.menuItems[menuItemId]
    {
      if menuItemId in db.menuItems then Ok(db.menuItems[menuItemId].(price := 0)) else Err(NoRows)
    }

    /**
     * Updates a menu item of the restaurant. A non-zero categoryId must name
     * a category of the restaurant; the item is then moved to exactly that
     * category (statements outside the transaction, so they stay written).
     * Then the non-empty title, image and description and a non-zero price
     * are written; with none of them the UPDATE has an empty SET list and
     * fails.
     */
    method UpdateMenuItem(restaurantId: int, menuItemId: int, categoryId: int, input: MenuItem) returns (r: Outcome)
      requires db.Valid()
      modifies db`menuItems, db`categoryItems
      ensures db.Valid()
      ensures !OwnsItem(old(db.menuItems), restaurantId, menuItemId) ==>
                r == Fail(NotRestaurantsItem) && db.categoryItems == old(db.categoryItems)
      ensures OwnsItem(old(db.menuItems), restaurantId, menuItemId) && categoryId != 0
              && !Owns(db.categories, restaurantId, categoryId) ==>
                r == Fail(NotRestaurantsCategory) && db.categoryItems == old(db.categoryItems)
      ensures r.Pass? <==> && OwnsItem(old(db.menuItems), restaurantId, menuItemId)
                           && (categoryId != 0 ==> Owns(db.categories, restaurantId, categoryId))
                           && SetsSomeColumn(input)
      ensures OwnsItem(old(db.menuItems), restaurantId, menuItemId)
              && (categoryId != 0 ==> Owns(db.categories, restaurantId, categoryId)) ==>
                && (r.Fail? ==> r.error == MalformedQuery)
                && db.categoryItems == if categoryId != 0 then RelinkItem(old(db.categoryItems), menuItemId, categoryId)
                                       else old(db.categoryItems)
      ensures db.menuItems == if r.Pass? then old(db.menuItems)[menuItemId := PatchMenuItem(old(db.menuItems)[menuItemId], input)]
                              else old(db.menuItems)
    {
      if !(menuItemId in db.menuItems && db.menuItems[menuItemId].restaurantId == restaurantId) {
        return Fail(NotRestaurantsItem);
      }
      if categoryId != 0 {
        if !(categoryId in db.categories && db.categories[categoryId].restaurantId == restaurantId) {
          return Fail(NotRestaurantsCategory);
        }
        db.categoryItems := RelinkItem(db.categoryItems, menuItemId, categoryId);
      }
      var setValues: seq<string> := [];
      if input.title != "" {
        setValues := setValues + ["title"];
      }
      if input.image != "" {
        setValues := setValues + ["image"];
      }
      if input.description != "" {
        setValues := setValues + ["description"];
      }
      if input.price != 0 {
        setValues := setValues + ["price"];
      }
      if setValues == [] {
        return Fail(MalformedQuery);
      }
      db.menuItems := db.menuItems[menuItemId := PatchMenuItem(db.menuItems[menuItemId], input)];
      r := Pass;
    }

    /** Inserts the menu item, lists it in the category and returns its fresh id. */
    method Create(menuItem: MenuItem, categoryId: int) returns (id: int)
      requires db.Valid()
      modifies db`menuItems, db`nextMenuItemId, db`categoryItems
      ensures db.Valid()
      ensures id > 0 && id !in old(db.menuItems)
      ensures db.menuItems == old(db.menuItems)[id := menuItem.(id := id)]
      ensures db.categoryItems == old(db.categoryItems) + {CategoryLink(categoryId, id)}
    {
      id := db.nextMenuItemId;
      db.menuItems := db.menuItems[id := menuItem.(id := id)];
      db.nextMenuItemId := id + 1;
      db.categoryItems := db.categoryItems + {CategoryLink(categoryId, id)};
    }

    /** Sets the image of the menu item. */
    method UpdateImage(menuItemId: int, image: string)
      requires db.Valid()
      modifies db`menuItems
      ensures db.Valid()
      ensures db.menuItems == if menuItemId in old(db.menuItems)
                              then old(db.menuItems)[menuItemId := old(db.menuItems)[menuItemId].(image := image)]
                              else old(db.menuItems)
    {
      if menuItemId in db.menuItems {
        db.menuItems := db.menuItems[menuItemId := db.menuItems[menuItemId].(image := image)];
      }
    }

    /** Removes the menu item. */
    method DeleteItem(menuItemId: int)
      requires db.Valid()
      modifies db`menuItems
      ensures db.Valid()
      ensures db.menuItems == old(db.menuItems) - {menuItemId}
    {
      db.menuItems := db.menuItems - {menuItemId};
    }
  }
}
