/** `MenuItemSerializer` in LittleLemonAPI/serializer.py: the price and
    inventory checks of `validate`, the unique-title validator, and what they
    guarantee about the menu catalog when items are created or updated through
    the menu-item views. Prices are exact decimals, modelled as `real`. */
module MenuSerializer {
  import opened Http

  type ItemId = nat

  /** The inclusive lower bound on a menu item's price. */
  const MIN_PRICE: real := 2.0

  datatype MenuItem = MenuItem(id: ItemId, title: string, price: real, inventory: int, categoryId: int)

  /** The fields of a create request, every one of them present. */
  datatype Fields = Fields(title: string, price: real, inventory: int, categoryId: int)

  /** The `attrs` dictionary the framework hands to `validate`: a key is
      absent (`None`) when a partial update (PATCH) did not send it. */
  datatype Attrs = Attrs(title: Option<string>, price: Option<real>, inventory: Option<int>, categoryId: Option<int>)

  datatype MenuError =
    | NoSuchItem              // the item to update does not exist
    | DuplicateTitle          // the unique-title validator refused the title
    | PriceBelowMinimum       // 'Price should not be less than 2.0'
    | NegativeInventory       // 'Stock cannot be negative'
    | MissingKey(key: string) // `attrs[key]` raised KeyError

  /** The status each error reaches the client with; an uncaught KeyError is
      a server error. */
  function ErrorStatus(e: MenuError): (s: Status)
    ensures s == ServerError500 <==> e.MissingKey?
    ensures s == NotFound404 <==> e == NoSuchItem
    ensures e.DuplicateTitle? || e.PriceBelowMinimum? || e.NegativeInventory? ==> s == BadRequest400
  {
    match e
    case NoSuchItem => NotFound404
    case MissingKey(_) => ServerError500
    case _ => BadRequest400
  }

  /** What every stored menu item is meant to satisfy. */
  predicate ItemInvariant(item: MenuItem)
  {
    item.price >= MIN_PRICE && item.inventory >= 0
  }

  function AllPresent(f: Fields): (a: Attrs)
    ensures a.price.Some? && a.inventory.Some? && a.title.Some?
  {
    Attrs(Some(f.title), Some(f.price), Some(f.inventory), Some(f.categoryId))
  }

  /** `validate(attrs)` as written: the price check, then the inventory check,
      each reading its key directly from `attrs`. */
  function Validate(attrs: Attrs): (r: Result<Attrs, MenuError>)
    ensures r.Ok? ==> r.value == attrs
    ensures r.Ok? <==> attrs.price.Some? && attrs.price.value >= MIN_PRICE
                       && attrs.inventory.Some? && attrs.inventory.value >= 0
    ensures attrs.price.Some? && attrs.price.value < MIN_PRICE ==> r == Err(PriceBelowMinimum)
    ensures (attrs.price.Some? && attrs.price.value >= MIN_PRICE
             && attrs.inventory.Some? && attrs.inventory.value < 0) ==> r == Err(NegativeInventory)
    ensures attrs.price.None? ==> r == Err(MissingKey("price"))
    ensures (attrs.price.Some? && attrs.price.value >= MIN_PRICE && attrs.inventory.None?) ==>
              r == Err(MissingKey("inventory"))
  {
    match attrs.price
    case None => Err(MissingKey("price"))
    case Some(price) =>
      if price < MIN_PRICE then Err(PriceBelowMinimum)
      else
        match attrs.inventory
        case None => Err(MissingKey("inventory"))
        case Some(inventory) =>
          if inventory < 0 then Err(NegativeInventory) else Ok(attrs)
  }

  /** The item an update produces: sent attributes replace the stored ones. */
  function Merge(current: MenuItem, attrs: Attrs): (item: MenuItem)
    ensures item.id == current.id
    ensures item.price == (if attrs.price.Some? then attrs.price.value else current.price)
    ensures item.inventory == (if attrs.inventory.Some? then attrs.inventory.value else current.inventory)
    ensures item.title == (if attrs.title.Some? then attrs.title.value else current.title)
    ensures item.categoryId == (if attrs.categoryId.Some? then attrs.categoryId.value else current.categoryId)
  {
    MenuItem(current.id,
             if attrs.title.Some? then attrs.title.value else current.title,
             if attrs.price.Some? then attrs.price.value else current.price,
             if attrs.inventory.Some? then attrs.inventory.value else current.inventory,
             if attrs.categoryId.Some? then attrs.categoryId.value else current.categoryId)
  }

  /** `validate` as evidently intended for an update: the same two checks in
      the same order, applied to the values the item will have once saved, so
      a partial update that leaves price or inventory out is checked against
      the stored value instead of failing. */
  function ValidateMerged(current: MenuItem, attrs: Attrs): (r: Result<Attrs, MenuError>)
    ensures r.Ok? ==> r.value == attrs
    ensures r.Ok? <==> ItemInvariant(Merge(current, attrs))
    ensures r.Err? ==> r.error == PriceBelowMinimum || r.error == NegativeInventory
    ensures Merge(current, attrs).price < MIN_PRICE ==> r == Err(PriceBelowMinimum)
    ensures Merge(current, attrs).price >= MIN_PRICE && Merge(current, attrs).inventory < 0 ==>
              r == Err(NegativeInventory)
  {
    var item := Merge(current, attrs);
    if item.price < MIN_PRICE then Err(PriceBelowMinimum)
    else if item.inventory < 0 then Err(NegativeInventory)
    else Ok(attrs)
  }

  /** A PATCH that only renames a valid item fails in `validate` with a
      KeyError, although the renamed item would satisfy every check. */
  lemma PartialUpdateWithoutPrice()
    ensures var current := MenuItem(1, "Greek salad", 12.5, 10, 1);
            var attrs := Attrs(Some("Greek salad XL"), None, None, None);
            ItemInvariant(current) && ItemInvariant(Merge(current, attrs))
            && Validate(attrs) == Err(MissingKey("price"))
            && ErrorStatus(Validate(attrs).error) == ServerError500
            && ValidateMerged(current, attrs) == Ok(attrs)
  {
  }

  /** When both keys are sent, the corrected check and the original agree. */
  lemma ValidateMergedAgrees(current: MenuItem, attrs: Attrs)
    requires attrs.price.Some? && attrs.inventory.Some?
    ensures ValidateMerged(current, attrs) == Validate(attrs)
  {
  }

  /** The unique-title validator: another item (not the one being updated)
      already carries `title`. */
  predicate TitleTaken(catalog: seq<MenuItem>, title: string, instance: Option<ItemId>)
  {
    exists i :: 0 <= i < |catalog| && catalog[i].title == title && instance != Some(catalog[i].id)
  }

  /** The menu catalog as the serializer keeps it: distinct keys, distinct
      titles, and every item within the price and inventory bounds. */
  predicate CatalogValid(catalog: seq<MenuItem>)
  {
    (forall i :: 0 <= i < |catalog| ==> ItemInvariant(catalog[i]))
    && (forall i, j :: 0 <= i < j < |catalog| ==>
          catalog[i].id != catalog[j].id && catalog[i].title != catalog[j].title)
  }

  /** The position of the item with key `id`, searching from position `from`. */
  function IndexOfId(catalog: seq<MenuItem>, id: ItemId, from: nat): (r: Option<nat>)
    requires from <= |catalog|
    ensures r.Some? ==> from <= r.value < |catalog| && catalog[r.value].id == id
    ensures r.Some? ==> forall i :: from <= i < r.value ==> catalog[i].id != id
    ensures r.None? <==> forall i :: from <= i < |catalog| ==> catalog[i].id != id
    decreases |catalog| - from
  {
    if from == |catalog| then None
    else if catalog[from].id == id then Some(from)
    else IndexOfId(catalog, id, from + 1)
  }

  /** `MenuItem.objects.get(title=title)`: the item carrying `title`, which
      in a valid catalog is the only one. */
  function FindByTitle(catalog: seq<MenuItem>, title: string): (r: Option<MenuItem>)
    ensures r.Some? ==> r.value in catalog && r.value.title == title
    ensures r.None? <==> forall i :: 0 <= i < |catalog| ==> catalog[i].title != title
    ensures CatalogValid(catalog) && r.Some? ==>
              forall i :: 0 <= i < |catalog| && catalog[i].title == title ==> catalog[i] == r.value
  {
    if catalog == [] then None
    else if catalog[0].title == title then Some(catalog[0])
    else
      var rest := FindByTitle(catalog[1..], title);
      assert forall i :: 1 <= i < |catalog| ==> catalog[i] == catalog[1..][i - 1];
      rest
  }

  /** Creating a menu item (POST on the collection): the unique-title
      validator runs before `validate`, and an accepted item is stored under
      the fresh key `id` that the database hands out. */
  function CreateItem(catalog: seq<MenuItem>, f: Fields, id: ItemId): (r: Result<seq<MenuItem>, MenuError>)
    requires forall i :: 0 <= i < |catalog| ==> catalog[i].id != id
    ensures r.Ok? <==> !TitleTaken(catalog, f.title, None) && f.price >= MIN_PRICE && f.inventory >= 0
    ensures r.Ok? ==> r.value == catalog + [MenuItem(id, f.title, f.price, f.inventory, f.categoryId)]
    ensures TitleTaken(catalog, f.title, None) ==> r == Err(DuplicateTitle)
    ensures r.Err? ==> !r.error.MissingKey? && r.error != NoSuchItem
    ensures !TitleTaken(catalog, f.title, None) && r.Err? ==> r.error == Validate(AllPresent(f)).error
    ensures CatalogValid(catalog) && r.Ok? ==> CatalogValid(r.value)
  {
    if TitleTaken(catalog, f.title, None) then Err(DuplicateTitle)
    else
      match Validate(AllPresent(f))
      case Err(e) => Err(e)
      case Ok(_) => Ok(catalog + [MenuItem(id, f.title, f.price, f.inventory, f.categoryId)])
  }

  /** Updating the item with key `id` (PUT, or PATCH with only some keys):
      404 when absent, then the unique-title validator (which ignores the item
      itself), then the price and inventory checks on the merged values. */
  function UpdateItem(catalog: seq<MenuItem>, id: ItemId, attrs: Attrs): (r: Result<seq<MenuItem>, MenuError>)
    // 404 exactly for an unknown key; for a known key, the title refusal first, then the bound checks (400).
    ensures r == Err(NoSuchItem) <==> forall i :: 0 <= i < |catalog| ==> catalog[i].id != id
    ensures (IndexOfId(catalog, id, 0).Some? && attrs.title.Some? && TitleTaken(catalog, attrs.title.value, Some(id))) ==>
              r == Err(DuplicateTitle)
    ensures (IndexOfId(catalog, id, 0).Some? && !(attrs.title.Some? && TitleTaken(catalog, attrs.title.value, Some(id)))
             && r.Err?) ==>
              ValidateMerged(catalog[IndexOfId(catalog, id, 0).value], attrs) == Err(r.error)
    ensures r.Ok? <==>
              (exists k :: 0 <= k < |catalog| && catalog[k].id == id
                           && (forall i :: 0 <= i < k ==> catalog[i].id != id)
                           && ItemInvariant(Merge(catalog[k], attrs)))
              && !(attrs.title.Some? && TitleTaken(catalog, attrs.title.value, Some(id)))
    ensures r.Ok? ==> exists k :: 0 <= k < |catalog| && catalog[k].id == id
                        && r.value == catalog[k := Merge(catalog[k], attrs)]
                        && ItemInvariant(Merge(catalog[k], attrs))
    ensures attrs.title.Some? && TitleTaken(catalog, attrs.title.value, Some(id)) ==> r.Err?
    ensures r.Err? ==> !r.error.MissingKey?
    ensures CatalogValid(catalog) && r.Ok? ==> CatalogValid(r.value)
  {
    match IndexOfId(catalog, id, 0)
    case None => Err(NoSuchItem)
    case Some(k) =>
      if attrs.title.Some? && TitleTaken(catalog, attrs.title.value, Some(id)) then Err(DuplicateTitle)
      else
        match ValidateMerged(catalog[k], attrs)
        case Err(e) => Err(e)
        case Ok(_) => Ok(catalog[k := Merge(catalog[k], attrs)])
  }
}
