/** `CartView` in LittleLemonAPI/views.py: each logged-in user lists, adds to
    and empties their own cart. The cart table holds rows (user, item,
    quantity, unit_price, price) under an auto-incremented key, and never two
    rows with the same (item, user) pair. */
module CartLedger {
  import opened Http
  import opened MenuSerializer

  /** The methods named in the view's `@api_view` decorator. */
  const ALLOWED: set<Method> := {GET, POST, DELETE}

  /** The quantity of a new row when the request names none. */
  const DEFAULT_QUANTITY: int := 1

  datatype CartRow = CartRow(id: nat, user: string, item: ItemId, quantity: int, unitPrice: real, price: real)

  /** The `unit_price` and `price` a new row is saved with; the view never
      computes them. */
  datatype Pricing = Pricing(unitPrice: real, price: real)

  /** The parts of a request the view reads: `item` (a menu-item title) and
      `quantity` from the request data. */
  datatype Request = Request(verb: Method, requester: Principal, itemTitle: Option<string>, quantity: Option<int>)

  datatype Body =
    | Rows(rows: seq<CartRow>)
    | Row(row: CartRow)
    | Message(text: string)
    | NotUnique        // the serializer's "fields item, user must make a unique set" error
    | IncorrectItemType // the serializer's "Incorrect type. Expected pk value" error on `item`
    | FrameworkReply   // produced by the framework: login required, 405, or OPTIONS metadata

  predicate SameKey(a: CartRow, b: CartRow)
  {
    a.item == b.item && a.user == b.user
  }

  /** The table constraints: `unique_together = (item, user)` and distinct
      primary keys, all below the next key to be handed out. */
  predicate TableValid(rows: seq<CartRow>, nextId: nat)
  {
    (forall i, j :: 0 <= i < j < |rows| ==> !SameKey(rows[i], rows[j]) && rows[i].id != rows[j].id)
    && (forall i :: 0 <= i < |rows| ==> rows[i].id < nextId)
  }

  /** Some row already pairs `item` with `user`. */
  predicate HasKey(rows: seq<CartRow>, item: ItemId, user: string)
  {
    exists i :: 0 <= i < |rows| && rows[i].item == item && rows[i].user == user
  }

  /** `Cart.objects.filter(user=user)`, in table order. */
  function RowsOf(rows: seq<CartRow>, user: string): (r: seq<CartRow>)
    ensures forall x :: x in r <==> x in rows && x.user == user
    ensures |r| <= |rows|
  {
    if rows == [] then []
    else (if rows[0].user == user then [rows[0]] else []) + RowsOf(rows[1..], user)
  }

  /** The table after `Cart.objects.filter(user=user).delete()`. */
  function RowsExcept(rows: seq<CartRow>, user: string): (r: seq<CartRow>)
    ensures forall x :: x in r <==> x in rows && x.user != user
    ensures |r| <= |rows|
  {
    if rows == [] then []
    else (if rows[0].user != user then [rows[0]] else []) + RowsExcept(rows[1..], user)
  }

  /** `MenuItem.objects.get(title=item_title)`; a request without a title
      matches no item. */
  function Lookup(catalog: seq<MenuItem>, title: Option<string>): (r: Option<MenuItem>)
    ensures r.Some? ==> r.value in catalog && title == Some(r.value.title)
    ensures r.None? <==> title.None? || forall i :: 0 <= i < |catalog| ==> catalog[i].title != title.value
  {
    if title.None? then None else FindByTitle(catalog, title.value)
  }

  /** The response, table and next key after a POST. */
  datatype Insertion = Insertion(response: Response<Body>, rows: seq<CartRow>, nextId: nat)

  /** POST as written: the item is looked up by title (404 if unknown), but
      the serializer is then given the menu-item object itself as `item`
      where it expects a primary key, so it always rejects the data (400)
      and nothing is saved. */
  function InsertAsWritten(rows: seq<CartRow>, nextId: nat, catalog: seq<MenuItem>, user: string,
                           title: Option<string>, quantity: Option<int>, pricing: Pricing): (r: Insertion)
    ensures Lookup(catalog, title).None? ==>
              r == Insertion(Response(NotFound404, Message("Item not found")), rows, nextId)
    ensures Lookup(catalog, title).Some? ==>
              r == Insertion(Response(BadRequest400, IncorrectItemType), rows, nextId)
  {
    match Lookup(catalog, title)
    case None => Insertion(Response(NotFound404, Message("Item not found")), rows, nextId)
    case Some(_) => Insertion(Response(BadRequest400, IncorrectItemType), rows, nextId)
  }

  /** POST as evidently intended, with the item's key passed to the
      serializer: look the item up by title (404 if unknown), default the
      quantity to 1, let the serializer refuse a second row for the same
      (item, user) pair (400), and otherwise append the new row under the
      next key (201). */
  function Insert(rows: seq<CartRow>, nextId: nat, catalog: seq<MenuItem>, user: string,
                  title: Option<string>, quantity: Option<int>, pricing: Pricing): (r: Insertion)
    ensures Lookup(catalog, title).None? ==>
              r == Insertion(Response(NotFound404, Message("Item not found")), rows, nextId)
    ensures r.response.status == Created201 <==>
              Lookup(catalog, title).Some? && !HasKey(rows, Lookup(catalog, title).value.id, user)
    ensures Lookup(catalog, title).Some? && HasKey(rows, Lookup(catalog, title).value.id, user) ==>
              r == Insertion(Response(BadRequest400, NotUnique), rows, nextId)
    ensures r.response.status != Created201 ==> r.rows == rows && r.nextId == nextId
    ensures r.response.status == Created201 ==>
              var row := CartRow(nextId, user, Lookup(catalog, title).value.id,
                                 if quantity.Some? then quantity.value else DEFAULT_QUANTITY,
                                 pricing.unitPrice, pricing.price);
              r.response.body == Row(row) && r.rows == rows + [row] && r.nextId == nextId + 1
    ensures TableValid(rows, nextId) ==> TableValid(r.rows, r.nextId)
  {
    match Lookup(catalog, title)
    case None => Insertion(Response(NotFound404, Message("Item not found")), rows, nextId)
    case Some(item) =>
      if HasKey(rows, item.id, user) then
        Insertion(Response(BadRequest400, NotUnique), rows, nextId)
      else
        var row := CartRow(nextId, user, item.id,
                           if quantity.Some? then quantity.value else DEFAULT_QUANTITY,
                           pricing.unitPrice, pricing.price);
        Insertion(Response(Created201, Row(row)), rows + [row], nextId + 1)
  }

  /** Adding a menu item that exists to an empty cart: the code as written
      answers 400 and saves nothing, where the intended behaviour saves the
      row and answers 201. */
  lemma KnownTitleRefused()
    ensures var catalog := [MenuItem(7, "Greek Salad", 12.5, 10, 1)];
            var pricing := Pricing(12.5, 12.5);
            var asWritten := InsertAsWritten([], 1, catalog, "alice", Some("Greek Salad"), None, pricing);
            var intended := Insert([], 1, catalog, "alice", Some("Greek Salad"), None, pricing);
            asWritten.response.status == BadRequest400 && asWritten.rows == []
            && intended.response.status == Created201
            && intended.rows == [CartRow(1, "alice", 7, 1, 12.5, 12.5)]
  {
  }

  /** The table constraints survive dropping the first row. */
  lemma TableValidTail(rows: seq<CartRow>, nextId: nat)
    requires rows != [] && TableValid(rows, nextId)
    ensures TableValid(rows[1..], nextId)
  {
  }

  /** A row that clashes with no row of a valid table can be put in front. */
  lemma TableValidCons(x: CartRow, rest: seq<CartRow>, nextId: nat)
    requires TableValid(rest, nextId) && x.id < nextId
    requires forall y :: y in rest ==> !SameKey(x, y) && x.id != y.id
    ensures TableValid([x] + rest, nextId)
  {
  }

  /** Deleting a user's rows keeps the table constraints. */
  lemma {:induction false} RowsExceptValid(rows: seq<CartRow>, nextId: nat, user: string)
    requires TableValid(rows, nextId)
    ensures TableValid(RowsExcept(rows, user), nextId)
  {
    if rows != [] {
      var head, tail := rows[0], rows[1..];
      TableValidTail(rows, nextId);
      RowsExceptValid(tail, nextId, user);
      var rest := RowsExcept(tail, user);
      if head.user != user {
        assert RowsExcept(rows, user) == [head] + rest;
        forall y | y in rest
          ensures !SameKey(head, y) && head.id != y.id
        {
          var k :| 0 <= k < |tail| && tail[k] == y;
          assert y == rows[k + 1];
        }
        TableValidCons(head, rest, nextId);
      } else {
        assert RowsExcept(rows, user) == rest;
      }
    }
  }

  /** Filtering a table that grew by one row: the row joins the listing of
      its own user only. */
  lemma {:induction false} RowsOfAppend(rows: seq<CartRow>, x: CartRow, user: string)
    ensures RowsOf(rows + [x], user) == RowsOf(rows, user) + (if x.user == user then [x] else [])
  {
    if rows == [] {
      assert rows + [x] == [x];
    } else {
      assert (rows + [x])[1..] == rows[1..] + [x];
      RowsOfAppend(rows[1..], x, user);
    }
  }

  /** Emptying one user's cart leaves every other user's cart, in order,
      exactly as it was. */
  lemma {:induction false} EmptyLeavesOthers(rows: seq<CartRow>, user: string, other: string)
    requires other != user
    ensures RowsOf(RowsExcept(rows, user), other) == RowsOf(rows, other)
  {
    if rows != [] {
      var head, tail := rows[0], rows[1..];
      EmptyLeavesOthers(tail, user, other);
      var rest := RowsExcept(tail, user);
      if head.user != user {
        var kept := [head] + rest;
        assert RowsExcept(rows, user) == kept;
        assert kept[0] == head && kept[1..] == rest;
        assert RowsOf(kept, other) == (if head.user == other then [head] else []) + RowsOf(rest, other);
      } else {
        assert RowsExcept(rows, user) == rest;
        assert RowsOf(rows, other) == RowsOf(tail, other);
      }
    }
  }

  /** After emptying, the user's cart lists nothing, and emptying again
      changes nothing. */
  lemma {:induction false} EmptyClearsOwn(rows: seq<CartRow>, user: string)
    ensures RowsOf(RowsExcept(rows, user), user) == []
    ensures RowsExcept(RowsExcept(rows, user), user) == RowsExcept(rows, user)
  {
    if rows != [] {
      var head, tail := rows[0], rows[1..];
      EmptyClearsOwn(tail, user);
      var rest := RowsExcept(tail, user);
      if head.user != user {
        var kept := [head] + rest;
        assert RowsExcept(rows, user) == kept;
        assert kept[0] == head && kept[1..] == rest;
        assert RowsOf(kept, user) == RowsOf(rest, user);
        assert RowsExcept(kept, user) == [head] + RowsExcept(rest, user);
      } else {
        assert RowsExcept(rows, user) == rest;
      }
    }
  }

  /** Adding an item and then listing: the requester's cart gains exactly the
      new row at its end, with the requested (or default) quantity, and every
      other user's cart is unchanged. */
  lemma AddThenList(rows: seq<CartRow>, nextId: nat, catalog: seq<MenuItem>, user: string,
                    title: Option<string>, quantity: Option<int>, pricing: Pricing, other: string)
    requires Insert(rows, nextId, catalog, user, title, quantity, pricing).response.status == Created201
    requires other != user
    ensures var r := Insert(rows, nextId, catalog, user, title, quantity, pricing);
            var row := r.response.body.row;
            RowsOf(r.rows, user) == RowsOf(rows, user) + [row]
            && row.quantity == (if quantity.Some? then quantity.value else DEFAULT_QUANTITY)
            && RowsOf(r.rows, other) == RowsOf(rows, other)
  {
    var r := Insert(rows, nextId, catalog, user, title, quantity, pricing);
    RowsOfAppend(rows, r.response.body.row, user);
    RowsOfAppend(rows, r.response.body.row, other);
  }

  /** The cart table. */
  class CartTable {
    var rows: seq<CartRow>
    var nextId: nat

    ghost predicate Valid()
      reads this
    {
      TableValid(rows, nextId)
    }

    constructor ()
      ensures Valid() && rows == [] && nextId == 1
    {
      rows := [];
      nextId := 1;
    }

    /** GET: the requester's rows. */
    method List(user: string) returns (mine: seq<CartRow>)
      ensures mine == RowsOf(rows, user)
      ensures forall x :: x in mine <==> x in rows && x.user == user
    {
      mine := RowsOf(rows, user);
    }

    /** POST: add a row for the menu item titled `title` (the intended
        behaviour, see `InsertAsWritten`). The body follows the view
        statement by statement and appends to the table in place, as
        `serializer.save()` does; `Insert` is the same behaviour as a value. */
    method Add(user: string, catalog: seq<MenuItem>, title: Option<string>, quantity: Option<int>, pricing: Pricing)
      returns (resp: Response<Body>)
      requires Valid()
      modifies this
      ensures Valid()
      ensures Insertion(resp, rows, nextId) == Insert(old(rows), old(nextId), catalog, user, title, quantity, pricing)
    {
      var found := Lookup(catalog, title);
      if found.None? {
        return Response(NotFound404, Message("Item not found"));
      }
      var item := found.value;
      if HasKey(rows, item.id, user) {
        return Response(BadRequest400, NotUnique);
      }
      var row := CartRow(nextId, user, item.id,
                         if quantity.Some? then quantity.value else DEFAULT_QUANTITY,
                         pricing.unitPrice, pricing.price);
      rows := rows + [row];
      nextId := nextId + 1;
      resp := Response(Created201, Row(row));
    }

    /** DELETE: remove every row of the requester, succeeding even when
        there is none. */
    method Empty(user: string) returns (resp: Response<Body>)
      requires Valid()
      modifies this
      ensures Valid()
      ensures rows == RowsExcept(old(rows), user) && nextId == old(nextId)
      ensures resp == Response(NoContent204, Message("Cart emptied successfully"))
    {
      RowsExceptValid(rows, nextId, user);
      rows := RowsExcept(rows, user);
      resp := Response(NoContent204, Message("Cart emptied successfully"));
    }

    /** One request to the view. */
    method CartView(req: Request, catalog: seq<MenuItem>, pricing: Pricing) returns (resp: Response<Body>)
      requires Valid()
      modifies this
      ensures Valid()
      ensures ApiView(ALLOWED, req.verb, req.requester).Answer? ==>
                resp == Response(ApiView(ALLOWED, req.verb, req.requester).status, FrameworkReply)
                && rows == old(rows) && nextId == old(nextId)
      ensures IsAuthenticated(req.requester) && req.verb == GET ==>
                resp == Response(Ok200, Rows(RowsOf(rows, req.requester.username)))
                && rows == old(rows) && nextId == old(nextId)
      ensures IsAuthenticated(req.requester) && req.verb == POST ==>
                Insertion(resp, rows, nextId)
                == Insert(old(rows), old(nextId), catalog, req.requester.username, req.itemTitle, req.quantity, pricing)
      ensures IsAuthenticated(req.requester) && req.verb == DELETE ==>
                resp.status == NoContent204
                && rows == RowsExcept(old(rows), req.requester.username) && nextId == old(nextId)
    {
      var pre := ApiView(ALLOWED, req.verb, req.requester);
      if pre.Answer? {
        return Response(pre.status, FrameworkReply);
      }
      var user := req.requester.username;
      if req.verb == GET {
        var mine := List(user);
        resp := Response(Ok200, Rows(mine));
      } else if req.verb == POST {
        resp := Add(user, catalog, req.itemTitle, req.quantity, pricing);
      } else if req.verb == DELETE {
        resp := Empty(user);
      } else {
        resp := Response(BadRequest400, Message("Invalid request"));
      }
    }
  }
}
