/**
 * The shopping cart: the `cart_items` rows of one user, keyed by
 * (user, record). Adding accumulates, updating overwrites or (with 0)
 * deletes, removing deletes; each handler rejects its input in a fixed order
 * with a distinct error class. Listing the cart runs the catalog pipeline on
 * the records the cart names.
 */
module Cart {

  import opened Rows
  import opened Models
  import opened Schema
  import opened Catalog

  // ---------------------------------------------------------------------
  // The cart table as a value

  /** The quantity stored for (u, r), if a row exists. */
  function Qty(cart: seq<CartRow>, u: int, r: int): (q: Option<int>)
    ensures q.Some? <==> (u, r) in KeySet(cart, CartKey)
    ensures q.Some? ==> CartRow(u, r, q.value) in cart
  {
    var f := Find(cart, CartKey, (u, r));
    if f.Some? then Some(f.value.quantity) else None
  }

  /** Every row with key (u, r) has its quantity grown by `q`; the others stay. */
  function Bump(cart: seq<CartRow>, u: int, r: int, q: int): (c: seq<CartRow>)
    ensures |c| == |cart|
    ensures forall i :: 0 <= i < |cart| ==>
      c[i] == if CartKey(cart[i]) == (u, r) then cart[i].(quantity := cart[i].quantity + q) else cart[i]
  {
    seq(|cart|, i requires 0 <= i < |cart| =>
      if CartKey(cart[i]) == (u, r) then cart[i].(quantity := cart[i].quantity + q) else cart[i])
  }

  /**
   * `INSERT ... ON CONFLICT (user_id, record_id) DO UPDATE SET quantity =
   * quantity + excluded.quantity`: the row's quantity grows by `q`, or a new
   * row with `q` is appended.
   */
  function Upsert(cart: seq<CartRow>, u: int, r: int, q: int): (c: seq<CartRow>)
    ensures (u, r) in KeySet(c, CartKey)
    ensures forall x :: CartKey(x) != (u, r) ==> (x in c <==> x in cart)
  {
    if (u, r) in KeySet(cart, CartKey) then
      var c := Bump(cart, u, r, q);
      assert forall x :: CartKey(x) != (u, r) ==> (x in c <==> x in cart) by {
        forall x | CartKey(x) != (u, r) ensures x in c <==> x in cart {
          if x in c { var i :| 0 <= i < |c| && c[i] == x; assert cart[i] == x; }
          if x in cart { var i :| 0 <= i < |cart| && cart[i] == x; assert c[i] == x; }
        }
      }
      var k :| k in cart && CartKey(k) == (u, r);
      var i :| 0 <= i < |cart| && cart[i] == k;
      assert c[i] in c && CartKey(c[i]) == (u, r);
      c
    else
      var c := cart + [CartRow(u, r, q)];
      assert c[|cart|] in c;
      c
  }

  /** `UPDATE cart_items SET quantity = ? WHERE user_id = ? AND record_id = ?`. */
  function SetQty(cart: seq<CartRow>, u: int, r: int, q: int): (c: seq<CartRow>)
    ensures |c| == |cart|
    ensures forall i :: 0 <= i < |cart| ==>
      c[i] == if CartKey(cart[i]) == (u, r) then cart[i].(quantity := q) else cart[i]
  {
    seq(|cart|, i requires 0 <= i < |cart| =>
      if CartKey(cart[i]) == (u, r) then cart[i].(quantity := q) else cart[i])
  }

  /** `DELETE FROM cart_items WHERE user_id = ? AND record_id = ?`. */
  function RemoveRow(cart: seq<CartRow>, u: int, r: int): (c: seq<CartRow>)
    ensures forall x :: x in c <==> x in cart && CartKey(x) != (u, r)
  {
    Filter(cart, (x: CartRow) => CartKey(x) != (u, r))
  }

  // ---------------------------------------------------------------------
  // What the three writes do to the quantities

  /** Keys of rows are unchanged by `Bump` and `SetQty`. */
  lemma SameKeysKeepUnique(cart: seq<CartRow>, c: seq<CartRow>)
    requires UniqueBy(cart, CartKey)
    requires |c| == |cart| && forall i :: 0 <= i < |cart| ==> CartKey(c[i]) == CartKey(cart[i])
    ensures UniqueBy(c, CartKey) && KeySet(c, CartKey) == KeySet(cart, CartKey)
  {
    forall k | k in KeySet(cart, CartKey) ensures k in KeySet(c, CartKey) {
      var i :| 0 <= i < |cart| && CartKey(cart[i]) == k;
      assert c[i] in c;
    }
    forall k | k in KeySet(c, CartKey) ensures k in KeySet(cart, CartKey) {
      var i :| 0 <= i < |c| && CartKey(c[i]) == k;
      assert cart[i] in cart;
    }
  }

  /** Under the key, a row's quantity is what `Qty` reports for the row's key. */
  lemma QtyOfRow(cart: seq<CartRow>, x: CartRow)
    requires UniqueBy(cart, CartKey) && x in cart
    ensures Qty(cart, x.userId, x.recordId) == Some(x.quantity)
  {
    FindUnique(cart, CartKey, x);
  }

  /** Two carts with the same rows outside key k report the same quantity for every other key. */
  lemma QtyOthersAgree(a: seq<CartRow>, b: seq<CartRow>, k: (int, int), u: int, r: int)
    requires UniqueBy(a, CartKey) && UniqueBy(b, CartKey)
    requires forall x :: CartKey(x) != k ==> (x in a <==> x in b)
    requires (u, r) != k
    ensures Qty(a, u, r) == Qty(b, u, r)
  {
    if (u, r) in KeySet(a, CartKey) {
      var x :| x in a && CartKey(x) == (u, r);
      QtyOfRow(a, x);
      QtyOfRow(b, x);
    }
  }

  /**
   * Adding accumulates: the stored quantity becomes the old one plus `q`
   * (or `q` for a new row), the key stays unique, and every other key keeps
   * its quantity.
   */
  lemma UpsertAccumulates(cart: seq<CartRow>, u: int, r: int, q: int)
    requires UniqueBy(cart, CartKey)
    ensures UniqueBy(Upsert(cart, u, r, q), CartKey)
    ensures Qty(Upsert(cart, u, r, q), u, r) ==
      Some(q + (if Qty(cart, u, r).Some? then Qty(cart, u, r).value else 0))
    ensures forall u', r' :: (u', r') != (u, r) ==> Qty(Upsert(cart, u, r, q), u', r') == Qty(cart, u', r')
  {
    var c := Upsert(cart, u, r, q);
    if (u, r) in KeySet(cart, CartKey) {
      BumpAccumulates(cart, u, r, q);
    } else {
      AppendKeepsUnique(cart, CartRow(u, r, q), CartKey);
      QtyOfRow(c, CartRow(u, r, q));
    }
    forall u', r' | (u', r') != (u, r) ensures Qty(c, u', r') == Qty(cart, u', r') {
      QtyOthersAgree(c, cart, (u, r), u', r');
    }
  }

  lemma BumpAccumulates(cart: seq<CartRow>, u: int, r: int, q: int)
    requires UniqueBy(cart, CartKey)
    requires (u, r) in KeySet(cart, CartKey)
    ensures UniqueBy(Bump(cart, u, r, q), CartKey)
    ensures Qty(Bump(cart, u, r, q), u, r) == Some(q + Qty(cart, u, r).value)
  {
    var c := Bump(cart, u, r, q);
    SameKeysKeepUnique(cart, c);
    var x := Find(cart, CartKey, (u, r)).value;
    assert Qty(cart, u, r) == Some(x.quantity);
    var i :| 0 <= i < |cart| && cart[i] == x;
    var y := c[i];
    assert y == x.(quantity := x.quantity + q);
    assert y.userId == u && y.recordId == r && y.quantity == q + x.quantity;
    assert y in c;
    QtyOfRow(c, y);
  }

  /** Adding twice is adding the sum once, row for row. */
  lemma UpsertTwice(cart: seq<CartRow>, u: int, r: int, a: int, b: int)
    ensures Upsert(Upsert(cart, u, r, a), u, r, b) == Upsert(cart, u, r, a + b)
  {
    var c1 := Upsert(cart, u, r, a);
    if (u, r) in KeySet(cart, CartKey) {
      assert Upsert(c1, u, r, b) == Bump(cart, u, r, a + b);
    } else {
      var row := CartRow(u, r, a);
      assert c1 == cart + [row];
      var c2 := Upsert(c1, u, r, b);
      assert (u, r) in KeySet(c1, CartKey);
      forall i | 0 <= i < |cart| ensures CartKey(cart[i]) != (u, r) {
        assert cart[i] in cart;
      }
      assert c2 == cart + [CartRow(u, r, a + b)];
    }
  }

  /**
   * Updating overwrites: the key's quantity becomes `q`, nothing else
   * changes, and a second update simply replaces the first.
   */
  lemma SetQtyOverwrites(cart: seq<CartRow>, u: int, r: int, q: int, q2: int)
    requires UniqueBy(cart, CartKey)
    requires (u, r) in KeySet(cart, CartKey)
    ensures UniqueBy(SetQty(cart, u, r, q), CartKey)
    ensures Qty(SetQty(cart, u, r, q), u, r) == Some(q)
    ensures forall u', r' :: (u', r') != (u, r) ==> Qty(SetQty(cart, u, r, q), u', r') == Qty(cart, u', r')
    ensures SetQty(SetQty(cart, u, r, q), u, r, q2) == SetQty(cart, u, r, q2)
  {
    var c := SetQty(cart, u, r, q);
    SameKeysKeepUnique(cart, c);
    var x := Find(cart, CartKey, (u, r)).value;
    var i :| 0 <= i < |cart| && cart[i] == x;
    var y := c[i];
    assert y == x.(quantity := q);
    assert y.userId == u && y.recordId == r && y.quantity == q;
    assert y in c;
    QtyOfRow(c, y);
    SetQtyKeepsOthers(cart, u, r, q);
    forall u', r' | (u', r') != (u, r) ensures Qty(c, u', r') == Qty(cart, u', r') {
      QtyOthersAgree(c, cart, (u, r), u', r');
    }
  }

  /** `SetQty` leaves every row with another key where it was. */
  lemma SetQtyKeepsOthers(cart: seq<CartRow>, u: int, r: int, q: int)
    ensures forall y :: CartKey(y) != (u, r) ==> (y in SetQty(cart, u, r, q) <==> y in cart)
  {
    var c := SetQty(cart, u, r, q);
    forall y | CartKey(y) != (u, r) ensures y in c <==> y in cart {
      if y in c { var j :| 0 <= j < |c| && c[j] == y; assert cart[j] == y; }
      if y in cart { var j :| 0 <= j < |cart| && cart[j] == y; assert c[j] == y; }
    }
  }

  /** Removing deletes exactly the (u, r) row. */
  lemma RemoveRowDeletes(cart: seq<CartRow>, u: int, r: int)
    requires UniqueBy(cart, CartKey)
    ensures UniqueBy(RemoveRow(cart, u, r), CartKey)
    ensures Qty(RemoveRow(cart, u, r), u, r) == None
    ensures forall u', r' :: (u', r') != (u, r) ==> Qty(RemoveRow(cart, u, r), u', r') == Qty(cart, u', r')
  {
    var c := RemoveRow(cart, u, r);
    FilterKeepsUnique(cart, (x: CartRow) => CartKey(x) != (u, r), CartKey);
    forall u', r' | (u', r') != (u, r) ensures Qty(c, u', r') == Qty(cart, u', r') {
      QtyOthersAgree(c, cart, (u, r), u', r');
    }
  }

  // ---------------------------------------------------------------------
  // The constraints survive

  /** An upsert for an existing user and record keeps every declared constraint. */
  lemma UpsertKeepsWellFormed(t: Tables, u: int, r: int, q: int)
    requires WellFormed(t)
    requires u in KeySet(t.users, UserIdOf) && r in KeySet(t.records, RecordIdOf)
    ensures WellFormed(t.(cartItems := Upsert(t.cartItems, u, r, q)))
  {
    UpsertAccumulates(t.cartItems, u, r, q);
    var c := Upsert(t.cartItems, u, r, q);
    forall x | x in c
      ensures x.userId in KeySet(t.users, UserIdOf) && x.recordId in KeySet(t.records, RecordIdOf)
    {
      if CartKey(x) != (u, r) {
        assert x in t.cartItems;
      }
    }
  }

  lemma SetQtyKeepsWellFormed(t: Tables, u: int, r: int, q: int)
    requires WellFormed(t)
    requires (u, r) in KeySet(t.cartItems, CartKey)
    ensures WellFormed(t.(cartItems := SetQty(t.cartItems, u, r, q)))
  {
    var c := SetQty(t.cartItems, u, r, q);
    SetQtyOverwrites(t.cartItems, u, r, q, q);
    forall x | x in c
      ensures x.userId in KeySet(t.users, UserIdOf) && x.recordId in KeySet(t.records, RecordIdOf)
    {
      var i :| 0 <= i < |c| && c[i] == x;
      assert t.cartItems[i] in t.cartItems;
    }
  }

  lemma RemoveRowKeepsWellFormed(t: Tables, u: int, r: int)
    requires WellFormed(t)
    ensures WellFormed(t.(cartItems := RemoveRow(t.cartItems, u, r)))
  {
    RemoveRowDeletes(t.cartItems, u, r);
  }

  /** The handlers keep every stored quantity at 1 or more. */
  lemma WritesKeepQuantitiesPositive(cart: seq<CartRow>, u: int, r: int, q: int)
    requires QuantitiesPositive(cart) && q >= 1
    ensures QuantitiesPositive(Upsert(cart, u, r, q))
    ensures QuantitiesPositive(SetQty(cart, u, r, q))
    ensures QuantitiesPositive(RemoveRow(cart, u, r))
  {
    var c := Upsert(cart, u, r, q);
    forall x | x in c ensures x.quantity >= 1 {
      if CartKey(x) != (u, r) {
        assert x in cart;
      } else if (u, r) in KeySet(cart, CartKey) {
        var i :| 0 <= i < |c| && c[i] == x;
        assert cart[i] in cart;
      }
    }
    var s := SetQty(cart, u, r, q);
    forall x | x in s ensures x.quantity >= 1 {
      var i :| 0 <= i < |s| && s[i] == x;
      assert cart[i] in cart;
    }
  }

  // ---------------------------------------------------------------------
  // The handlers

  /**
   * `AddToCartHandler`: record id and quantity must be positive (checked
   * before the database is touched); the record must exist; then the upsert,
   * which the engine refuses when the user row is gone.
   */
  method AddToCart(db: Store, userId: int, recordId: int, q: int) returns (st: Status)
    requires db.Valid()
    modifies db`cartItems
    ensures db.Valid()
    ensures recordId <= 0 || q <= 0 ==> st == Rejected(BadRequest)
    ensures recordId > 0 && q > 0 && recordId !in KeySet(db.records, RecordIdOf) ==>
      st == Rejected(RecordNotFound)
    ensures recordId > 0 && q > 0 && recordId in KeySet(db.records, RecordIdOf) ==>
      st == (if userId in KeySet(db.users, UserIdOf) then Done else Rejected(StorageError))
    ensures st == Done ==> db.cartItems == Upsert(old(db.cartItems), userId, recordId, q)
    ensures st != Done ==> db.cartItems == old(db.cartItems)
    ensures QuantitiesPositive(old(db.cartItems)) ==> QuantitiesPositive(db.cartItems)
  {
    if recordId <= 0 || q <= 0 {
      return Rejected(BadRequest);
    }
    if Find(db.records, RecordIdOf, recordId).None? {
      return Rejected(RecordNotFound);
    }
    if Find(db.users, UserIdOf, userId).None? {
      return Rejected(StorageError);
    }
    var before := db.Snapshot();
    UpsertKeepsWellFormed(before, userId, recordId, q);
    if QuantitiesPositive(db.cartItems) {
      WritesKeepQuantitiesPositive(db.cartItems, userId, recordId, q);
    }
    db.SetCartItems(Upsert(db.cartItems, userId, recordId, q));
    st := Done;
  }

  /**
   * `UpdateCartHandler`: the record id must be positive and the quantity not
   * negative. Quantity 0 deletes the row. A positive quantity first needs the
   * record, then the row, and overwrites the stored quantity; a missing row is
   * never created.
   */
  method UpdateCart(db: Store, userId: int, recordId: int, q: int) returns (st: Status)
    requires db.Valid()
    modifies db`cartItems
    ensures db.Valid()
    ensures recordId <= 0 || q < 0 ==> st == Rejected(BadRequest)
    ensures recordId > 0 && q == 0 ==>
      st == (if (userId, recordId) in KeySet(old(db.cartItems), CartKey) then Done else Rejected(ItemNotFound))
    ensures recordId > 0 && q > 0 && recordId !in KeySet(db.records, RecordIdOf) ==>
      st == Rejected(RecordNotFound)
    ensures recordId > 0 && q > 0 && recordId in KeySet(db.records, RecordIdOf) ==>
      st == (if (userId, recordId) in KeySet(old(db.cartItems), CartKey) then Done else Rejected(ItemNotFound))
    ensures st == Done && q == 0 ==> db.cartItems == RemoveRow(old(db.cartItems), userId, recordId)
    ensures st == Done && q > 0 ==> db.cartItems == SetQty(old(db.cartItems), userId, recordId, q)
    ensures st != Done ==> db.cartItems == old(db.cartItems)
    ensures QuantitiesPositive(old(db.cartItems)) ==> QuantitiesPositive(db.cartItems)
  {
    if recordId <= 0 {
      return Rejected(BadRequest);
    }
    if q < 0 {
      return Rejected(BadRequest);
    }
    var before := db.Snapshot();
    if QuantitiesPositive(db.cartItems) {
      WritesKeepQuantitiesPositive(db.cartItems, userId, recordId, if q == 0 then 1 else q);
    }
    if q == 0 {
      if Qty(db.cartItems, userId, recordId).None? {
        return Rejected(ItemNotFound);
      }
      RemoveRowKeepsWellFormed(before, userId, recordId);
      db.SetCartItems(RemoveRow(db.cartItems, userId, recordId));
    } else {
      if Find(db.records, RecordIdOf, recordId).None? {
        return Rejected(RecordNotFound);
      }
      if Qty(db.cartItems, userId, recordId).None? {
        return Rejected(ItemNotFound);
      }
      SetQtyKeepsWellFormed(before, userId, recordId, q);
      db.SetCartItems(SetQty(db.cartItems, userId, recordId, q));
    }
    st := Done;
  }

  /** `RemoveFromCartHandler`: a positive record id, and a row to delete. */
  method RemoveFromCart(db: Store, userId: int, recordId: int) returns (st: Status)
    requires db.Valid()
    modifies db`cartItems
    ensures db.Valid()
    ensures recordId <= 0 ==> st == Rejected(BadRequest)
    ensures recordId > 0 ==>
      st == (if (userId, recordId) in KeySet(old(db.cartItems), CartKey) then Done else Rejected(ItemNotFound))
    ensures st == Done ==> db.cartItems == RemoveRow(old(db.cartItems), userId, recordId)
    ensures st != Done ==> db.cartItems == old(db.cartItems)
  {
    if recordId <= 0 {
      return Rejected(BadRequest);
    }
    if Qty(db.cartItems, userId, recordId).None? {
      return Rejected(ItemNotFound);
    }
    var before := db.Snapshot();
    RemoveRowKeepsWellFormed(before, userId, recordId);
    db.SetCartItems(RemoveRow(db.cartItems, userId, recordId));
    st := Done;
  }

  // ---------------------------------------------------------------------
  // Listing the cart

  /** `SELECT ... FROM cart_items WHERE user_id = ?`: the user's rows, in table order. */
  function CartOf(cart: seq<CartRow>, u: int): (r: seq<CartRow>)
    ensures forall c :: c in r <==> c in cart && c.userId == u
  {
    Filter(cart, (c: CartRow) => c.userId == u)
  }

  /**
   * A cart row as the listing shows it: the record it names, with its linked
   * tracks, or no record at all when the record row is missing.
   */
  function CartItemView(c: CartRow, db: Tables): CartItem {
    var f := Find(db.records, RecordIdOf, c.recordId);
    CartItem(c.userId, c.recordId, c.quantity, if f.Some? then Some(RecordView(f.value, db)) else None)
  }

  /** The item the last loop of the listing builds from the maps of the earlier steps. */
  function Filled(it: CartItem, recordsMap: map<int, RecordRow>, byRecord: map<int, seq<int>>, tm: map<int, Track>): CartItem {
    it.(record :=
      if it.recordId in recordsMap
      then Some(Record(recordsMap[it.recordId], Some(Attach(Linked(byRecord, it.recordId), tm))))
      else None)
  }

  lemma RecordsInKeepsUnique(records: seq<RecordRow>, ids: set<int>)
    requires UniqueBy(records, RecordIdOf)
    ensures UniqueBy(RecordsIn(records, ids), RecordIdOf)
  {
    if ids != {} {
      FilterKeepsUnique(records, (x: RecordRow) => x.id in ids, RecordIdOf);
    }
  }

  /**
   * For a requested id, the map built from the fetched record rows holds it
   * exactly when the records table does, and under the record key holds that
   * table's row.
   */
  lemma FetchedRecordLookup(records: seq<RecordRow>, ids: set<int>, x: int)
    requires x in ids
    ensures x in IndexBy(RecordsIn(records, ids), RecordIdOf) <==> x in KeySet(records, RecordIdOf)
    ensures UniqueBy(records, RecordIdOf) && x in KeySet(records, RecordIdOf) ==>
      IndexBy(RecordsIn(records, ids), RecordIdOf)[x] == Find(records, RecordIdOf, x).value
  {
    var rs := RecordsIn(records, ids);
    if x in KeySet(records, RecordIdOf) {
      var f := Find(records, RecordIdOf, x).value;
      assert f in rs;
      if UniqueBy(records, RecordIdOf) {
        RecordsInKeepsUnique(records, ids);
        IndexByUnique(rs, RecordIdOf, f);
      }
    }
  }

  /** An item filled from the maps the listing builds is the reference view of its cart row. */
  lemma FilledIsView(db: Tables, req: set<int>, recordsMap: map<int, RecordRow>, byRecord: map<int, seq<int>>,
                     tm: map<int, Track>, c: CartRow)
    requires UniqueBy(db.records, RecordIdOf) && UniqueBy(db.tracks, TrackIdOf)
    requires c.recordId in req
    requires recordsMap == IndexBy(RecordsIn(db.records, req), RecordIdOf)
    requires forall r :: Linked(byRecord, r) == LinkedTrackIds(FetchLinks(db.recordTracks, recordsMap.Keys), r)
    requires tm == FetchedTrackMap(db, set x | x in Distinct(TrackIdColumn(FetchLinks(db.recordTracks, recordsMap.Keys))))
    ensures Filled(CartItem(c.userId, c.recordId, c.quantity, None), recordsMap, byRecord, tm) == CartItemView(c, db)
  {
    var rid := c.recordId;
    FetchedRecordLookup(db.records, req, rid);
    if rid in recordsMap {
      PipelineIsRecordView(recordsMap.Keys, db, recordsMap[rid]);
    }
  }

  /**
   * Step 1 of the listing: one item per cart row, no record yet, and the
   * record ids the rows name, each once.
   */
  method StartItems(rows: seq<CartRow>) returns (items: seq<CartItem>, recordIds: seq<int>)
    ensures |items| == |rows|
    ensures forall j :: 0 <= j < |rows| ==>
      items[j] == CartItem(rows[j].userId, rows[j].recordId, rows[j].quantity, None)
    ensures forall c :: c in rows ==> c.recordId in recordIds
    ensures forall x :: x in recordIds ==> exists c :: c in rows && c.recordId == x
    ensures NoDup(recordIds)
  {
    items := [];
    recordIds := [];
    var seen: set<int> := {};
    for i := 0 to |rows|
      invariant |items| == i
      invariant forall j :: 0 <= j < i ==> items[j] == CartItem(rows[j].userId, rows[j].recordId, rows[j].quantity, None)
      invariant forall j :: 0 <= j < i ==> rows[j].recordId in recordIds
      invariant forall x :: x in recordIds ==> exists j :: 0 <= j < i && rows[j].recordId == x
      invariant forall x :: x in seen <==> x in recordIds
      invariant NoDup(recordIds)
    {
      var c := rows[i];
      items := items + [CartItem(c.userId, c.recordId, c.quantity, None)];
      if c.recordId !in seen {
        recordIds := recordIds + [c.recordId];
        seen := seen + {c.recordId};
      }
    }
  }

  /** Step 2 of the listing: the fetched record rows by id, and their ids, each once. */
  method IndexRecords(recRows: seq<RecordRow>) returns (recordsMap: map<int, RecordRow>, fetchedIds: seq<int>)
    ensures recordsMap == IndexBy(recRows, RecordIdOf)
    ensures forall x :: x in fetchedIds <==> x in recordsMap
    ensures NoDup(fetchedIds)
  {
    recordsMap := map[];
    fetchedIds := [];
    var fetched: set<int> := {};
    for i := 0 to |recRows|
      invariant recordsMap == IndexBy(recRows[..i], RecordIdOf)
      invariant forall x :: x in fetched <==> x in fetchedIds
      invariant forall x :: x in fetched <==> x in recordsMap
      invariant NoDup(fetchedIds)
    {
      var rec := recRows[i];
      IndexByStep(recRows, i, RecordIdOf);
      recordsMap := recordsMap[rec.id := rec];
      if rec.id !in fetched {
        fetchedIds := fetchedIds + [rec.id];
        fetched := fetched + {rec.id};
      }
    }
    assert recRows[..|recRows|] == recRows;
  }

  /** Step 5 of the listing: each item gets its record, if fetched, with the record's tracks in link order. */
  method FillItems(items: seq<CartItem>, recordsMap: map<int, RecordRow>, byRecord: map<int, seq<int>>, tm: map<int, Track>)
    returns (out: seq<CartItem>)
    requires forall k :: k in recordsMap ==> recordsMap[k].id == k
    ensures |out| == |items|
    ensures forall j :: 0 <= j < |items| ==> out[j] == Filled(items[j], recordsMap, byRecord, tm)
    ensures forall j :: 0 <= j < |items| ==>
      && out[j].userId == items[j].userId && out[j].recordId == items[j].recordId
      && out[j].quantity == items[j].quantity
      && (out[j].record.Some? <==> items[j].recordId in recordsMap)
      && (out[j].record.Some? ==> out[j].record.value.row.id == out[j].recordId && out[j].record.value.tracks.Some?)
  {
    out := items;
    for i := 0 to |items|
      invariant |out| == |items|
      invariant forall j :: 0 <= j < i ==> out[j] == Filled(items[j], recordsMap, byRecord, tm)
      invariant forall j :: i <= j < |items| ==> out[j] == items[j]
    {
      var rid := out[i].recordId;
      if rid in recordsMap {
        var rec := recordsMap[rid];
        var ts := LinkedTracks(Linked(byRecord, rec.id), tm);
        out := out[i := out[i].(record := Some(Record(rec, Some(ts))))];
      } else {
        out := out[i := out[i].(record := None)];
      }
    }
  }

  /**
   * Steps 2 to 5 of the listing, for items that start with no record: the
   * records the rows name are fetched, their links grouped and their tracks
   * fetched, and each item gets its record.
   */
  method AttachRecords(db: Tables, rows: seq<CartRow>, started: seq<CartItem>, recordIds: seq<int>)
    returns (items: seq<CartItem>)
    requires |started| == |rows|
    requires forall j :: 0 <= j < |rows| ==>
      started[j] == CartItem(rows[j].userId, rows[j].recordId, rows[j].quantity, None)
    requires forall c :: c in rows ==> c.recordId in recordIds
    ensures |items| == |rows|
    ensures forall i :: 0 <= i < |items| ==>
      && items[i].userId == rows[i].userId && items[i].recordId == rows[i].recordId
      && items[i].quantity == rows[i].quantity
      && (items[i].record.Some? <==> rows[i].recordId in KeySet(db.records, RecordIdOf))
    ensures forall i :: 0 <= i < |items| && items[i].record.Some? ==>
      items[i].record.value.row.id == items[i].recordId && items[i].record.value.tracks.Some?
    ensures UniqueBy(db.records, RecordIdOf) && UniqueBy(db.tracks, TrackIdOf) ==>
      forall i :: 0 <= i < |items| ==> items[i] == CartItemView(rows[i], db)
  {
    var req := set x | x in recordIds;
    var recordsMap, fetchedIds := IndexRecords(RecordsIn(db.records, req));
    forall i | 0 <= i < |rows|
      ensures rows[i].recordId in recordsMap <==> rows[i].recordId in KeySet(db.records, RecordIdOf)
    {
      assert rows[i] in rows;
      FetchedRecordLookup(db.records, req, rows[i].recordId);
    }
    items := started;
    if |fetchedIds| > 0 {
      var fetched := recordsMap.Keys;
      var byRecord, tm := GroupAndFetch(FetchLinks(db.recordTracks, fetched), db);
      items := FillItems(started, recordsMap, byRecord, tm);
      if UniqueBy(db.records, RecordIdOf) && UniqueBy(db.tracks, TrackIdOf) {
        forall i | 0 <= i < |items| ensures items[i] == CartItemView(rows[i], db) {
          assert rows[i] in rows;
          FilledIsView(db, req, recordsMap, byRecord, tm, rows[i]);
        }
      }
    } else {
      assert recordsMap.Keys == {};
    }
  }

  /**
   * `GetCartHandler`: one item per cart row of the user, in row order, with
   * its quantity; an item whose record row is missing is kept, with no
   * record. Under the record and track keys every item shows its record's
   * reference view.
   */
  method GetCart(db: Tables, userId: int) returns (items: seq<CartItem>)
    ensures |items| == |CartOf(db.cartItems, userId)|
    ensures forall i :: 0 <= i < |items| ==>
      var c := CartOf(db.cartItems, userId)[i];
      && items[i].userId == c.userId && items[i].recordId == c.recordId && items[i].quantity == c.quantity
      && (items[i].record.Some? <==> c.recordId in KeySet(db.records, RecordIdOf))
    ensures forall i :: 0 <= i < |items| && items[i].record.Some? ==>
      items[i].record.value.row.id == items[i].recordId && items[i].record.value.tracks.Some?
    ensures UniqueBy(db.records, RecordIdOf) && UniqueBy(db.tracks, TrackIdOf) ==>
      forall i :: 0 <= i < |items| ==> items[i] == CartItemView(CartOf(db.cartItems, userId)[i], db)
  {
    var rows := CartOf(db.cartItems, userId);
    var started, recordIds := StartItems(rows);
    if |started| == 0 {
      return started;
    }
    items := AttachRecords(db, rows, started, recordIds);
  }
}
