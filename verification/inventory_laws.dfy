/**
  Properties of the inventory route that relate several calls or connect
  a handler's result to an independent description of the store: ledger
  consistency, referential integrity, id uniqueness, reuse of locations and
  what the listing shows after a registration.
 */
module InventoryLaws {
  import opened Js
  import opened Text
  import opened Http
  import opened AdminAuth
  import opened InventoryStore
  import opened InventoryRoute

  /** The fallback code is "ITEM-" followed by `Date.now()` in decimal, and it can be read back */
  lemma CodeFallbackEncodesClock(b: Body, dateNow: nat)
    requires TrimmedText(b.code) == "" && TrimmedText(b.sku) == ""
    ensures |ItemCode(b, dateNow)| > |CodePrefix|
    ensures ItemCode(b, dateNow)[..|CodePrefix|] == CodePrefix
    ensures AllDigits(ItemCode(b, dateNow)[|CodePrefix|..])
    ensures DecimalValue(ItemCode(b, dateNow)[|CodePrefix|..]) == dateNow
  {
    var code := ItemCode(b, dateNow);
    FirstNonBlankPicksFirst([b.code, b.sku], CodePrefix + Decimal(dateNow));
    assert code == CodePrefix + Decimal(dateNow);
    assert code[|CodePrefix|..] == Decimal(dateNow);
    DecimalRoundTrip(dateNow);
  }

  /** `code` wins over `sku`, which wins over the fallback; likewise `name`/`description` and `unit`/`baseUnit` */
  lemma FieldPrecedence(b: Body, dateNow: nat)
    ensures TrimmedText(b.code) != "" ==> ItemCode(b, dateNow) == Trim(b.code.s)
    ensures TrimmedText(b.code) == "" && TrimmedText(b.sku) != "" ==> ItemCode(b, dateNow) == Trim(b.sku.s)
    ensures TrimmedText(b.name) != "" ==> ItemName(b) == Trim(b.name.s)
    ensures TrimmedText(b.name) == "" && TrimmedText(b.description) != "" ==> ItemName(b) == Trim(b.description.s)
    ensures TrimmedText(b.name) == "" && TrimmedText(b.description) == "" ==> ItemName(b) == DefaultName
    ensures TrimmedText(b.unit) != "" ==> ItemUnit(b) == Trim(b.unit.s)
    ensures TrimmedText(b.unit) == "" && TrimmedText(b.baseUnit) != "" ==> ItemUnit(b) == Trim(b.baseUnit.s)
    ensures TrimmedText(b.unit) == "" && TrimmedText(b.baseUnit) == "" ==> ItemUnit(b) == DefaultUnit
  {
    var codes := [b.code, b.sku];
    var names := [b.name, b.description];
    var units := [b.unit, b.baseUnit];
    FirstNonBlankPicksFirst(codes, CodePrefix + Decimal(dateNow));
    FirstNonBlankPicksFirst(names, DefaultName);
    FirstNonBlankPicksFirst(units, DefaultUnit);
    assert codes[0] == b.code && codes[1] == b.sku;
    assert names[0] == b.name && names[1] == b.description;
    assert units[0] == b.unit && units[1] == b.baseUnit;
  }

  /** A string `locationName` is used exactly as sent: it is not trimmed, so a blank name is accepted */
  lemma LocationNameNotTrimmed(env: Env, req: Request<Body>, supply: Supply, st: Store)
    requires Authorized(env.adminSecret, req.xAdminSecret, req.authorization)
    requires req.body.locationName.Str? && req.body.locationName.s != ""
    requires MaterialIdOk(req.body) && supply.commits
    requires !NameTaken(st.locations, req.body.locationName.s)
    ensures Post(env, req, supply, st).reply.Created?
    ensures Post(env, req, supply, st).store.locations[|st.locations|].name == req.body.locationName.s
  {
  }

  /** Every movement of a well-formed store belongs to an item other than an unused id */
  lemma FreshItemHasNoMovements(st: Store, itemId: nat)
    requires WellFormed(st) && !HasItemId(st.items, itemId)
    ensures forall m :: m in st.movements ==> m.itemId != itemId
  {
  }

  /**
    The new item's quantity equals the sum of its movement deltas exactly
    when the coerced `initialQty` is neither +Infinity (stored as 0 while a
    movement of +Infinity is appended) nor a negative number (stored as is
    with no movement).
   */
  lemma NewItemLedger(parse: string -> Number, b: Body, supply: Supply, st: Store)
    requires LocationNameOk(b) && MaterialIdOk(b)
    requires WellFormed(st) && !HasItemId(st.items, supply.itemId)
    requires Register(parse, b, supply, st).reply.Created?
    ensures var out := Register(parse, b, supply, st);
            var q := QtyNumber(parse, b);
            LedgerConsistent(out.store, out.reply.value) <==> !(q.PosInfinity? || (q.Finite? && q.value < 0.0))
  {
    var q := QtyNumber(parse, b);
    FreshItemHasNoMovements(st, supply.itemId);
    DeltaTotalNoMovements(st.movements, supply.itemId);
    if Positive(q) {
      DeltaTotalAppend(st.movements, InitialMovement(q, supply), supply.itemId);
    }
  }

  /** The request passes the credential check and both field checks, so it reaches the location step */
  predicate Validated(env: Env, req: Request<Body>) {
    && Authorized(env.adminSecret, req.xAdminSecret, req.authorization)
    && LocationNameOk(req.body) && MaterialIdOk(req.body)
  }

  /**
    The request passes the credential check and both field checks, and the
    store accepts the transaction: the POST answers 201.
   */
  predicate Accepted(env: Env, req: Request<Body>, supply: Supply) {
    Validated(env, req) && supply.commits
  }

  /** A POST creates an item exactly when it is accepted; every other outcome creates nothing */
  lemma CreatedIffAccepted(env: Env, req: Request<Body>, supply: Supply, st: Store)
    ensures Post(env, req, supply, st).reply.Created? <==> Accepted(env, req, supply)
    ensures !Post(env, req, supply, st).reply.Created? ==>
              Post(env, req, supply, st).store.items == st.items
              && Post(env, req, supply, st).store.movements == st.movements
  {
  }

  /** For a finite, non-negative `initialQty` the item a POST creates starts consistent */
  lemma NonNegativeQuantityConsistent(env: Env, req: Request<Body>, supply: Supply, st: Store)
    requires WellFormed(st) && !HasItemId(st.items, supply.itemId)
    requires Accepted(env, req, supply)
    requires QtyNumber(env.parseNumber, req.body).Finite? && QtyNumber(env.parseNumber, req.body).value >= 0.0
    ensures var out := Post(env, req, supply, st);
            LedgerConsistent(out.store, out.reply.value)
  {
    NewItemLedger(env.parseNumber, req.body, supply, st);
  }

  /**
    An `initialQty` that coerces to +Infinity leaves the new item inconsistent:
    its quantity is stored as 0 next to a movement of +Infinity.
   */
  lemma InfiniteQuantityDiverges(env: Env, req: Request<Body>, supply: Supply, st: Store)
    requires WellFormed(st) && !HasItemId(st.items, supply.itemId)
    requires Accepted(env, req, supply)
    requires QtyNumber(env.parseNumber, req.body).PosInfinity?
    ensures Post(env, req, supply, st).reply.value.qty == 0.0
    ensures Post(env, req, supply, st).store.movements == st.movements + [InitialMovement(PosInfinity, supply)]
    ensures !LedgerConsistent(Post(env, req, supply, st).store, Post(env, req, supply, st).reply.value)
  {
  }

  /**
    A negative `initialQty` also leaves the new item inconsistent: the number
    is stored as the quantity with no movement to explain it.
   */
  lemma NegativeQuantityDiverges(env: Env, req: Request<Body>, supply: Supply, st: Store)
    requires WellFormed(st) && !HasItemId(st.items, supply.itemId)
    requires Accepted(env, req, supply)
    requires QtyNumber(env.parseNumber, req.body).Finite? && QtyNumber(env.parseNumber, req.body).value < 0.0
    ensures Post(env, req, supply, st).reply.value.qty == QtyNumber(env.parseNumber, req.body).value
    ensures Post(env, req, supply, st).store.movements == st.movements
    ensures !LedgerConsistent(Post(env, req, supply, st).store, Post(env, req, supply, st).reply.value)
  {
    NewItemLedger(env.parseNumber, req.body, supply, st);
  }

  /** Existing items are kept, and so is the movement total of each of them */
  lemma ExistingLedgersUnchanged(env: Env, req: Request<Body>, supply: Supply, st: Store, it: Item)
    requires it in st.items && it.id != supply.itemId
    ensures it in Post(env, req, supply, st).store.items
    ensures DeltaTotal(Post(env, req, supply, st).store.movements, it.id) == DeltaTotal(st.movements, it.id)
    ensures LedgerConsistent(st, it) ==> LedgerConsistent(Post(env, req, supply, st).store, it)
  {
  }

  /** Registration keeps every item pointing at a stored location and every movement at a stored item */
  lemma RegisterPreservesWellFormed(parse: string -> Number, b: Body, supply: Supply, st: Store)
    requires LocationNameOk(b) && MaterialIdOk(b)
    requires WellFormed(st)
    ensures WellFormed(Register(parse, b, supply, st).store)
  {
    var out := Register(parse, b, supply, st);
    assert forall l :: l in st.locations ==> l in out.store.locations;
    if out.reply.Created? {
      var item := out.reply.value;
      var q := QtyNumber(parse, b);
      var added := if Positive(q) then [InitialMovement(q, supply)] else [];
      var i := FindLocationByName(out.store.locations, b.locationName.s).value;
      assert out.store.locations[i] in out.store.locations;
      AddItemPreservesWellFormed(st, out.store.locations, item, added);
      assert out.store == Store(out.store.locations, st.items + [item], st.movements + added);
    } else {
      AddLocationsPreservesWellFormed(st, out.store.locations);
      assert out.store == st.(locations := out.store.locations);
    }
  }

  /** A POST, accepted or not, keeps the store well-formed */
  lemma PostPreservesWellFormed(env: Env, req: Request<Body>, supply: Supply, st: Store)
    requires WellFormed(st)
    ensures WellFormed(Post(env, req, supply, st).store)
  {
    var out := Post(env, req, supply, st);
    if !out.reply.Unauthorized? && !out.reply.BadRequest? {
      RegisterPreservesWellFormed(env.parseNumber, req.body, supply, st);
    }
  }

  /** With ids the store has not used yet, registration adds no duplicate id */
  lemma RegisterPreservesUniqueIds(parse: string -> Number, b: Body, supply: Supply, st: Store)
    requires LocationNameOk(b) && MaterialIdOk(b)
    requires UniqueIds(st)
    requires !HasLocationId(st.locations, supply.locationId)
    requires !HasItemId(st.items, supply.itemId)
    requires !HasMovementId(st.movements, supply.movementId)
    ensures UniqueIds(Register(parse, b, supply, st).store)
  {
    var out := Register(parse, b, supply, st);
    var name := b.locationName.s;
    var q := QtyNumber(parse, b);
    var newLocations := if NameTaken(st.locations, name) then [] else [Location(supply.locationId, name)];
    assert out.store.locations == st.locations + newLocations;
    if !supply.commits {
      AppendPreservesUniqueIds(st, newLocations, [], []);
      assert out.store == Store(st.locations + newLocations, st.items + [], st.movements + []);
    } else {
      var item := out.reply.value;
      assert item.id == supply.itemId;
      if Positive(q) {
        var m := InitialMovement(q, supply);
        AppendPreservesUniqueIds(st, newLocations, [item], [m]);
      } else {
        AppendPreservesUniqueIds(st, newLocations, [item], []);
        assert out.store.movements == st.movements + [];
      }
    }
  }

  /** A POST with ids the store has not used keeps every table free of duplicate ids */
  lemma PostPreservesUniqueIds(env: Env, req: Request<Body>, supply: Supply, st: Store)
    requires UniqueIds(st)
    requires !HasLocationId(st.locations, supply.locationId)
    requires !HasItemId(st.items, supply.itemId)
    requires !HasMovementId(st.movements, supply.movementId)
    ensures UniqueIds(Post(env, req, supply, st).store)
  {
    var out := Post(env, req, supply, st);
    if !out.reply.Unauthorized? && !out.reply.BadRequest? {
      RegisterPreservesUniqueIds(env.parseNumber, req.body, supply, st);
    }
  }

  /** After the location step the name is taken */
  lemma TakenAfterRegister(parse: string -> Number, b: Body, supply: Supply, st: Store)
    requires LocationNameOk(b) && MaterialIdOk(b)
    ensures NameTaken(Register(parse, b, supply, st).store.locations, b.locationName.s)
  {
  }

  /**
    Find-or-create is idempotent on the name: once a POST has reached the
    location step for a name, a later POST for the same name adds no
    location, whether or not the first transaction committed.
   */
  lemma SecondPostReusesLocation(env: Env, req1: Request<Body>, supply1: Supply,
                                 req2: Request<Body>, supply2: Supply, st: Store)
    requires Validated(env, req1)
    requires req2.body.locationName == req1.body.locationName
    ensures var mid := Post(env, req1, supply1, st).store;
            Post(env, req2, supply2, mid).store.locations == mid.locations
  {
  }

  /** Items of a well-formed store always come with their location in the listing */
  lemma ListedLocationPresent(st: Store, it: Item)
    requires WellFormed(st) && it in st.items
    ensures LocationById(st.locations, it.locationId).Some?
  {
  }

  /**
    Right after a registration, the listing shows the new item with its
    "Alta inicial" movement when the quantity was positive, and with no
    movement otherwise.
   */
  lemma ListingAfterRegister(parse: string -> Number, b: Body, supply: Supply, st: Store)
    requires LocationNameOk(b) && MaterialIdOk(b)
    requires WellFormed(st) && !HasItemId(st.items, supply.itemId)
    requires supply.commits
    ensures var out := Register(parse, b, supply, st);
            var q := QtyNumber(parse, b);
            LatestMovement(out.store.movements, supply.itemId)
              == (if Positive(q) then Some(InitialMovement(q, supply)) else None)
  {
  }
}
