/**
  The inventory API: POST registers one item at a location (creating the
  location by name when needed) together with its initial movement, GET
  lists every item with its location and latest movement.
 */
module InventoryRoute {
  import opened Js
  import opened Text
  import opened Http
  import opened AdminAuth
  import opened InventoryStore

  /** The fields the POST handler reads from the JSON body */
  datatype Body = Body(
    code: Value,
    sku: Value,
    name: Value,
    description: Value,
    unit: Value,
    baseUnit: Value,
    photoUrl: Value,
    locationName: Value,
    initialQty: Value,
    minStock: Value,
    defaultUnitPrice: Value,
    materialId: Value)

  /**
    What the store and the clock supply to one POST: the ids the store would
    give a new location, item and movement, `Date.now()`, the movement's
    `createdAt`, and whether the store accepts the transaction's writes.
   */
  datatype Supply = Supply(
    locationId: nat,
    itemId: nat,
    movementId: nat,
    dateNow: nat,
    createdAt: int,
    commits: bool)

  const MissingFields: string := "Faltan campos"
  const LocationNameRequired: string := "locationName es requerido"
  const MaterialIdRequired: string := "materialId (string) es requerido"

  const CodePrefix: string := "ITEM-"
  const DefaultName: string := "Producto"
  const DefaultUnit: string := "PZA"

  const InitialReason: string := "Alta inicial"
  const SystemUser: string := "system"
  const InventoryProject: string := "inventory"

  /** `typeof v === "string" ? v.trim() : ""` */
  function TrimmedText(v: Value): (r: string)
    ensures IsTrimmed(r)
    ensures r != "" <==> v.Str? && !Blank(v.s)
    ensures v.Str? ==> r == Trim(v.s)
    ensures !v.Str? ==> r == ""
  {
    if v.Str? then Trim(v.s) else ""
  }

  /**
    `(typeof a === "string" && a.trim()) || (typeof b === "string" && b.trim()) || … || fallback`:
    the trimmed text of the first candidate that is a non-blank string
    (characterised by `FirstNonBlankPicksFirst`).
   */
  function FirstNonBlank(candidates: seq<Value>, fallback: string): (r: string)
    ensures r != fallback ==> r != "" && IsTrimmed(r)
  {
    if |candidates| == 0 then fallback
    else if TrimmedText(candidates[0]) != "" then TrimmedText(candidates[0])
    else FirstNonBlank(candidates[1..], fallback)
  }

  /**
    The fallback chain picks the candidate at index `i` exactly when it is
    the first non-blank string, and the fallback when there is none.
   */
  lemma {:induction false} FirstNonBlankPicksFirst(candidates: seq<Value>, fallback: string)
    ensures (forall i :: 0 <= i < |candidates| ==> TrimmedText(candidates[i]) == "") ==>
              FirstNonBlank(candidates, fallback) == fallback
    ensures forall i :: 0 <= i < |candidates| && TrimmedText(candidates[i]) != ""
              && (forall j :: 0 <= j < i ==> TrimmedText(candidates[j]) == "")
              ==> FirstNonBlank(candidates, fallback) == TrimmedText(candidates[i])
    decreases |candidates|
  {
    if |candidates| > 0 {
      FirstNonBlankPicksFirst(candidates[1..], fallback);
      forall i | 0 < i < |candidates|
        ensures candidates[1..][i - 1] == candidates[i]
      {
      }
    }
  }

  /**
    The POST body passes the first check, `!locationName || typeof
    locationName !== "string"`, only with a string, and a string is truthy
    exactly when it is not empty.
   */
  predicate LocationNameOk(b: Body)
    ensures LocationNameOk(b) <==> Truthy(b.locationName) && b.locationName.Str?
  {
    b.locationName.Str? && b.locationName.s != ""
  }

  /**
    The POST body passes the second check, on `materialId`, only with a
    string that is not blank after trimming.
   */
  predicate MaterialIdOk(b: Body)
    ensures MaterialIdOk(b) <==> b.materialId.Str? && !Blank(b.materialId.s)
  {
    TrimmedText(b.materialId) != ""
  }

  /** `Number(initialQty ?? 0)`: an absent or null quantity is 0, anything else is coerced */
  function QtyNumber(parse: string -> Number, b: Body): (r: Number)
    ensures b.initialQty.Undefined? || b.initialQty.Null? ==> r == Finite(0.0)
    ensures b.initialQty.Num? ==> r == b.initialQty.n
    ensures b.initialQty.Str? ==> r == parse(b.initialQty.s)
  {
    ToNumber(parse, Coalesce(b.initialQty, Num(Finite(0.0))))
  }

  /** `Number(minStock ?? 0)`: an absent or null minimum is 0, anything else is coerced */
  function MinNumber(parse: string -> Number, b: Body): (r: Number)
    ensures b.minStock.Undefined? || b.minStock.Null? ==> r == Finite(0.0)
    ensures b.minStock.Num? ==> r == b.minStock.n
    ensures b.minStock.Str? ==> r == parse(b.minStock.s)
  {
    ToNumber(parse, Coalesce(b.minStock, Num(Finite(0.0))))
  }

  /** `code`, else `sku`, else "ITEM-" and the clock */
  function ItemCode(b: Body, dateNow: nat): (r: string)
    ensures r != "" && IsTrimmed(r)
  {
    var fallback := CodePrefix + Decimal(dateNow);
    assert IsTrimmed(fallback) by {
      assert fallback[0] == 'I';
      assert fallback[|fallback| - 1] == Decimal(dateNow)[|Decimal(dateNow)| - 1];
    }
    FirstNonBlankTrimmed([b.code, b.sku], fallback);
    FirstNonBlank([b.code, b.sku], fallback)
  }

  /** `name`, else `description`, else "Producto" */
  function ItemName(b: Body): (r: string)
    ensures r != "" && IsTrimmed(r)
  {
    FirstNonBlankTrimmed([b.name, b.description], DefaultName);
    FirstNonBlank([b.name, b.description], DefaultName)
  }

  /** `unit`, else `baseUnit`, else "PZA" */
  function ItemUnit(b: Body): (r: string)
    ensures r != "" && IsTrimmed(r)
  {
    FirstNonBlankTrimmed([b.unit, b.baseUnit], DefaultUnit);
    FirstNonBlank([b.unit, b.baseUnit], DefaultUnit)
  }

  /** `photoUrl` is stored trimmed, and only when it is a non-blank string */
  function PhotoField(v: Value): (r: Option<string>)
    ensures r.Some? <==> v.Str? && !Blank(v.s)
    ensures r.Some? ==> r.value == Trim(v.s) && r.value != "" && IsTrimmed(r.value)
  {
    if Truthy(v) && v.Str? && Trim(v.s) != "" then Some(Trim(v.s)) else None
  }

  /** `defaultUnitPrice` is stored, converted, only for a number or a non-blank string */
  function PriceField(parse: string -> Number, v: Value): (r: Option<Number>)
    ensures r.Some? <==> v.Num? || (v.Str? && !Blank(v.s))
    ensures v.Num? ==> r == Some(v.n)
    ensures v.Str? && !Blank(v.s) ==> r == Some(parse(v.s))
  {
    if v.Num? || (v.Str? && Trim(v.s) != "") then Some(ToNumber(parse, v)) else None
  }

  /** The row the transaction creates */
  function NewItem(parse: string -> Number, b: Body, materialId: string, locationId: nat, supply: Supply): (r: Item)
    ensures r.id == supply.itemId && r.materialId == materialId && r.locationId == locationId
    ensures r.code != "" && IsTrimmed(r.code)
    ensures r.name != "" && IsTrimmed(r.name)
    ensures r.unit != "" && IsTrimmed(r.unit)
    ensures r.code == ItemCode(b, supply.dateNow) && r.name == ItemName(b) && r.unit == ItemUnit(b)
    ensures QtyNumber(parse, b).Finite? ==> r.qty == QtyNumber(parse, b).value
    ensures !QtyNumber(parse, b).Finite? ==> r.qty == 0.0
    ensures r.photoUrl == PhotoField(b.photoUrl)
    ensures r.minStock.Some? <==> !MinNumber(parse, b).NaN?
    ensures r.minStock.Some? ==> r.minStock.value == MinNumber(parse, b)
    ensures r.defaultUnitPrice == PriceField(parse, b.defaultUnitPrice)
  {
    var qty := QtyNumber(parse, b);
    var minNum := MinNumber(parse, b);
    Item(
      supply.itemId,
      ItemCode(b, supply.dateNow),
      ItemName(b),
      ItemUnit(b),
      if IsFinite(qty) then qty.value else 0.0,
      materialId,
      locationId,
      PhotoField(b.photoUrl),
      if !IsNaN(minNum) then Some(minNum) else None,
      PriceField(parse, b.defaultUnitPrice))
  }

  /** With a trimmed, non-empty fallback every derived field is trimmed and non-empty */
  lemma {:induction false} FirstNonBlankTrimmed(candidates: seq<Value>, fallback: string)
    requires fallback != "" && IsTrimmed(fallback)
    ensures FirstNonBlank(candidates, fallback) != ""
    ensures IsTrimmed(FirstNonBlank(candidates, fallback))
    decreases |candidates|
  {
    if |candidates| > 0 && TrimmedText(candidates[0]) == "" {
      FirstNonBlankTrimmed(candidates[1..], fallback);
    }
  }

  /** The "Alta inicial" movement the transaction appends for a positive quantity */
  function InitialMovement(qty: Number, supply: Supply): (m: Movement)
    ensures m.id == supply.movementId && m.itemId == supply.itemId && m.delta == qty && m.createdAt == supply.createdAt
    ensures m.reason == "Alta inicial" && m.userId == "system" && m.projectId == "inventory"
  {
    Movement(supply.movementId, supply.itemId, qty, InitialReason, SystemUser, InventoryProject, supply.createdAt)
  }

  /**
    The steps after validation: the location is found or created outside
    the transaction, then one transaction creates the item and, when the
    quantity is positive, its initial movement. A refused transaction
    (`supply.commits` false) leaves only the location step behind.
   */
  function Register(parse: string -> Number, b: Body, supply: Supply, st: Store): (out: Handled<Item, Store>)
    requires LocationNameOk(b) && MaterialIdOk(b)
    ensures out.reply.Created? <==> supply.commits
    ensures !out.reply.Created? ==> out.reply.InternalError?
    // the location step happens, and persists, whether or not the transaction commits
    ensures NameTaken(st.locations, b.locationName.s) ==> out.store.locations == st.locations
    ensures !NameTaken(st.locations, b.locationName.s) ==>
              out.store.locations == st.locations + [Location(supply.locationId, b.locationName.s)]
    ensures out.reply.InternalError? ==> out.store.items == st.items && out.store.movements == st.movements
    // a committed transaction adds exactly one item and at most one movement
    ensures out.reply.Created? ==>
              var item := out.reply.value;
              var q := QtyNumber(parse, b);
              && out.store.items == st.items + [item]
              && item == NewItem(parse, b, TrimmedText(b.materialId), item.locationId, supply)
              && FindLocationByName(out.store.locations, b.locationName.s).Some?
              && out.store.locations[FindLocationByName(out.store.locations, b.locationName.s).value].id
                 == item.locationId
              && (Positive(q) ==> out.store.movements == st.movements + [InitialMovement(q, supply)])
              && (!Positive(q) ==> out.store.movements == st.movements)
  {
    var qty := QtyNumber(parse, b);
    var (location, locations) := ResolveLocation(st.locations, b.locationName.s, supply.locationId);
    if !supply.commits then
      Handled(InternalError, st.(locations := locations))
    else
      var item := NewItem(parse, b, TrimmedText(b.materialId), location.id, supply);
      var movements := if Positive(qty) then st.movements + [InitialMovement(qty, supply)] else st.movements;
      Handled(Created(item), Store(locations, st.items + [item], movements))
  }

  /**
    POST /api/inventory. The credential check comes first, then
    `locationName`, then `materialId`; a request that passes all three is
    registered. Rejections leave the store as it was.
   */
  function Post(env: Env, req: Request<Body>, supply: Supply, st: Store): (out: Handled<Item, Store>)
    ensures out.reply.Unauthorized? <==> !Authorized(env.adminSecret, req.xAdminSecret, req.authorization)
    ensures out.reply.BadRequest? <==>
              Authorized(env.adminSecret, req.xAdminSecret, req.authorization)
              && !(LocationNameOk(req.body) && MaterialIdOk(req.body))
    ensures out.reply.BadRequest? ==>
              && out.reply.error == MissingFields
              && out.reply.detail == Some(if LocationNameOk(req.body) then MaterialIdRequired else LocationNameRequired)
    ensures out.reply.Unauthorized? || out.reply.BadRequest? ==> out.store == st
    ensures !out.reply.Unauthorized? && !out.reply.BadRequest? ==>
              LocationNameOk(req.body) && MaterialIdOk(req.body)
              && out == Register(env.parseNumber, req.body, supply, st)
  {
    var b := req.body;
    if !Authorized(env.adminSecret, req.xAdminSecret, req.authorization) then
      Handled(Unauthorized, st)
    else if !Truthy(b.locationName) || !b.locationName.Str? then
      Handled(BadRequest(MissingFields, Some(LocationNameRequired)), st)
    else if TrimmedText(b.materialId) == "" then
      Handled(BadRequest(MissingFields, Some(MaterialIdRequired)), st)
    else
      Register(env.parseNumber, b, supply, st)
  }

  /** One row of GET /api/inventory */
  datatype ItemView = ItemView(item: Item, location: Option<Location>, movements: seq<Movement>)

  /** `shown` is what `take: 1` of the item's movements, newest first, yields */
  predicate ShowsLatest(movements: seq<Movement>, itemId: nat, shown: seq<Movement>) {
    && |shown| <= 1
    && (shown == [] <==> forall m :: m in movements ==> m.itemId != itemId)
    && forall k :: 0 <= k < |shown| ==>
         && shown[k] in movements
         && shown[k].itemId == itemId
         && forall m :: m in movements && m.itemId == itemId ==> m.createdAt <= shown[k].createdAt
  }

  function OptionToSeq(o: Option<Movement>): seq<Movement> {
    match o
    case None => []
    case Some(m) => [m]
  }

  /** GET /api/inventory: every item, in store order, with its location and latest movement */
  function List(st: Store): (views: seq<ItemView>)
    ensures |views| == |st.items|
    ensures forall i :: 0 <= i < |views| ==>
              && views[i].item == st.items[i]
              && views[i].location == LocationById(st.locations, st.items[i].locationId)
              && ShowsLatest(st.movements, st.items[i].id, views[i].movements)
  {
    seq(|st.items|, i requires 0 <= i < |st.items| =>
      ItemView(st.items[i], LocationById(st.locations, st.items[i].locationId),
               OptionToSeq(LatestMovement(st.movements, st.items[i].id))))
  }
}
