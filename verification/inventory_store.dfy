/**
  The inventory tables the inventory route reads and writes: locations,
  items and their movements, as sequences in the store's own order. Ids
  and timestamps are assigned by the store and reach the model as
  parameters of the operations that create records.
 */
module InventoryStore {
  import opened Js

  datatype Location = Location(id: nat, name: string)

  /** An inventory item; the optional columns are absent when the handler leaves them out */
  datatype Item = Item(
    id: nat,
    code: string,
    name: string,
    unit: string,
    qty: real,
    materialId: string,
    locationId: nat,
    photoUrl: Option<string>,
    minStock: Option<Number>,
    defaultUnitPrice: Option<Number>)

  /** One change of an item's quantity, with its attribution */
  datatype Movement = Movement(
    id: nat,
    itemId: nat,
    delta: Number,
    reason: string,
    userId: string,
    projectId: string,
    createdAt: int)

  datatype Store = Store(locations: seq<Location>, items: seq<Item>, movements: seq<Movement>)

  /** `findFirst({ where: { name } })`: the position of the first location with exactly that name */
  function FindLocationByName(locations: seq<Location>, name: string): (r: Option<nat>)
    ensures r.Some? ==> r.value < |locations| && locations[r.value].name == name
    ensures r.Some? ==> forall j :: 0 <= j < r.value ==> locations[j].name != name
    ensures r.None? ==> forall j :: 0 <= j < |locations| ==> locations[j].name != name
  {
    if |locations| == 0 then None
    else if locations[0].name == name then Some(0)
    else
      match FindLocationByName(locations[1..], name)
      case None => None
      case Some(i) => Some(i + 1)
  }

  predicate NameTaken(locations: seq<Location>, name: string) {
    exists i :: 0 <= i < |locations| && locations[i].name == name
  }

  /**
    Find-or-create by name: the first location with that name is reused and
    nothing is added; otherwise exactly one location with that name and the
    store's fresh id is appended.
   */
  function ResolveLocation(locations: seq<Location>, name: string, freshId: nat): (r: (Location, seq<Location>))
    ensures NameTaken(locations, name) ==> r.1 == locations
    ensures !NameTaken(locations, name) ==> r.1 == locations + [Location(freshId, name)]
    ensures FindLocationByName(r.1, name).Some?
    ensures r.1[FindLocationByName(r.1, name).value] == r.0
  {
    match FindLocationByName(locations, name)
    case Some(i) => (locations[i], locations)
    case None =>
      var created := Location(freshId, name);
      var after := locations + [created];
      assert after[|locations|] == created;
      assert FindLocationByName(after, name) == Some(|locations|);
      (created, after)
  }

  /** The location an item's `locationId` refers to, as `include: { location: true }` loads it */
  function LocationById(locations: seq<Location>, id: nat): (r: Option<Location>)
    ensures r.Some? ==> r.value in locations && r.value.id == id
    ensures r.None? ==> forall l :: l in locations ==> l.id != id
  {
    if |locations| == 0 then None
    else if locations[0].id == id then Some(locations[0])
    else LocationById(locations[1..], id)
  }

  /**
    `movements: { orderBy: { createdAt: "desc" }, take: 1 }`: a movement of
    the item with the greatest `createdAt`; among equal times the first in
    store order.
   */
  function LatestMovement(movements: seq<Movement>, itemId: nat): (r: Option<Movement>)
    ensures r.Some? ==> r.value in movements && r.value.itemId == itemId
    ensures r.Some? ==> forall m :: m in movements && m.itemId == itemId ==> m.createdAt <= r.value.createdAt
    ensures r.None? ==> forall m :: m in movements ==> m.itemId != itemId
  {
    if |movements| == 0 then None
    else
      var rest := LatestMovement(movements[1..], itemId);
      var m := movements[0];
      assert forall x :: x in movements ==> x == m || x in movements[1..];
      if m.itemId != itemId then rest
      else if rest.None? || rest.value.createdAt <= m.createdAt then Some(m)
      else rest
  }

  /**
    The sum of the deltas of an item's movements, or None when one of them
    is not a finite number (so no real sum exists).
   */
  function DeltaTotal(movements: seq<Movement>, itemId: nat): Option<real> {
    if |movements| == 0 then Some(0.0)
    else
      var before := DeltaTotal(movements[..|movements| - 1], itemId);
      var m := movements[|movements| - 1];
      if m.itemId != itemId then before
      else if before.Some? && m.delta.Finite? then Some(before.value + m.delta.value)
      else None
  }

  /** An item's stored quantity is explained by its movement history */
  predicate LedgerConsistent(st: Store, item: Item) {
    DeltaTotal(st.movements, item.id) == Some(item.qty)
  }

  predicate HasLocationId(locations: seq<Location>, id: nat) {
    exists l :: l in locations && l.id == id
  }

  predicate HasItemId(items: seq<Item>, id: nat) {
    exists it :: it in items && it.id == id
  }

  predicate HasMovementId(movements: seq<Movement>, id: nat) {
    exists m :: m in movements && m.id == id
  }

  /** Referential integrity: items point at stored locations, movements at stored items */
  predicate WellFormed(st: Store) {
    && (forall it :: it in st.items ==> HasLocationId(st.locations, it.locationId))
    && (forall m :: m in st.movements ==> HasItemId(st.items, m.itemId))
  }

  /** No id is used twice within a table */
  predicate UniqueIds(st: Store) {
    && (forall i, j :: 0 <= i < j < |st.locations| ==> st.locations[i].id != st.locations[j].id)
    && (forall i, j :: 0 <= i < j < |st.items| ==> st.items[i].id != st.items[j].id)
    && (forall i, j :: 0 <= i < j < |st.movements| ==> st.movements[i].id != st.movements[j].id)
  }

  /** Appending a movement adds its delta to its own item's total and leaves every other total alone */
  lemma DeltaTotalAppend(movements: seq<Movement>, m: Movement, itemId: nat)
    ensures m.itemId != itemId ==> DeltaTotal(movements + [m], itemId) == DeltaTotal(movements, itemId)
    ensures m.itemId == itemId ==>
              DeltaTotal(movements + [m], itemId) ==
                (if DeltaTotal(movements, itemId).Some? && m.delta.Finite?
                 then Some(DeltaTotal(movements, itemId).value + m.delta.value) else None)
  {
  }

  /** An item nobody's movement refers to has an empty history */
  lemma {:induction false} DeltaTotalNoMovements(movements: seq<Movement>, itemId: nat)
    requires forall m :: m in movements ==> m.itemId != itemId
    ensures DeltaTotal(movements, itemId) == Some(0.0)
  {
    if |movements| > 0 {
      var init := movements[..|movements| - 1];
      assert forall m :: m in init ==> m in movements;
      DeltaTotalNoMovements(init, itemId);
      assert movements[|movements| - 1] in movements;
    }
  }

  /** A store keeps its referential integrity when locations are only added */
  lemma AddLocationsPreservesWellFormed(st: Store, locations: seq<Location>)
    requires WellFormed(st)
    requires forall l :: l in st.locations ==> l in locations
    ensures WellFormed(st.(locations := locations))
  {
  }

  /**
    A store keeps its referential integrity when locations are only added,
    one item at a stored location is added, and every added movement refers
    to that item.
   */
  lemma AddItemPreservesWellFormed(st: Store, locations: seq<Location>, item: Item, added: seq<Movement>)
    requires WellFormed(st)
    requires forall l :: l in st.locations ==> l in locations
    requires HasLocationId(locations, item.locationId)
    requires forall m :: m in added ==> m.itemId == item.id
    ensures WellFormed(Store(locations, st.items + [item], st.movements + added))
  {
  }

  /** Appending records whose ids are new keeps every table free of duplicate ids */
  lemma AppendPreservesUniqueIds(st: Store, newLocations: seq<Location>, newItems: seq<Item>, newMovements: seq<Movement>)
    requires UniqueIds(st)
    requires |newLocations| <= 1 && |newItems| <= 1 && |newMovements| <= 1
    requires forall l :: l in newLocations ==> !HasLocationId(st.locations, l.id)
    requires forall it :: it in newItems ==> !HasItemId(st.items, it.id)
    requires forall m :: m in newMovements ==> !HasMovementId(st.movements, m.id)
    ensures UniqueIds(Store(st.locations + newLocations, st.items + newItems, st.movements + newMovements))
  {
  }
}
