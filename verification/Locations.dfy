/** Where stock lies: resolving a requested location against the warehouse, rack and slot tables, and
    what moving a row there does to the place it had. */
module Locations {
  import opened Stock

  type RackId = nat
  type SlotId = nat

  /** `live` is neither deleted nor inactive. */
  datatype Slot = Slot(rack: RackId, live: bool)
  datatype Rack = Rack(warehouse: WarehouseId, live: bool)

  datatype Hierarchy = Hierarchy(slots: map<SlotId, Slot>, racks: map<RackId, Rack>, warehouses: map<WarehouseId, bool>)

  /** One level of a request: left out, cleared, or set. */
  datatype Level = Absent | Cleared | At(id: nat)

  datatype Location = Location(warehouse: Level, rack: Level, slot: Level)

  // ----- what the request means -----

  /** A slot names its rack, and a rack its warehouse, whatever the request says above them. */
  function RackLevel(h: Hierarchy, loc: Location): Level {
    if loc.slot.At? && loc.slot.id in h.slots then At(h.slots[loc.slot.id].rack) else loc.rack
  }

  function WarehouseLevel(h: Hierarchy, loc: Location): Level {
    var rack := RackLevel(h, loc);
    if rack.At? && rack.id in h.racks then At(h.racks[rack.id].warehouse) else loc.warehouse
  }

  /** Every place named or implied is live, and no named place contradicts the one below it. */
  predicate Fits(h: Hierarchy, loc: Location) {
    var rack, warehouse := RackLevel(h, loc), WarehouseLevel(h, loc);
    && (loc.slot.At? ==> loc.slot.id in h.slots && h.slots[loc.slot.id].live)
    && (rack.At? ==> rack.id in h.racks && h.racks[rack.id].live)
    && (warehouse.At? ==> warehouse.id in h.warehouses && h.warehouses[warehouse.id])
    && (loc.rack.At? ==> rack == loc.rack)
    && (loc.warehouse.At? ==> warehouse == loc.warehouse)
  }

  method ResolveLocation(h: Hierarchy, loc: Location) returns (r: Result<Location>)
    ensures r == if Fits(h, loc) then Ok(Location(WarehouseLevel(h, loc), RackLevel(h, loc), loc.slot))
      else Err(BadRequest)
  {
    var warehouse, rack, slot := loc.warehouse, loc.rack, loc.slot;
    if slot.At? {
      if slot.id !in h.slots || !h.slots[slot.id].live { return Err(BadRequest); }
      var above := h.slots[slot.id].rack;
      if rack.At? && rack.id != above { return Err(BadRequest); }
      rack := At(above);
    }
    if rack.At? {
      if rack.id !in h.racks || !h.racks[rack.id].live { return Err(BadRequest); }
      var above := h.racks[rack.id].warehouse;
      if warehouse.At? && warehouse.id != above { return Err(BadRequest); }
      warehouse := At(above);
    }
    if warehouse.At? {
      if warehouse.id !in h.warehouses || !h.warehouses[warehouse.id] { return Err(BadRequest); }
    }
    return Ok(Location(warehouse, rack, slot));
  }

  /** Every place named is live and stands in the place above it, which is named too. */
  predicate LivePath(h: Hierarchy, x: Location) {
    && (x.slot.At? ==> x.slot.id in h.slots && h.slots[x.slot.id].live && x.rack == At(h.slots[x.slot.id].rack))
    && (x.rack.At? ==>
          x.rack.id in h.racks && h.racks[x.rack.id].live && x.warehouse == At(h.racks[x.rack.id].warehouse))
    && (x.warehouse.At? ==> x.warehouse.id in h.warehouses && h.warehouses[x.warehouse.id])
  }

  /** `x` says what the request says, and more only above a place it names. */
  predicate Completes(loc: Location, x: Location) {
    && x.slot == loc.slot
    && (if x.slot.At? then loc.rack.At? ==> x.rack == loc.rack else x.rack == loc.rack)
    && (if x.rack.At? then loc.warehouse.At? ==> x.warehouse == loc.warehouse else x.warehouse == loc.warehouse)
  }

  /** A request is accepted exactly when it can be completed to a live path, and then there is one way. */
  lemma ResolvesIff(h: Hierarchy, loc: Location)
    ensures Fits(h, loc) <==> exists x :: LivePath(h, x) && Completes(loc, x)
    ensures forall x :: LivePath(h, x) && Completes(loc, x) ==>
      x == Location(WarehouseLevel(h, loc), RackLevel(h, loc), loc.slot)
  {
    if Fits(h, loc) {
      var x := Location(WarehouseLevel(h, loc), RackLevel(h, loc), loc.slot);
      assert LivePath(h, x) && Completes(loc, x);
    }
  }

  // ----- what it does to a row -----

  datatype Place = Place(warehouse: Option<WarehouseId>, rack: Option<RackId>, slot: Option<SlotId>)

  function Put(level: Level, was: Option<nat>): Option<nat> {
    match level case Absent => was case Cleared => None case At(id) => Some(id)
  }

  /** A row's place after the update; levels left out stay as they were. */
  function Moved(h: Hierarchy, place: Place, loc: Location): Place {
    Place(Put(WarehouseLevel(h, loc), place.warehouse), Put(RackLevel(h, loc), place.rack), Put(loc.slot, place.slot))
  }

  /** The slot stands in the rack, and the rack in the warehouse. */
  predicate Consistent(h: Hierarchy, place: Place) {
    && (place.slot.Some? ==> place.slot.value in h.slots && place.rack == Some(h.slots[place.slot.value].rack))
    && (place.rack.Some? ==>
          place.rack.value in h.racks && place.warehouse == Some(h.racks[place.rack.value].warehouse))
  }

  /** What the request leaves out below the lowest level it sets or clears agrees with it: it is empty,
      or already belongs there. */
  predicate NothingLeftBehind(h: Hierarchy, place: Place, loc: Location) {
    if loc.slot.At? then true
    else if loc.rack != Absent then
      loc.slot == Cleared || place.slot == None
      || (loc.rack.At? && place.rack == Some(loc.rack.id))
    else
      loc.warehouse == Absent || place.rack == None
      || (loc.warehouse.At? && place.warehouse == Some(loc.warehouse.id))
  }

  /** An accepted move leaves the row in a consistent place exactly when it leaves nothing behind: to
      name a new warehouse alone keeps the old rack, and to name a new rack alone keeps the old slot. */
  lemma MoveIsConsistentIff(h: Hierarchy, place: Place, loc: Location)
    requires Consistent(h, place) && Fits(h, loc)
    ensures Consistent(h, Moved(h, place, loc)) <==> NothingLeftBehind(h, place, loc)
  {
    var now := Moved(h, place, loc);
    if loc.slot.At? {
      assert now.slot == Some(loc.slot.id) && now.rack == Some(h.slots[loc.slot.id].rack);
    } else if loc.rack.At? {
      assert now.rack == Some(loc.rack.id) && now.warehouse == Some(h.racks[loc.rack.id].warehouse);
    }
  }

  /** A row in rack 1 of warehouse 1 is moved to warehouse 2 and keeps the rack. */
  lemma RackIsLeftBehind()
    ensures var h := Hierarchy(map[], map[1 := Rack(1, true)], map[1 := true, 2 := true]);
      var place, loc := Place(Some(1), Some(1), None), Location(At(2), Absent, Absent);
      && Consistent(h, place) && Fits(h, loc)
      && Moved(h, place, loc) == Place(Some(2), Some(1), None) && !Consistent(h, Moved(h, place, loc))
  {
    var h := Hierarchy(map[], map[1 := Rack(1, true)], map[1 := true, 2 := true]);
    MoveIsConsistentIff(h, Place(Some(1), Some(1), None), Location(At(2), Absent, Absent));
  }

  /** A level that is cleared stays set when the request names a place below it. */
  lemma ClearedIsOverruledIff(h: Hierarchy, place: Place, loc: Location)
    requires Fits(h, loc) && loc.rack == Cleared
    ensures Moved(h, place, loc).rack != None <==> loc.slot.At?
  {}
}
