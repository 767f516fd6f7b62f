/** Which stock units left on a request, and for which request line: picked quantities are placed on
    lines first fit, and merged by unit. */
module IssuedUnits {
  import opened Stock

  type LineId = string

  datatype RequestLine = RequestLine(id: LineId, product: ProductId, issued: Option<real>)

  /** A line of the task: its unit, if it has one, and what was picked. */
  datatype TaskItem = TaskItem(unit: Option<RowId>, product: ProductId, qty: real)

  datatype Pick = Pick(unit: RowId, product: ProductId, qty: real)

  /** A pick and the index of the request line it went to, if any. */
  datatype Placed = Placed(pick: Pick, line: Option<nat>)

  datatype Unit = Unit(unit: RowId, product: ProductId, quantity: real, line: Option<LineId>)

  predicate DistinctLines(lines: seq<RequestLine>) {
    forall i, j :: 0 <= i < j < |lines| ==> lines[i].id != lines[j].id
  }

  // ----- first fit -----

  /** What line `l` was given so far. */
  function Given(placed: seq<Placed>, l: nat): real {
    if placed == [] then 0.0
    else
      var last := placed[|placed| - 1];
      Given(placed[..|placed| - 1], l) + (if last.line == Some(l) then last.pick.qty else 0.0)
  }

  predicate Limited(line: RequestLine) {
    line.issued.Some? && line.issued.value > 0.0
  }

  /** A line without a positive issued quantity has room without limit. */
  predicate HasRoom(line: RequestLine, given: real) {
    Limited(line) ==> line.issued.value - given > 0.0
  }

  predicate Exhausted(lines: seq<RequestLine>, placed: seq<Placed>, l: nat)
    requires l < |lines|
  {
    !HasRoom(lines[l], Given(placed, l))
  }

  /** The first line of the product with room, else its first line, else none. */
  ghost predicate FirstFit(lines: seq<RequestLine>, placed: seq<Placed>, product: ProductId, choice: Option<nat>) {
    match choice
    case None => forall l :: 0 <= l < |lines| ==> lines[l].product != product
    case Some(c) =>
      && c < |lines| && lines[c].product == product
      && if Exhausted(lines, placed, c)
         then forall l :: 0 <= l < |lines| && lines[l].product == product ==> c <= l && Exhausted(lines, placed, l)
         else forall l :: 0 <= l < c && lines[l].product == product ==> Exhausted(lines, placed, l)
  }

  /** The line asks for a quantity and was given that much already. */
  predicate Filled(lines: seq<RequestLine>, placed: seq<Placed>, l: nat)
    requires l < |lines|
  {
    lines[l].issued.Some? && lines[l].issued.value > 0.0 && Given(placed, l) >= lines[l].issued.value
  }

  /** First fit in quantities: the pick goes to the first line of its product that is not filled, to the
      first line of its product when all are, and to no line when there is none. */
  lemma FirstFitMeans(lines: seq<RequestLine>, placed: seq<Placed>, product: ProductId, choice: Option<nat>)
    ensures FirstFit(lines, placed, product, choice) <==>
      if forall l :: 0 <= l < |lines| ==> lines[l].product != product then choice == None
      else
        && choice.Some? && choice.value < |lines| && lines[choice.value].product == product
        && (forall l :: 0 <= l < choice.value && lines[l].product == product ==>
              !Filled(lines, placed, choice.value) && Filled(lines, placed, l))
        && (Filled(lines, placed, choice.value) ==>
              forall l :: 0 <= l < |lines| && lines[l].product == product ==> Filled(lines, placed, l))
  {
    forall l | 0 <= l < |lines| ensures Filled(lines, placed, l) <==> Exhausted(lines, placed, l) {}
  }

  /** Every pick was placed first fit, given the picks before it. */
  ghost predicate AllFirstFit(lines: seq<RequestLine>, placed: seq<Placed>) {
    forall n :: 0 <= n < |placed| ==> FirstFit(lines, placed[..n], placed[n].pick.product, placed[n].line)
  }

  function PicksOf(placed: seq<Placed>): seq<Pick> {
    seq(|placed|, i requires 0 <= i < |placed| => placed[i].pick)
  }

  lemma AllFirstFitPrefix(lines: seq<RequestLine>, placed: seq<Placed>, n: nat)
    requires n <= |placed| && AllFirstFit(lines, placed)
    ensures AllFirstFit(lines, placed[..n])
  {
    forall k | 0 <= k < n ensures placed[..n][..k] == placed[..k] {}
  }

  lemma OneChoice(lines: seq<RequestLine>, placed: seq<Placed>, product: ProductId, a: Option<nat>, b: Option<nat>)
    requires FirstFit(lines, placed, product, a) && FirstFit(lines, placed, product, b)
    ensures a == b
  {}

  /** The rule leaves no choice: the picks decide where each of them goes. */
  lemma {:induction false} PlacementIsUnique(lines: seq<RequestLine>, a: seq<Placed>, b: seq<Placed>)
    requires AllFirstFit(lines, a) && AllFirstFit(lines, b)
    requires |a| == |b| && forall i :: 0 <= i < |a| ==> a[i].pick == b[i].pick
    ensures a == b
  {
    if a != [] {
      var n := |a| - 1;
      AllFirstFitPrefix(lines, a, n);
      AllFirstFitPrefix(lines, b, n);
      PlacementIsUnique(lines, a[..n], b[..n]);
      OneChoice(lines, a[..n], a[n].pick.product, a[n].line, b[n].line);
      assert a == a[..n] + [a[n]] && b == b[..n] + [b[n]];
    }
  }

  predicate Positive(placed: seq<Placed>) {
    forall i :: 0 <= i < |placed| ==> placed[i].pick.qty > 0.0
  }

  predicate Used(placed: seq<Placed>, l: nat) {
    exists i :: 0 <= i < |placed| && placed[i].line == Some(l)
  }

  lemma StaysExhausted(lines: seq<RequestLine>, placed: seq<Placed>, l: nat)
    requires Positive(placed) && placed != [] && l < |lines| && Exhausted(lines, placed[..|placed| - 1], l)
    ensures Exhausted(lines, placed, l)
  {
  }

  lemma LaterIsUsedLast(lines: seq<RequestLine>, before: seq<Placed>, product: ProductId, early: nat, late: nat)
    requires FirstFit(lines, before, product, Some(late))
    requires early < late < |lines| && lines[early].product == lines[late].product
    ensures Exhausted(lines, before, early)
  {
  }

  /** Lines of a product fill in order: while a line has room, no later line of its product is used,
      so a line without a limit takes everything that is left. */
  lemma {:induction false} LinesFillInOrder(lines: seq<RequestLine>, placed: seq<Placed>, early: nat, late: nat)
    requires AllFirstFit(lines, placed) && Positive(placed)
    requires early < late < |lines| && lines[early].product == lines[late].product
    requires Used(placed, late)
    ensures Exhausted(lines, placed, early)
  {
    var n := |placed| - 1;
    var i :| 0 <= i < |placed| && placed[i].line == Some(late);
    if i == n {
      LaterIsUsedLast(lines, placed[..n], placed[n].pick.product, early, late);
    } else {
      assert placed[..n][i].line == Some(late);
      AllFirstFitPrefix(lines, placed, n);
      LinesFillInOrder(lines, placed[..n], early, late);
    }
    StaysExhausted(lines, placed, early);
  }

  // ----- merging by unit -----

  function Merge(units: seq<Unit>, pick: Pick, line: Option<LineId>): seq<Unit> {
    if units == [] then [Unit(pick.unit, pick.product, pick.qty, line)]
    else if units[0].unit == pick.unit then [units[0].(quantity := units[0].quantity + pick.qty)] + units[1..]
    else [units[0]] + Merge(units[1..], pick, line)
  }

  function LineOf(lines: seq<RequestLine>, choice: Option<nat>): Option<LineId> {
    if choice.Some? && choice.value < |lines| then Some(lines[choice.value].id) else None
  }

  function Merged(lines: seq<RequestLine>, placed: seq<Placed>): seq<Unit> {
    if placed == [] then []
    else
      var last := placed[|placed| - 1];
      Merge(Merged(lines, placed[..|placed| - 1]), last.pick, LineOf(lines, last.line))
  }

  /** Quantity picked of a unit. */
  function PickedOf(placed: seq<Placed>, unit: RowId): real {
    if placed == [] then 0.0
    else
      var last := placed[|placed| - 1].pick;
      PickedOf(placed[..|placed| - 1], unit) + (if last.unit == unit then last.qty else 0.0)
  }

  function PickedInAll(placed: seq<Placed>): real {
    if placed == [] then 0.0 else PickedInAll(placed[..|placed| - 1]) + placed[|placed| - 1].pick.qty
  }

  function Quantity(units: seq<Unit>): real {
    if units == [] then 0.0 else units[0].quantity + Quantity(units[1..])
  }

  predicate FirstPick(placed: seq<Placed>, n: nat) {
    n < |placed| && forall i :: 0 <= i < n ==> placed[i].pick.unit != placed[n].pick.unit
  }

  /** `u` is what was picked of one unit: the product and line of its first pick, the quantity of all. */
  predicate Gathers(lines: seq<RequestLine>, placed: seq<Placed>, u: Unit, first: nat) {
    && FirstPick(placed, first)
    && u.unit == placed[first].pick.unit && u.product == placed[first].pick.product
    && u.line == LineOf(lines, placed[first].line)
    && u.quantity == PickedOf(placed, u.unit)
  }

  /** The units are the picked ones, once each, in first-pick order (`firsts`), with nothing lost. */
  ghost predicate Collected(lines: seq<RequestLine>, placed: seq<Placed>, units: seq<Unit>, firsts: seq<nat>) {
    && InOrder(lines, placed, units, firsts)
    && Covers(units, placed)
    && Quantity(units) == PickedInAll(placed)
  }

  predicate InOrder(lines: seq<RequestLine>, placed: seq<Placed>, units: seq<Unit>, firsts: seq<nat>) {
    && |firsts| == |units|
    && (forall i :: 0 <= i < |units| ==> Gathers(lines, placed, units[i], firsts[i]))
    && (forall i, j :: 0 <= i < j < |units| ==> firsts[i] < firsts[j])
  }

  predicate Covers(units: seq<Unit>, placed: seq<Placed>) {
    forall n :: 0 <= n < |placed| ==> Holds(units, placed[n].pick.unit)
  }

  predicate Holds(units: seq<Unit>, unit: RowId) {
    exists i :: 0 <= i < |units| && units[i].unit == unit
  }

  predicate Distinct(units: seq<Unit>) {
    forall i, j :: 0 <= i < j < |units| ==> units[i].unit != units[j].unit
  }

  /** Merging a pick adds its quantity to the units as a whole. */
  lemma {:induction false} MergeAdds(units: seq<Unit>, pick: Pick, line: Option<LineId>)
    ensures Quantity(Merge(units, pick, line)) == Quantity(units) + pick.qty
  {
    if units != [] && units[0].unit != pick.unit {
      MergeAdds(units[1..], pick, line);
    } else if units != [] {
      assert ([units[0].(quantity := units[0].quantity + pick.qty)] + units[1..])[1..] == units[1..];
    }
  }

  function AddedTo(u: Unit, pick: Pick): Unit {
    if u.unit == pick.unit then u.(quantity := u.quantity + pick.qty) else u
  }

  /** A pick of a known unit adds to that one; else it becomes the last one. */
  lemma {:induction false} MergeIs(units: seq<Unit>, pick: Pick, line: Option<LineId>)
    requires Distinct(units)
    ensures var m := Merge(units, pick, line);
      if Holds(units, pick.unit)
      then |m| == |units| && forall i :: 0 <= i < |units| ==> m[i] == AddedTo(units[i], pick)
      else m == units + [Unit(pick.unit, pick.product, pick.qty, line)]
  {
    if units != [] && units[0].unit != pick.unit {
      var rest := units[1..];
      MergeIs(rest, pick, line);
      assert forall i :: 0 < i < |units| ==> units[i] == rest[i - 1];
      if Holds(units, pick.unit) {
        var i :| 0 <= i < |units| && units[i].unit == pick.unit;
        assert rest[i - 1].unit == pick.unit;
      }
    }
  }

  /** The result of the whole merge, for any placement. */
  lemma {:induction false} MergingCollects(lines: seq<RequestLine>, placed: seq<Placed>) returns (firsts: seq<nat>)
    ensures Collected(lines, placed, Merged(lines, placed), firsts)
  {
    if placed == [] {
      firsts := [];
    } else {
      var n := |placed| - 1;
      var before := MergingCollects(lines, placed[..n]);
      firsts := CollectOne(lines, placed, Merged(lines, placed[..n]), before);
    }
  }

  /** One more pick keeps the result right: of a known unit it adds to the quantity, else it adds the unit. */
  lemma CollectOne(lines: seq<RequestLine>, placed: seq<Placed>, units: seq<Unit>, before: seq<nat>)
    returns (firsts: seq<nat>)
    requires placed != [] && Collected(lines, placed[..|placed| - 1], units, before)
    ensures var last := placed[|placed| - 1];
      Collected(lines, placed, Merge(units, last.pick, LineOf(lines, last.line)), firsts)
  {
    var last := placed[|placed| - 1];
    MergeAdds(units, last.pick, LineOf(lines, last.line));
    UnitsAreDistinct(lines, placed[..|placed| - 1], units, before);
    CoverOne(placed, units, last.pick, LineOf(lines, last.line));
    firsts := OrderOne(lines, placed, units, before);
  }

  lemma CoverOne(placed: seq<Placed>, units: seq<Unit>, pick: Pick, line: Option<LineId>)
    requires placed != [] && placed[|placed| - 1].pick == pick
    requires Distinct(units) && Covers(units, placed[..|placed| - 1])
    ensures Covers(Merge(units, pick, line), placed)
  {
    MergeIs(units, pick, line);
    StillCovered(placed, units, Merge(units, pick, line));
  }

  lemma OrderOne(lines: seq<RequestLine>, placed: seq<Placed>, units: seq<Unit>, before: seq<nat>)
    returns (firsts: seq<nat>)
    requires placed != [] && InOrder(lines, placed[..|placed| - 1], units, before)
    requires Distinct(units) && Covers(units, placed[..|placed| - 1])
    ensures var last := placed[|placed| - 1];
      InOrder(lines, placed, Merge(units, last.pick, LineOf(lines, last.line)), firsts)
  {
    var n := |placed| - 1;
    var pick, line := placed[n].pick, LineOf(lines, placed[n].line);
    MergeIs(units, pick, line);
    if Holds(units, pick.unit) {
      firsts := before;
      AddToUnit(lines, placed, units, Merge(units, pick, line), before);
    } else {
      NotYetPicked(placed[..n], units, pick.unit);
      assert forall i :: 0 <= i < n ==> placed[i] == placed[..n][i];
      firsts := AddUnit(lines, placed, units, before);
    }
  }

  lemma AddToUnit(lines: seq<RequestLine>, placed: seq<Placed>, units: seq<Unit>, more: seq<Unit>, firsts: seq<nat>)
    requires placed != [] && InOrder(lines, placed[..|placed| - 1], units, firsts)
    requires |more| == |units|
    requires forall i :: 0 <= i < |units| ==> more[i] == AddedTo(units[i], placed[|placed| - 1].pick)
    ensures InOrder(lines, placed, more, firsts)
  {
    forall i | 0 <= i < |units| ensures Gathers(lines, placed, more[i], firsts[i]) {
      GathersMore(lines, placed, units[i], firsts[i]);
    }
  }

  lemma AddUnit(lines: seq<RequestLine>, placed: seq<Placed>, units: seq<Unit>, before: seq<nat>)
    returns (firsts: seq<nat>)
    requires placed != [] && InOrder(lines, placed[..|placed| - 1], units, before)
    requires var unit := placed[|placed| - 1].pick.unit;
      && !Holds(units, unit) && PickedOf(placed[..|placed| - 1], unit) == 0.0
      && forall i :: 0 <= i < |placed| - 1 ==> placed[i].pick.unit != unit
    ensures var last := placed[|placed| - 1];
      InOrder(lines, placed,
        units + [Unit(last.pick.unit, last.pick.product, last.pick.qty, LineOf(lines, last.line))], firsts)
  {
    var n := |placed| - 1;
    firsts := before + [n];
    forall i | 0 <= i < |units| ensures Gathers(lines, placed, units[i], before[i]) {
      GathersMore(lines, placed, units[i], before[i]);
    }
  }

  lemma UnitsAreDistinct(lines: seq<RequestLine>, placed: seq<Placed>, units: seq<Unit>, firsts: seq<nat>)
    requires Collected(lines, placed, units, firsts)
    ensures Distinct(units)
  {
    forall i, j | 0 <= i < j < |units| ensures units[i].unit != units[j].unit {
      assert Gathers(lines, placed, units[i], firsts[i]) && Gathers(lines, placed, units[j], firsts[j]);
    }
  }

  lemma GathersMore(lines: seq<RequestLine>, placed: seq<Placed>, u: Unit, first: nat)
    requires placed != [] && Gathers(lines, placed[..|placed| - 1], u, first)
    ensures var pick := placed[|placed| - 1].pick;
      Gathers(lines, placed, AddedTo(u, pick), first)
  {
    assert forall i :: 0 <= i <= first ==> placed[..|placed| - 1][i] == placed[i];
  }

  lemma StillCovered(placed: seq<Placed>, units: seq<Unit>, more: seq<Unit>)
    requires placed != []
    requires Covers(units, placed[..|placed| - 1])
    requires forall i :: 0 <= i < |units| ==> i < |more| && more[i].unit == units[i].unit
    requires Holds(units, placed[|placed| - 1].pick.unit)
      || (|more| > 0 && more[|more| - 1].unit == placed[|placed| - 1].pick.unit)
    ensures Covers(more, placed)
  {
    forall k | 0 <= k < |placed| ensures Holds(more, placed[k].pick.unit) {
      assert k < |placed| - 1 ==> placed[..|placed| - 1][k] == placed[k];
      if Holds(units, placed[k].pick.unit) {
        var i :| 0 <= i < |units| && units[i].unit == placed[k].pick.unit;
        assert more[i].unit == placed[k].pick.unit;
      }
    }
  }

  lemma NotYetPicked(placed: seq<Placed>, units: seq<Unit>, unit: RowId)
    requires Covers(units, placed) && !Holds(units, unit)
    ensures PickedOf(placed, unit) == 0.0 && forall i :: 0 <= i < |placed| ==> placed[i].pick.unit != unit
  {
    forall i | 0 <= i < |placed| ensures placed[i].pick.unit != unit {
      assert Holds(units, placed[i].pick.unit);
    }
    NonePicked(placed, unit);
  }

  lemma {:induction false} NonePicked(placed: seq<Placed>, unit: RowId)
    requires forall i :: 0 <= i < |placed| ==> placed[i].pick.unit != unit
    ensures PickedOf(placed, unit) == 0.0
  {
    if placed != [] {
      NonePicked(placed[..|placed| - 1], unit);
    }
  }

  // ----- the computation -----

  /** The items that count: they have a unit, and something was picked. */
  function Picked(items: seq<TaskItem>): seq<Pick> {
    if items == [] then []
    else
      var last := items[|items| - 1];
      Picked(items[..|items| - 1])
      + (if last.unit.Some? && last.qty > 0.0 then [Pick(last.unit.value, last.product, last.qty)] else [])
  }

  predicate WasPicked(item: TaskItem) { item.unit.Some? && item.qty > 0.0 }

  /** `at` lists the items with a unit of which something was picked, all of them and in their order. */
  ghost predicate ListsPicks(items: seq<TaskItem>, at: seq<nat>) {
    && (forall i, j :: 0 <= i < j < |at| ==> at[i] < at[j])
    && (forall n :: 0 <= n < |at| ==> at[n] < |items| && WasPicked(items[at[n]]))
    && forall i :: 0 <= i < |items| && WasPicked(items[i]) ==> exists n :: 0 <= n < |at| && at[n] == i
  }

  lemma ListsOneMore(items: seq<TaskItem>, at: seq<nat>)
    requires items != [] && ListsPicks(items[..|items| - 1], at)
    ensures ListsPicks(items, if WasPicked(items[|items| - 1]) then at + [|items| - 1] else at)
  {
    var last := |items| - 1;
    var more := if WasPicked(items[last]) then at + [last] else at;
    forall i | 0 <= i < |items| && WasPicked(items[i]) ensures exists n :: 0 <= n < |more| && more[n] == i {
      if i < last {
        assert WasPicked(items[..last][i]);
        var n :| 0 <= n < |at| && at[n] == i;
        assert more[n] == i;
      } else {
        assert more[|at|] == i;
      }
    }
  }

  function PickOf(item: TaskItem): Pick
    requires WasPicked(item)
  {
    Pick(item.unit.value, item.product, item.qty)
  }

  /** The picks are those of the listed items. */
  ghost predicate PicksAt(items: seq<TaskItem>, at: seq<nat>, picks: seq<Pick>) {
    && |at| == |picks|
    && forall n :: 0 <= n < |at| ==>
         at[n] < |items| && WasPicked(items[at[n]]) && picks[n] == PickOf(items[at[n]])
  }

  lemma PicksOneMore(items: seq<TaskItem>, at: seq<nat>, picks: seq<Pick>)
    requires items != [] && PicksAt(items[..|items| - 1], at, picks)
    ensures var last := items[|items| - 1];
      if WasPicked(last) then PicksAt(items, at + [|items| - 1], picks + [PickOf(last)])
      else PicksAt(items, at, picks)
  {
    var last := |items| - 1;
    var front := items[..last];
    forall n | 0 <= n < |at| ensures WasPicked(items[at[n]]) && picks[n] == PickOf(items[at[n]]) {
      assert front[at[n]] == items[at[n]];
    }
    if WasPicked(items[last]) {
      var more, all := at + [last], picks + [PickOf(items[last])];
      forall n | 0 <= n < |more| ensures WasPicked(items[more[n]]) && all[n] == PickOf(items[more[n]]) {
        if n < |at| { assert more[n] == at[n] && all[n] == picks[n]; }
      }
    }
  }

  lemma {:induction false} PickedAre(items: seq<TaskItem>) returns (at: seq<nat>)
    ensures ListsPicks(items, at) && PicksAt(items, at, Picked(items))
  {
    if items == [] {
      at := [];
    } else {
      var last := |items| - 1;
      var before := PickedAre(items[..last]);
      ListsOneMore(items, before);
      PicksOneMore(items, before, Picked(items[..last]));
      at := if WasPicked(items[last]) then before + [last] else before;
      assert WasPicked(items[last]) || Picked(items) == Picked(items[..last]);
    }
  }

  predicate RoomIs(lines: seq<RequestLine>, placed: seq<Placed>, room: map<LineId, Option<real>>) {
    forall l :: 0 <= l < |lines| ==>
      && lines[l].id in room
      && room[lines[l].id] == (if Limited(lines[l]) then Some(lines[l].issued.value - Given(placed, l)) else None)
  }

  /** The line a pick goes to, from the room left (`None` is room without limit). */
  method FindLine(lines: seq<RequestLine>, room: map<LineId, Option<real>>, ghost placed: seq<Placed>,
        product: ProductId)
    returns (choice: Option<nat>)
    requires RoomIs(lines, placed, room)
    ensures FirstFit(lines, placed, product, choice)
  {
    var first: Option<nat> := None;
    for l := 0 to |lines|
      invariant first.None? ==> forall k :: 0 <= k < l ==> lines[k].product != product
      invariant first.Some? ==> first.value < l && lines[first.value].product == product
      invariant forall k :: 0 <= k < l && lines[k].product == product ==>
        first.Some? && first.value <= k && Exhausted(lines, placed, k)
    {
      if lines[l].product == product {
        var left := room[lines[l].id];
        if left.None? || left.value > 0.0 {
          return Some(l);
        }
        first := if first.None? then Some(l) else first;
      }
    }
    return first;
  }

  predicate UnitsAre(units: seq<Unit>, order: seq<RowId>, byUnit: map<RowId, Unit>) {
    && |order| == |units|
    && (forall i :: 0 <= i < |order| ==>
          order[i] == units[i].unit && order[i] in byUnit && byUnit[order[i]] == units[i])
    && (forall u :: u in byUnit ==> Holds(units, u))
  }

  lemma MergeHolds(units: seq<Unit>, pick: Pick, line: Option<LineId>, u: RowId)
    requires Distinct(units) && (Holds(units, u) || u == pick.unit)
    ensures Holds(Merge(units, pick, line), u)
  {
    var m := Merge(units, pick, line);
    MergeIs(units, pick, line);
    if i :| 0 <= i < |units| && units[i].unit == u {
      assert m[i].unit == u;
    } else if !Holds(units, pick.unit) {
      assert m[|units|].unit == u;
    }
  }

  /** Adds a pick to the table of units, keyed by unit and in insertion order. */
  method AddPick(order: seq<RowId>, byUnit: map<RowId, Unit>, ghost units: seq<Unit>, pick: Pick, line: Option<LineId>)
    returns (newOrder: seq<RowId>, newByUnit: map<RowId, Unit>)
    requires Distinct(units) && UnitsAre(units, order, byUnit)
    ensures UnitsAre(Merge(units, pick, line), newOrder, newByUnit)
  {
    MergeIs(units, pick, line);
    ghost var m := Merge(units, pick, line);
    if pick.unit in byUnit {
      var prev := byUnit[pick.unit];
      newOrder, newByUnit := order, byUnit[pick.unit := prev.(quantity := prev.quantity + pick.qty)];
    } else {
      assert forall i :: 0 <= i < |units| ==> units[i].unit in byUnit;
      newOrder, newByUnit := order + [pick.unit], byUnit[pick.unit := Unit(pick.unit, pick.product, pick.qty, line)];
      assert m[|units|].unit == pick.unit;
    }
    forall u | u in newByUnit ensures Holds(m, u) {
      MergeHolds(units, pick, line, u);
    }
  }

  /** Places a pick first fit and takes its quantity from the line's room. */
  method PlacePick(lines: seq<RequestLine>, room: map<LineId, Option<real>>, ghost placed: seq<Placed>, pick: Pick)
    returns (choice: Option<nat>, newRoom: map<LineId, Option<real>>)
    requires DistinctLines(lines) && RoomIs(lines, placed, room)
    ensures FirstFit(lines, placed, pick.product, choice)
    ensures RoomIs(lines, placed + [Placed(pick, choice)], newRoom)
  {
    choice := FindLine(lines, room, placed, pick.product);
    newRoom := room;
    if choice.Some? && room[lines[choice.value].id].Some? {
      var id := lines[choice.value].id;
      newRoom := room[id := Some(room[id].value - pick.qty)];
    }
    assert (placed + [Placed(pick, choice)])[..|placed|] == placed;
  }

  /** The picked items, each placed first fit; there is one such placement. */
  ghost predicate Placement(lines: seq<RequestLine>, items: seq<TaskItem>, placed: seq<Placed>) {
    PicksOf(placed) == Picked(items) && AllFirstFit(lines, placed)
  }

  /** The room of each line before anything is placed. */
  method OpenRoom(lines: seq<RequestLine>) returns (room: map<LineId, Option<real>>)
    requires DistinctLines(lines)
    ensures RoomIs(lines, [], room)
  {
    room := map[];
    for l := 0 to |lines|
      invariant forall k :: 0 <= k < l ==> lines[k].id in room
      invariant forall k :: 0 <= k < l ==> room[lines[k].id] == if Limited(lines[k]) then lines[k].issued else None
    {
      room := room[lines[l].id := if Limited(lines[l]) then lines[l].issued else None];
    }
  }

  /** Places one pick first fit and merges it into its unit. */
  method PlaceAndMerge(lines: seq<RequestLine>, room: map<LineId, Option<real>>, order: seq<RowId>,
        byUnit: map<RowId, Unit>, ghost placed: seq<Placed>, pick: Pick)
    returns (newRoom: map<LineId, Option<real>>, newOrder: seq<RowId>, newByUnit: map<RowId, Unit>,
        ghost next: seq<Placed>)
    requires DistinctLines(lines) && RoomIs(lines, placed, room) && AllFirstFit(lines, placed)
    requires UnitsAre(Merged(lines, placed), order, byUnit)
    ensures RoomIs(lines, next, newRoom) && AllFirstFit(lines, next) && PicksOf(next) == PicksOf(placed) + [pick]
    ensures UnitsAre(Merged(lines, next), newOrder, newByUnit)
  {
    var choice;
    choice, newRoom := PlacePick(lines, room, placed, pick);
    MergedAreDistinct(lines, placed);
    var line := if choice.Some? then Some(lines[choice.value].id) else None;
    newOrder, newByUnit := AddPick(order, byUnit, Merged(lines, placed), pick, line);
    PlaceOne(lines, placed, Placed(pick, choice));
    next := placed + [Placed(pick, choice)];
  }

  /** The units of the table in insertion order. */
  method Listed(order: seq<RowId>, byUnit: map<RowId, Unit>, ghost merged: seq<Unit>) returns (units: seq<Unit>)
    requires UnitsAre(merged, order, byUnit)
    ensures units == merged
  {
    assert |order| == |merged| && forall i :: 0 <= i < |order| ==> byUnit[order[i]] == merged[i];
    units := seq(|order|, i requires 0 <= i < |order| && order[i] in byUnit => byUnit[order[i]]);
  }

  /** Every picked item is placed first fit and merged into its unit. */
  method IssuedUnitsOf(lines: seq<RequestLine>, items: seq<TaskItem>) returns (units: seq<Unit>)
    requires DistinctLines(lines)
    ensures exists placed :: Placement(lines, items, placed) && units == Merged(lines, placed)
  {
    var room := OpenRoom(lines);
    var order: seq<RowId>, byUnit: map<RowId, Unit> := [], map[];
    ghost var placed: seq<Placed> := [];
    for n := 0 to |items|
      invariant Placement(lines, items[..n], placed) && RoomIs(lines, placed, room)
      invariant UnitsAre(Merged(lines, placed), order, byUnit)
    {
      assert items[..n + 1][..n] == items[..n];
      var item := items[n];
      if item.unit.Some? && item.qty > 0.0 {
        var pick := Pick(item.unit.value, item.product, item.qty);
        room, order, byUnit, placed := PlaceAndMerge(lines, room, order, byUnit, placed, pick);
      }
    }
    assert items[..|items|] == items;
    units := Listed(order, byUnit, Merged(lines, placed));
    assert Placement(lines, items, placed);
  }

  lemma MergedAreDistinct(lines: seq<RequestLine>, placed: seq<Placed>)
    ensures Distinct(Merged(lines, placed))
  {
    var firsts := MergingCollects(lines, placed);
    UnitsAreDistinct(lines, placed, Merged(lines, placed), firsts);
  }

  lemma PlaceOne(lines: seq<RequestLine>, placed: seq<Placed>, p: Placed)
    requires AllFirstFit(lines, placed) && FirstFit(lines, placed, p.pick.product, p.line)
    ensures AllFirstFit(lines, placed + [p])
    ensures PicksOf(placed + [p]) == PicksOf(placed) + [p.pick]
    ensures Merged(lines, placed + [p]) == Merge(Merged(lines, placed), p.pick, LineOf(lines, p.line))
  {
    assert (placed + [p])[..|placed|] == placed;
    forall n | 0 <= n < |placed| ensures (placed + [p])[..n] == placed[..n] {}
  }
}
