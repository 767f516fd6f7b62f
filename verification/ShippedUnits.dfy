/** Which stock unit shipped for each request line: the units of the task wait in one queue per
    product, and every line without a recorded unit takes the next of its product's queue. */
module ShippedUnits {
  import opened Stock

  /** `shipped` is the unit recorded at dispatch, `linked` the one linked at approval. */
  datatype Line = Line(product: ProductId, shipped: Option<RowId>, linked: Option<RowId>)

  datatype TaskItem = TaskItem(product: ProductId, unit: Option<RowId>)

  /** The units of one product on the task, in task order. */
  function UnitsOf(items: seq<TaskItem>, product: ProductId): seq<RowId> {
    if items == [] then []
    else
      var last := items[|items| - 1];
      UnitsOf(items[..|items| - 1], product)
      + (if last.product == product && last.unit.Some? then [last.unit.value] else [])
  }

  predicate Carries(item: TaskItem, product: ProductId) { item.product == product && item.unit.Some? }

  /** `at` lists the items of the product that have a unit, all of them and in their order. */
  ghost predicate ListsUnits(items: seq<TaskItem>, product: ProductId, at: seq<nat>) {
    && (forall i, j :: 0 <= i < j < |at| ==> at[i] < at[j])
    && (forall n :: 0 <= n < |at| ==> at[n] < |items| && Carries(items[at[n]], product))
    && forall i :: 0 <= i < |items| && Carries(items[i], product) ==> exists n :: 0 <= n < |at| && at[n] == i
  }

  lemma ListsOneMore(items: seq<TaskItem>, product: ProductId, at: seq<nat>)
    requires items != [] && ListsUnits(items[..|items| - 1], product, at)
    ensures ListsUnits(items, product, if Carries(items[|items| - 1], product) then at + [|items| - 1] else at)
  {
    var last := |items| - 1;
    var more := if Carries(items[last], product) then at + [last] else at;
    forall i | 0 <= i < |items| && Carries(items[i], product) ensures exists n :: 0 <= n < |more| && more[n] == i {
      if i < last {
        assert Carries(items[..last][i], product);
        var n :| 0 <= n < |at| && at[n] == i;
        assert more[n] == i;
      } else {
        assert more[|at|] == i;
      }
    }
  }

  /** The units are those of the listed items. */
  ghost predicate UnitsAt(items: seq<TaskItem>, product: ProductId, at: seq<nat>, units: seq<RowId>) {
    && |at| == |units|
    && forall n :: 0 <= n < |at| ==>
         at[n] < |items| && Carries(items[at[n]], product) && units[n] == items[at[n]].unit.value
  }

  lemma UnitsOneMore(items: seq<TaskItem>, product: ProductId, at: seq<nat>, units: seq<RowId>)
    requires items != [] && UnitsAt(items[..|items| - 1], product, at, units)
    ensures var last := items[|items| - 1];
      if Carries(last, product) then UnitsAt(items, product, at + [|items| - 1], units + [last.unit.value])
      else UnitsAt(items, product, at, units)
  {
    var front := items[..|items| - 1];
    assert forall n :: 0 <= n < |at| ==> items[at[n]] == front[at[n]];
  }

  /** The queue of a product holds the units of its items, all of them and in their order. */
  lemma {:induction false} QueueHolds(items: seq<TaskItem>, product: ProductId) returns (at: seq<nat>)
    ensures ListsUnits(items, product, at) && UnitsAt(items, product, at, UnitsOf(items, product))
  {
    if items == [] {
      at := [];
    } else {
      var last := |items| - 1;
      var before := QueueHolds(items[..last], product);
      ListsOneMore(items, product, before);
      UnitsOneMore(items, product, before, UnitsOf(items[..last], product));
      at := if Carries(items[last], product) then before + [last] else before;
      assert Carries(items[last], product) || UnitsOf(items, product) == UnitsOf(items[..last], product);
    }
  }

  /** How many lines of the product take a unit from the queue. */
  function Takers(lines: seq<Line>, product: ProductId): nat {
    if lines == [] then 0
    else
      var last := lines[|lines| - 1];
      Takers(lines[..|lines| - 1], product) + (if last.product == product && last.shipped.None? then 1 else 0)
  }

  predicate FromQueue(items: seq<TaskItem>, lines: seq<Line>, l: nat)
    requires l < |lines|
  {
    lines[l].shipped.None? && Takers(lines[..l], lines[l].product) < |UnitsOf(items, lines[l].product)|
  }

  /** Line `l` keeps its recorded unit, else takes the unit its place among the takers gives it, else
      falls back to its link. */
  function Resolved(items: seq<TaskItem>, lines: seq<Line>, l: nat): Option<RowId>
    requires l < |lines|
  {
    if lines[l].shipped.Some? then lines[l].shipped
    else if FromQueue(items, lines, l) then Some(UnitsOf(items, lines[l].product)[Takers(lines[..l], lines[l].product)])
    else lines[l].linked
  }

  function Queue(queues: map<ProductId, seq<RowId>>, product: ProductId): seq<RowId> {
    if product in queues then queues[product] else []
  }

  /** What the takers among `lines` left in each queue. */
  ghost predicate QueuesAre(queues: map<ProductId, seq<RowId>>, items: seq<TaskItem>, lines: seq<Line>) {
    forall p: ProductId :: Queue(queues, p) == Rest(UnitsOf(items, p), Takers(lines, p))
  }

  function Rest(units: seq<RowId>, taken: nat): seq<RowId> {
    if taken <= |units| then units[taken..] else []
  }

  method Enqueue(items: seq<TaskItem>) returns (queues: map<ProductId, seq<RowId>>)
    ensures QueuesAre(queues, items, [])
  {
    queues := map[];
    for n := 0 to |items|
      invariant forall p: ProductId :: Queue(queues, p) == UnitsOf(items[..n], p)
    {
      assert items[..n + 1][..n] == items[..n];
      if items[n].unit.Some? {
        var p := items[n].product;
        queues := queues[p := Queue(queues, p) + [items[n].unit.value]];
      }
    }
    assert items[..|items|] == items;
  }

  method Resolve(ghost items: seq<TaskItem>, queues: map<ProductId, seq<RowId>>, lines: seq<Line>, l: nat)
    returns (unit: Option<RowId>, left: map<ProductId, seq<RowId>>)
    requires l < |lines| && QueuesAre(queues, items, lines[..l])
    ensures unit == Resolved(items, lines, l)
    ensures QueuesAre(left, items, lines[..l + 1])
  {
    assert lines[..l + 1][..l] == lines[..l];
    var line := lines[l];
    unit, left := line.shipped, queues;
    if unit.None? {
      var queue := Queue(queues, line.product);
      if queue != [] {
        unit, left := Some(queue[0]), queues[line.product := queue[1..]];
      } else {
        unit := line.linked;
      }
    }
  }

  method ResolveShippedUnits(items: seq<TaskItem>, lines: seq<Line>) returns (result: seq<Option<RowId>>)
    ensures |result| == |lines|
    ensures forall l :: 0 <= l < |lines| ==> result[l] == Resolved(items, lines, l)
  {
    var queues := Enqueue(items);
    result := [];
    for l := 0 to |lines|
      invariant |result| == l && forall k :: 0 <= k < l ==> result[k] == Resolved(items, lines, k)
      invariant QueuesAre(queues, items, lines[..l])
    {
      var unit;
      unit, queues := Resolve(items, queues, lines, l);
      result := result + [unit];
    }
  }

  lemma {:induction false} TakersGrow(lines: seq<Line>, l: nat, m: nat, product: ProductId)
    requires l <= m <= |lines|
    ensures Takers(lines[..l], product) <= Takers(lines[..m], product)
    ensures l < m && lines[l].product == product && lines[l].shipped.None? ==>
      Takers(lines[..l], product) < Takers(lines[..m], product)
  {
    if l < m {
      assert lines[..m][..m - 1] == lines[..m - 1];
      TakersGrow(lines, l, m - 1, product);
    }
  }

  /** The queue serves the lines of its product in order: when a later line still gets a unit from it, so
      did every earlier line that had none recorded. */
  lemma QueueServesInOrder(items: seq<TaskItem>, lines: seq<Line>, l: nat, m: nat)
    requires l < m < |lines| && lines[l].product == lines[m].product
    requires lines[l].shipped.None? && lines[m].shipped.None?
    ensures FromQueue(items, lines, m) ==> FromQueue(items, lines, l)
  {
    TakersGrow(lines, l, m, lines[l].product);
  }

  // ----- when one unit is given for two lines -----

  /** The units the queue of a product hands out. */
  function Handed(items: seq<TaskItem>, lines: seq<Line>, product: ProductId): seq<RowId> {
    var units, taken := UnitsOf(items, product), Takers(lines, product);
    units[..if taken <= |units| then taken else |units|]
  }

  /** A line of the product that takes nothing from the queue, and the unit it has by itself. */
  predicate Outside(items: seq<TaskItem>, lines: seq<Line>, product: ProductId, l: nat) {
    l < |lines| && lines[l].product == product && !FromQueue(items, lines, l)
  }

  function Own(line: Line): Option<RowId> { if line.shipped.Some? then line.shipped else line.linked }

  predicate SameUnit(items: seq<TaskItem>, lines: seq<Line>, product: ProductId, l: nat, m: nat) {
    && l < |lines| && m < |lines| && l != m && lines[l].product == product && lines[m].product == product
    && Resolved(items, lines, l).Some? && Resolved(items, lines, l) == Resolved(items, lines, m)
  }

  /** Some unit is given for two lines of the product. */
  ghost predicate ShipsTwice(items: seq<TaskItem>, lines: seq<Line>, product: ProductId) {
    exists l: nat, m: nat :: SameUnit(items, lines, product, l, m)
  }

  predicate Repeats(units: seq<RowId>) {
    exists i, j | 0 <= i < j < |units| :: units[i] == units[j]
  }

  /** A line outside the queue has a unit that the queue hands out too. */
  ghost predicate OwnIsHanded(items: seq<TaskItem>, lines: seq<Line>, product: ProductId) {
    exists l: nat :: Outside(items, lines, product, l) && Own(lines[l]).Some?
      && Own(lines[l]).value in Handed(items, lines, product)
  }

  predicate OwnTwice(items: seq<TaskItem>, lines: seq<Line>, product: ProductId, l: nat, m: nat) {
    && Outside(items, lines, product, l) && Outside(items, lines, product, m) && l != m
    && Own(lines[l]).Some? && Own(lines[l]) == Own(lines[m])
  }

  lemma QueuedLineIsHanded(items: seq<TaskItem>, lines: seq<Line>, l: nat)
    requires l < |lines| && FromQueue(items, lines, l)
    ensures var p, place := lines[l].product, Takers(lines[..l], lines[l].product);
      place < |Handed(items, lines, p)| && Resolved(items, lines, l) == Some(Handed(items, lines, p)[place])
  {
    TakersGrow(lines, l, |lines|, lines[l].product);
    assert lines[..|lines|] == lines;
  }

  /** Every place of the queue that is used is used by a line. */
  lemma {:induction false} TakerOf(lines: seq<Line>, product: ProductId, n: nat, place: nat) returns (l: nat)
    requires n <= |lines| && place < Takers(lines[..n], product)
    ensures l < n && lines[l].product == product && lines[l].shipped.None? && Takers(lines[..l], product) == place
  {
    assert lines[..n][..n - 1] == lines[..n - 1];
    if place < Takers(lines[..n - 1], product) {
      l := TakerOf(lines, product, n - 1, place);
    } else {
      l := n - 1;
    }
  }

  lemma HandedToLine(items: seq<TaskItem>, lines: seq<Line>, product: ProductId, place: nat) returns (l: nat)
    requires place < |Handed(items, lines, product)|
    ensures l < |lines| && lines[l].product == product && FromQueue(items, lines, l)
    ensures Takers(lines[..l], product) == place
      && Resolved(items, lines, l) == Some(Handed(items, lines, product)[place])
  {
    assert lines[..|lines|] == lines;
    l := TakerOf(lines, product, |lines|, place);
  }

  /** Two lines of a product with one unit: the queue hands it out twice, or one of them has a unit that
      the queue hands out, or both have it by themselves. */
  lemma SameUnitMeans(items: seq<TaskItem>, lines: seq<Line>, product: ProductId, l: nat, m: nat)
    requires SameUnit(items, lines, product, l, m)
    ensures Repeats(Handed(items, lines, product)) || OwnIsHanded(items, lines, product)
      || OwnTwice(items, lines, product, l, m)
  {
    if FromQueue(items, lines, l) { QueuedLineIsHanded(items, lines, l); }
    if FromQueue(items, lines, m) { QueuedLineIsHanded(items, lines, m); }
    if FromQueue(items, lines, l) && FromQueue(items, lines, m) {
      TakersGrow(lines, if l < m then l else m, if l < m then m else l, product);
      var handed, i, j := Handed(items, lines, product), Takers(lines[..l], product), Takers(lines[..m], product);
      assert handed[i] == handed[j] && i != j;
      assert Repeats(handed);
    } else if FromQueue(items, lines, l) {
      assert Outside(items, lines, product, m);
    } else if FromQueue(items, lines, m) {
      assert Outside(items, lines, product, l);
    }
  }

  lemma RepeatShips(items: seq<TaskItem>, lines: seq<Line>, product: ProductId)
    requires Repeats(Handed(items, lines, product))
    ensures ShipsTwice(items, lines, product)
  {
    var handed := Handed(items, lines, product);
    var i, j :| 0 <= i < j < |handed| && handed[i] == handed[j];
    var l := HandedToLine(items, lines, product, i);
    var m := HandedToLine(items, lines, product, j);
    assert SameUnit(items, lines, product, l, m);
  }

  lemma HandedOwnShips(items: seq<TaskItem>, lines: seq<Line>, product: ProductId)
    requires OwnIsHanded(items, lines, product)
    ensures ShipsTwice(items, lines, product)
  {
    var handed := Handed(items, lines, product);
    var l: nat :| Outside(items, lines, product, l) && Own(lines[l]).Some? && Own(lines[l]).value in handed;
    var place :| 0 <= place < |handed| && handed[place] == Own(lines[l]).value;
    var m := HandedToLine(items, lines, product, place);
    assert SameUnit(items, lines, product, l, m);
  }

  /** A unit is given for two lines of a product exactly when the queue hands it out twice, or a line
      outside the queue has recorded or linked a unit that the queue hands out, or two such lines have
      the same one. */
  lemma ShipsTwiceIff(items: seq<TaskItem>, lines: seq<Line>, product: ProductId)
    ensures ShipsTwice(items, lines, product) <==>
      || Repeats(Handed(items, lines, product)) || OwnIsHanded(items, lines, product)
      || exists l: nat, m: nat :: OwnTwice(items, lines, product, l, m)
  {
    if l: nat, m: nat :| SameUnit(items, lines, product, l, m) {
      SameUnitMeans(items, lines, product, l, m);
    }
    if Repeats(Handed(items, lines, product)) { RepeatShips(items, lines, product); }
    if OwnIsHanded(items, lines, product) { HandedOwnShips(items, lines, product); }
    if l: nat, m: nat :| OwnTwice(items, lines, product, l, m) {
      assert SameUnit(items, lines, product, l, m);
    }
  }

  /** A recorded unit stays in the queue: after a dispatch that recorded it for one line only, the next
      line of the product is given the same unit. */
  lemma RecordedUnitShipsAgain(product: ProductId, unit: RowId)
    ensures var lines := [Line(product, Some(unit), None), Line(product, None, None)];
      && Resolved([TaskItem(product, Some(unit))], lines, 0) == Some(unit)
      && Resolved([TaskItem(product, Some(unit))], lines, 1) == Some(unit)
  {
    var items, lines := [TaskItem(product, Some(unit))], [Line(product, Some(unit), None), Line(product, None, None)];
    assert items[..0] == [] && UnitsOf(items, product) == [unit];
    assert lines[..1][..0] == [] && Takers(lines[..1], product) == 0;
  }
}
