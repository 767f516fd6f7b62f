/** What a goods issue ships and what it gives back, row by row and in units. */
module IssueEffects {
  import opened Stock
  import opened Tables
  import opened Movements
  import opened LedgerRuns

  /** No item names a row that the issue itself is yet to make. */
  predicate NamesNoNewRow(stock: seq<Row>, items: seq<IssueItem>) {
    forall j | 0 <= j < |items| :: items[j].id < |stock| || items[j].id >= |stock| + |items|
  }

  /** Items that name a row name different rows, each of them picked or reserved. */
  predicate Issuable(stock: seq<Row>, items: seq<IssueItem>) {
    && (forall j, k | 0 <= j < k < |items| :: items[j].id < |stock| ==> items[j].id != items[k].id)
    && forall j | 0 <= j < |items| :: items[j].id < |stock| ==>
         stock[items[j].id].status == Picked || stock[items[j].id].status == Reserved
  }

  /** The rows made for what was not issued, in the order of the items. */
  function RestRows(stock: seq<Row>, items: seq<IssueItem>): seq<Row> {
    if items == [] then []
    else
      var item := items[|items| - 1];
      RestRows(stock, items[..|items| - 1])
        + if item.id < |stock| && Cut(stock[item.id], item.qty)
          then [Rest(stock[item.id], item.qty, Available)] else []
  }

  /** Every row named is shipped with the units issued, every other row stands, and what was not issued
      stands in new rows behind them. */
  ghost predicate Issued(stock: seq<Row>, items: seq<IssueItem>, after: seq<Row>) {
    && |stock| <= |after| && after[|stock|..] == RestRows(stock, items)
    && (forall j :: 0 <= j < |items| && items[j].id < |stock| ==>
          after[items[j].id] == stock[items[j].id].(status := Shipped,
                                                    quantity := Kept(stock[items[j].id], items[j].qty)))
    && forall r :: 0 <= r < |stock| && (forall j :: 0 <= j < |items| ==> items[j].id != r) ==> after[r] == stock[r]
  }

  lemma IssueOneIs(db: Db, item: IssueItem)
    requires item.id < |db.stock|
    ensures var row, r := db.stock[item.id], IssueOne(db, item);
      && (r.Ok? <==> row.status == Picked || row.status == Reserved)
      && (r.Ok? ==>
            r.value == db.(stock := db.stock[item.id := row.(status := Shipped, quantity := Kept(row, item.qty))]
              + if Cut(row, item.qty) then [Rest(row, item.qty, Available)] else []))
      && (r.Err? ==> r.error == Conflict)
  {
    SplitMakesRestIff(db.stock, item.id, item.qty, Available);
  }

  lemma {:induction false} RestsAreFew(stock: seq<Row>, items: seq<IssueItem>)
    ensures |RestRows(stock, items)| <= |items|
  {
    if items != [] { RestsAreFew(stock, items[..|items| - 1]); }
  }

  lemma IssuedLength(stock: seq<Row>, items: seq<IssueItem>, after: seq<Row>)
    requires Issued(stock, items, after)
    ensures |stock| <= |after| <= |stock| + |items|
  {
    RestsAreFew(stock, items);
    assert |after| == |stock| + |after[|stock|..]|;
  }

  lemma NamesNext(stock: seq<Row>, items: seq<IssueItem>)
    requires items != [] && NamesNoNewRow(stock, items)
    ensures NamesNoNewRow(stock, items[..|items| - 1])
  {
    var front := items[..|items| - 1];
    assert forall j :: 0 <= j < |front| ==> front[j] == items[j];
  }

  /** The row of the next item still stands as it was, unless an earlier item shipped it. */
  lemma NextRow(stock: seq<Row>, items: seq<IssueItem>, after: seq<Row>)
    requires items != [] && Issued(stock, items[..|items| - 1], after)
    requires var id := items[|items| - 1].id; id < |stock|
    ensures var id := items[|items| - 1].id;
      if exists j :: 0 <= j < |items| - 1 && items[j].id == id then after[id].status == Shipped
      else after[id] == stock[id]
  {
    var front, id := items[..|items| - 1], items[|items| - 1].id;
    if j :| 0 <= j < |items| - 1 && items[j].id == id { assert front[j].id == id; }
  }

  lemma IssuableNext(stock: seq<Row>, items: seq<IssueItem>)
    requires items != []
    ensures var id := items[|items| - 1].id;
      Issuable(stock, items) <==>
        && Issuable(stock, items[..|items| - 1])
        && (id < |stock| ==>
              && (forall j :: 0 <= j < |items| - 1 ==> items[j].id != id)
              && (stock[id].status == Picked || stock[id].status == Reserved))
  {
    var front := items[..|items| - 1];
    assert forall j :: 0 <= j < |front| ==> front[j] == items[j];
  }

  function ShippedRow(row: Row, qty: real): Row { row.(status := Shipped, quantity := Kept(row, qty)) }

  /** The rows after one more item. */
  function AfterItem(before: seq<Row>, row: Row, item: IssueItem): seq<Row>
    requires item.id < |before|
  {
    before[item.id := ShippedRow(row, item.qty)]
      + if Cut(row, item.qty) then [Rest(row, item.qty, Available)] else []
  }

  lemma BehindAnUpdate(before: seq<Row>, i: nat, row: Row, rest: seq<Row>, n: nat)
    requires i < n <= |before|
    ensures (before[i := row] + rest)[n..] == before[n..] + rest
  {
  }

  lemma RestsNext(stock: seq<Row>, items: seq<IssueItem>, before: seq<Row>)
    requires items != [] && items[|items| - 1].id < |stock| <= |before|
    requires before[|stock|..] == RestRows(stock, items[..|items| - 1])
    ensures var item := items[|items| - 1];
      AfterItem(before, stock[item.id], item)[|stock|..] == RestRows(stock, items)
  {
    var item := items[|items| - 1];
    var rest := if Cut(stock[item.id], item.qty) then [Rest(stock[item.id], item.qty, Available)] else [];
    BehindAnUpdate(before, item.id, ShippedRow(stock[item.id], item.qty), rest, |stock|);
  }

  lemma IssuedNext(stock: seq<Row>, items: seq<IssueItem>, before: seq<Row>)
    requires items != [] && Issuable(stock, items) && items[|items| - 1].id < |stock|
    requires Issued(stock, items[..|items| - 1], before)
    ensures var item := items[|items| - 1]; Issued(stock, items, AfterItem(before, stock[item.id], item))
  {
    var n := |items| - 1;
    var front, item := items[..n], items[n];
    var after := AfterItem(before, stock[item.id], item);
    RestsNext(stock, items, before);
    assert forall r :: 0 <= r < |stock| && r != item.id ==> after[r] == before[r];
    forall j | 0 <= j < |items| && items[j].id < |stock|
      ensures after[items[j].id] == ShippedRow(stock[items[j].id], items[j].qty)
    {
      if j < n { assert front[j] == items[j] && items[j].id != items[n].id; }
    }
    forall r | 0 <= r < |stock| && (forall j :: 0 <= j < |items| ==> items[j].id != r) ensures after[r] == stock[r] {
      assert items[n].id != r && forall j :: 0 <= j < |front| ==> front[j].id == items[j].id;
    }
  }

  /** A goods issue is accepted exactly when the rows it names are different rows, each picked or
      reserved. Each is then shipped with the units issued; the rest of a row that is cut is a new
      AVAILABLE row of the same product, warehouse and date; nothing else changes. */
  lemma {:induction false} IssueIs(h: History, items: seq<IssueItem>)
    requires NamesNoNewRow(Now(h).stock, items)
    ensures var db, r := Now(h), StepMovement(h, DoIssue(items));
      && (r.Ok? <==> Issuable(db.stock, items))
      && (r.Ok? ==> r.value == db.(stock := r.value.stock) && Issued(db.stock, items, r.value.stock))
      && (r.Err? ==> r.error == Conflict)
  {
    var db := Now(h);
    if items != [] {
      var front, item := items[..|items| - 1], items[|items| - 1];
      NamesNext(db.stock, items);
      IssueIs(h, front);
      IssuableNext(db.stock, items);
      if Issuable(db.stock, front) {
        var d := Issue(db, front).value;
        IssuedLength(db.stock, front, d.stock);
        if item.id < |db.stock| {
          NextRow(db.stock, items, d.stock);
          IssueOneIs(d, item);
          if Issuable(db.stock, items) { IssuedNext(db.stock, items, d.stock); }
        } else {
          assert IssueOne(d, item) == Ok(d);
          MissingShipsNothing(db.stock, items, d.stock);
        }
      }
    }
  }

  /** An item whose row is gone is passed over. */
  lemma MissingShipsNothing(stock: seq<Row>, items: seq<IssueItem>, after: seq<Row>)
    requires items != [] && items[|items| - 1].id >= |stock| && Issued(stock, items[..|items| - 1], after)
    ensures Issued(stock, items, after)
  {
    var front := items[..|items| - 1];
    assert forall j :: 0 <= j < |front| ==> front[j] == items[j];
  }

  // ----- in units -----

  function UnitsAt(stock: seq<Row>, status: Status): real {
    if stock == [] then 0.0
    else
      var row := stock[|stock| - 1];
      UnitsAt(stock[..|stock| - 1], status) + if row.status == status then row.quantity else 0.0
  }

  /** The units issued: of a row that is cut what is asked for, of any other row all it holds. */
  function UnitsIssued(stock: seq<Row>, items: seq<IssueItem>): real {
    if items == [] then 0.0
    else
      var item := items[|items| - 1];
      UnitsIssued(stock, items[..|items| - 1])
        + if item.id < |stock| then Kept(stock[item.id], item.qty) else 0.0
  }

  /** The units given back: the rest of every row that is cut. */
  function UnitsReturned(stock: seq<Row>, items: seq<IssueItem>): real {
    if items == [] then 0.0
    else
      var item := items[|items| - 1];
      UnitsReturned(stock, items[..|items| - 1])
        + if item.id < |stock| && Cut(stock[item.id], item.qty) then stock[item.id].quantity - item.qty else 0.0
  }

  function At(row: Row, status: Status): real { if row.status == status then row.quantity else 0.0 }

  lemma {:induction false} UnitsUpdate(stock: seq<Row>, i: nat, row: Row, status: Status)
    requires i < |stock|
    ensures UnitsAt(stock[i := row], status) == UnitsAt(stock, status) - At(stock[i], status) + At(row, status)
  {
    var n := |stock| - 1;
    if i == n {
      assert stock[i := row][..n] == stock[..n];
    } else {
      UnitsUpdate(stock[..n], i, row, status);
      assert stock[i := row][..n] == stock[..n][i := row];
    }
  }

  lemma UnitsAppend(stock: seq<Row>, row: Row, status: Status)
    ensures UnitsAt(stock + [row], status) == UnitsAt(stock, status) + At(row, status)
  {
    assert (stock + [row])[..|stock|] == stock;
  }

  lemma IssueOneUnits(db: Db, item: IssueItem)
    requires item.id < |db.stock| && IssueOne(db, item).Ok?
    ensures var row, d := db.stock[item.id], IssueOne(db, item).value;
      && UnitsAt(d.stock, Shipped) == UnitsAt(db.stock, Shipped) + Kept(row, item.qty)
      && UnitsAt(d.stock, Available) ==
           UnitsAt(db.stock, Available) + if Cut(row, item.qty) then row.quantity - item.qty else 0.0
  {
    IssueOneIs(db, item);
    var row := db.stock[item.id];
    var shipped := row.(status := Shipped, quantity := Kept(row, item.qty));
    UnitsUpdate(db.stock, item.id, shipped, Shipped);
    UnitsUpdate(db.stock, item.id, shipped, Available);
    if Cut(row, item.qty) {
      UnitsAppend(db.stock[item.id := shipped], Rest(row, item.qty, Available), Shipped);
      UnitsAppend(db.stock[item.id := shipped], Rest(row, item.qty, Available), Available);
    }
  }

  /** When the last item is reached, its row still stands as it was. */
  lemma LastRowStands(h: History, items: seq<IssueItem>)
    requires items != [] && NamesNoNewRow(Now(h).stock, items) && Issuable(Now(h).stock, items)
    ensures var db, front, id := Now(h), items[..|items| - 1], items[|items| - 1].id;
      && NamesNoNewRow(db.stock, front) && Issuable(db.stock, front) && Issue(db, front).Ok?
      && var after := Issue(db, front).value.stock;
         if id < |db.stock| then id < |after| && after[id] == db.stock[id] else id >= |after|
  {
    var db, front := Now(h), items[..|items| - 1];
    NamesNext(db.stock, items);
    IssuableNext(db.stock, items);
    IssueIs(h, front);
    var d := Issue(db, front).value;
    IssuedLength(db.stock, front, d.stock);
    if items[|items| - 1].id < |db.stock| { NextRow(db.stock, items, d.stock); }
  }

  lemma {:induction false} CountsUnits(h: History, items: seq<IssueItem>)
    requires NamesNoNewRow(Now(h).stock, items) && Issuable(Now(h).stock, items)
    ensures var db, r := Now(h), Issue(Now(h), items);
      && r.Ok?
      && UnitsAt(r.value.stock, Shipped) == UnitsAt(db.stock, Shipped) + UnitsIssued(db.stock, items)
      && UnitsAt(r.value.stock, Available) == UnitsAt(db.stock, Available) + UnitsReturned(db.stock, items)
  {
    if items != [] {
      var db, front, item := Now(h), items[..|items| - 1], items[|items| - 1];
      LastRowStands(h, items);
      CountsUnits(h, front);
      var d := Issue(db, front).value;
      if item.id < |db.stock| {
        IssueOneIs(d, item);
        IssueOneUnits(d, item);
      }
    }
  }

  /** The SHIPPED units grow by the units issued and the AVAILABLE ones by what was given back. */
  lemma IssueCountsUnits(h: History, items: seq<IssueItem>)
    requires NamesNoNewRow(Now(h).stock, items) && Issuable(Now(h).stock, items)
    ensures var db, r := Now(h), StepMovement(h, DoIssue(items));
      && r.Ok?
      && UnitsAt(r.value.stock, Shipped) == UnitsAt(db.stock, Shipped) + UnitsIssued(db.stock, items)
      && UnitsAt(r.value.stock, Available) == UnitsAt(db.stock, Available) + UnitsReturned(db.stock, items)
  {
    CountsUnits(h, items);
  }
}
