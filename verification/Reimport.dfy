/** Committing an import and running it again: the products written stand for their rows, and the
    brands created are missing no more. */
module Reimport {
  import opened Stock
  import opened Text
  import opened ProductDedupe

  function Cell(v: Option<string>): string { if v.Some? then Trim(v.value) else "" }

  /** A trimmed value, or nothing when the cell is blank. */
  function TextCell(v: Option<string>): Option<string> { if Cell(v) == "" then None else Some(Cell(v)) }

  function ProductOf(r: FileRow): Product { Product(Cell(r.code), TextCell(r.part), TextCell(r.brand)) }

  lemma StoredCellNorm(v: Option<string>)
    ensures NormCell(TextCell(v)) == NormCell(v) && NormCell(Some(Cell(v))) == NormCell(v)
  {
    if v.Some? { NormStable(v.value); }
    assert Norm("") == "";
  }

  /** A product stored from a row has the row's keys. */
  lemma StoredKeys(r: FileRow)
    ensures ProductKeys(ProductOf(r)) == KeysOf(r)
  {
    StoredCellNorm(r.brand);
    StoredCellNorm(r.part);
    StoredCellNorm(r.code);
  }

  /** `start` and after it those of the first `n` that were taken. */
  function Grow<T>(all: seq<T>, taken: seq<bool>, start: seq<T>, n: nat): seq<T>
    requires n <= |all| == |taken|
  {
    if n == 0 then start
    else if taken[n - 1] then Grow(all, taken, start, n - 1) + [all[n - 1]]
    else Grow(all, taken, start, n - 1)
  }

  function Taken(keys: seq<seq<string>>, db: seq<Entry>): (r: seq<bool>)
    ensures |r| == |keys| && forall i :: 0 <= i < |keys| ==> (r[i] <==> Accepted(keys, db, i))
  {
    seq(|keys|, i requires 0 <= i < |keys| => Accepted(keys, db, i))
  }

  function ProductsOf(rows: seq<FileRow>): (r: seq<Product>)
    ensures |r| == |rows| && forall i :: 0 <= i < |rows| ==> r[i] == ProductOf(rows[i])
  {
    seq(|rows|, i requires 0 <= i < |rows| => ProductOf(rows[i]))
  }

  /** The products after committing the accepted rows. */
  function Imported(rows: seq<FileRow>, products: seq<Product>): seq<Product> {
    Grow(ProductsOf(rows), Taken(RowKeys(rows), Entries(products)), products, |rows|)
  }

  // The same on keys alone: `keys` and `codes` of the rows, `db` the entries before the import.

  function RowEntries(keys: seq<seq<string>>, codes: seq<string>): (r: seq<Entry>)
    requires |keys| == |codes|
    ensures |r| == |keys| && forall i :: 0 <= i < |keys| ==> r[i] == Entry(codes[i], keys[i])
  {
    seq(|keys|, i requires 0 <= i < |keys| == |codes| => Entry(codes[i], keys[i]))
  }

  function Grown(keys: seq<seq<string>>, codes: seq<string>, db: seq<Entry>, n: nat): seq<Entry>
    requires n <= |keys| == |codes|
  {
    Grow(RowEntries(keys, codes), Taken(keys, db), db, n)
  }

  function Codes(rows: seq<FileRow>): (r: seq<string>)
    ensures |r| == |rows| && forall i :: 0 <= i < |rows| ==> r[i] == Cell(rows[i].code)
  {
    seq(|rows|, i requires 0 <= i < |rows| => Cell(rows[i].code))
  }

  lemma {:induction false} EntriesGrow(all: seq<Product>, taken: seq<bool>, products: seq<Product>, n: nat)
    requires n <= |all| == |taken|
    ensures Entries(Grow(all, taken, products, n)) == Grow(Entries(all), taken, Entries(products), n)
  {
    if n > 0 {
      EntriesGrow(all, taken, products, n - 1);
    }
  }

  lemma ImportGrows(rows: seq<FileRow>, products: seq<Product>)
    ensures Entries(Imported(rows, products)) == Grown(RowKeys(rows), Codes(rows), Entries(products), |rows|)
  {
    var keys, codes := RowKeys(rows), Codes(rows);
    forall i | 0 <= i < |rows| ensures Entries(ProductsOf(rows))[i] == RowEntries(keys, codes)[i] {
      StoredKeys(rows[i]);
    }
    assert Entries(ProductsOf(rows)) == RowEntries(keys, codes);
    EntriesGrow(ProductsOf(rows), Taken(keys, Entries(products)), products, |rows|);
  }

  /** Row `j` was accepted and has the key. */
  ghost predicate AcceptedWith(keys: seq<seq<string>>, db: seq<Entry>, j: nat, k: string) {
    j < |keys| && Accepted(keys, db, j) && k in keys[j]
  }

  /** Two accepted rows have no key in common. */
  lemma OneRowPerKey(keys: seq<seq<string>>, db: seq<Entry>, i: nat, j: nat, k: string)
    requires AcceptedWith(keys, db, i, k) && AcceptedWith(keys, db, j, k)
    ensures i == j
  {
    AcceptedIsMaximal(keys, db);
    assert Share(keys[i], keys[j]);
  }

  /** The first of the first `n` entries that was taken and has the key. */
  function FirstTakenWith(all: seq<Entry>, taken: seq<bool>, n: nat, k: string): (r: Option<nat>)
    requires n <= |all| == |taken|
    ensures match r
      case Some(i) => i < n && taken[i] && k in all[i].keys
      case None => forall j :: 0 <= j < n && taken[j] ==> k !in all[j].keys
  {
    if n == 0 then None
    else
      var front := FirstTakenWith(all, taken, n - 1, k);
      if front.Some? then front
      else if taken[n - 1] && k in all[n - 1].keys then Some(n - 1) else None
  }

  /** Where key `k` leads after an import: to the product it led to before, else to the first row taken
      that has it. */
  predicate Leads(db: seq<Entry>, all: seq<Entry>, first: Option<nat>, now: seq<Entry>, k: string) {
    var p := FirstWith(now, k);
    if FirstWith(db, k).Some? then p == FirstWith(db, k) && now[p.value] == db[p.value]
    else if first.Some? then p.Some? && first.value < |all| && now[p.value] == all[first.value]
    else p.None?
  }

  lemma LeadsOn(db: seq<Entry>, all: seq<Entry>, first: Option<nat>, now: seq<Entry>, i: nat, k: string)
    requires i < |all| && Leads(db, all, first, now, k)
    ensures Leads(db, all, if first.None? && k in all[i].keys then Some(i) else first, now + [all[i]], k)
  {
    FirstWithSnoc(now, all[i], k);
  }

  lemma {:induction false} Lookup(all: seq<Entry>, taken: seq<bool>, db: seq<Entry>, n: nat, now: seq<Entry>, k: string)
    requires n <= |all| == |taken| && now == Grow(all, taken, db, n)
    ensures Leads(db, all, FirstTakenWith(all, taken, n, k), now, k)
    decreases n
  {
    if n > 0 {
      var before := Grow(all, taken, db, n - 1);
      Lookup(all, taken, db, n - 1, before, k);
      if taken[n - 1] { LeadsOn(db, all, FirstTakenWith(all, taken, n - 1, k), before, n - 1, k); }
    }
  }

  /** A keyed row leads somewhere after the import. */
  lemma KeyedRowLeadsSomewhere(keys: seq<seq<string>>, db: seq<Entry>, i: nat) returns (k: string)
    requires i < |keys| && keys[i] != []
    ensures k in keys[i]
    ensures DbCode(db, k).Some? || exists j: nat :: j < |keys| && AcceptedWith(keys, db, j, k)
  {
    AcceptedIsMaximal(keys, db);
    if Accepted(keys, db, i) {
      k := keys[i][0];
      assert AcceptedWith(keys, db, i, k);
    } else if InDb(db, keys[i]) {
      var n :| 0 <= n < |keys[i]| && DbCode(db, keys[i][n]).Some?;
      k := keys[i][n];
    } else {
      var j: nat :| j < i && Accepted(keys, db, j) && Share(keys[i], keys[j]);
      var n :| 0 <= n < |keys[i]| && keys[i][n] in keys[j];
      k := keys[i][n];
      assert AcceptedWith(keys, db, j, k);
    }
  }

  ghost predicate AllReported(keys: seq<seq<string>>, db: seq<Entry>) {
    forall i :: 0 <= i < |keys| && keys[i] != [] ==> InDb(db, keys[i])
  }

  /** Every accepted row that has a key has a code. */
  ghost predicate AcceptedHaveCodes(keys: seq<seq<string>>, codes: seq<string>, db: seq<Entry>)
    requires |keys| == |codes|
  {
    forall i :: 0 <= i < |keys| && Accepted(keys, db, i) && keys[i] != [] ==> codes[i] != ""
  }

  predicate NoEmptyCodes(db: seq<Entry>) { forall p | 0 <= p < |db| :: db[p].code != "" }

  lemma CodedRowsAreReported(keys: seq<seq<string>>, codes: seq<string>, db: seq<Entry>, i: nat)
    requires |keys| == |codes| && NoEmptyCodes(db) && AcceptedHaveCodes(keys, codes, db)
    requires i < |keys| && keys[i] != []
    ensures InDb(Grown(keys, codes, db, |keys|), keys[i])
  {
    var k := KeyedRowLeadsSomewhere(keys, db, i);
    var now := Grown(keys, codes, db, |keys|);
    Lookup(RowEntries(keys, codes), Taken(keys, db), db, |keys|, now, k);
    assert DbCode(now, k).Some?;
  }

  lemma CodelessKeyStaysHidden(keys: seq<seq<string>>, codes: seq<string>, db: seq<Entry>, i: nat, k: string)
    requires |keys| == |codes| && AcceptedWith(keys, db, i, k) && codes[i] == "" && FirstWith(db, k).None?
    ensures DbCode(Grown(keys, codes, db, |keys|), k).None?
  {
    var all, taken := RowEntries(keys, codes), Taken(keys, db);
    Lookup(all, taken, db, |keys|, Grown(keys, codes, db, |keys|), k);
    var j := FirstTakenWith(all, taken, |keys|, k);
    if j.Some? { OneRowPerKey(keys, db, i, j.value, k); }
  }

  lemma CodelessRowStaysHidden(keys: seq<seq<string>>, codes: seq<string>, db: seq<Entry>, i: nat)
    requires |keys| == |codes| && NoEmptyCodes(db) && i < |keys| && Accepted(keys, db, i) && codes[i] == ""
    ensures !InDb(Grown(keys, codes, db, |keys|), keys[i])
  {
    forall n | 0 <= n < |keys[i]| ensures DbCode(Grown(keys, codes, db, |keys|), keys[i][n]).None? {
      assert DbCode(db, keys[i][n]).None?;
      CodelessKeyStaysHidden(keys, codes, db, i, keys[i][n]);
    }
  }

  lemma AllReportedIff(keys: seq<seq<string>>, codes: seq<string>, db: seq<Entry>)
    requires |keys| == |codes| && NoEmptyCodes(db)
    ensures AllReported(keys, Grown(keys, codes, db, |keys|)) <==> AcceptedHaveCodes(keys, codes, db)
  {
    if AcceptedHaveCodes(keys, codes, db) {
      forall i | 0 <= i < |keys| && keys[i] != [] ensures InDb(Grown(keys, codes, db, |keys|), keys[i]) {
        CodedRowsAreReported(keys, codes, db, i);
      }
    } else {
      var i :| 0 <= i < |keys| && Accepted(keys, db, i) && keys[i] != [] && codes[i] == "";
      CodelessRowStaysHidden(keys, codes, db, i);
    }
  }

  /** Importing the same file again reports every row that has a key as already in the database,
      exactly when every row accepted the first time that has a key also has a code. */
  lemma ReimportIsIdempotentIff(rows: seq<FileRow>, products: seq<Product>)
    requires forall p :: 0 <= p < |products| ==> products[p].code != ""
    ensures AllReported(RowKeys(rows), Entries(Imported(rows, products))) <==>
      AcceptedHaveCodes(RowKeys(rows), Codes(rows), Entries(products))
  {
    ImportGrows(rows, products);
    AllReportedIff(RowKeys(rows), Codes(rows), Entries(products));
  }

  // ----- missing brands -----

  ghost predicate HasNorm(codes: seq<string>, b: string) { exists i :: 0 <= i < |codes| && Norm(codes[i]) == b }

  lemma HasNormSnoc(codes: seq<string>, c: string, b: string)
    ensures HasNorm(codes + [c], b) <==> HasNorm(codes, b) || Norm(c) == b
  {
    if i :| 0 <= i < |codes| && Norm(codes[i]) == b { assert (codes + [c])[i] == codes[i]; }
    assert (codes + [c])[|codes|] == c;
  }

  /** The brand cells of the rows, trimmed. */
  function BrandCells(rows: seq<FileRow>): (r: seq<string>)
    ensures |r| == |rows| && forall i :: 0 <= i < |rows| ==> r[i] == Cell(rows[i].brand)
  {
    seq(|rows|, i requires 0 <= i < |rows| => Cell(rows[i].brand))
  }

  /** `code` is how the first of the cells with that brand spells it. */
  ghost predicate FirstSpelling(cells: seq<string>, code: string) {
    exists r :: 0 <= r < |cells| && cells[r] == code
      && forall q :: 0 <= q < r ==> cells[q] == "" || Norm(cells[q]) != Norm(code)
  }

  /** The missing codes among the first cells: new, different from each other, first spellings, and
      together with the existing ones all that the cells name. */
  ghost predicate Missing(cells: seq<string>, existing: seq<string>, out: seq<string>) {
    && (forall i, j :: 0 <= i < j < |out| ==> Norm(out[i]) != Norm(out[j]))
    && (forall i :: 0 <= i < |out| ==> out[i] != "" && !HasNorm(existing, Norm(out[i])) && FirstSpelling(cells, out[i]))
    && (forall r :: 0 <= r < |cells| && cells[r] != "" ==>
          HasNorm(existing, Norm(cells[r])) || HasNorm(out, Norm(cells[r])))
  }

  lemma StillFirst(cells: seq<string>, c: string, code: string)
    requires FirstSpelling(cells, code)
    ensures FirstSpelling(cells + [c], code)
  {
    var more := cells + [c];
    var r :| 0 <= r < |cells| && cells[r] == code
      && forall q :: 0 <= q < r ==> cells[q] == "" || Norm(cells[q]) != Norm(code);
    assert more[r] == code && forall q :: 0 <= q < r ==> more[q] == cells[q];
  }

  ghost predicate Spelled(existing: seq<string>, out: seq<string>, c: string) {
    c == "" || HasNorm(existing, Norm(c)) || HasNorm(out, Norm(c))
  }

  lemma MissingPasses(cells: seq<string>, existing: seq<string>, out: seq<string>, c: string)
    requires Missing(cells, existing, out) && Spelled(existing, out, c)
    ensures Missing(cells + [c], existing, out)
  {
    forall code | FirstSpelling(cells, code) ensures FirstSpelling(cells + [c], code) { StillFirst(cells, c, code); }
  }

  lemma MissingTakes(cells: seq<string>, existing: seq<string>, out: seq<string>, c: string)
    requires Missing(cells, existing, out) && !Spelled(existing, out, c)
    ensures Missing(cells + [c], existing, out + [c])
  {
    var more := cells + [c];
    forall code | FirstSpelling(cells, code) ensures FirstSpelling(more, code) { StillFirst(cells, c, code); }
    forall b { HasNormSnoc(out, c, b); }
    NewIsFirst(cells, existing, out, c);
  }

  lemma NewIsFirst(cells: seq<string>, existing: seq<string>, out: seq<string>, c: string)
    requires Missing(cells, existing, out) && !Spelled(existing, out, c)
    ensures FirstSpelling(cells + [c], c)
  {
    var more := cells + [c];
    forall q | 0 <= q < |cells| ensures more[q] == "" || Norm(more[q]) != Norm(c) {
      assert cells[q] != "" ==> HasNorm(existing, Norm(cells[q])) || HasNorm(out, Norm(cells[q]));
    }
    assert more[|cells|] == c;
  }

  /** The set holds exactly the normalised codes. */
  ghost predicate Collected(norms: set<string>, codes: seq<string>) {
    forall b :: b in norms <==> HasNorm(codes, b)
  }

  lemma CollectsOne(norms: set<string>, codes: seq<string>, c: string)
    requires Collected(norms, codes)
    ensures Collected(norms + {Norm(c)}, codes + [c])
  {
    forall b { HasNormSnoc(codes, c, b); }
  }

  /** Brand codes the rows name that do not exist yet, one spelling each, the first one. */
  method MissingBrandCodes(rows: seq<FileRow>, existing: seq<string>) returns (out: seq<string>)
    ensures Missing(BrandCells(rows), existing, out)
  {
    var cells := BrandCells(rows);
    var have := set i | 0 <= i < |existing| :: Norm(existing[i]);
    assert Collected(have, existing);
    var taken: set<string> := {};
    out := [];
    for r := 0 to |rows|
      invariant Collected(taken, out)
      invariant Missing(cells[..r], existing, out)
    {
      var c := cells[r];
      assert cells[..r + 1] == cells[..r] + [c];
      if c == "" || Norm(c) in have || Norm(c) in taken {
        MissingPasses(cells[..r], existing, out, c);
      } else {
        MissingTakes(cells[..r], existing, out, c);
        CollectsOne(taken, out, c);
        out := out + [c];
        taken := taken + {Norm(c)};
      }
    }
    assert cells[..|rows|] == cells;
  }

  /** After creating the missing brands, none is missing. */
  method CreateMissingBrands(rows: seq<FileRow>, existing: seq<string>)
    returns (brands: seq<string>, again: seq<string>)
    ensures existing <= brands && Missing(BrandCells(rows), existing, brands[|existing|..])
    ensures again == []
  {
    var out := MissingBrandCodes(rows, existing);
    brands := existing + out;
    again := MissingBrandCodes(rows, brands);
    assert brands[|existing|..] == out;
    forall b | HasNorm(existing, b) || HasNorm(out, b) ensures HasNorm(brands, b) {
      if i :| 0 <= i < |existing| && Norm(existing[i]) == b { assert brands[i] == existing[i]; }
      if i :| 0 <= i < |out| && Norm(out[i]) == b { assert brands[|existing| + i] == out[i]; }
    }
    assert again != [] ==> FirstSpelling(BrandCells(rows), again[0]);
    assert again != [] ==> HasNorm(brands, Norm(again[0]));
  }
}
