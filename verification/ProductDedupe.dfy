/** Product import: duplicates by brand and SKU, found in one pass with two maps. */
module ProductDedupe {
  import opened Stock
  import opened Text

  /** A cell is None when the file has nothing there. */
  datatype FileRow = FileRow(brand: Option<string>, code: Option<string>, part: Option<string>)

  datatype Product = Product(code: string, part: Option<string>, brand: Option<string>)

  datatype Hit = DbHit(existing: string, brand: string, sku: string) | FileHit(first: nat, brand: string, sku: string)

  function NormCell(v: Option<string>): string { if v.Some? then Norm(v.value) else "" }

  function Key(brand: string, sku: string): string { brand + "|" + sku }

  /** One key per distinct non-empty SKU, part number first. */
  function Keys(brand: Option<string>, code: Option<string>, part: Option<string>): seq<string> {
    var b, p, c := NormCell(brand), NormCell(part), NormCell(code);
    (if p == "" then [] else [Key(b, p)]) + (if c == "" || c == p then [] else [Key(b, c)])
  }

  function KeysOf(r: FileRow): seq<string> { Keys(r.brand, r.code, r.part) }

  function ProductKeys(p: Product): seq<string> { Keys(p.brand, Some(p.code), p.part) }

  // ----- what a key means -----

  predicate Plain(s: string) { '|' !in s }

  /** One brand goes on after the other and a bar. */
  predicate Within(b1: string, b2: string) { b1 + "|" <= b2 }

  /** What makes two keys equal: the same brand and SKU, or a brand that takes up part of the other's SKU. */
  lemma SameKeyIff(b1: string, s1: string, b2: string, s2: string)
    ensures Key(b1, s1) == Key(b2, s2) <==>
      || (b1 == b2 && s1 == s2)
      || (Within(b1, b2) && s1 == b2[|b1| + 1..] + "|" + s2)
      || (Within(b2, b1) && s2 == b1[|b2| + 1..] + "|" + s1)
  {
    if |b1| < |b2| {
      LongerBrandIff(b1, s1, b2, s2);
    } else if |b2| < |b1| {
      LongerBrandIff(b2, s2, b1, s1);
    } else {
      assert Key(b1, s1)[..|b1|] == b1 && Key(b2, s2)[..|b1|] == b2;
      assert Key(b1, s1)[|b1| + 1..] == s1 && Key(b2, s2)[|b2| + 1..] == s2;
    }
  }

  lemma LongerBrandIff(b1: string, s1: string, b2: string, s2: string)
    requires |b1| < |b2|
    ensures Key(b1, s1) == Key(b2, s2) <==> Within(b1, b2) && s1 == b2[|b1| + 1..] + "|" + s2
  {
    var k1, k2, n := Key(b1, s1), Key(b2, s2), |b1| + 1;
    assert k1[..n] == b1 + "|" && k1[n..] == s1;
    assert k2[..n] == b2[..n] && k2[n..] == b2[n..] + "|" + s2;
    assert k1 == k1[..n] + k1[n..] && k2 == k2[..n] + k2[n..];
  }

  /** Keys mean brand and SKU when neither brand goes on after the other and a bar; no bar at all is
      more than enough. */
  lemma KeyMeansBrandAndSku(b1: string, s1: string, b2: string, s2: string)
    requires !Within(b1, b2) && !Within(b2, b1)
    ensures Key(b1, s1) == Key(b2, s2) <==> b1 == b2 && s1 == s2
  {
    SameKeyIff(b1, s1, b2, s2);
  }

  lemma PlainIsNotWithin(b1: string, b2: string)
    ensures Plain(b2) ==> !Within(b1, b2)
  {
    assert Within(b1, b2) ==> b2[|b1|] == (b1 + "|")[|b1|];
  }

  /** The SKUs of a row or product. */
  function Skus(code: Option<string>, part: Option<string>): set<string> {
    {NormCell(part), NormCell(code)} - {""}
  }

  lemma KeysAre(brand: Option<string>, code: Option<string>, part: Option<string>, k: string)
    ensures k in Keys(brand, code, part) <==> exists sku :: sku in Skus(code, part) && k == Key(NormCell(brand), sku)
  {
    var b, p, c := NormCell(brand), NormCell(part), NormCell(code);
    assert p != "" ==> p in Skus(code, part);
    assert c != "" ==> c in Skus(code, part);
    if p != "" { assert Keys(brand, code, part)[0] == Key(b, p); }
    if c != "" && c != p {
      assert Keys(brand, code, part)[|Keys(brand, code, part)| - 1] == Key(b, c);
    }
  }

  predicate Overlap(a: set<string>, b: set<string>) { a * b != {} }

  /** Two rows, or a row and a product, of brands that are not within each other share a key exactly
      when they have the same normalised brand and a SKU in common. */
  lemma SharedKeyIff(r: FileRow, q: FileRow)
    requires !Within(NormCell(r.brand), NormCell(q.brand)) && !Within(NormCell(q.brand), NormCell(r.brand))
    ensures Share(KeysOf(r), KeysOf(q)) <==>
      NormCell(r.brand) == NormCell(q.brand) && Overlap(Skus(r.code, r.part), Skus(q.code, q.part))
  {
    var b, d, common := NormCell(r.brand), NormCell(q.brand), Skus(r.code, r.part) * Skus(q.code, q.part);
    if Share(KeysOf(r), KeysOf(q)) {
      var s, t := SharedSkus(r, q);
      KeyMeansBrandAndSku(b, s, d, t);
      assert s in common;
    }
    if b == d && common != {} {
      var s :| s in common;
      SharingSkus(r, q, s, s);
    }
  }

  lemma SharedSkus(r: FileRow, q: FileRow) returns (s: string, t: string)
    requires Share(KeysOf(r), KeysOf(q))
    ensures s in Skus(r.code, r.part) && t in Skus(q.code, q.part)
    ensures Key(NormCell(r.brand), s) == Key(NormCell(q.brand), t)
  {
    var n :| 0 <= n < |KeysOf(r)| && KeysOf(r)[n] in KeysOf(q);
    var k := KeysOf(r)[n];
    KeysAre(r.brand, r.code, r.part, k);
    KeysAre(q.brand, q.code, q.part, k);
    s :| s in Skus(r.code, r.part) && k == Key(NormCell(r.brand), s);
    t :| t in Skus(q.code, q.part) && k == Key(NormCell(q.brand), t);
  }

  lemma SharingSkus(r: FileRow, q: FileRow, s: string, t: string)
    requires s in Skus(r.code, r.part) && t in Skus(q.code, q.part)
    requires Key(NormCell(r.brand), s) == Key(NormCell(q.brand), t)
    ensures Share(KeysOf(r), KeysOf(q))
  {
    var k := Key(NormCell(r.brand), s);
    KeysAre(r.brand, r.code, r.part, k);
    KeysAre(q.brand, q.code, q.part, k);
    var n :| 0 <= n < |KeysOf(r)| && KeysOf(r)[n] == k;
    assert KeysOf(r)[n] in KeysOf(q);
  }

  /** A SKU can stand for the rest of brand `b2`: what follows the bar does not start with white space. */
  predicate Confusable(b1: string, b2: string) {
    Within(b1, b2) && (|b2| == |b1| + 1 || !IsSpace(b2[|b1| + 1]))
  }

  /** Some row of the one brand shares a key with some row of the other. */
  ghost predicate Confused(b1: string, b2: string) {
    exists r: FileRow, q: FileRow ::
      NormCell(r.brand) == b1 && NormCell(q.brand) == b2 && Share(KeysOf(r), KeysOf(q))
  }

  /** Rows of two different brands can share a key exactly when one brand goes on after the other and
      a bar, with no white space next: what can be checked when a brand is created. */
  lemma BrandsConfusedIff(b1: string, b2: string)
    requires b1 != b2 && Norm(b1) == b1 && Norm(b2) == b2
    ensures Confused(b1, b2) <==> Confusable(b1, b2) || Confusable(b2, b1)
  {
    if r: FileRow, q: FileRow :| NormCell(r.brand) == b1 && NormCell(q.brand) == b2 && Share(KeysOf(r), KeysOf(q)) {
      var s, t := SharedSkus(r, q);
      SameKeyIff(b1, s, b2, t);
      SkuStartsPlain(r.code, r.part, s);
      SkuStartsPlain(q.code, q.part, t);
    }
    if Confusable(b1, b2) { ConfusingRows(b1, b2); }
    if Confusable(b2, b1) {
      ConfusingRows(b2, b1);
      ConfusedIsSymmetric(b2, b1);
    }
  }

  lemma ConfusedIsSymmetric(b1: string, b2: string)
    requires Confused(b1, b2)
    ensures Confused(b2, b1)
  {
    var r: FileRow, q: FileRow :| NormCell(r.brand) == b1 && NormCell(q.brand) == b2 && Share(KeysOf(r), KeysOf(q));
    ShareIsSymmetric(KeysOf(r), KeysOf(q));
  }

  lemma SkuStartsPlain(code: Option<string>, part: Option<string>, s: string)
    requires s in Skus(code, part)
    ensures s != "" && !IsSpace(s[0])
  {
    var cell := if NormCell(part) == s then part else code;
    NormStable(cell.value);
    NormFixedIff(s);
  }

  lemma ConfusingRows(b1: string, b2: string)
    requires Norm(b1) == b1 && Norm(b2) == b2 && Confusable(b1, b2)
    ensures Confused(b1, b2)
  {
    var rest := b2[|b1| + 1..];
    var s := rest + "|" + "x";
    NormFixedIff(b2);
    assert Lower(b2) == b2 && forall i :: 0 <= i < |rest| ==> LowerChar(rest[i]) == b2[|b1| + 1 + i];
    assert Lower(s) == s && Trimmed(s) by {
      assert forall i :: 0 <= i < |s| ==> LowerChar(s[i]) == s[i];
    }
    NormFixedIff(s);
    assert Lower("x") == "x";
    NormFixedIff("x");
    SameKeyIff(b1, s, b2, "x");
    var r, q := FileRow(Some(b1), None, Some(s)), FileRow(Some(b2), None, Some("x"));
    SharingSkus(r, q, s, "x");
  }

  function UpToBar(s: string): string {
    if s == [] || s[0] == '|' then [] else [s[0]] + UpToBar(s[1..])
  }

  /** Brand and SKU read back from a key: the first two pieces between bars. */
  function Label(k: string): (string, string) {
    var b := UpToBar(k);
    (b, if |b| < |k| then UpToBar(k[|b| + 1..]) else "")
  }

  lemma {:induction false} UpToBarIs(s: string, rest: string)
    ensures UpToBar(s + "|" + rest) == s <==> Plain(s)
    ensures UpToBar(s) == s <==> Plain(s)
    ensures |UpToBar(s)| <= |s| && UpToBar(s) <= s && Plain(UpToBar(s))
  {
    if s != [] {
      UpToBarIs(s[1..], rest);
      assert s == [s[0]] + s[1..];
      assert (s + "|" + rest)[1..] == s[1..] + "|" + rest;
      if s[0] != '|' {
        assert Plain(s) <==> Plain(s[1..]);
        assert ([s[0]] + UpToBar(s[1..]))[1..] == UpToBar(s[1..]);
        assert UpToBar(s + "|" + rest)[1..] == UpToBar(s[1..] + "|" + rest);
      }
    }
  }

  /** The brand and SKU a hit reports are the real ones exactly when neither contains a bar. */
  lemma LabelIsTrueIff(brand: string, sku: string)
    ensures Label(Key(brand, sku)) == (brand, sku) <==> Plain(brand) && Plain(sku)
  {
    UpToBarIs(brand, sku);
    var k := Key(brand, sku);
    if Plain(brand) {
      assert k[|brand| + 1..] == sku;
      UpToBarIs(sku, "");
    }
  }

  /** With a bar in the brand, the label names a brand and a SKU that are not there. */
  lemma BarsMislabel()
    ensures Label(Key("a|b", "c")) == ("a", "b")
  {
    assert Key("a|b", "c") == "a" + "|" + "b|c";
    UpToBarIs("a", "b|c");
    assert Key("a|b", "c")[2..] == "b" + "|" + "c";
    UpToBarIs("b", "c");
  }

  // ----- the database index -----

  /** What detection needs of a product, or of a row: its keys. */
  datatype Entry = Entry(code: string, keys: seq<string>)

  function Entries(products: seq<Product>): (r: seq<Entry>)
    ensures |r| == |products| && forall i :: 0 <= i < |products| ==>
      r[i] == Entry(products[i].code, ProductKeys(products[i]))
  {
    seq(|products|, i requires 0 <= i < |products| => Entry(products[i].code, ProductKeys(products[i])))
  }

  function RowKeys(rows: seq<FileRow>): (r: seq<seq<string>>)
    ensures |r| == |rows| && forall i :: 0 <= i < |rows| ==> r[i] == KeysOf(rows[i])
  {
    seq(|rows|, i requires 0 <= i < |rows| => KeysOf(rows[i]))
  }

  /** The first product with the key. */
  function FirstWith(db: seq<Entry>, k: string): (r: Option<nat>)
    ensures match r
      case Some(i) => i < |db| && k in db[i].keys && forall j :: 0 <= j < i ==> k !in db[j].keys
      case None => forall j :: 0 <= j < |db| ==> k !in db[j].keys
  {
    if db == [] then None
    else
      var front := FirstWith(db[..|db| - 1], k);
      if front.Some? then front
      else if k in db[|db| - 1].keys then Some(|db| - 1) else None
  }

  ghost predicate IsIndex(idx: map<string, string>, db: seq<Entry>) {
    && (forall k :: k in idx <==> FirstWith(db, k).Some?)
    && (forall k :: k in idx ==> idx[k] == db[FirstWith(db, k).value].code)
  }

  /** Adds the keys that are not there yet. */
  method AddKeys(idx: map<string, string>, keys: seq<string>, code: string) returns (r: map<string, string>)
    ensures forall k :: k in r <==> k in idx || k in keys
    ensures forall k :: k in r ==> r[k] == if k in idx then idx[k] else code
  {
    r := idx;
    for n := 0 to |keys|
      invariant forall k :: k in r <==> k in idx || k in keys[..n]
      invariant forall k :: k in r ==> r[k] == if k in idx then idx[k] else code
    {
      if keys[n] !in r { r := r[keys[n] := code]; }
    }
    assert keys[..|keys|] == keys;
  }

  lemma FirstWithSnoc(db: seq<Entry>, e: Entry, k: string)
    ensures FirstWith(db + [e], k) ==
      if FirstWith(db, k).Some? then FirstWith(db, k) else if k in e.keys then Some(|db|) else None
  {
    assert (db + [e])[..|db|] == db;
  }

  method BuildDbIndex(db: seq<Entry>) returns (idx: map<string, string>)
    ensures IsIndex(idx, db)
  {
    idx := map[];
    for i := 0 to |db|
      invariant IsIndex(idx, db[..i])
    {
      ghost var before := idx;
      idx := AddKeys(idx, db[i].keys, db[i].code);
      assert db[..i + 1] == db[..i] + [db[i]];
      forall k ensures k in idx <==> FirstWith(db[..i + 1], k).Some?
        ensures k in idx ==> idx[k] == db[..i + 1][FirstWith(db[..i + 1], k).value].code
      {
        FirstWithSnoc(db[..i], db[i], k);
        assert k in before <==> FirstWith(db[..i], k).Some?;
      }
    }
    assert db[..|db|] == db;
  }

  // ----- the specification -----

  /** The code the database reports for a key; an empty code reads as no product at all. */
  function DbCode(db: seq<Entry>, k: string): Option<string> {
    var i := FirstWith(db, k);
    if i.Some? && db[i.value].code != "" then Some(db[i.value].code) else None
  }

  predicate InDb(db: seq<Entry>, keys: seq<string>) {
    exists n | 0 <= n < |keys| :: DbCode(db, keys[n]).Some?
  }

  predicate Share(a: seq<string>, b: seq<string>) {
    exists n | 0 <= n < |a| :: a[n] in b
  }

  /** Row `i` is accepted: not in the database, and no earlier accepted row shares a key with it. */
  predicate Accepted(rows: seq<seq<string>>, db: seq<Entry>, i: nat)
    requires i < |rows|
    decreases i
  {
    && !InDb(db, rows[i])
    && forall j: nat | j < i :: Accepted(rows, db, j) ==> !Share(rows[i], rows[j])
  }

  /** The rows before `i` that are accepted. */
  ghost function AcceptedBefore(rows: seq<seq<string>>, db: seq<Entry>, i: nat): set<nat>
    requires i <= |rows|
  {
    set j | 0 <= j < i && Accepted(rows, db, j)
  }

  /** `seen` names, for each key, the accepted row that has it. */
  ghost predicate IsSeen(seen: map<string, nat>, rows: seq<seq<string>>, accepted: set<nat>) {
    && (forall k :: k in seen ==> seen[k] in accepted && seen[k] < |rows| && k in rows[seen[k]])
    && (forall j, k :: j in accepted && j < |rows| && k in rows[j] ==> k in seen && seen[k] == j)
  }

  /** An accepted row before `i` has the key. */
  predicate TakenBefore(rows: seq<seq<string>>, db: seq<Entry>, i: nat, k: string)
    requires i <= |rows|
  {
    exists j: nat | j < i :: Accepted(rows, db, j) && k in rows[j]
  }

  /** Key `n` is the first one the database reports a product for. */
  predicate FirstInDb(db: seq<Entry>, keys: seq<string>, n: nat) {
    n < |keys| && DbCode(db, keys[n]).Some? && forall m | 0 <= m < n :: DbCode(db, keys[m]).None?
  }

  /** Key `n` of row `i` is the first one an accepted row before it has. */
  predicate FirstTaken(rows: seq<seq<string>>, db: seq<Entry>, i: nat, n: nat)
    requires i < |rows|
  {
    && n < |rows[i]| && TakenBefore(rows, db, i, rows[i][n])
    && forall m | 0 <= m < n :: !TakenBefore(rows, db, i, rows[i][m])
  }

  /** What the result says of row `i`: the first key that hits decides. */
  ghost predicate Verdict(rows: seq<seq<string>>, db: seq<Entry>, i: nat, hit: Option<Hit>)
    requires i < |rows|
  {
    match hit
    case Some(DbHit(existing, brand, sku)) =>
      exists n: nat :: FirstInDb(db, rows[i], n)
        && DbCode(db, rows[i][n]) == Some(existing) && Label(rows[i][n]) == (brand, sku)
    case Some(FileHit(first, brand, sku)) =>
      && !InDb(db, rows[i]) && first < i && Accepted(rows, db, first)
      && exists n: nat :: FirstTaken(rows, db, i, n)
           && rows[i][n] in rows[first] && Label(rows[i][n]) == (brand, sku)
    case None => Accepted(rows, db, i)
  }

  /** The first key the database reports a product for. */
  method FindInDb(keys: seq<string>, idx: map<string, string>, ghost db: seq<Entry>) returns (hit: Option<nat>)
    requires IsIndex(idx, db)
    ensures hit.Some? ==> FirstInDb(db, keys, hit.value)
    ensures hit.Some? ==> keys[hit.value] in idx && DbCode(db, keys[hit.value]) == Some(idx[keys[hit.value]])
    ensures hit.None? ==> !InDb(db, keys)
  {
    for n := 0 to |keys|
      invariant forall m :: 0 <= m < n ==> DbCode(db, keys[m]).None?
    {
      if keys[n] in idx && idx[keys[n]] != "" { return Some(n); }
    }
    return None;
  }

  /** The first key an earlier accepted row has. */
  method FindSeen(rows: seq<seq<string>>, ghost db: seq<Entry>, seen: map<string, nat>, i: nat)
    returns (hit: Option<nat>)
    requires i < |rows| && IsSeen(seen, rows, AcceptedBefore(rows, db, i))
    ensures hit.Some? ==> FirstTaken(rows, db, i, hit.value) && rows[i][hit.value] in seen
    ensures hit.None? ==> forall k :: k in rows[i] ==> k !in seen
  {
    for n := 0 to |rows[i]|
      invariant forall m :: 0 <= m < n ==> rows[i][m] !in seen
    {
      if rows[i][n] in seen {
        SeenIsTaken(rows, db, seen, i);
        return Some(n);
      }
    }
    return None;
  }

  lemma SeenIsTaken(rows: seq<seq<string>>, db: seq<Entry>, seen: map<string, nat>, i: nat)
    requires i < |rows| && IsSeen(seen, rows, AcceptedBefore(rows, db, i))
    ensures forall k :: k in seen <==> TakenBefore(rows, db, i, k)
  {
  }

  /** What the keys of an accepted row lead to once they are remembered. */
  ghost predicate Remembers(after: map<string, nat>, seen: map<string, nat>, keys: seq<string>, i: nat) {
    && (forall k :: k in after <==> k in seen || k in keys)
    && (forall k :: k in after ==> after[k] == if k in keys then i else seen[k])
  }

  method Remember(keys: seq<string>, seen: map<string, nat>, i: nat) returns (r: map<string, nat>)
    ensures Remembers(r, seen, keys, i)
  {
    r := seen;
    for n := 0 to |keys|
      invariant forall k :: k in r <==> k in seen || k in keys[..n]
      invariant forall k :: k in r ==> r[k] == if k in keys[..n] then i else seen[k]
    {
      r := r[keys[n] := i];
    }
    assert keys[..|keys|] == keys;
  }

  /** A row that shares no key with an accepted one is accepted itself and remembered. */
  lemma UnseenIsAccepted(rows: seq<seq<string>>, db: seq<Entry>, seen: map<string, nat>, i: nat)
    requires i < |rows| && IsSeen(seen, rows, AcceptedBefore(rows, db, i)) && !InDb(db, rows[i])
    requires forall k :: k in rows[i] ==> k !in seen
    ensures Accepted(rows, db, i)
  {
    forall j: nat | j < i && Accepted(rows, db, j) ensures !Share(rows[i], rows[j]) {
      assert j in AcceptedBefore(rows, db, i);
      forall n | 0 <= n < |rows[i]| ensures rows[i][n] !in rows[j] {
        assert rows[i][n] in rows[i];
      }
    }
  }

  lemma RejectedIsNotSeen(rows: seq<seq<string>>, db: seq<Entry>, seen: map<string, nat>, i: nat)
    requires i < |rows| && IsSeen(seen, rows, AcceptedBefore(rows, db, i)) && !Accepted(rows, db, i)
    ensures IsSeen(seen, rows, AcceptedBefore(rows, db, i + 1))
  {
    assert AcceptedBefore(rows, db, i + 1) == AcceptedBefore(rows, db, i);
  }

  lemma Remembering(rows: seq<seq<string>>, accepted: set<nat>, seen: map<string, nat>, i: nat, after: map<string, nat>)
    requires i < |rows| && IsSeen(seen, rows, accepted) && Remembers(after, seen, rows[i], i)
    requires forall k :: k in rows[i] ==> k !in seen
    ensures IsSeen(after, rows, accepted + {i})
  {
  }

  lemma RememberedIsSeen(rows: seq<seq<string>>, db: seq<Entry>, seen: map<string, nat>, i: nat,
        after: map<string, nat>)
    requires i < |rows| && IsSeen(seen, rows, AcceptedBefore(rows, db, i)) && Accepted(rows, db, i)
    requires Remembers(after, seen, rows[i], i) && forall k :: k in rows[i] ==> k !in seen
    ensures IsSeen(after, rows, AcceptedBefore(rows, db, i + 1))
  {
    Remembering(rows, AcceptedBefore(rows, db, i), seen, i, after);
    assert AcceptedBefore(rows, db, i + 1) == AcceptedBefore(rows, db, i) + {i};
  }

  /** The hit on a product that key `n` of row `i` leads to. */
  function DbHitAt(rows: seq<seq<string>>, i: nat, n: nat, existing: string): Hit
    requires i < |rows| && n < |rows[i]|
  {
    DbHit(existing, Label(rows[i][n]).0, Label(rows[i][n]).1)
  }

  function FileHitAt(rows: seq<seq<string>>, i: nat, n: nat, first: nat): Hit
    requires i < |rows| && n < |rows[i]|
  {
    FileHit(first, Label(rows[i][n]).0, Label(rows[i][n]).1)
  }

  lemma DbHitHolds(rows: seq<seq<string>>, db: seq<Entry>, i: nat, n: nat, existing: string)
    requires i < |rows| && FirstInDb(db, rows[i], n) && DbCode(db, rows[i][n]) == Some(existing)
    ensures Verdict(rows, db, i, Some(DbHitAt(rows, i, n, existing))) && !Accepted(rows, db, i)
  {
  }

  lemma FileHitHolds(rows: seq<seq<string>>, db: seq<Entry>, seen: map<string, nat>, i: nat, n: nat)
    requires i < |rows| && IsSeen(seen, rows, AcceptedBefore(rows, db, i)) && !InDb(db, rows[i])
    requires FirstTaken(rows, db, i, n) && rows[i][n] in seen
    ensures Verdict(rows, db, i, Some(FileHitAt(rows, i, n, seen[rows[i][n]]))) && !Accepted(rows, db, i)
  {
    var first := seen[rows[i][n]];
    assert first in AcceptedBefore(rows, db, i);
    assert Share(rows[i], rows[first]);
  }

  /** One row: the database first, then the earlier rows of the file; a clean row is remembered. */
  method DetectRow(rows: seq<seq<string>>, ghost db: seq<Entry>, idx: map<string, string>, seen: map<string, nat>,
        i: nat)
    returns (hit: Option<Hit>, after: map<string, nat>)
    requires i < |rows| && IsIndex(idx, db) && IsSeen(seen, rows, AcceptedBefore(rows, db, i))
    ensures Verdict(rows, db, i, hit) && IsSeen(after, rows, AcceptedBefore(rows, db, i + 1))
  {
    var existing := FindInDb(rows[i], idx, db);
    if existing.Some? {
      var code := idx[rows[i][existing.value]];
      DbHitHolds(rows, db, i, existing.value, code);
      RejectedIsNotSeen(rows, db, seen, i);
      return Some(DbHitAt(rows, i, existing.value, code)), seen;
    }
    var first := FindSeen(rows, db, seen, i);
    if first.Some? {
      FileHitHolds(rows, db, seen, i, first.value);
      RejectedIsNotSeen(rows, db, seen, i);
      return Some(FileHitAt(rows, i, first.value, seen[rows[i][first.value]])), seen;
    }
    UnseenIsAccepted(rows, db, seen, i);
    after := Remember(rows[i], seen, i);
    RememberedIsSeen(rows, db, seen, i, after);
    return None, after;
  }

  method DetectKeys(keys: seq<seq<string>>, ghost db: seq<Entry>, idx: map<string, string>)
    returns (hits: seq<Option<Hit>>)
    requires IsIndex(idx, db)
    ensures |hits| == |keys| && forall i :: 0 <= i < |keys| ==> Verdict(keys, db, i, hits[i])
  {
    var seen: map<string, nat> := map[];
    hits := [];
    for i := 0 to |keys|
      invariant |hits| == i && IsSeen(seen, keys, AcceptedBefore(keys, db, i))
      invariant forall j :: 0 <= j < i ==> Verdict(keys, db, j, hits[j])
    {
      var hit;
      hit, seen := DetectRow(keys, db, idx, seen, i);
      hits := hits + [hit];
    }
  }

  /** One result per row, as the specification says. */
  method DetectProductDuplicates(rows: seq<FileRow>, products: seq<Product>) returns (hits: seq<Option<Hit>>)
    ensures |hits| == |rows|
    ensures forall i :: 0 <= i < |rows| ==> Verdict(RowKeys(rows), Entries(products), i, hits[i])
  {
    var idx := BuildDbIndex(Entries(products));
    hits := DetectKeys(RowKeys(rows), Entries(products), idx);
  }

  /** A verdict is 'db' exactly when the database reports a key of the row, 'file' exactly when,
      otherwise, an earlier accepted row shares a key, and nothing exactly when the row is accepted. */
  lemma VerdictMeans(rows: seq<seq<string>>, db: seq<Entry>, i: nat, hit: Option<Hit>)
    requires i < |rows| && Verdict(rows, db, i, hit)
    ensures hit.None? <==> Accepted(rows, db, i)
    ensures hit.Some? && hit.value.DbHit? <==> InDb(db, rows[i])
    ensures hit.Some? && hit.value.FileHit? <==>
      !InDb(db, rows[i]) && exists j: nat :: j < i && Accepted(rows, db, j) && Share(rows[i], rows[j])
  {
    match hit
    case Some(FileHit(first, _, _)) => assert Share(rows[i], rows[first]);
    case _ =>
  }

  lemma ShareIsSymmetric(a: seq<string>, b: seq<string>)
    ensures Share(a, b) ==> Share(b, a)
  {
  }

  /** Accepted rows share no key with each other or with what the database reports, and every other
      row shares one with the database or with an earlier accepted row. */
  lemma AcceptedIsMaximal(rows: seq<seq<string>>, db: seq<Entry>)
    ensures forall i: nat, j: nat ::
      i < |rows| && j < |rows| && i != j && Accepted(rows, db, i) && Accepted(rows, db, j) ==>
      !Share(rows[i], rows[j])
    ensures forall i: nat :: i < |rows| ==>
      (!Accepted(rows, db, i) <==>
        InDb(db, rows[i]) || exists j: nat :: j < i && Accepted(rows, db, j) && Share(rows[i], rows[j]))
  {
    forall i: nat, j: nat | i < |rows| && j < |rows| && i != j && Accepted(rows, db, i) && Accepted(rows, db, j)
      ensures !Share(rows[i], rows[j])
    {
      ShareIsSymmetric(rows[i], rows[j]);
    }
  }

  /** No product that is the first with some key has an empty code. */
  ghost predicate FirstsHaveCodes(db: seq<Entry>) {
    forall k :: FirstWith(db, k).Some? ==> db[FirstWith(db, k).value].code != ""
  }

  predicate SharesWithSome(db: seq<Entry>, keys: seq<string>) {
    exists p :: 0 <= p < |db| && Share(keys, db[p].keys)
  }

  /** Rows are reported exactly when they share a key with some product, if and only if no product that
      is first with a key has an empty code: such a one hides its key at itself and at later products. */
  lemma ReportedIfSharedIff(db: seq<Entry>)
    ensures (forall keys :: InDb(db, keys) <==> SharesWithSome(db, keys)) <==> FirstsHaveCodes(db)
  {
    if FirstsHaveCodes(db) {
      forall keys ensures InDb(db, keys) <==> SharesWithSome(db, keys) { ReportedIsShared(db, keys); }
    } else {
      var k :| FirstWith(db, k).Some? && db[FirstWith(db, k).value].code == "";
      assert [k][0] in db[FirstWith(db, k).value].keys;
      assert SharesWithSome(db, [k]) && !InDb(db, [k]);
    }
  }

  lemma ReportedIsShared(db: seq<Entry>, keys: seq<string>)
    requires FirstsHaveCodes(db)
    ensures InDb(db, keys) <==> SharesWithSome(db, keys)
  {
    if InDb(db, keys) {
      var n :| 0 <= n < |keys| && DbCode(db, keys[n]).Some?;
      assert Share(keys, db[FirstWith(db, keys[n]).value].keys);
    }
    if SharesWithSome(db, keys) {
      var p :| 0 <= p < |db| && Share(keys, db[p].keys);
      var n :| 0 <= n < |keys| && keys[n] in db[p].keys;
      assert DbCode(db, keys[n]).Some?;
    }
  }

  /** Without empty codes, a row is reported against the database exactly when it shares a key with
      some product. */
  lemma InDbMeansSharedKey(db: seq<Entry>, keys: seq<string>)
    requires forall p :: 0 <= p < |db| ==> db[p].code != ""
    ensures InDb(db, keys) <==> exists p :: 0 <= p < |db| && Share(keys, db[p].keys)
  {
    ReportedIsShared(db, keys);
  }
}
