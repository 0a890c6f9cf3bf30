/**
 * What the pricing pass of src/global-cart-modal.js guarantees: the balance
 * `total + deductions == original`, silent skipping of unknown SKUs, the
 * deduction charged to each line, stability of earlier lines when an item is
 * appended, and independence of the totals from the order of the items when
 * every biomarker key has one price across the catalog.
 */
module CartProperties {
  import opened Strings
  import opened Cart

  // ---------------------------------------------------------------------------
  // Splitting the pass
  // ---------------------------------------------------------------------------

  lemma {:induction false} RunAppend(c: Catalog, p: Pass, a: seq<Entry>, b: seq<Entry>)
    ensures RunFrom(c, p, a + b) == RunFrom(c, RunFrom(c, p, a), b)
    decreases |b|
  {
    if b == [] {
      assert a + b == a;
    } else {
      assert (a + b)[..|a + b| - 1] == a + b[..|b| - 1];
      RunAppend(c, p, a, b[..|b| - 1]);
    }
  }

  lemma {:induction false} SumByAppend(c: Catalog, m: Measure, a: seq<Entry>, b: seq<Entry>)
    ensures SumBy(c, m, a + b) == SumBy(c, m, a) + SumBy(c, m, b)
    decreases |b|
  {
    if b == [] {
      assert a + b == a;
    } else {
      assert (a + b)[..|a + b| - 1] == a + b[..|b| - 1];
      SumByAppend(c, m, a, b[..|b| - 1]);
    }
  }

  // ---------------------------------------------------------------------------
  // total + deductions == original
  // ---------------------------------------------------------------------------

  lemma {:induction false} RunBalance(c: Catalog, items: seq<Entry>)
    ensures Run(c, items).total + Run(c, items).deductions == OriginalSum(c, items)
  {
    if items != [] {
      RunBalance(c, items[..|items| - 1]);
    }
  }

  /** Every deduction taken off a line is added to `deductions`, so the
      discounted total and the deductions add up to the undiscounted sum. */
  lemma SumInvariant(c: Catalog, items: seq<Entry>)
    ensures Calculate(c, items).total + Calculate(c, items).deductions == Calculate(c, items).original
  {
    RunBalance(c, items);
  }

  // ---------------------------------------------------------------------------
  // Unknown SKUs
  // ---------------------------------------------------------------------------

  /** The empty cart. */
  lemma EmptyCart(c: Catalog)
    ensures Calculate(c, []) == Totals(0, 0, [], 0)
  {
  }

  /** An item whose SKU is not in the catalog changes nothing, wherever it
      stands in the cart: no price line, nothing added to any sum. */
  lemma UnknownSkipped(c: Catalog, a: seq<Entry>, x: Entry, b: seq<Entry>)
    requires x.sku !in c
    ensures Calculate(c, a + [x] + b) == Calculate(c, a + b)
  {
    RunAppend(c, Start, a + [x], b);
    RunAppend(c, Start, a, [x]);
    RunAppend(c, Start, a, b);
    assert RunFrom(c, Run(c, a), [x]) == Step(c, RunFrom(c, Run(c, a), []), x);
    SumByAppend(c, BasePrice, a + [x], b);
    SumByAppend(c, BasePrice, a, [x]);
    SumByAppend(c, BasePrice, a, b);
    assert SumBy(c, BasePrice, [x]) == SumBy(c, BasePrice, []) + BaseOrZero(c, x);
  }

  /** A cart of unknown SKUs only prices like the empty cart. */
  lemma {:induction false} OnlyUnknown(c: Catalog, items: seq<Entry>)
    requires forall i :: 0 <= i < |items| ==> items[i].sku !in c
    ensures Calculate(c, items) == Totals(0, 0, [], 0)
  {
    if items != [] {
      var n := |items| - 1;
      OnlyUnknown(c, items[..n]);
      UnknownSkipped(c, items[..n], items[n], []);
      assert items[..n] + [items[n]] + [] == items;
      assert items[..n] + [] == items[..n];
    }
  }

  // ---------------------------------------------------------------------------
  // The deduction charged to each line
  // ---------------------------------------------------------------------------

  /** The keys of a package's biomarkers. */
  function KeysOf(bs: seq<Biomarker>): set<string>
  {
    set i | 0 <= i < |bs| :: bs[i].key
  }

  /** Within a package every biomarker key occurs once (an object's keys). */
  predicate DistinctKeys(bs: seq<Biomarker>)
  {
    forall i, j :: 0 <= i < j < |bs| ==> bs[i].key != bs[j].key
  }

  predicate WellFormed(c: Catalog)
  {
    forall sku :: sku in c ==> DistinctKeys(c[sku].biomarkers)
  }

  /** The resolved items (those whose SKU is in the catalog), in order. */
  function Resolved(c: Catalog, items: seq<Entry>): seq<Entry>
  {
    if items == [] then []
    else
      var rest := Resolved(c, items[..|items| - 1]);
      if items[|items| - 1].sku in c then rest + [items[|items| - 1]] else rest
  }

  /** The biomarker keys claimed by the resolved items. */
  function UsedKeys(c: Catalog, items: seq<Entry>): set<string>
  {
    if items == [] then {}
    else
      var rest := UsedKeys(c, items[..|items| - 1]);
      var e := items[|items| - 1];
      if e.sku in c then rest + KeysOf(c[e.sku].biomarkers) else rest
  }

  /** The sum of the prices of those biomarkers of `bs` whose key is in `s`. */
  function ClaimedPrice(bs: seq<Biomarker>, s: set<string>): int
  {
    if bs == [] then 0
    else ClaimedPrice(bs[..|bs| - 1], s) + (if bs[|bs| - 1].key in s then bs[|bs| - 1].price else 0)
  }

  lemma KeysOfSnoc(bs: seq<Biomarker>)
    requires bs != []
    ensures KeysOf(bs) == KeysOf(bs[..|bs| - 1]) + {bs[|bs| - 1].key}
  {
    var init := bs[..|bs| - 1];
    forall k | k in KeysOf(init) ensures k in KeysOf(bs) {
      var i :| 0 <= i < |init| && init[i].key == k;
      assert bs[i].key == k;
    }
    forall k | k in KeysOf(bs) ensures k in KeysOf(init) + {bs[|bs| - 1].key} {
      var i :| 0 <= i < |bs| && bs[i].key == k;
      if i < |init| {
        assert init[i].key == k;
      }
    }
  }

  /** `seen` grows by exactly the package's keys. */
  lemma {:induction false} ClaimSeen(bs: seq<Biomarker>, s: set<string>)
    ensures Claim(bs, s).1 == s + KeysOf(bs)
  {
    if bs != [] {
      ClaimSeen(bs[..|bs| - 1], s);
      KeysOfSnoc(bs);
    }
  }

  /** With distinct keys, the inner walk deducts exactly the biomarkers that
      an earlier package claimed. */
  lemma {:induction false} ClaimDeduction(bs: seq<Biomarker>, s: set<string>)
    requires DistinctKeys(bs)
    ensures Claim(bs, s).0 == ClaimedPrice(bs, s)
  {
    if bs != [] {
      var init := bs[..|bs| - 1];
      assert DistinctKeys(init);
      ClaimDeduction(init, s);
      ClaimSeen(init, s);
      var b := bs[|bs| - 1];
      forall i | 0 <= i < |init|
        ensures init[i].key != b.key
      {
        assert init[i] == bs[i];
      }
      assert b.key !in KeysOf(init);
    }
  }

  lemma {:induction false} RunSeen(c: Catalog, items: seq<Entry>)
    ensures Run(c, items).seen == UsedKeys(c, items)
  {
    if items != [] {
      RunSeen(c, items[..|items| - 1]);
      var e := items[|items| - 1];
      if e.sku in c {
        ClaimSeen(c[e.sku].biomarkers, Run(c, items[..|items| - 1]).seen);
      }
    }
  }

  lemma {:induction false} RunPrices(c: Catalog, items: seq<Entry>)
    requires WellFormed(c)
    ensures |Run(c, items).prices| == |Resolved(c, items)|
    ensures forall k :: 0 <= k < |Run(c, items).prices| ==>
      var e := Resolved(c, items)[k];
      e.sku in c && Run(c, items).prices[k].sku == e.sku
      && Run(c, items).prices[k].name == c[e.sku].name
      && Run(c, items).prices[k].original == c[e.sku].basePrice
    ensures forall i :: 0 <= i < |items| && items[i].sku in c ==>
      var pkg := c[items[i].sku];
      |Resolved(c, items[..i])| < |Run(c, items).prices|
      && Run(c, items).prices[|Resolved(c, items[..i])|]
         == PriceLine(items[i].sku, pkg.name, pkg.basePrice,
                      pkg.basePrice - ClaimedPrice(pkg.biomarkers, UsedKeys(c, items[..i])))
  {
    if items != [] {
      var n := |items| - 1;
      var init := items[..n];
      RunPrices(c, init);
      RunSeen(c, init);
      var e := items[n];
      if e.sku in c {
        ClaimDeduction(c[e.sku].biomarkers, Run(c, init).seen);
      }
      forall i | 0 <= i < n
        ensures items[..i] == init[..i]
      {
      }
      assert items[..n] == init;
    }
  }

  /** `prices` has one line per resolved item, in input order; each line
      carries the package's name and base price, and its `final` is the base
      price minus the prices of those of its biomarkers that an earlier
      resolved item claimed. `final` is not clamped. */
  lemma PricesAre(c: Catalog, items: seq<Entry>)
    requires WellFormed(c)
    ensures |Calculate(c, items).prices| == |Resolved(c, items)|
    ensures forall k :: 0 <= k < |Calculate(c, items).prices| ==>
      var e := Resolved(c, items)[k];
      e.sku in c && Calculate(c, items).prices[k].sku == e.sku
      && Calculate(c, items).prices[k].name == c[e.sku].name
      && Calculate(c, items).prices[k].original == c[e.sku].basePrice
    ensures forall i :: 0 <= i < |items| && items[i].sku in c ==>
      var pkg := c[items[i].sku];
      |Resolved(c, items[..i])| < |Calculate(c, items).prices|
      && Calculate(c, items).prices[|Resolved(c, items[..i])|]
         == PriceLine(items[i].sku, pkg.name, pkg.basePrice,
                      pkg.basePrice - ClaimedPrice(pkg.biomarkers, UsedKeys(c, items[..i])))
  {
    RunPrices(c, items);
  }

  lemma {:induction false} NoResolvedNoKeys(c: Catalog, items: seq<Entry>)
    requires Resolved(c, items) == []
    ensures UsedKeys(c, items) == {}
  {
    if items != [] {
      NoResolvedNoKeys(c, items[..|items| - 1]);
    }
  }

  lemma {:induction false} ClaimedNothing(bs: seq<Biomarker>)
    ensures ClaimedPrice(bs, {}) == 0
  {
    if bs != [] {
      ClaimedNothing(bs[..|bs| - 1]);
    }
  }

  /** The first resolved item of the cart is charged its full base price. */
  lemma FirstResolvedPaysBase(c: Catalog, items: seq<Entry>, i: nat)
    requires WellFormed(c)
    requires i < |items| && items[i].sku in c && Resolved(c, items[..i]) == []
    ensures |Calculate(c, items).prices| > 0
    ensures Calculate(c, items).prices[0].final == c[items[i].sku].basePrice
  {
    PricesAre(c, items);
    NoResolvedNoKeys(c, items[..i]);
    ClaimedNothing(c[items[i].sku].biomarkers);
  }

  // ---------------------------------------------------------------------------
  // Appending an item
  // ---------------------------------------------------------------------------

  predicate NonNegativePrices(c: Catalog)
  {
    forall sku, i :: sku in c && 0 <= i < |c[sku].biomarkers| ==> c[sku].biomarkers[i].price >= 0
  }

  lemma {:induction false} ClaimNonNegative(bs: seq<Biomarker>, s: set<string>)
    requires forall i :: 0 <= i < |bs| ==> bs[i].price >= 0
    ensures Claim(bs, s).0 >= 0
  {
    if bs != [] {
      ClaimNonNegative(bs[..|bs| - 1], s);
    }
  }

  lemma {:induction false} RunGrows(c: Catalog, p: Pass, b: seq<Entry>)
    ensures p.prices <= RunFrom(c, p, b).prices
    ensures NonNegativePrices(c) ==> p.deductions <= RunFrom(c, p, b).deductions
  {
    if b != [] {
      RunGrows(c, p, b[..|b| - 1]);
      var q := RunFrom(c, p, b[..|b| - 1]);
      var e := b[|b| - 1];
      if e.sku in c && NonNegativePrices(c) {
        ClaimNonNegative(c[e.sku].biomarkers, q.seen);
      }
    }
  }

  /** Appending items leaves every earlier price line as it was and, when no
      biomarker has a negative price, cannot lower `deductions`. */
  lemma AppendKeepsEarlierLines(c: Catalog, a: seq<Entry>, b: seq<Entry>)
    ensures Calculate(c, a).prices <= Calculate(c, a + b).prices
    ensures NonNegativePrices(c) ==> Calculate(c, a).deductions <= Calculate(c, a + b).deductions
  {
    RunAppend(c, Start, a, b);
    RunGrows(c, Run(c, a), b);
  }

  /** The savings shown when a package is added (the difference of the
      deductions with and without it) are never negative. */
  lemma SavingsNonNegative(c: Catalog, items: seq<Entry>, sku: string)
    requires NonNegativePrices(c)
    ensures Calculate(c, items + [Entry(sku, 0, None)]).deductions - Calculate(c, items).deductions >= 0
  {
    AppendKeepsEarlierLines(c, items, [Entry(sku, 0, None)]);
  }

  // ---------------------------------------------------------------------------
  // Order independence of the sums
  // ---------------------------------------------------------------------------

  /** Every occurrence of a biomarker key in the catalog has the price `cp`
      gives that key. */
  predicate Consistent(c: Catalog, cp: string -> int)
  {
    forall sku, i :: sku in c && 0 <= i < |c[sku].biomarkers| ==>
      c[sku].biomarkers[i].price == cp(c[sku].biomarkers[i].key)
  }

  ghost function Pick(s: set<string>): string
    requires s != {}
  {
    var x :| x in s; x
  }

  /** The sum of `cp` over a set of keys. */
  ghost function SetSum(s: set<string>, cp: string -> int): int
    decreases |s|
  {
    if s == {} then 0 else var x := Pick(s); cp(x) + SetSum(s - {x}, cp)
  }

  lemma {:induction false} SetSumRemove(s: set<string>, cp: string -> int, y: string)
    requires y in s
    ensures SetSum(s, cp) == cp(y) + SetSum(s - {y}, cp)
    decreases |s|
  {
    var x := Pick(s);
    if x != y {
      SetSumRemove(s - {x}, cp, y);
      SetSumRemove(s - {y}, cp, x);
      assert s - {x} - {y} == s - {y} - {x};
    }
  }

  lemma SetSumAdd(s: set<string>, cp: string -> int, y: string)
    requires y !in s
    ensures SetSum(s + {y}, cp) == SetSum(s, cp) + cp(y)
  {
    SetSumRemove(s + {y}, cp, y);
    assert s + {y} - {y} == s;
  }

  /** With consistent prices the inner walk deducts the package's whole
      biomarker sum except the keys it newly claims. */
  lemma {:induction false} ClaimValue(bs: seq<Biomarker>, s: set<string>, cp: string -> int)
    requires forall i :: 0 <= i < |bs| ==> bs[i].price == cp(bs[i].key)
    ensures Claim(bs, s).0 + SetSum(Claim(bs, s).1, cp) == MarkerSum(bs) + SetSum(s, cp)
  {
    if bs != [] {
      var init := bs[..|bs| - 1];
      ClaimValue(init, s, cp);
      var prev := Claim(init, s);
      var b := bs[|bs| - 1];
      if b.key !in prev.1 {
        SetSumAdd(prev.1, cp, b.key);
      }
    }
  }

  lemma {:induction false} DeductionsFormula(c: Catalog, items: seq<Entry>, cp: string -> int)
    requires Consistent(c, cp)
    ensures Run(c, items).deductions + SetSum(Run(c, items).seen, cp) == SumBy(c, Markers, items)
  {
    if items != [] {
      var init := items[..|items| - 1];
      DeductionsFormula(c, init, cp);
      var e := items[|items| - 1];
      if e.sku in c {
        var bs := c[e.sku].biomarkers;
        assert forall i :: 0 <= i < |bs| ==> bs[i].price == cp(bs[i].key);
        ClaimValue(bs, Run(c, init).seen, cp);
      }
    }
  }

  lemma RemoveAt(b: seq<Entry>, k: nat)
    requires k < |b|
    ensures multiset(b[..k] + b[k + 1..]) == multiset(b) - multiset{b[k]}
  {
    assert b == b[..k] + [b[k]] + b[k + 1..];
  }

  lemma SumByRemoveAt(c: Catalog, m: Measure, b: seq<Entry>, k: nat)
    requires k < |b|
    ensures SumBy(c, m, b) == SumBy(c, m, b[..k] + b[k + 1..]) + ValueOf(c, m, b[k])
  {
    assert b == b[..k] + [b[k]] + b[k + 1..];
    SumByAppend(c, m, b[..k] + [b[k]], b[k + 1..]);
    SumByAppend(c, m, b[..k], [b[k]]);
    SumByAppend(c, m, b[..k], b[k + 1..]);
    assert SumBy(c, m, [b[k]]) == SumBy(c, m, []) + ValueOf(c, m, b[k]);
  }

  lemma {:induction false} SumByPermutation(c: Catalog, m: Measure, a: seq<Entry>, b: seq<Entry>)
    requires multiset(a) == multiset(b)
    ensures SumBy(c, m, a) == SumBy(c, m, b)
    decreases |a|
  {
    if a != [] {
      var n := |a| - 1;
      var x := a[n];
      assert x in multiset(b) by {
        assert x in multiset(a);
      }
      var k :| 0 <= k < |b| && b[k] == x;
      RemoveAt(a, n);
      RemoveAt(b, k);
      assert a[..n] + a[n + 1..] == a[..n];
      SumByPermutation(c, m, a[..n], b[..k] + b[k + 1..]);
      SumByRemoveAt(c, m, b, k);
    }
  }

  ghost predicate KeyOfSome(c: Catalog, items: seq<Entry>, k: string)
  {
    exists e :: e in items && e.sku in c && k in KeysOf(c[e.sku].biomarkers)
  }

  lemma {:induction false} UsedKeysMember(c: Catalog, items: seq<Entry>, k: string)
    ensures k in UsedKeys(c, items) <==> KeyOfSome(c, items, k)
  {
    if items != [] {
      var init := items[..|items| - 1];
      UsedKeysMember(c, init, k);
      assert items == init + [items[|items| - 1]];
    }
  }

  lemma UsedKeysPermutation(c: Catalog, a: seq<Entry>, b: seq<Entry>)
    requires multiset(a) == multiset(b)
    ensures UsedKeys(c, a) == UsedKeys(c, b)
  {
    forall e
      ensures e in a <==> e in b
    {
      assert e in a <==> e in multiset(a);
      assert e in b <==> e in multiset(b);
    }
    forall k
      ensures k in UsedKeys(c, a) <==> k in UsedKeys(c, b)
    {
      UsedKeysMember(c, a, k);
      UsedKeysMember(c, b, k);
    }
  }

  /** When every biomarker key has one price across the catalog, `total`,
      `deductions` and `original` depend only on which items the cart holds,
      not on their order (only the split of the deductions among the lines
      does). */
  lemma OrderIndependent(c: Catalog, cp: string -> int, a: seq<Entry>, b: seq<Entry>)
    requires Consistent(c, cp)
    requires multiset(a) == multiset(b)
    ensures Calculate(c, a).deductions == Calculate(c, b).deductions
    ensures Calculate(c, a).total == Calculate(c, b).total
    ensures Calculate(c, a).original == Calculate(c, b).original
  {
    DeductionsFormula(c, a, cp);
    DeductionsFormula(c, b, cp);
    RunSeen(c, a);
    RunSeen(c, b);
    UsedKeysPermutation(c, a, b);
    SumByPermutation(c, Markers, a, b);
    SumByPermutation(c, BasePrice, a, b);
    RunBalance(c, a);
    RunBalance(c, b);
  }

  // ---------------------------------------------------------------------------
  // The shipped catalog
  // ---------------------------------------------------------------------------

  /** The one price each biomarker key has in `PACKAGES`. */
  function CatalogPrice(key: string): int
  {
    if key in {"lh", "fsh", "ferritin", "vitamin_b12", "vitamin_b9"} then 1457
    else if key in {"estradiol", "dheas", "testosterone", "progesterone"} then 1360
    else if key in {"prolactin", "free_testosterone_index", "interleukin_6", "lpa"} then 1000
    else if key == "shbg" then 1749
    else if key == "transferrin" then 583
    else if key in {"hscrp", "neutrophile_granulozyten", "hba1c", "crp", "cystatin_c"} then 1166
    else if key in {"eisen", "alat", "ldl"} then 233
    else if key == "transferrin_saettigung" then 600
    else if key == "apo_b" then 2332
    else if key in {"vitamin_b2", "vitamin_b6"} then 3322
    else if key == "vitamin_d_25oh" then 1865
    else 0
  }

  /** A package as shipped: priced by `CatalogPrice`, no negative price,
      distinct keys. */
  predicate ShippedPackage(bs: seq<Biomarker>)
  {
    (forall i :: 0 <= i < |bs| ==> bs[i].price == CatalogPrice(bs[i].key) && bs[i].price >= 0)
    && DistinctKeys(bs)
  }

  lemma MensHealthShipped()
    ensures ShippedPackage(MensHealth.biomarkers)
  {
    var bs := MensHealth.biomarkers;
    forall i | 0 <= i < |bs|
      ensures bs[i].price == CatalogPrice(bs[i].key) && bs[i].price >= 0
    {
      assert i in {0, 1, 2, 3, 4, 5, 6, 7};
    }
    forall i, j | 0 <= i < j < |bs|
      ensures bs[i].key != bs[j].key
    {
      assert i in {0, 1, 2, 3, 4, 5, 6, 7} && j in {0, 1, 2, 3, 4, 5, 6, 7};
    }
  }

  lemma WomensHealthShipped()
    ensures ShippedPackage(WomensHealth.biomarkers)
  {
    var bs := WomensHealth.biomarkers;
    forall i | 0 <= i < |bs|
      ensures bs[i].price == CatalogPrice(bs[i].key) && bs[i].price >= 0
    {
      assert i in {0, 1, 2, 3, 4, 5, 6, 7, 8, 9};
    }
    forall i, j | 0 <= i < j < |bs|
      ensures bs[i].key != bs[j].key
    {
      assert i in {0, 1, 2, 3, 4, 5, 6, 7, 8, 9} && j in {0, 1, 2, 3, 4, 5, 6, 7, 8, 9};
    }
  }

  lemma ChronicInflammationShipped()
    ensures ShippedPackage(ChronicInflammation.biomarkers)
  {
    var bs := ChronicInflammation.biomarkers;
    forall i | 0 <= i < |bs|
      ensures bs[i].price == CatalogPrice(bs[i].key) && bs[i].price >= 0
    {
      assert i in {0, 1, 2};
    }
    forall i, j | 0 <= i < j < |bs|
      ensures bs[i].key != bs[j].key
    {
      assert i in {0, 1, 2} && j in {0, 1, 2};
    }
  }

  lemma IronMetabolismShipped()
    ensures ShippedPackage(IronMetabolism.biomarkers)
  {
    var bs := IronMetabolism.biomarkers;
    forall i | 0 <= i < |bs|
      ensures bs[i].price == CatalogPrice(bs[i].key) && bs[i].price >= 0
    {
      assert i in {0, 1, 2, 3};
    }
    forall i, j | 0 <= i < j < |bs|
      ensures bs[i].key != bs[j].key
    {
      assert i in {0, 1, 2, 3} && j in {0, 1, 2, 3};
    }
  }

  lemma HeartHealthShipped()
    ensures ShippedPackage(HeartHealth.biomarkers)
  {
    var bs := HeartHealth.biomarkers;
    forall i | 0 <= i < |bs|
      ensures bs[i].price == CatalogPrice(bs[i].key) && bs[i].price >= 0
    {
      assert i in {0, 1, 2};
    }
    forall i, j | 0 <= i < j < |bs|
      ensures bs[i].key != bs[j].key
    {
      assert i in {0, 1, 2} && j in {0, 1, 2};
    }
  }

  lemma VitaminBMetabolismShipped()
    ensures ShippedPackage(VitaminBMetabolism.biomarkers)
  {
    var bs := VitaminBMetabolism.biomarkers;
    forall i | 0 <= i < |bs|
      ensures bs[i].price == CatalogPrice(bs[i].key) && bs[i].price >= 0
    {
      assert i in {0, 1, 2, 3};
    }
    forall i, j | 0 <= i < j < |bs|
      ensures bs[i].key != bs[j].key
    {
      assert i in {0, 1, 2, 3} && j in {0, 1, 2, 3};
    }
  }

  lemma VitaminDShipped()
    ensures ShippedPackage(VitaminD.biomarkers)
  {
  }

  lemma LongtermHealthShipped()
    ensures ShippedPackage(LongtermHealth.biomarkers)
  {
    var bs := LongtermHealth.biomarkers;
    forall i | 0 <= i < |bs|
      ensures bs[i].price == CatalogPrice(bs[i].key) && bs[i].price >= 0
    {
      assert i in {0, 1, 2, 3, 4};
    }
    forall i, j | 0 <= i < j < |bs|
      ensures bs[i].key != bs[j].key
    {
      assert i in {0, 1, 2, 3, 4} && j in {0, 1, 2, 3, 4};
    }
  }

  lemma ShippedPackages(sku: string)
    requires sku in PACKAGES
    ensures ShippedPackage(PACKAGES[sku].biomarkers)
  {
    assert PACKAGES.Keys == {"mens_health", "womens_health", "chronic_inflammation", "iron_metabolism",
      "heart_health", "vitamin_b_metabolism", "vitamin_d", "longterm_health"};
    if sku == "mens_health" {
      MensHealthShipped();
    } else if sku == "womens_health" {
      WomensHealthShipped();
    } else if sku == "chronic_inflammation" {
      ChronicInflammationShipped();
    } else if sku == "iron_metabolism" {
      IronMetabolismShipped();
    } else if sku == "heart_health" {
      HeartHealthShipped();
    } else if sku == "vitamin_b_metabolism" {
      VitaminBMetabolismShipped();
    } else if sku == "vitamin_d" {
      VitaminDShipped();
    } else {
      LongtermHealthShipped();
    }
  }

  /** Every biomarker key has one price across `PACKAGES`, keys are distinct
      within each package and no price is negative. */
  lemma PackagesConsistent()
    ensures Consistent(PACKAGES, CatalogPrice)
    ensures WellFormed(PACKAGES)
    ensures NonNegativePrices(PACKAGES)
  {
    forall sku | sku in PACKAGES
      ensures forall i :: 0 <= i < |PACKAGES[sku].biomarkers| ==>
        PACKAGES[sku].biomarkers[i].price == CatalogPrice(PACKAGES[sku].biomarkers[i].key)
      ensures DistinctKeys(PACKAGES[sku].biomarkers)
      ensures forall i :: 0 <= i < |PACKAGES[sku].biomarkers| ==> PACKAGES[sku].biomarkers[i].price >= 0
    {
      ShippedPackages(sku);
    }
  }

  /** For the shipped catalog the totals of a cart do not depend on the order
      in which the packages were added. */
  lemma PackagesOrderIndependent(a: seq<Entry>, b: seq<Entry>)
    requires multiset(a) == multiset(b)
    ensures Calculate(PACKAGES, a).deductions == Calculate(PACKAGES, b).deductions
    ensures Calculate(PACKAGES, a).total == Calculate(PACKAGES, b).total
    ensures Calculate(PACKAGES, a).original == Calculate(PACKAGES, b).original
  {
    PackagesConsistent();
    OrderIndependent(PACKAGES, CatalogPrice, a, b);
  }

  // ---------------------------------------------------------------------------
  // The stored list
  // ---------------------------------------------------------------------------

  /** `filter` works entry by entry: removing from a concatenation removes
      from each part, so the kept entries stay in their original order. */
  lemma {:induction false} RemoveSkuAppend(a: seq<Entry>, b: seq<Entry>, sku: string)
    ensures RemoveSku(a + b, sku) == RemoveSku(a, sku) + RemoveSku(b, sku)
    decreases |b|
  {
    if b == [] {
      assert a + b == a;
    } else {
      assert (a + b)[..|a + b| - 1] == a + b[..|b| - 1];
      RemoveSkuAppend(a, b[..|b| - 1], sku);
    }
  }

  /** Removing a SKU the list does not hold changes nothing. */
  lemma {:induction false} RemoveSkuAbsent(items: seq<Entry>, sku: string)
    requires !HasSku(items, sku)
    ensures RemoveSku(items, sku) == items
  {
    if items != [] {
      var init := items[..|items| - 1];
      assert !HasSku(init, sku) by {
        forall i | 0 <= i < |init| ensures init[i].sku != sku {
          assert init[i] == items[i];
        }
      }
      RemoveSkuAbsent(init, sku);
      assert items[|items| - 1].sku != sku;
      assert init + [items[|items| - 1]] == items;
    }
  }

  /** Removing twice is removing once. */
  lemma RemoveSkuIdempotent(items: seq<Entry>, sku: string)
    ensures RemoveSku(RemoveSku(items, sku), sku) == RemoveSku(items, sku)
  {
    RemoveSkuAbsent(RemoveSku(items, sku), sku);
  }

  /** A SKU-unique list stays SKU-unique when entries are removed. */
  lemma {:induction false} RemoveSkuKeepsUnique(items: seq<Entry>, sku: string)
    requires SkuUnique(items)
    ensures SkuUnique(RemoveSku(items, sku))
  {
    if items != [] {
      var init := items[..|items| - 1];
      var e := items[|items| - 1];
      assert SkuUnique(init);
      RemoveSkuKeepsUnique(init, sku);
      var rest := RemoveSku(init, sku);
      if e.sku != sku {
        forall i | 0 <= i < |rest| ensures rest[i].sku != e.sku {
          assert rest[i] in init;
          var j :| 0 <= j < |init| && init[j] == rest[i];
          assert items[j] == init[j];
        }
      }
    }
  }

  /** Adding a SKU the cart does not hold and removing it again gives back
      the original list. */
  lemma AddThenRemove(items: seq<Entry>, sku: string, image: Option<string>, now: int)
    requires !HasSku(items, sku)
    ensures RemoveSku(AddEntry(items, sku, image, now), sku) == items
  {
    RemoveSkuAppend(items, [NewEntry(sku, image, now)], sku);
    RemoveSkuAbsent(items, sku);
    assert RemoveSku([NewEntry(sku, image, now)], sku) == [] by {
      assert [NewEntry(sku, image, now)][..0] == [];
    }
  }

  /** Adding a SKU twice is adding it once. */
  lemma AddIdempotent(items: seq<Entry>, sku: string, image: Option<string>, now: int,
                      image2: Option<string>, now2: int)
    ensures AddEntry(AddEntry(items, sku, image, now), sku, image2, now2) == AddEntry(items, sku, image, now)
  {
  }

  // ---------------------------------------------------------------------------
  // Worked carts
  // ---------------------------------------------------------------------------

  /** `Claim` indexed by a length, so that the walk over a literal package
      unfolds step by step. */
  function ClaimAt(bs: seq<Biomarker>, s: set<string>, n: nat): (int, set<string>)
    requires n <= |bs|
  {
    if n == 0 then (0, s)
    else
      var prev := ClaimAt(bs, s, n - 1);
      var b := bs[n - 1];
      if b.key in prev.1 then (prev.0 + b.price, prev.1) else (prev.0, prev.1 + {b.key})
  }

  lemma {:induction false} ClaimIsClaimAt(bs: seq<Biomarker>, s: set<string>, n: nat)
    requires n <= |bs|
    ensures Claim(bs[..n], s) == ClaimAt(bs, s, n)
  {
    if n > 0 {
      ClaimIsClaimAt(bs, s, n - 1);
      assert bs[..n][..n - 1] == bs[..n - 1];
    }
  }

  const MensKeys := {"lh", "fsh", "prolactin", "estradiol", "dheas", "shbg", "testosterone",
                     "free_testosterone_index"}
  const WomensKeys := {"progesterone", "estradiol", "fsh", "lh", "dheas", "shbg", "testosterone",
                       "free_testosterone_index", "ferritin", "transferrin"}

  /** The deduction of the first `n` biomarkers against the claimed keys
      `s`, by index. */
  function PriceAt(bs: seq<Biomarker>, s: set<string>, n: nat): int
    requires n <= |bs|
  {
    if n == 0 then 0 else PriceAt(bs, s, n - 1) + (if bs[n - 1].key in s then bs[n - 1].price else 0)
  }

  lemma {:induction false} ClaimedPriceIsPriceAt(bs: seq<Biomarker>, s: set<string>, n: nat)
    requires n <= |bs|
    ensures ClaimedPrice(bs[..n], s) == PriceAt(bs, s, n)
  {
    if n > 0 {
      ClaimedPriceIsPriceAt(bs, s, n - 1);
      assert bs[..n][..n - 1] == bs[..n - 1];
    }
  }

  lemma MensKeysOf()
    ensures KeysOf(MensHealth.biomarkers) == MensKeys
  {
    var bs := MensHealth.biomarkers;
    forall i | 0 <= i < |bs|
      ensures bs[i].key in MensKeys
    {
      assert i in {0, 1, 2, 3, 4, 5, 6, 7};
    }
    var listed := {bs[0].key, bs[1].key, bs[2].key, bs[3].key, bs[4].key, bs[5].key, bs[6].key, bs[7].key};
    assert listed <= KeysOf(bs);
    assert listed == MensKeys;
  }

  lemma WomensKeysOf()
    ensures KeysOf(WomensHealth.biomarkers) == WomensKeys
  {
    var bs := WomensHealth.biomarkers;
    forall i | 0 <= i < |bs|
      ensures bs[i].key in WomensKeys
    {
      assert i in {0, 1, 2, 3, 4, 5, 6, 7, 8, 9};
    }
    var listed := {bs[0].key, bs[1].key, bs[2].key, bs[3].key, bs[4].key, bs[5].key, bs[6].key,
                   bs[7].key, bs[8].key, bs[9].key};
    assert listed <= KeysOf(bs);
    assert listed == WomensKeys;
  }

  lemma ClaimMensFirst()
    ensures Claim(MensHealth.biomarkers, {}) == (0, MensKeys)
  {
    var bs := MensHealth.biomarkers;
    MensHealthShipped();
    ClaimSeen(bs, {});
    ClaimDeduction(bs, {});
    ClaimedNothing(bs);
    MensKeysOf();
    assert Claim(bs, {}).0 == 0;
    assert Claim(bs, {}).1 == MensKeys;
  }

  /** The Women's Health biomarkers already claimed by Men's Health are worth
      9743 cents. */
  lemma WomensPriceAfterMens()
    ensures ClaimedPrice(WomensHealth.biomarkers, MensKeys) == 9743
  {
    var bs := WomensHealth.biomarkers;
    ClaimedPriceIsPriceAt(bs, MensKeys, 10);
    assert bs[..10] == bs;
    assert bs[0].key !in MensKeys && bs[8].key !in MensKeys && bs[9].key !in MensKeys;
    assert PriceAt(bs, MensKeys, 1) == 0;
    assert PriceAt(bs, MensKeys, 2) == 1360;
    assert PriceAt(bs, MensKeys, 3) == 2817;
    assert PriceAt(bs, MensKeys, 4) == 4274;
    assert PriceAt(bs, MensKeys, 5) == 5634;
    assert PriceAt(bs, MensKeys, 6) == 7383;
    assert PriceAt(bs, MensKeys, 7) == 8743;
    assert PriceAt(bs, MensKeys, 8) == 9743;
    assert PriceAt(bs, MensKeys, 9) == 9743;
  }

  lemma ClaimWomensAfterMens()
    ensures Claim(WomensHealth.biomarkers, MensKeys) == (9743, MensKeys + WomensKeys)
  {
    var bs := WomensHealth.biomarkers;
    WomensHealthShipped();
    ClaimSeen(bs, MensKeys);
    ClaimDeduction(bs, MensKeys);
    WomensKeysOf();
    WomensPriceAfterMens();
    assert Claim(bs, MensKeys).0 == 9743;
    assert Claim(bs, MensKeys).1 == MensKeys + WomensKeys;
  }

  lemma ClaimWomensFirst()
    ensures Claim(WomensHealth.biomarkers, {}) == (0, WomensKeys)
  {
    var bs := WomensHealth.biomarkers;
    WomensHealthShipped();
    ClaimSeen(bs, {});
    ClaimDeduction(bs, {});
    ClaimedNothing(bs);
    WomensKeysOf();
    assert Claim(bs, {}).0 == 0;
    assert Claim(bs, {}).1 == WomensKeys;
  }

  lemma ClaimMensAfterWomens()
    ensures Claim(MensHealth.biomarkers, WomensKeys) == (9743, MensKeys + WomensKeys)
  {
    ClaimIsClaimAt(MensHealth.biomarkers, WomensKeys, 8);
    assert MensHealth.biomarkers[..8] == MensHealth.biomarkers;
    assert ClaimAt(MensHealth.biomarkers, WomensKeys, 8).0 == 9743;
    assert ClaimAt(MensHealth.biomarkers, WomensKeys, 8).1 == MensKeys + WomensKeys;
  }

  lemma RunSingle(c: Catalog, p: Pass, x: Entry)
    ensures RunFrom(c, p, [x]) == Step(c, p, x)
    ensures SumBy(c, BasePrice, [x]) == BaseOrZero(c, x)
  {
    assert [x][..0] == [];
  }

  lemma RunPair(c: Catalog, x: Entry, y: Entry)
    ensures Run(c, [x, y]) == Step(c, Step(c, Start, x), y)
    ensures OriginalSum(c, [x, y]) == BaseOrZero(c, x) + BaseOrZero(c, y)
  {
    assert [x, y] == [x] + [y];
    RunAppend(c, Start, [x], [y]);
    RunSingle(c, Start, x);
    RunSingle(c, Step(c, Start, x), y);
    SumByAppend(c, BasePrice, [x], [y]);
  }

  /** A single package is charged its base price. */
  lemma VitaminDAlone(t: int)
    ensures Calculate(PACKAGES, [Entry("vitamin_d", t, None)])
      == Totals(1865, 0, [PriceLine("vitamin_d", "Vitamin D", 1865, 1865)], 1865)
  {
    RunSingle(PACKAGES, Start, Entry("vitamin_d", t, None));
    assert PACKAGES["vitamin_d"] == VitaminD;
  }

  /** Men's then women's health: the seven shared biomarkers (9743 cents)
      are deducted from the women's package. */
  lemma MensThenWomens(t1: int, t2: int)
    ensures Calculate(PACKAGES, [Entry("mens_health", t1, None), Entry("womens_health", t2, None)])
      == Totals(11143, 9743,
                [PriceLine("mens_health", "Männergesundheit", 8743, 8743),
                 PriceLine("womens_health", "Frauengesundheit", 12143, 2400)],
                20886)
  {
    RunPair(PACKAGES, Entry("mens_health", t1, None), Entry("womens_health", t2, None));
    assert PACKAGES["mens_health"] == MensHealth && PACKAGES["womens_health"] == WomensHealth;
    ClaimMensFirst();
    ClaimWomensAfterMens();
  }

  /** The same two packages the other way round: the same totals, but the
      men's line is charged -1000 cents, since the deduction exceeds its base
      price and nothing clamps it. */
  lemma WomensThenMens(t1: int, t2: int)
    ensures Calculate(PACKAGES, [Entry("womens_health", t1, None), Entry("mens_health", t2, None)])
      == Totals(11143, 9743,
                [PriceLine("womens_health", "Frauengesundheit", 12143, 12143),
                 PriceLine("mens_health", "Männergesundheit", 8743, -1000)],
                20886)
  {
    RunPair(PACKAGES, Entry("womens_health", t1, None), Entry("mens_health", t2, None));
    assert PACKAGES["mens_health"] == MensHealth && PACKAGES["womens_health"] == WomensHealth;
    ClaimWomensFirst();
    ClaimMensAfterWomens();
  }
}
