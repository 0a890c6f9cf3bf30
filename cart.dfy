/**
 * The cart of the storefront: the static package catalog, the pricing pass
 * that charges each package its base price minus the biomarkers an earlier
 * package in the cart has already claimed, and the stored list of cart
 * entries (src/global-cart-modal.js).
 *
 * Prices are integer cents. The catalog is a map from SKU to package; a
 * package's biomarkers are a sequence in declaration order, because the pass
 * depends on that order.
 */
module Cart {
  import opened Strings

  datatype Biomarker = Biomarker(key: string, name: string, price: int)

  datatype Package = Package(name: string, basePrice: int, image: string, biomarkers: seq<Biomarker>)

  type Catalog = map<string, Package>

  // The packages of the catalog `PACKAGES`, in declaration order.

  const MensHealth := Package("Männergesundheit", 8743, "", [
    Biomarker("lh", "LH", 1457),
    Biomarker("fsh", "FSH", 1457),
    Biomarker("prolactin", "Prolaktin", 1000),
    Biomarker("estradiol", "Estradiol", 1360),
    Biomarker("dheas", "DHEAS", 1360),
    Biomarker("shbg", "SHBG", 1749),
    Biomarker("testosterone", "Testosterone", 1360),
    Biomarker("free_testosterone_index", "Free Testosterone Index", 1000)])

  const WomensHealth := Package("Frauengesundheit", 12143, "", [
    Biomarker("progesterone", "Progesterone", 1360),
    Biomarker("estradiol", "Estradiol", 1360),
    Biomarker("fsh", "FSH", 1457),
    Biomarker("lh", "LH", 1457),
    Biomarker("dheas", "DHEAS", 1360),
    Biomarker("shbg", "SHBG", 1749),
    Biomarker("testosterone", "Testosterone", 1360),
    Biomarker("free_testosterone_index", "Free Testosterone Index", 1000),
    Biomarker("ferritin", "Ferritin", 1457),
    Biomarker("transferrin", "Transferrin", 583)])

  const ChronicInflammation := Package("Chronische Entzündung", 3332, "", [
    Biomarker("hscrp", "hsC-reaktive Protein", 1166),
    Biomarker("neutrophile_granulozyten", "Neutrophile Granulozyten", 1166),
    Biomarker("interleukin_6", "Interleukin-6", 1000)])

  const IronMetabolism := Package("Eisen-Metabolismus", 2873, "", [
    Biomarker("ferritin", "Ferritin", 1457),
    Biomarker("transferrin", "Transferrin", 583),
    Biomarker("eisen", "Eisen", 233),
    Biomarker("transferrin_saettigung", "Transferrin-Sättigung", 600)])

  const HeartHealth := Package("Herzgesundheit", 4498, "", [
    Biomarker("apo_b", "APO B", 2332),
    Biomarker("hscrp", "hsC-reaktive Protein", 1166),
    Biomarker("lpa", "Lp(a)", 1000)])

  const VitaminBMetabolism := Package("Vitamin B Stoffwechsel", 9236, "", [
    Biomarker("vitamin_b2", "Vitamin B2", 3322),
    Biomarker("vitamin_b12", "Vitamin B12", 1457),
    Biomarker("vitamin_b9", "Vitamin B9 (Folsäure)", 1457),
    Biomarker("vitamin_b6", "Vitamin B6", 3322)])

  const VitaminD := Package("Vitamin D", 1865, "", [
    Biomarker("vitamin_d_25oh", "Vitamin D 25OH", 1865)])

  const LongtermHealth := Package("Longterm Health", 3964, "", [
    Biomarker("hba1c", "HbA1C", 1166),
    Biomarker("crp", "CRP", 1166),
    Biomarker("alat", "ALAT", 233),
    Biomarker("cystatin_c", "Cystatin C", 1166),
    Biomarker("ldl", "LDL", 233)])

  /** The catalog `PACKAGES`. */
  const PACKAGES: Catalog := map[
    "mens_health" := MensHealth,
    "womens_health" := WomensHealth,
    "chronic_inflammation" := ChronicInflammation,
    "iron_metabolism" := IronMetabolism,
    "heart_health" := HeartHealth,
    "vitamin_b_metabolism" := VitaminBMetabolism,
    "vitamin_d" := VitaminD,
    "longterm_health" := LongtermHealth
  ]

  // ---------------------------------------------------------------------------
  // Cart entries and the result of a pricing pass
  // ---------------------------------------------------------------------------

  /** A stored cart entry `{sku, addedAt, image?}`. */
  datatype Entry = Entry(sku: string, addedAt: int, image: Option<string>)

  /** One element of `prices`: `{sku, name, original, final}`. */
  datatype PriceLine = PriceLine(sku: string, name: string, original: int, final: int)

  /** The object `calculateCart` returns. */
  datatype Totals = Totals(total: int, deductions: int, prices: seq<PriceLine>, original: int)

  /** The local state of the pass after a prefix of the items: the keys of the
      `seen` map, the running `total` and `deductions`, and `prices`. */
  datatype Pass = Pass(seen: set<string>, total: int, deductions: int, prices: seq<PriceLine>)

  const Start := Pass({}, 0, 0, [])

  // ---------------------------------------------------------------------------
  // The pass as functions (the specification of CalculateCart)
  // ---------------------------------------------------------------------------

  /** The inner walk over one package's biomarkers, in declared order: a key
      already in `seen` is deducted, a new key is claimed. Returns the amount
      deducted and the new `seen`. */
  function Claim(bs: seq<Biomarker>, seen: set<string>): (r: (int, set<string>))
  {
    if bs == [] then (0, seen)
    else
      var prev := Claim(bs[..|bs| - 1], seen);
      var b := bs[|bs| - 1];
      if b.key in prev.1 then (prev.0 + b.price, prev.1) else (prev.0, prev.1 + {b.key})
  }

  /** The price line charged for a package whose deduction is `d`. */
  function Line(sku: string, pkg: Package, d: int): PriceLine
  {
    PriceLine(sku, pkg.name, pkg.basePrice, pkg.basePrice - d)
  }

  /** One iteration of the outer `forEach`: an unknown SKU is skipped. */
  function Step(catalog: Catalog, p: Pass, item: Entry): Pass
  {
    if item.sku !in catalog then p
    else
      var pkg := catalog[item.sku];
      var c := Claim(pkg.biomarkers, p.seen);
      Pass(c.1, p.total + (pkg.basePrice - c.0), p.deductions + c.0, p.prices + [Line(item.sku, pkg, c.0)])
  }

  /** The outer loop run from state `p` over `items`, in order. */
  function RunFrom(catalog: Catalog, p: Pass, items: seq<Entry>): Pass
  {
    if items == [] then p
    else Step(catalog, RunFrom(catalog, p, items[..|items| - 1]), items[|items| - 1])
  }

  function Run(catalog: Catalog, items: seq<Entry>): Pass
  {
    RunFrom(catalog, Start, items)
  }

  /** `PACKAGES[i.sku]?.basePrice || 0` */
  function BaseOrZero(catalog: Catalog, e: Entry): int
  {
    if e.sku in catalog then catalog[e.sku].basePrice else 0
  }

  /** The sum of the prices of a package's biomarkers. */
  function MarkerSum(bs: seq<Biomarker>): int
  {
    if bs == [] then 0 else MarkerSum(bs[..|bs| - 1]) + bs[|bs| - 1].price
  }

  /** What is summed over the items: their base prices (the `reduce` that
      gives `original`) or the prices of all their biomarkers. */
  datatype Measure = BasePrice | Markers

  function ValueOf(catalog: Catalog, m: Measure, e: Entry): int
  {
    match m
    case BasePrice => BaseOrZero(catalog, e)
    case Markers => if e.sku in catalog then MarkerSum(catalog[e.sku].biomarkers) else 0
  }

  function SumBy(catalog: Catalog, m: Measure, items: seq<Entry>): int
  {
    if items == [] then 0
    else SumBy(catalog, m, items[..|items| - 1]) + ValueOf(catalog, m, items[|items| - 1])
  }

  /** `original`: the sum of the base prices of the resolved items. */
  function OriginalSum(catalog: Catalog, items: seq<Entry>): int
  {
    SumBy(catalog, BasePrice, items)
  }

  /** `calculateCart(items)` */
  function Calculate(catalog: Catalog, items: seq<Entry>): Totals
  {
    var p := Run(catalog, items);
    Totals(p.total, p.deductions, p.prices, OriginalSum(catalog, items))
  }

  // ---------------------------------------------------------------------------
  // The pass as the source runs it
  // ---------------------------------------------------------------------------

  /** `calculateCart`: the outer loop over the items, the inner loop over the
      package's biomarkers in declared order. */
  method CalculateCart(catalog: Catalog, items: seq<Entry>) returns (r: Totals)
    ensures r == Calculate(catalog, items)
  {
    var seen: set<string> := {};
    var total, deductions := 0, 0;
    var prices: seq<PriceLine> := [];
    for i := 0 to |items|
      invariant Run(catalog, items[..i]) == Pass(seen, total, deductions, prices)
    {
      assert items[..i + 1][..i] == items[..i];
      var item := items[i];
      if item.sku in catalog {
        var pkg := catalog[item.sku];
        var price := pkg.basePrice;
        ghost var seen0, deductions0 := seen, deductions;
        for j := 0 to |pkg.biomarkers|
          invariant Claim(pkg.biomarkers[..j], seen0).1 == seen
          invariant price == pkg.basePrice - Claim(pkg.biomarkers[..j], seen0).0
          invariant deductions == deductions0 + Claim(pkg.biomarkers[..j], seen0).0
        {
          assert pkg.biomarkers[..j + 1][..j] == pkg.biomarkers[..j];
          var bio := pkg.biomarkers[j];
          if bio.key in seen {
            price := price - bio.price;
            deductions := deductions + bio.price;
          } else {
            seen := seen + {bio.key};
          }
        }
        assert pkg.biomarkers[..|pkg.biomarkers|] == pkg.biomarkers;
        prices := prices + [PriceLine(item.sku, pkg.name, pkg.basePrice, price)];
        total := total + price;
      }
    }
    assert items[..|items|] == items;
    r := Totals(total, deductions, prices, OriginalSum(catalog, items));
  }

  // ---------------------------------------------------------------------------
  // The stored cart list
  // ---------------------------------------------------------------------------

  /** `items.find(i => i.sku === sku)` finds an entry. */
  predicate HasSku(items: seq<Entry>, sku: string)
  {
    exists i :: 0 <= i < |items| && items[i].sku == sku
  }

  /** No SKU occurs twice in the list. */
  predicate SkuUnique(items: seq<Entry>)
  {
    forall i, j :: 0 <= i < j < |items| ==> items[i].sku != items[j].sku
  }

  /** The entry `addToCart` builds: `image` is stored only when truthy. */
  function NewEntry(sku: string, image: Option<string>, now: int): (e: Entry)
    ensures e.sku == sku && e.addedAt == now
    ensures e.image.Some? <==> image.Some? && image.value != ""
  {
    Entry(sku, now, if image.Some? && image.value != "" then image else None)
  }

  /** The list `addToCart` writes back: unchanged when the SKU is present,
      otherwise one new entry at the end. */
  function AddEntry(items: seq<Entry>, sku: string, image: Option<string>, now: int): (r: seq<Entry>)
    ensures items <= r && HasSku(r, sku)
    ensures |r| == if HasSku(items, sku) then |items| else |items| + 1
    ensures |r| > |items| ==> r[|items|] == NewEntry(sku, image, now)
    ensures SkuUnique(items) ==> SkuUnique(r)
  {
    if HasSku(items, sku) then items
    else
      var r := items + [NewEntry(sku, image, now)];
      assert r[|items|].sku == sku;
      r
  }

  /** `items.filter(i => i.sku !== sku)` */
  function RemoveSku(items: seq<Entry>, sku: string): (r: seq<Entry>)
    ensures forall e :: e in r <==> e in items && e.sku != sku
    ensures !HasSku(r, sku)
    ensures |r| <= |items|
  {
    if items == [] then []
    else
      var rest := RemoveSku(items[..|items| - 1], sku);
      var e := items[|items| - 1];
      assert forall x :: x in items <==> x in items[..|items| - 1] || x == e;
      if e.sku != sku then rest + [e] else rest
  }

  /** What `localStorage` holds under `wf_cart_v3`: nothing, text that does
      not parse as JSON, or a serialised list. */
  datatype Stored = Absent | Malformed | Items(entries: seq<Entry>)

  /** What `readCart` returns for a stored value: a parse failure and a
      missing key both read as the empty list. */
  function View(s: Stored): (r: seq<Entry>)
    ensures s.Items? ==> r == s.entries
    ensures !s.Items? ==> r == []
  {
    if s.Items? then s.entries else []
  }

  /** The cart as kept in `localStorage`; `updates` counts the
      `cart-updated` events dispatched. */
  class CartStore {
    var stored: Stored
    var updates: nat

    constructor (initial: Stored)
      ensures stored == initial && updates == 0
    {
      stored := initial;
      updates := 0;
    }

    /** `readCart` */
    method ReadCart() returns (items: seq<Entry>)
      ensures items == View(stored)
    {
      match stored
      case Items(entries) => items := entries;
      case _ => items := [];
    }

    /** `writeCart`: stores the list and announces the update. */
    method WriteCart(items: seq<Entry>)
      modifies this
      ensures stored == Items(items) && updates == old(updates) + 1
    {
      stored := Items(items);
      updates := updates + 1;
    }

    /** `clearCart`: removes the key and announces the update. */
    method ClearCart()
      modifies this
      ensures stored == Absent && updates == old(updates) + 1
      ensures View(stored) == []
    {
      stored := Absent;
      updates := updates + 1;
    }

    /** `addToCart` (list semantics only): when the SKU is already in the
        cart nothing is written; otherwise the read list with one new entry
        at its end is written back. */
    method AddToCart(sku: string, image: Option<string>, now: int)
      modifies this
      ensures HasSku(old(View(stored)), sku) ==> stored == old(stored) && updates == old(updates)
      ensures !HasSku(old(View(stored)), sku) ==>
        stored == Items(old(View(stored)) + [NewEntry(sku, image, now)]) && updates == old(updates) + 1
      ensures View(stored) == AddEntry(old(View(stored)), sku, image, now)
    {
      var items := ReadCart();
      if !HasSku(items, sku) {
        var entry := Entry(sku, now, None);
        if image.Some? && image.value != "" {
          entry := entry.(image := image);
        }
        items := items + [entry];
        WriteCart(items);
      }
    }

    /** `removeFromCart` (list semantics only): writes back the read list
        without the entries of that SKU. */
    method RemoveFromCart(sku: string)
      modifies this
      ensures stored == Items(RemoveSku(old(View(stored)), sku)) && updates == old(updates) + 1
    {
      var items := ReadCart();
      WriteCart(RemoveSku(items, sku));
    }
  }
}
