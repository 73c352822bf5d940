/** The product comparison feature of js/compare.js: a selection of at most three
    products with distinct ids, kept in local storage, shown in a bar of chips with a
    count, mirrored by the "compare" checkboxes on the product cards, and laid out as
    a comparison table. */
module Compare {
  import opened Seqs
  import opened Text
  import opened Storage
  import opened Notices
  import Catalog

  /** `this.maxProducts`. */
  const MaxProducts: nat := 3

  /** A price as a selected product holds it: the catalog's display text (such as
      "₹89"), or the number the product-card fallback read. */
  datatype Price = Text(text: string) | Amount(n: nat)

  /** A selected product. A field a record may lack (JavaScript's `undefined`) is an
      option. */
  datatype Product = Product(
    id: int, name: string, category: string, price: Price,
    emoji: Option<string>, shortDesc: Option<string>, fullDesc: Option<string>,
    nutrition: Option<string>, usage: Option<string>, popularity: Option<int>,
    badge: Option<string>)

  /** JavaScript truthiness of an optional string: present and nonempty. */
  predicate Truthy(s: Option<string>) {
    s.Some? && s.value != ""
  }

  // ================================================================ the selection

  /** `selectedProducts.some(p => p.id === productId)`. */
  function IdIn(sel: seq<Product>, id: int): (r: bool)
    ensures r <==> exists i :: 0 <= i < |sel| && sel[i].id == id
  {
    if sel == [] then false
    else if sel[0].id == id then true
    else
      var r := IdIn(sel[1..], id);
      assert forall i :: 1 <= i < |sel| ==> sel[i] == sel[1..][i - 1];
      r
  }

  predicate DistinctIds(sel: seq<Product>) {
    forall i, j :: 0 <= i < j < |sel| ==> sel[i].id != sel[j].id
  }

  /** What the comparison store keeps true: at most three products, no id twice. */
  predicate SelectionInvariant(sel: seq<Product>) {
    |sel| <= MaxProducts && DistinctIds(sel)
  }

  /** `addProduct` accepts a product only below capacity (tested first) and only when
      its id is not selected yet. */
  predicate CanAdd(sel: seq<Product>, p: Product) {
    |sel| < MaxProducts && !IdIn(sel, p.id)
  }

  /** The selection after `addProduct(p)`. */
  function AfterAdd(sel: seq<Product>, p: Product): seq<Product> {
    if CanAdd(sel, p) then sel + [p] else sel
  }

  function HasOtherId(id: int): Product -> bool {
    (p: Product) => p.id != id
  }

  /** `selectedProducts.filter(p => p.id !== productId)`. */
  function WithoutId(sel: seq<Product>, id: int): seq<Product> {
    Filter(sel, HasOtherId(id))
  }

  function IdOf(p: Product): int { p.id }

  /** Removing an id drops exactly the entries with that id and keeps every other
      entry, in order and as often as before; an absent id changes nothing. */
  lemma WithoutIdSpec(sel: seq<Product>, id: int)
    ensures IsSubsequence(WithoutId(sel, id), sel)
    ensures forall p :: multiset(WithoutId(sel, id))[p] == if p.id != id then multiset(sel)[p] else 0
    ensures !IdIn(WithoutId(sel, id), id)
    ensures !IdIn(sel, id) ==> WithoutId(sel, id) == sel
  {
    FilterIsExactSelection(sel, HasOtherId(id));
    if !IdIn(sel, id) {
      FilterKeepsAll(sel, HasOtherId(id));
    }
  }

  lemma {:induction false} FilterKeepsDistinct(sel: seq<Product>, keep: Product -> bool)
    requires DistinctIds(sel)
    ensures DistinctIds(Filter(sel, keep))
  {
    if sel != [] {
      var rest := Filter(sel[1..], keep);
      FilterKeepsDistinct(sel[1..], keep);
      if keep(sel[0]) {
        forall x | x in rest ensures x.id != sel[0].id {
          var k :| 0 <= k < |sel[1..]| && sel[1..][k] == x;
          assert sel[k + 1] == x;
        }
        var r := Filter(sel, keep);
        assert r == [sel[0]] + rest;
        forall i, j | 0 <= i < j < |r| ensures r[i].id != r[j].id {
          if i == 0 {
            assert r[j] == rest[j - 1] && r[j] in rest;
          } else {
            assert r[i] == rest[i - 1] && r[j] == rest[j - 1];
          }
        }
      }
    }
  }

  /** The operations that change the selection. */
  datatype Op = Add(product: Product) | Remove(productId: int) | Clear

  function Apply(sel: seq<Product>, op: Op): seq<Product> {
    match op
    case Add(p) => AfterAdd(sel, p)
    case Remove(id) => WithoutId(sel, id)
    case Clear => []
  }

  function Run(sel: seq<Product>, ops: seq<Op>): seq<Product>
    decreases |ops|
  {
    if ops == [] then sel else Run(Apply(sel, ops[0]), ops[1..])
  }

  /** Each operation keeps the store's invariant. */
  lemma ApplyKeepsInvariant(sel: seq<Product>, op: Op)
    requires SelectionInvariant(sel)
    ensures SelectionInvariant(Apply(sel, op))
  {
    match op
    case Add(p) =>
    case Remove(id) =>
      FilterKeepsDistinct(sel, HasOtherId(id));
    case Clear =>
  }

  /** Starting from at most three products with distinct ids, any sequence of
      additions, removals and clears keeps at most three products with distinct ids. */
  lemma {:induction false} RunKeepsInvariant(sel: seq<Product>, ops: seq<Op>)
    requires SelectionInvariant(sel)
    ensures SelectionInvariant(Run(sel, ops))
    decreases |ops|
  {
    if ops != [] {
      ApplyKeepsInvariant(sel, ops[0]);
      RunKeepsInvariant(Apply(sel, ops[0]), ops[1..]);
    }
  }

  // ================================================================ the bar

  /** The count line of the bar. */
  function CountText(n: nat): string {
    if n == 1 then "1 product selected" else NatToString(n) + " products selected"
  }

  /** The count line starts with the count, which `parseInt` reads back, and uses the
      singular exactly for one product. */
  lemma CountTextSpec(n: nat)
    ensures CountText(n) == NatToString(n) + (if n == 1 then " product selected" else " products selected")
    ensures ParseInt(CountText(n)) == Some(n)
  {
    var suffix := if n == 1 then " product selected" else " products selected";
    assert CountText(n) == NatToString(n) + suffix;
    ParseIntOfDigitsThen(NatToString(n), suffix);
    NatToStringRoundTrip(n);
  }

  /** One chip of the bar: the product's emoji (or a parcel when it has none) and
      name, with a remove button for its id. */
  datatype Chip = Chip(caption: string, productId: int)

  function ChipOf(p: Product): Chip {
    Chip((if Truthy(p.emoji) then p.emoji.value else "📦") + " " + p.name, p.id)
  }

  function Chips(sel: seq<Product>): (r: seq<Chip>)
    ensures |r| == |sel|
    ensures forall i :: 0 <= i < |sel| ==> r[i] == ChipOf(sel[i])
  {
    seq(|sel|, i requires 0 <= i < |sel| => ChipOf(sel[i]))
  }

  /** A "compare" checkbox on a product card, for the id in its data attribute. */
  datatype Toggle = Toggle(productId: int, checked: bool)

  /** What `updateToggles` makes of the checkboxes: each checked exactly when its
      product is selected. */
  function SyncToggles(toggles: seq<Toggle>, sel: seq<Product>): (r: seq<Toggle>)
    ensures |r| == |toggles|
    ensures forall i :: 0 <= i < |toggles| ==> r[i].productId == toggles[i].productId
    ensures Synced(r, sel)
  {
    seq(|toggles|, i requires 0 <= i < |toggles| =>
      Toggle(toggles[i].productId, IdIn(sel, toggles[i].productId)))
  }

  /** Synchronising twice with the same selection is synchronising once. */
  lemma SyncTwice(toggles: seq<Toggle>, sel: seq<Product>)
    ensures SyncToggles(SyncToggles(toggles, sel), sel) == SyncToggles(toggles, sel)
  {
    var once := SyncToggles(toggles, sel);
    var twice := SyncToggles(once, sel);
    forall i | 0 <= i < |toggles| ensures twice[i] == once[i] {
      assert once[i].productId == toggles[i].productId;
    }
  }


  predicate Synced(toggles: seq<Toggle>, sel: seq<Product>) {
    forall i :: 0 <= i < |toggles| ==> toggles[i].checked == IdIn(sel, toggles[i].productId)
  }

  /** The checkboxes just after the user clicked the one at `k`: all others agree with
      the selection and that one disagrees. */
  predicate SyncedButClicked(toggles: seq<Toggle>, sel: seq<Product>, k: nat) {
    k < |toggles| &&
    (forall i :: 0 <= i < |toggles| && i != k ==> toggles[i].checked == IdIn(sel, toggles[i].productId)) &&
    toggles[k].checked == !IdIn(sel, toggles[k].productId)
  }

  // ================================================================ the comparison table

  /** A price as the table reads it; `NaN` when nothing numeric is left. */
  datatype Num = NaN | Val(n: nat)

  predicate IsDigitOrDot(c: char) {
    IsDigit(c) || c == '.'
  }

  /** `typeof p.price === 'string' ? parseFloat(p.price.replace(/[^\d.]/g, '')) : p.price`,
      keeping the whole-number part: a number written from its '.' on, such as ".5",
      has the whole part 0. */
  function PriceNumber(price: Price): Num {
    match price
    case Amount(n) => Val(n)
    case Text(s) =>
      var kept := KeepChars(s, IsDigitOrDot);
      var digits := LeadingDigits(kept);
      if digits != [] then Val(DigitsValue(digits))
      else if |kept| >= 2 && kept[0] == '.' && IsDigit(kept[1]) then Val(0)
      else NaN
  }

  /** A catalog price, '₹' and a number, reads as that number. */
  lemma PriceNumberOfCatalogText(n: nat)
    ensures PriceNumber(Text("₹" + NatToString(n))) == Val(n)
  {
    var d := NatToString(n);
    var s := "₹" + d;
    assert s == ['₹'] + d;
    assert s[1..] == d;
    assert forall i :: 0 <= i < |d| ==> IsDigitOrDot(d[i]);
    FilterKeepsAll(d, IsDigitOrDot);
    assert KeepChars(s, IsDigitOrDot) == d;
    DigitsPrefix(d);
    NatToStringRoundTrip(n);
  }

  function Min2(a: Num, b: Num): Num {
    if a.NaN? || b.NaN? then NaN else if a.n <= b.n then a else b
  }

  function Max2(a: Num, b: Num): Num {
    if a.NaN? || b.NaN? then NaN else if a.n >= b.n then a else b
  }

  /** `Math.min(...prices)`: `NaN` as soon as one price is `NaN`. */
  function MinNum(prices: seq<Num>): (r: Num)
    requires |prices| > 0
    ensures r.NaN? <==> exists i :: 0 <= i < |prices| && prices[i].NaN?
    ensures r.Val? ==> (exists i :: 0 <= i < |prices| && prices[i] == r) &&
                       forall i :: 0 <= i < |prices| ==> r.n <= prices[i].n
  {
    if |prices| == 1 then prices[0]
    else
      var rest := MinNum(prices[1..]);
      assert forall i :: 1 <= i < |prices| ==> prices[i] == prices[1..][i - 1];
      Min2(prices[0], rest)
  }

  /** `Math.max(...prices)`: `NaN` as soon as one price is `NaN`. */
  function MaxNum(prices: seq<Num>): (r: Num)
    requires |prices| > 0
    ensures r.NaN? <==> exists i :: 0 <= i < |prices| && prices[i].NaN?
    ensures r.Val? ==> (exists i :: 0 <= i < |prices| && prices[i] == r) &&
                       forall i :: 0 <= i < |prices| ==> r.n >= prices[i].n
  {
    if |prices| == 1 then prices[0]
    else
      var rest := MaxNum(prices[1..]);
      assert forall i :: 1 <= i < |prices| ==> prices[i] == prices[1..][i - 1];
      Max2(prices[0], rest)
  }

  /** `prices[i] === minPrice && minPrice !== maxPrice`; `NaN` equals nothing. */
  predicate IsBest(prices: seq<Num>, i: nat)
    requires i < |prices|
  {
    prices[i].Val? && prices[i] == MinNum(prices) && MinNum(prices) != MaxNum(prices)
  }

  /** A price is marked best exactly when every price is a number, this one is the
      lowest, and some other price differs from it. */
  lemma IsBestIff(prices: seq<Num>, i: nat)
    requires i < |prices|
    ensures IsBest(prices, i) <==>
              (forall j :: 0 <= j < |prices| ==> prices[j].Val?) &&
              (forall j :: 0 <= j < |prices| ==> prices[i].n <= prices[j].n) &&
              (exists j :: 0 <= j < |prices| && prices[j].n != prices[i].n)
  {
    var lo, hi := MinNum(prices), MaxNum(prices);
    if (forall j :: 0 <= j < |prices| ==> prices[j].Val?) &&
       (forall j :: 0 <= j < |prices| ==> prices[i].n <= prices[j].n) &&
       (exists j :: 0 <= j < |prices| && prices[j].n != prices[i].n) {
      var k :| 0 <= k < |prices| && prices[k] == lo;
      assert lo.n <= prices[i].n;
      var j :| 0 <= j < |prices| && prices[j].n != prices[i].n;
      assert hi.n >= prices[j].n;
    }
  }

  /** With prices 89, 65 and 450, only the 65 is marked best. */
  lemma BestOfThree()
    ensures var prices := [Val(89), Val(65), Val(450)];
            !IsBest(prices, 0) && IsBest(prices, 1) && !IsBest(prices, 2)
  {
    var prices := [Val(89), Val(65), Val(450)];
    assert MinNum(prices[2..]) == Val(450);
    assert MinNum(prices[1..]) == Val(65);
    assert MaxNum(prices[2..]) == Val(450);
    assert MaxNum(prices[1..]) == Val(450);
  }

  /** Equal prices are never marked best. */
  lemma EqualPricesNotBest(prices: seq<Num>, i: nat)
    requires i < |prices|
    requires forall j :: 0 <= j < |prices| ==> prices[j] == prices[0]
    ensures !IsBest(prices, i)
  {
    IsBestIff(prices, i);
  }

  datatype Tier = Budget | Standard | Premium

  /** `getPriceTier`: below 150 is budget, below 300 standard, anything else, `NaN`
      included (every comparison with it is false), premium. */
  function PriceTier(price: Num): Tier {
    if price.Val? && price.n < 150 then Budget
    else if price.Val? && price.n < 300 then Standard
    else Premium
  }

  function TierLevel(t: Tier): nat {
    match t
    case Budget => 0
    case Standard => 1
    case Premium => 2
  }

  /** A dearer product never lands in a cheaper tier, and the boundaries sit at 150
      and 300. */
  lemma PriceTierMonotone(a: nat, b: nat)
    requires a <= b
    ensures TierLevel(PriceTier(Val(a))) <= TierLevel(PriceTier(Val(b)))
    ensures PriceTier(Val(a)) == Budget <==> a < 150
    ensures PriceTier(Val(a)) == Premium <==> a >= 300
  {
  }

  /** `getPopularityStars`: "N/A" for a missing or zero popularity, otherwise the star
      repeated `min(5, max(1, popularity))` times. */
  function PopularityStars(popularity: Option<int>): string {
    if popularity.None? || popularity.value == 0 then "N/A"
    else Repeat("⭐", Clamp(popularity.value))
  }

  function Clamp(p: int): (k: nat) {
    if p < 1 then 1 else if p > 5 then 5 else p
  }

  /** The popularity cell holds only stars, as many as the popularity clamped to 1..5;
      "N/A" exactly when the popularity is missing or 0. */
  lemma PopularityStarsSpec(popularity: Option<int>)
    ensures PopularityStars(popularity) == "N/A" <==> popularity.None? || popularity.value == 0
    ensures popularity.Some? && popularity.value != 0 ==>
              var s := PopularityStars(popularity);
              1 <= |s| <= 5 && (forall i :: 0 <= i < |s| ==> s[i] == '⭐') &&
              |s| == (if popularity.value < 1 then 1 else if popularity.value > 5 then 5 else popularity.value)
  {
    if popularity.Some? && popularity.value != 0 {
      RepeatChar('⭐', Clamp(popularity.value));
      assert PopularityStars(popularity)[0] == '⭐';
    }
  }

  /** The description cell: `p.shortDesc || p.fullDesc?.substring(0, 80) + '...' ||
      'No description'`. The `+` binds tighter than `||`, so a falsy short description
      always gives a first 80 characters of the full description (or the text
      "undefined" when there is none) followed by "...". */
  function Description(p: Product): string {
    if Truthy(p.shortDesc) then p.shortDesc.value
    else
      (match p.fullDesc
       case None => "undefined"
       case Some(f) => f[..if |f| < 80 then |f| else 80]) + "..."
  }

  /** The "No description" fallback is never produced: the cell shows that text only
      when it is the product's own short description. Without a short description it
      shows the first 80 characters of the full description (all of it when shorter),
      or "undefined", and then "...". */
  lemma DescriptionSpec(p: Product)
    ensures Description(p) == "No description" ==> p.shortDesc == Some("No description")
    ensures !Truthy(p.shortDesc) ==>
              var d := Description(p);
              |d| >= 3 && d[|d| - 3..] == "..." &&
              (p.fullDesc.None? ==> d == "undefined...") &&
              (p.fullDesc.Some? ==>
                 d == p.fullDesc.value[..if |p.fullDesc.value| < 80 then |p.fullDesc.value| else 80] + "...")
  {
    if !Truthy(p.shortDesc) {
      var d := Description(p);
      assert d[|d| - 3..] == "...";
      assert d[|d| - 1] == '.';
      assert "No description"[13] == 'n';
    }
  }

  /** One cell of the comparison table. */
  datatype Cell =
    | Plain(text: string)
    | PriceBadge(amount: Num, tier: Tier, best: bool)
    | BadgeTag(badge: string)
    | OrderButton(productName: string, amount: Num)

  datatype Row = Row(heading: string, cells: seq<Cell>)

  function Prices(sel: seq<Product>): (r: seq<Num>)
    ensures |r| == |sel|
    ensures forall i :: 0 <= i < |sel| ==> r[i] == PriceNumber(sel[i].price)
  {
    seq(|sel|, i requires 0 <= i < |sel| => PriceNumber(sel[i].price))
  }

  function BadgeCell(p: Product): Cell {
    if Truthy(p.badge) then BadgeTag(p.badge.value) else Plain("Standard")
  }

  function NutritionText(p: Product): string {
    if Truthy(p.nutrition) then p.nutrition.value else "Nutrition info not available"
  }

  function UsageText(p: Product): string {
    if Truthy(p.usage) then p.usage.value
    else if Truthy(p.fullDesc) then p.fullDesc.value
    else "Usage info not available"
  }

  /** The price row: each price with its tier, the lowest marked best. */
  function PriceRow(sel: seq<Product>): (row: Row)
    ensures |row.cells| == |sel|
  {
    var prices := Prices(sel);
    Row("Price", seq(|sel|, i requires 0 <= i < |sel| =>
      PriceBadge(prices[i], PriceTier(prices[i]), IsBest(prices, i))))
  }

  /** `renderComparisonRows`: eight rows, one cell per selected product in each. */
  function ComparisonRows(sel: seq<Product>): (rows: seq<Row>)
    ensures |rows| == 8 && forall r :: r in rows ==> |r.cells| == |sel|
  {
    var prices := Prices(sel);
    var n := |sel|;
    [ PriceRow(sel),
      Row("Category", seq(n, i requires 0 <= i < n => Plain(sel[i].category))),
      Row("Description", seq(n, i requires 0 <= i < n => Plain(Description(sel[i])))),
      Row("Popularity", seq(n, i requires 0 <= i < n => Plain(PopularityStars(sel[i].popularity)))),
      Row("Badge", seq(n, i requires 0 <= i < n => BadgeCell(sel[i]))),
      Row("Nutrition", seq(n, i requires 0 <= i < n => Plain(NutritionText(sel[i])))),
      Row("Usage", seq(n, i requires 0 <= i < n => Plain(UsageText(sel[i])))),
      Row("Action", seq(n, i requires 0 <= i < n => OrderButton(sel[i].name, prices[i]))) ]
  }

  /** A product's price cell shows its price and tier, and is marked best exactly when
      every selected price is a number, this one is the lowest, and the prices are not
      all equal. */
  lemma PriceCellSpec(sel: seq<Product>, i: nat)
    requires i < |sel|
    ensures var prices := Prices(sel);
            var cell := ComparisonRows(sel)[0].cells[i];
            cell.PriceBadge? && cell.amount == PriceNumber(sel[i].price) &&
            cell.tier == PriceTier(cell.amount) &&
            (cell.best <==>
              (forall j :: 0 <= j < |sel| ==> prices[j].Val?) &&
              (forall j :: 0 <= j < |sel| ==> prices[i].n <= prices[j].n) &&
              (exists j :: 0 <= j < |sel| && prices[j].n != prices[i].n))
  {
    assert ComparisonRows(sel)[0] == PriceRow(sel);
    IsBestIff(Prices(sel), i);
  }

  // ================================================================ catalog records

  /** A catalog record as the comparison keeps it. */
  function Snapshot(item: Catalog.Item): (p: Product)
    ensures p.id == item.id && p.name == item.name
  {
    Product(item.id, item.name, item.category, Text(item.price), Some(item.emoji),
            Some(item.shortDesc), Some(item.fullDesc), Some(item.nutrition),
            Some(item.usage), Some(item.popularity), Some(item.badge))
  }

  /** The product a checkbox stands for: the catalog record with its id when a
      catalog is published on `window`, otherwise the one read off the product card
      (if the checkbox sits on a card). */
  function ResolveProduct(catalog: Option<seq<Catalog.Item>>, productId: int, card: Option<Product>): (r: Option<Product>)
    requires card.Some? ==> card.value.id == productId
    ensures r.Some? ==> r.value.id == productId
    ensures r.None? <==> card.None? && (catalog.None? || Catalog.FindProduct(catalog.value, productId).None?)
  {
    if catalog.Some? && Catalog.FindProduct(catalog.value, productId).Some? then
      Some(Snapshot(Catalog.FindProduct(catalog.value, productId).value))
    else card
  }

  /** Catalog records show their short description, and their price reads as the
      number after '₹'. */
  lemma SnapshotCells(item: Catalog.Item, n: nat)
    requires item.shortDesc != "" && item.price == "₹" + NatToString(n)
    ensures Description(Snapshot(item)) == item.shortDesc
    ensures PriceNumber(Snapshot(item).price) == Val(n)
  {
    PriceNumberOfCatalogText(n);
  }

  // ================================================================ the store

  class CompareSystem {
    var selectedProducts: seq<Product>
    /** What local storage holds under the comparison key. */
    var storage: Slot<Product>
    /** Whether `localStorage.setItem` succeeds; when it throws, the error is logged
        and the stored list stays as it was. */
    var storageWritable: bool
    var notices: seq<Notice>
    var countText: string
    var barVisible: bool
    var chips: seq<Chip>
    var toggles: seq<Toggle>
    var modalOpen: bool
    var table: seq<Row>

    /** The selection invariant, and a bar that shows the current selection. */
    predicate Valid()
      reads this
    {
      SelectionInvariant(selectedProducts) &&
      countText == CountText(|selectedProducts|) &&
      barVisible == (|selectedProducts| > 0) &&
      chips == Chips(selectedProducts)
    }

    /** Loads the stored selection, which is not checked: the caller guarantees it
        keeps the invariant. Then draws the bar and the checkboxes. */
    constructor (stored: Slot<Product>, writable: bool, pageToggles: seq<Toggle>)
      requires SelectionInvariant(Load(stored))
      ensures Valid()
      ensures selectedProducts == Load(stored) && storage == stored && storageWritable == writable
      ensures notices == [] && toggles == SyncToggles(pageToggles, selectedProducts)
      ensures !modalOpen && table == []
    {
      selectedProducts := Load(stored);
      storage := stored;
      storageWritable := writable;
      notices := [];
      countText := "";
      barVisible := false;
      chips := [];
      toggles := pageToggles;
      modalOpen := false;
      table := [];
      new;
      UpdateUI();
    }

    /** `saveToStorage`. */
    method SaveToStorage()
      modifies this`storage
      ensures storage == if storageWritable then Holds(selectedProducts) else old(storage)
    {
      if storageWritable {
        storage := Holds(selectedProducts);
      }
    }

    /** `updateBar`: the count line, the bar's visibility and the chips. */
    method UpdateBar()
      modifies this`countText, this`barVisible, this`chips
      ensures countText == CountText(|selectedProducts|)
      ensures barVisible <==> |selectedProducts| > 0
      ensures chips == Chips(selectedProducts)
    {
      var count := |selectedProducts|;
      countText := if count == 1 then "1 product selected" else NatToString(count) + " products selected";
      barVisible := count > 0;
      chips := Chips(selectedProducts);
    }

    /** `updateToggles`: checks each checkbox exactly when its product is selected. */
    method UpdateToggles()
      modifies this`toggles
      ensures toggles == SyncToggles(old(toggles), selectedProducts)
    {
      var i := 0;
      while i < |toggles|
        invariant 0 <= i <= |toggles| == |old(toggles)|
        invariant forall j :: 0 <= j < i ==>
                    toggles[j] == Toggle(old(toggles)[j].productId, IdIn(selectedProducts, old(toggles)[j].productId))
        invariant toggles[i..] == old(toggles)[i..]
      {
        toggles := toggles[i := Toggle(toggles[i].productId, IsProductSelected(toggles[i].productId))];
        i := i + 1;
      }
    }

    method UpdateUI()
      modifies this`countText, this`barVisible, this`chips, this`toggles
      ensures countText == CountText(|selectedProducts|)
      ensures barVisible <==> |selectedProducts| > 0
      ensures chips == Chips(selectedProducts)
      ensures toggles == SyncToggles(old(toggles), selectedProducts)
    {
      UpdateBar();
      UpdateToggles();
    }

    /** `addProduct`: refuses with a warning at capacity (before looking at the id),
        refuses silently a product already selected, and otherwise appends it, saves,
        redraws and announces it. */
    method AddProduct(product: Product) returns (added: bool)
      requires Valid()
      modifies this`selectedProducts, this`storage, this`countText, this`barVisible,
               this`chips, this`toggles, this`notices
      ensures Valid()
      ensures added <==> CanAdd(old(selectedProducts), product)
      ensures selectedProducts == AfterAdd(old(selectedProducts), product)
      ensures added ==> selectedProducts == old(selectedProducts) + [product] &&
                        storage == (if storageWritable then Holds(selectedProducts) else old(storage)) &&
                        toggles == SyncToggles(old(toggles), selectedProducts) &&
                        notices == old(notices) + [Notice(Success, product.name + " added to compare")]
      ensures !added ==> storage == old(storage) && toggles == old(toggles) &&
                         countText == old(countText) && chips == old(chips)
      ensures old(|selectedProducts|) >= MaxProducts ==>
                notices == old(notices) + [Notice(Warning, "Maximum 3 products can be compared!")]
      ensures old(|selectedProducts|) < MaxProducts && !added ==> notices == old(notices)
    {
      if |selectedProducts| >= MaxProducts {
        notices := notices + [Notice(Warning, "Maximum 3 products can be compared!")];
        return false;
      }
      if !IsProductSelected(product.id) {
        ApplyKeepsInvariant(selectedProducts, Add(product));
        selectedProducts := selectedProducts + [product];
        SaveToStorage();
        UpdateUI();
        notices := notices + [Notice(Success, product.name + " added to compare")];
        return true;
      }
      return false;
    }

    /** `removeProduct`: drops every entry with the id, saves, redraws, and announces
        the removal only when the id was selected. */
    method RemoveProduct(productId: int)
      requires Valid()
      modifies this`selectedProducts, this`storage, this`countText, this`barVisible,
               this`chips, this`toggles, this`notices
      ensures Valid()
      ensures selectedProducts == WithoutId(old(selectedProducts), productId)
      ensures storage == if storageWritable then Holds(selectedProducts) else old(storage)
      ensures toggles == SyncToggles(old(toggles), selectedProducts)
      ensures notices == old(notices) +
                match FindFirst(old(selectedProducts), IdOf, productId)
                case None => []
                case Some(p) => [Notice(Info, p.name + " removed from compare")]
    {
      var product := FindFirst(selectedProducts, IdOf, productId);
      ApplyKeepsInvariant(selectedProducts, Remove(productId));
      selectedProducts := WithoutId(selectedProducts, productId);
      SaveToStorage();
      UpdateUI();
      UpdateToggles();
      SyncTwice(old(toggles), selectedProducts);
      if product.Some? {
        notices := notices + [Notice(Info, product.value.name + " removed from compare")];
      }
    }

    /** `clearAll`. */
    method ClearAll()
      requires Valid()
      modifies this`selectedProducts, this`storage, this`countText, this`barVisible,
               this`chips, this`toggles, this`notices
      ensures Valid()
      ensures selectedProducts == []
      ensures storage == if storageWritable then Holds([]) else old(storage)
      ensures toggles == SyncToggles(old(toggles), [])
      ensures notices == old(notices) + [Notice(Info, "Compare list cleared")]
    {
      selectedProducts := [];
      SaveToStorage();
      UpdateUI();
      UpdateToggles();
      SyncTwice(old(toggles), selectedProducts);
      notices := notices + [Notice(Info, "Compare list cleared")];
    }

    /** `isProductSelected`. */
    function IsProductSelected(productId: int): (r: bool)
      reads this
      ensures r <==> exists i :: 0 <= i < |selectedProducts| && selectedProducts[i].id == productId
    {
      IdIn(selectedProducts, productId)
    }

    /** `getSelectedCount`. */
    function GetSelectedCount(): (n: nat)
      reads this
      requires Valid()
      ensures n == |selectedProducts| && n <= MaxProducts
    {
      |selectedProducts|
    }

    /** `getSelectedProducts`: a copy of the selection, which keeps the invariant. */
    function GetSelectedProducts(): (r: seq<Product>)
      reads this
      requires Valid()
      ensures r == selectedProducts && |r| <= MaxProducts && DistinctIds(r)
    {
      selectedProducts
    }

    /** `openModal`: with nothing selected it only warns; otherwise it lays out the
        table for the current selection and opens the window. */
    method OpenModal()
      requires Valid()
      modifies this`notices, this`modalOpen, this`table
      ensures |selectedProducts| == 0 ==>
                notices == old(notices) + [Notice(Warning, "Please select products to compare")] &&
                modalOpen == old(modalOpen) && table == old(table)
      ensures |selectedProducts| > 0 ==>
                notices == old(notices) && modalOpen && table == ComparisonRows(selectedProducts)
    {
      if GetSelectedCount() == 0 {
        notices := notices + [Notice(Warning, "Please select products to compare")];
        return;
      }
      table := ComparisonRows(selectedProducts);
      modalOpen := true;
    }

    method CloseModal()
      modifies this`modalOpen
      ensures !modalOpen
    {
      modalOpen := false;
    }

    /** `handleToggleChange` for the checkbox at `k`, which the browser has already
        flipped: a checked box adds its product and is unchecked again when the add is
        refused; an unchecked one removes its id. Without a product for the id (no
        catalog record and no surrounding card) nothing happens. */
    method HandleToggleChange(k: nat, catalog: Option<seq<Catalog.Item>>, card: Option<Product>)
      requires Valid() && k < |toggles|
      requires card.Some? ==> card.value.id == toggles[k].productId
      modifies this`selectedProducts, this`storage, this`countText, this`barVisible,
               this`chips, this`toggles, this`notices
      ensures Valid()
      ensures var product := ResolveProduct(catalog, old(toggles[k].productId), card);
              && (product.None? ==>
                    selectedProducts == old(selectedProducts) && toggles == old(toggles) &&
                    storage == old(storage) && notices == old(notices))
              && (product.Some? && old(toggles[k].checked) ==>
                    selectedProducts == AfterAdd(old(selectedProducts), product.value))
              && (product.Some? && old(toggles[k].checked) && CanAdd(old(selectedProducts), product.value) ==>
                    storage == (if storageWritable then Holds(selectedProducts) else old(storage)) &&
                    toggles == SyncToggles(old(toggles), selectedProducts) &&
                    notices == old(notices) + [Notice(Success, product.value.name + " added to compare")])
              && (product.Some? && old(toggles[k].checked) && !CanAdd(old(selectedProducts), product.value) ==>
                    storage == old(storage) &&
                    toggles == old(toggles)[k := Toggle(old(toggles[k].productId), false)] &&
                    notices == old(notices) +
                      (if old(|selectedProducts|) >= MaxProducts
                       then [Notice(Warning, "Maximum 3 products can be compared!")] else []))
              && (product.Some? && !old(toggles[k].checked) ==>
                    selectedProducts == WithoutId(old(selectedProducts), old(toggles[k].productId)) &&
                    storage == (if storageWritable then Holds(selectedProducts) else old(storage)) &&
                    toggles == SyncToggles(old(toggles), selectedProducts) &&
                    notices == old(notices) +
                      match FindFirst(old(selectedProducts), IdOf, old(toggles[k].productId))
                      case None => []
                      case Some(p) => [Notice(Info, p.name + " removed from compare")])
              && (product.Some? && old(SyncedButClicked(toggles, selectedProducts, k)) ==>
                    Synced(toggles, selectedProducts))
    {
      var productId := toggles[k].productId;
      var product := ResolveProduct(catalog, productId, card);
      if product.None? {
        return;
      }
      if toggles[k].checked {
        var added := AddProduct(product.value);
        if !added {
          toggles := toggles[k := Toggle(productId, false)];
        }
      } else {
        RemoveProduct(productId);
      }
    }
  }
}
