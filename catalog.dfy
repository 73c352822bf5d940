/** The product catalog page (js/products.js): the fixed list of twelve products,
    the lookup behind the detail window, the category filter, the search box and
    the sort selector. */
module Catalog {
  import opened Seqs
  import opened Text
  import opened Sorting

  /** One catalog record; the price is kept as the displayed text, such as "₹89". */
  datatype Item = Item(
    id: int, name: string, category: string, price: string, popularity: int,
    badge: string, emoji: string, shortDesc: string, fullDesc: string,
    nutrition: string, usage: string)

  /** The four descriptive texts of a record: shown on its card and in its detail
      window, and, for the short description, matched by the search. */
  datatype Blurb = Blurb(shortDesc: string, fullDesc: string, nutrition: string, usage: string)

  function Record(
    id: int, name: string, category: string, price: string, popularity: int,
    badge: string, emoji: string, texts: Blurb): Item
  {
    Item(id, name, category, price, popularity, badge, emoji,
      texts.shortDesc, texts.fullDesc, texts.nutrition, texts.usage)
  }

  /** The twelve records of `productsData`, in page order, around their descriptive
      texts. Kept apart from the texts so that facts about ids and prices hold
      whatever the descriptions say. */
  function Records(texts: seq<Blurb>): (r: seq<Item>)
    requires |texts| == 12
  {
    [
      Record(1, "Premium Tofu Block", "tofu", "₹89", 5, "Popular", "🧈", texts[0]),
      Record(2, "Soy Milk Original", "milk", "₹65", 5, "Bestseller", "🥛", texts[1]),
      Record(3, "Textured Soy Chunks", "protein", "₹120", 4, "High Protein", "💪", texts[2]),
      Record(4, "Soy Flour (Gluten-Free)", "flour", "₹95", 3, "Gluten-Free", "🌾", texts[3]),
      Record(5, "Crispy Soy Snacks", "snacks", "₹75", 4, "Crunchy", "🍿", texts[4]),
      Record(6, "Silken Tofu", "tofu", "₹95", 4, "Smooth", "🍮", texts[5]),
      Record(7, "Soy Milk Chocolate", "milk", "₹70", 5, "Kids Love It", "🍫", texts[6]),
      Record(8, "Mini Soy Chunks", "protein", "₹110", 4, "Quick Cook", "🥘", texts[7]),
      Record(9, "Soy Protein Powder", "protein", "₹450", 5, "Fitness", "🏋️", texts[8]),
      Record(10, "Marinated Tofu Cubes", "tofu", "₹135", 3, "Ready to Cook", "🍢", texts[9]),
      Record(11, "Soy Granules", "protein", "₹100", 4, "Versatile", "🌰", texts[10]),
      Record(12, "Vanilla Soy Milk", "milk", "₹70", 4, "Sweet", "🍦", texts[11])
    ]
  }

  /** The descriptive texts of the twelve records, in page order. */
  const ProductTexts: seq<Blurb> := [
    Blurb(
      "Soft, protein-rich tofu perfect for curries and stir-fries",
      "Our premium tofu is made from high-quality non-GMO soybeans. Soft and versatile, it absorbs flavors beautifully in any dish.",
      "High in protein (12g per 100g), low in calories, cholesterol-free",
      "Ideal for curries, stir-fries, scrambles, grilling, and salads"),
    Blurb(
      "Creamy, unsweetened soy milk packed with nutrients",
      "Fresh soy milk made daily from organic soybeans. Creamy texture with natural sweetness and no added sugar.",
      "Rich in protein (7g per 200ml), fortified with calcium and vitamin D",
      "Perfect for coffee, smoothies, cereals, cooking, and baking"),
    Blurb(
      "Dehydrated soy chunks - meat alternative for fitness lovers",
      "Our textured soy chunks are a perfect meat substitute. High in protein, low in fat, and incredibly versatile.",
      "Extremely high protein (52g per 100g dry), zero cholesterol, rich in iron",
      "Rehydrate and use in curries, pulao, biryanis, or as a meat replacement"),
    Blurb(
      "Finely ground soy flour for baking and nutrition boost",
      "Finely milled from roasted soybeans. Perfect for gluten-free baking and adding protein to your recipes.",
      "High protein (40g per 100g), rich in fiber, good source of iron and B vitamins",
      "Use in pancakes, breads, muffins, thickening soups, or protein shakes"),
    Blurb(
      "Roasted soy bites - healthy evening snack",
      "Lightly seasoned and roasted to perfection. A guilt-free crunchy snack that satisfies cravings.",
      "Good source of protein (18g per 100g), low in sugar, contains healthy fats",
      "Enjoy as is, add to trail mix, or sprinkle on salads"),
    Blurb(
      "Ultra-soft silken tofu for desserts and smoothies",
      "Delicate and creamy silken tofu with a custard-like texture. Perfect for blending into smooth dishes.",
      "Moderate protein (6g per 100g), very low calorie, cholesterol-free",
      "Ideal for smoothies, desserts, dips, dressings, and soups"),
    Blurb(
      "Delicious chocolate soy milk - dairy-free indulgence",
      "Creamy chocolate soy milk sweetened naturally. A delicious dairy-free treat for kids and adults.",
      "Good protein (6g per 200ml), calcium enriched, no lactose",
      "Drink chilled, add to coffee, or use in milkshakes"),
    Blurb(
      "Small-sized soy chunks for faster cooking",
      "Mini-sized textured soy protein that rehydrates quickly. Perfect for quick meals and meal prep.",
      "Very high protein (50g per 100g dry), low fat, iron-rich",
      "Quick curries, pasta sauces, fried rice, wraps, and meal bowls"),
    Blurb(
      "Isolated soy protein for post-workout recovery",
      "Premium isolated soy protein powder with 90% protein content. Ideal for athletes and fitness enthusiasts.",
      "Ultra-high protein (90g per 100g), very low fat, contains all essential amino acids",
      "Mix with water/milk for shakes, add to oats, smoothies, or protein bars"),
    Blurb(
      "Pre-marinated tofu cubes - just cook and serve",
      "Tofu cubes pre-marinated in aromatic Indian spices. Just pan-fry or grill for instant deliciousness.",
      "High protein (14g per 100g), pre-seasoned, preservative-free",
      "Pan-fry, grill, air-fry, or add to curries and rice bowls"),
    Blurb(
      "Fine soy granules - perfect keema substitute",
      "Finely textured soy granules that mimic minced meat texture. A fantastic vegetarian keema alternative.",
      "High protein (52g per 100g dry), zero cholesterol, easy to digest",
      "Use in keema, stuffed parathas, cutlets, burger patties, or Bolognese"),
    Blurb(
      "Smooth vanilla-flavored soy milk",
      "Delightfully smooth soy milk with natural vanilla flavor. Lightly sweetened for a delicious taste.",
      "Protein (6g per 200ml), calcium fortified, naturally sweet",
      "Enjoy chilled, use in desserts, lattes, or overnight oats")
  ]

  /** `productsData`: the twelve records, in page order. */
  const ProductsData: seq<Item> := Records(ProductTexts)

  // Every page operation below reads the catalog through its `catalog` parameter; the
  // products page passes `ProductsData`.

  function IdOf(p: Item): int { p.id }

  /** The ids of `catalog` are its positions, counted from 1. */
  predicate NumberedFromOne(catalog: seq<Item>) {
    forall i :: 0 <= i < |catalog| ==> catalog[i].id == i + 1
  }

  /** The catalog lists the ids 1 to 12, in that order, so no two records share one
      (whatever the descriptive texts, so in particular for `ProductsData`). */
  lemma CatalogIds(texts: seq<Blurb>)
    requires |texts| == 12
    ensures |Records(texts)| == 12 && NumberedFromOne(Records(texts))
    ensures forall i, j :: 0 <= i < j < |Records(texts)| ==> Records(texts)[i].id != Records(texts)[j].id
  {
  }


  // ------------------------------------------------------------ lookup and detail window

  /** `productsData.find(p => p.id === productId)`. */
  function FindProduct(catalog: seq<Item>, productId: int): Option<Item> {
    FindFirst(catalog, IdOf, productId)
  }

  /** In a catalog numbered from 1, the lookup finds a product exactly for the ids
      1 to its length, and then the record at that position. */
  lemma FindProductIff(catalog: seq<Item>, productId: int)
    requires NumberedFromOne(catalog)
    ensures FindProduct(catalog, productId).Some? <==> 1 <= productId <= |catalog|
    ensures 1 <= productId <= |catalog| ==>
              FindProduct(catalog, productId) == Some(catalog[productId - 1])
  {
    var r := FindProduct(catalog, productId);
    if 1 <= productId <= |catalog| {
      assert IdOf(catalog[productId - 1]) == productId;
      var i :| 0 <= i < |catalog| && catalog[i] == r.value &&
               forall j :: 0 <= j < i ==> IdOf(catalog[j]) != productId;
    }
  }

  /** The detail window: closed, or open on one product, whose id it remembers for
      the inquiry button. */
  datatype ProductModal = Closed | Showing(product: Item, productId: int)

  /** `openProductModal(productId)`: an unknown id leaves the window as it was;
      a known one opens it on the first record with that id. */
  function OpenProductModal(catalog: seq<Item>, modal: ProductModal, productId: int): (r: ProductModal)
    ensures FindProduct(catalog, productId).None? ==> r == modal
    ensures FindProduct(catalog, productId).Some? ==>
              r.Showing? && r.product.id == productId && r.product in catalog &&
              r.productId == productId
  {
    match FindProduct(catalog, productId)
    case None => modal
    case Some(product) => Showing(product, productId)
  }

  /** On a catalog numbered from 1, an id outside 1 to its length never changes the
      detail window, and every id inside opens it on the record at that position. */
  lemma OpenProductModalSpec(catalog: seq<Item>, modal: ProductModal, productId: int)
    requires NumberedFromOne(catalog)
    ensures !(1 <= productId <= |catalog|) ==> OpenProductModal(catalog, modal, productId) == modal
    ensures 1 <= productId <= |catalog| ==>
              OpenProductModal(catalog, modal, productId) == Showing(catalog[productId - 1], productId)
  {
    FindProductIff(catalog, productId);
  }

  function CloseProductModal(modal: ProductModal): (r: ProductModal)
    ensures r.Closed?
  {
    Closed
  }

  // ------------------------------------------------------------ category filter

  function HasCategory(category: string): Item -> bool {
    (p: Item) => p.category == category
  }

  /** The products a category button shows: all of them for "all", otherwise those
      of that category. */
  function FilterByCategory(catalog: seq<Item>, category: string): seq<Item> {
    if category == "all" then catalog else Filter(catalog, HasCategory(category))
  }

  /** "all" shows the whole catalog; any other category shows exactly the records of
      that category, each as often as the catalog holds it, in catalog order. */
  lemma FilterByCategorySpec(catalog: seq<Item>, category: string)
    ensures category == "all" ==> FilterByCategory(catalog, category) == catalog
    ensures category != "all" ==> IsSubsequence(FilterByCategory(catalog, category), catalog)
    ensures category != "all" ==>
              forall p :: multiset(FilterByCategory(catalog, category))[p] ==
                          if p.category == category then multiset(catalog)[p] else 0
  {
    if category != "all" {
      FilterIsExactSelection(catalog, HasCategory(category));
    }
  }

  // ------------------------------------------------------------ search

  /** The search test for one product against the lower-cased search term. */
  predicate Matches(p: Item, term: string) {
    Includes(Lower(p.name), term) || Includes(Lower(p.category), term) ||
    Includes(Lower(p.shortDesc), term)
  }

  function MatchesTerm(term: string): Item -> bool {
    (p: Item) => Matches(p, term)
  }

  /** The products the search box shows for what the user typed. */
  function Search(catalog: seq<Item>, input: string): seq<Item> {
    Filter(catalog, MatchesTerm(Lower(input)))
  }

  /** `t` occurs somewhere in `s`. */
  ghost predicate Occurs(s: string, t: string) {
    exists i: nat :: OccursAt(s, t, i)
  }

  /** The search keeps, in catalog order and each as often as the catalog holds it,
      exactly the records in whose lower-cased name, category or short description
      the lower-cased input occurs. */
  lemma SearchSpec(catalog: seq<Item>, input: string)
    ensures IsSubsequence(Search(catalog, input), catalog)
    ensures forall p :: multiset(Search(catalog, input))[p] ==
              if Occurs(Lower(p.name), Lower(input)) || Occurs(Lower(p.category), Lower(input)) ||
                 Occurs(Lower(p.shortDesc), Lower(input))
              then multiset(catalog)[p] else 0
  {
    var term := Lower(input);
    FilterIsExactSelection(catalog, MatchesTerm(term));
    forall p: Item ensures Matches(p, term) <==>
        Occurs(Lower(p.name), term) || Occurs(Lower(p.category), term) ||
        Occurs(Lower(p.shortDesc), term) {
      IncludesIff(Lower(p.name), term);
      IncludesIff(Lower(p.category), term);
      IncludesIff(Lower(p.shortDesc), term);
    }
  }

  /** An empty search box shows the whole catalog. */
  lemma SearchEmpty(catalog: seq<Item>)
    ensures Search(catalog, "") == catalog
  {
    forall i | 0 <= i < |catalog| ensures MatchesTerm("")(catalog[i]) {
      IncludesEmpty(Lower(catalog[i].name));
    }
    FilterKeepsAll(catalog, MatchesTerm(""));
  }

  // ------------------------------------------------------------ sort

  datatype SortMode = ByPopularity | PriceLow | PriceHigh

  /** The sort options the switch recognises, other than "name". */
  function ParseSortValue(sortValue: string): Option<SortMode> {
    if sortValue == "popularity" then Some(ByPopularity)
    else if sortValue == "price-low" then Some(PriceLow)
    else if sortValue == "price-high" then Some(PriceHigh)
    else None
  }

  /** `parseInt(p.price.replace('₹', ''))`, the number the price comparators subtract;
      `None` is `NaN`. */
  function PriceValue(p: Item): Option<int> {
    ParseInt(RemoveFirst(p.price, '₹'))
  }

  function PriceOf(p: Item): int {
    match PriceValue(p)
    case Some(v) => v
    case None => 0
  }

  /** A price written as '₹' and a number reads back as that number. */
  lemma PriceValueOfText(p: Item, n: nat)
    requires p.price == "₹" + NatToString(n)
    ensures PriceValue(p) == Some(n) && PriceOf(p) == n
  {
    var digits := NatToString(n);
    assert '₹' !in digits;
    assert RemoveFirst(p.price, '₹') == digits;
    ParseIntOfNatToString(n);
  }

  /** The catalog's prices, as the price comparators read them. */
  const CatalogPrices: seq<nat> := [89, 65, 120, 95, 75, 95, 70, 110, 450, 135, 100, 70]

  /** Every catalog price reads as a number, so neither price comparator ever
      subtracts `NaN` (whatever the descriptive texts, so in particular for
      `ProductsData`). */
  lemma CatalogPriceAt(texts: seq<Blurb>, i: nat)
    requires |texts| == 12 && i < 12
    ensures |CatalogPrices| == |Records(texts)|
    ensures PriceValue(Records(texts)[i]) == Some(CatalogPrices[i])
  {
    CatalogPriceDigits();
    var p := Records(texts)[i];
    if i == 0 {
      PriceValueOfText(p, 89);
    } else if i == 1 {
      PriceValueOfText(p, 65);
    } else if i == 2 {
      PriceValueOfText(p, 120);
    } else if i == 3 {
      PriceValueOfText(p, 95);
    } else if i == 4 {
      PriceValueOfText(p, 75);
    } else if i == 5 {
      PriceValueOfText(p, 95);
    } else if i == 6 {
      PriceValueOfText(p, 70);
    } else if i == 7 {
      PriceValueOfText(p, 110);
    } else if i == 8 {
      PriceValueOfText(p, 450);
    } else if i == 9 {
      PriceValueOfText(p, 135);
    } else if i == 10 {
      PriceValueOfText(p, 100);
    } else {
      PriceValueOfText(p, 70);
    }
  }

  /** The decimal texts of the catalog's prices. */
  lemma CatalogPriceDigits()
    ensures NatToString(89) == "89" && NatToString(65) == "65" && NatToString(120) == "120"
    ensures NatToString(95) == "95" && NatToString(75) == "75" && NatToString(70) == "70"
    ensures NatToString(110) == "110" && NatToString(450) == "450"
    ensures NatToString(135) == "135" && NatToString(100) == "100"
  {
  }

  /** The key each comparator orders by, smallest first: `b.popularity - a.popularity`
      puts the more popular product first, `priceA - priceB` the cheaper,
      `priceB - priceA` the dearer. */
  function Rank(mode: SortMode, p: Item): int {
    match mode
    case ByPopularity => -p.popularity
    case PriceLow => PriceOf(p)
    case PriceHigh => -PriceOf(p)
  }

  function RankOf(mode: SortMode): Item -> int {
    (p: Item) => Rank(mode, p)
  }

  /** The sort selector's handler: copies the catalog into a fresh array and sorts
      the copy in place, stably, with the comparator of the chosen option; an option
      the switch does not recognise leaves the copy in catalog order. */
  method SortProducts(catalog: seq<Item>, sortValue: string) returns (sorted: seq<Item>)
    requires sortValue != "name"
    ensures multiset(sorted) == multiset(catalog)
    ensures sortValue == "popularity" ==>
              forall i, j :: 0 <= i < j < |sorted| ==> sorted[i].popularity >= sorted[j].popularity
    ensures sortValue == "price-low" ==>
              forall i, j :: 0 <= i < j < |sorted| ==> PriceOf(sorted[i]) <= PriceOf(sorted[j])
    ensures sortValue == "price-high" ==>
              forall i, j :: 0 <= i < j < |sorted| ==> PriceOf(sorted[i]) >= PriceOf(sorted[j])
    ensures ParseSortValue(sortValue).None? ==> sorted == catalog
    ensures ParseSortValue(sortValue).Some? ==>
              sorted == SortBy(catalog, RankOf(ParseSortValue(sortValue).value))
  {
    var copy := new Item[|catalog|](i requires 0 <= i < |catalog| => catalog[i]);
    assert copy[..] == catalog;
    var mode := ParseSortValue(sortValue);
    if mode.Some? {
      InsertionSortBy(copy, RankOf(mode.value));
      SortByOrdered(catalog, RankOf(mode.value));
      SortByPermutes(catalog, RankOf(mode.value));
    }
    sorted := copy[..];
  }

  /** Products with the same sort key keep their catalog order. */
  lemma SortStable(catalog: seq<Item>, mode: SortMode, k: int)
    ensures WithRank(SortBy(catalog, RankOf(mode)), RankOf(mode), k) ==
            WithRank(catalog, RankOf(mode), k)
  {
    SortByStable(catalog, RankOf(mode), k);
  }
}
