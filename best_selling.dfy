/** The best-selling section: a fixed catalogue of nine products shown one
    category at a time, a category selector, and a one-shot flag that the
    viewport trigger sets to start the entrance animations. */
module BestSelling {
  import opened Wrappers
  import opened ProductCard

  /** The category buttons, in display order. */
  const Categories: seq<string> := ["Cleansers", "Lotions", "Moisturizers"]

  /** The catalogue, three products per category in category order. */
  const ProductsData: seq<Product> := [
    Product(1, "Hydra Drops Cleanser", "$29.99", Some("20% OFF"), Some("/images/products/hydra-drops1.png")),
    Product(2, "Gentle Foam Cleanser", "$24.99", None, Some("/images/products/hydra-drops1.png")),
    Product(3, "Purifying Gel Cleanser", "$26.99", Some("10% OFF"), Some("/images/products/hydra-drops1.png")),
    Product(4, "Glow Milk Lotion", "$34.99", Some("15% OFF"), Some("/images/products/glow-milk1.png")),
    Product(5, "Nourishing Body Lotion", "$27.99", None, Some("/images/products/glow-milk1.png")),
    Product(6, "Silk Touch Lotion", "$32.99", Some("12% OFF"), Some("/images/products/glow-milk1.png")),
    Product(7, "Daily Cream Moisturizer", "$39.99", Some("25% OFF"), Some("/images/products/daily-cream1.png")),
    Product(8, "Intensive Hydration Cream", "$44.99", None, Some("/images/products/daily-cream1.png")),
    Product(9, "Night Repair Moisturizer", "$49.99", Some("18% OFF"), Some("/images/products/daily-cream1.png"))
  ]

  function Min(a: int, b: int): int {
    if a <= b then a else b
  }

  /** `Array.prototype.slice(start, end)` for non-negative bounds: the end is
      clamped to the length, and an empty range gives the empty array. */
  function Slice<T>(s: seq<T>, start: nat, end: nat): (r: seq<T>)
    ensures |r| == if start < Min(end, |s|) then Min(end, |s|) - start else 0
    ensures forall k :: 0 <= k < |r| ==> r[k] == s[start + k]
  {
    if start < Min(end, |s|) then s[start..Min(end, |s|)] else []
  }

  /** `getProductsByCategory`: the slice of the catalogue for a category name,
      and the empty list for any other string. */
  function ProductsByCategory(category: string): seq<Product> {
    if category == "Cleansers" then Slice(ProductsData, 0, 3)
    else if category == "Lotions" then Slice(ProductsData, 3, 6)
    else if category == "Moisturizers" then Slice(ProductsData, 6, 9)
    else []
  }

  /** The ids of a list of products, in order. */
  function Ids(ps: seq<Product>): (ids: seq<int>)
    ensures |ids| == |ps|
    ensures forall k :: 0 <= k < |ps| ==> ids[k] == ps[k].id
  {
    if ps == [] then [] else [ps[0].id] + Ids(ps[1..])
  }

  /** Cleansers are ids 1 to 3, Lotions 4 to 6, Moisturizers 7 to 9; any other
      category string shows nothing. */
  lemma CategoryIds(category: string)
    ensures category == "Cleansers" ==> Ids(ProductsByCategory(category)) == [1, 2, 3]
    ensures category == "Lotions" ==> Ids(ProductsByCategory(category)) == [4, 5, 6]
    ensures category == "Moisturizers" ==> Ids(ProductsByCategory(category)) == [7, 8, 9]
    ensures category !in Categories ==> ProductsByCategory(category) == []
  {
  }

  /** Each of the three categories holds exactly three products; every other
      string holds none. */
  lemma CategorySize(category: string)
    ensures |ProductsByCategory(category)| == if category in Categories then 3 else 0
  {
  }

  /** The three category slices, concatenated in button order, are the whole
      catalogue in its original order. */
  lemma CategoriesCoverCatalogue()
    ensures ProductsByCategory(Categories[0]) + ProductsByCategory(Categories[1])
            + ProductsByCategory(Categories[2]) == ProductsData
  {
    assert ProductsData == ProductsData[0..3] + ProductsData[3..6] + ProductsData[6..9];
  }

  /** No product appears in two categories. */
  lemma CategoriesDisjoint(i: nat, j: nat, p: Product)
    requires i < |Categories| && j < |Categories| && i != j
    ensures !(p in ProductsByCategory(Categories[i]) && p in ProductsByCategory(Categories[j]))
  {
    CategoryIds(Categories[i]);
    CategoryIds(Categories[j]);
  }

  /** Ids of products whose card shows a discount badge. */
  function BadgedIds(ps: seq<Product>): seq<int> {
    if ps == [] then []
    else (if DiscountBadge(ps[0]).Some? then [ps[0].id] else []) + BadgedIds(ps[1..])
  }

  /** The catalogue's cards show a badge on products 1, 3, 4, 6, 7 and 9. */
  lemma CatalogueBadges()
    ensures BadgedIds(ProductsData) == [1, 3, 4, 6, 7, 9]
  {
  }

  /** Whether a category button is drawn as the active one. */
  predicate ButtonActive(active: string, i: nat)
    requires i < |Categories|
  {
    active == Categories[i]
  }

  /** When the active category is one of the buttons' categories, exactly that
      button is active. */
  lemma ExactlyOneButtonActive(active: string)
    requires active in Categories
    ensures exists i :: 0 <= i < |Categories| && ButtonActive(active, i)
    ensures forall i, j :: 0 <= i < j < |Categories| && ButtonActive(active, i) ==> !ButtonActive(active, j)
  {
    var i :| 0 <= i < |Categories| && Categories[i] == active;
    assert ButtonActive(active, i);
  }

  /** The section's state: `shouldAnimate` and `activeCategory`. */
  datatype SectionState = SectionState(shouldAnimate: bool, activeCategory: string)

  /** Initial state: no animation yet, Cleansers selected. */
  const Initial: SectionState := SectionState(false, "Cleansers")

  /** What can happen to the section: a click on the i-th category button, or
      the viewport trigger's `onEnter` (registered with `once: true`). */
  datatype Event = ClickCategory(button: nat) | EnterViewport

  function Step(s: SectionState, e: Event): SectionState
    requires e.ClickCategory? ==> e.button < |Categories|
  {
    match e
    case ClickCategory(i) => s.(activeCategory := Categories[i])
    case EnterViewport => s.(shouldAnimate := true)
  }

  /** Every click names an existing button. */
  predicate ValidEvents(events: seq<Event>) {
    forall k :: 0 <= k < |events| ==> (events[k].ClickCategory? ==> events[k].button < |Categories|)
  }

  function Run(s: SectionState, events: seq<Event>): (r: SectionState)
    requires ValidEvents(events)
    ensures s.shouldAnimate ==> r.shouldAnimate
    ensures r.activeCategory == s.activeCategory || r.activeCategory in Categories
  {
    if events == [] then s else Step(Run(s, events[..|events| - 1]), events[|events| - 1])
  }

  /** Over any run, a raised `shouldAnimate` stays raised, it is raised exactly
      when it was raised before or the viewport was entered, and the active
      category stays one of the buttons'. */
  lemma {:induction false} RunInvariants(s: SectionState, events: seq<Event>)
    requires ValidEvents(events)
    requires s.activeCategory in Categories
    ensures Run(s, events).activeCategory in Categories
    ensures Run(s, events).shouldAnimate <==> s.shouldAnimate || EnterViewport in events
  {
    if events != [] {
      var init := events[..|events| - 1];
      assert ValidEvents(init);
      RunInvariants(s, init);
      assert events == init + [events[|events| - 1]];
    }
  }

  /** The viewport trigger's effect is idempotent. */
  lemma EnterViewportIdempotent(s: SectionState)
    ensures Step(Step(s, EnterViewport), EnterViewport) == Step(s, EnterViewport)
  {
  }

  /** Start delays of the three headings, in milliseconds. */
  function HeadingDelaysMs(shouldAnimate: bool): (delays: seq<nat>)
    ensures |delays| == 3
    ensures !shouldAnimate ==> forall k :: 0 <= k < 3 ==> delays[k] == 0
    ensures shouldAnimate ==> delays[0] < delays[1] < delays[2]
  {
    if shouldAnimate then [500, 1400, 2500] else [0, 0, 0]
  }

  /** The elements the section animates on entry. */
  datatype Element = Line1 | Line2 | HImage1 | HImage2 | HImage3

  /** An entrance tween started on an element after a delay in milliseconds. */
  datatype Tween = Tween(target: Element, delayMs: nat)

  /** The order in which the section's effects are declared. */
  const EffectOrder: seq<Element> := [HImage1, HImage2, HImage3, Line1, Line2]

  /** Each element's start delay in milliseconds. */
  const DelayMs: map<Element, nat> := map[HImage1 := 1200, HImage2 := 2100, HImage3 := 3200, Line1 := 0, Line2 := 200]

  /** Every element has exactly one effect. */
  lemma EffectOrderComplete(el: Element)
    ensures el in EffectOrder && el in DelayMs
    ensures forall j, k :: 0 <= j < k < |EffectOrder| ==> EffectOrder[j] != EffectOrder[k]
  {
    match el
    case HImage1 => assert EffectOrder[0] == el;
    case HImage2 => assert EffectOrder[1] == el;
    case HImage3 => assert EffectOrder[2] == el;
    case Line1 => assert EffectOrder[3] == el;
    case Line2 => assert EffectOrder[4] == el;
  }

  /** The entrance tweens the effects start, given the flag and the elements
      whose refs are attached; each effect returns early while the flag is false. */
  function EntranceTweens(shouldAnimate: bool, attached: set<Element>): (tweens: seq<Tween>)
    ensures !shouldAnimate ==> tweens == []
    ensures |tweens| <= |EffectOrder|
  {
    if shouldAnimate then TweensFor(EffectOrder, attached) else []
  }

  /** The tweens started by the effects listed in `order`, one per attached element. */
  function TweensFor(order: seq<Element>, attached: set<Element>): (tweens: seq<Tween>)
    ensures |tweens| <= |order|
    ensures forall k :: 0 <= k < |tweens| ==> tweens[k].target in order && tweens[k].target in attached
    ensures forall k :: 0 <= k < |tweens| ==> tweens[k].target in DelayMs ==> tweens[k].delayMs == DelayMs[tweens[k].target]
  {
    if order == [] then []
    else
      var rest := TweensFor(order[1..], attached);
      if order[0] in attached then [Tween(order[0], if order[0] in DelayMs then DelayMs[order[0]] else 0)] + rest
      else rest
  }

  /** Some tween of `tweens` animates `el`. */
  predicate Tweened(tweens: seq<Tween>, el: Element) {
    exists k :: 0 <= k < |tweens| && tweens[k].target == el
  }

  /** Every attached element listed in `order` gets a tween. */
  lemma {:induction false} TweensForCovers(order: seq<Element>, attached: set<Element>)
    ensures forall el :: el in order && el in attached ==> Tweened(TweensFor(order, attached), el)
  {
    if order != [] {
      TweensForCovers(order[1..], attached);
      var rest := TweensFor(order[1..], attached);
      var tweens := TweensFor(order, attached);
      forall el | el in order && el in attached
        ensures Tweened(tweens, el)
      {
        if el == order[0] {
          assert tweens[0].target == el;
        } else {
          assert el in order[1..];
          var k :| 0 <= k < |rest| && rest[k].target == el;
          if order[0] in attached {
            assert tweens[k + 1].target == el;
          } else {
            assert tweens[k].target == el;
          }
        }
      }
    }
  }

  /** When `order` lists each element once, no element gets two tweens. */
  lemma {:induction false} TweensForDistinct(order: seq<Element>, attached: set<Element>)
    requires forall j, k :: 0 <= j < k < |order| ==> order[j] != order[k]
    ensures forall j, k :: 0 <= j < k < |TweensFor(order, attached)| ==>
      TweensFor(order, attached)[j].target != TweensFor(order, attached)[k].target
  {
    if order != [] {
      var tail := order[1..];
      forall j, k | 0 <= j < k < |tail| ensures tail[j] != tail[k] {
        assert tail[j] == order[j + 1] && tail[k] == order[k + 1];
      }
      TweensForDistinct(tail, attached);
      var rest := TweensFor(tail, attached);
      forall k | 0 <= k < |rest| ensures rest[k].target != order[0] {
        var m :| 0 <= m < |tail| && tail[m] == rest[k].target;
        assert order[m + 1] == rest[k].target;
      }
    }
  }

  /** While the flag is false no entrance tween starts; once it is set, every
      attached element gets exactly one tween, with its own delay, and no
      detached element gets one. */
  lemma EntranceTweensGated(shouldAnimate: bool, attached: set<Element>)
    ensures !shouldAnimate ==> EntranceTweens(shouldAnimate, attached) == []
    ensures shouldAnimate ==> forall el :: el in attached <==>
      exists k :: 0 <= k < |EntranceTweens(shouldAnimate, attached)| && EntranceTweens(shouldAnimate, attached)[k].target == el
    ensures shouldAnimate ==> forall j, k :: 0 <= j < k < |EntranceTweens(shouldAnimate, attached)| ==>
      EntranceTweens(shouldAnimate, attached)[j].target != EntranceTweens(shouldAnimate, attached)[k].target
    ensures forall k :: 0 <= k < |EntranceTweens(shouldAnimate, attached)| ==>
      EntranceTweens(shouldAnimate, attached)[k].delayMs == DelayMs[EntranceTweens(shouldAnimate, attached)[k].target]
  {
    if shouldAnimate {
      EffectOrderComplete(HImage1);
      TweensForCovers(EffectOrder, attached);
      TweensForDistinct(EffectOrder, attached);
      var tweens := EntranceTweens(shouldAnimate, attached);
      forall el ensures el in attached <==> exists k :: 0 <= k < |tweens| && tweens[k].target == el {
        EffectOrderComplete(el);
      }
    }
  }

  /** The section component's state. */
  class Section {
    var shouldAnimate: bool
    var activeCategory: string

    function State(): SectionState
      reads this
    {
      SectionState(shouldAnimate, activeCategory)
    }

    constructor ()
      ensures State() == Initial
    {
      shouldAnimate := false;
      activeCategory := "Cleansers";
    }

    /** The products currently shown. */
    function DisplayedProducts(): (ps: seq<Product>)
      reads this
      ensures activeCategory in Categories ==> |ps| == 3
      ensures activeCategory !in Categories ==> ps == []
    {
      ProductsByCategory(activeCategory)
    }

    method ClickCategory(i: nat)
      requires i < |Categories|
      modifies this
      ensures State() == Step(old(State()), Event.ClickCategory(i))
    {
      activeCategory := Categories[i];
    }

    /** The viewport trigger's `onEnter` callback. */
    method OnEnter()
      modifies this
      ensures State() == Step(old(State()), EnterViewport)
    {
      shouldAnimate := true;
    }
  }
}
