/** download_shopping_cart in api/views.py: the ingredient lines of every
    recipe in the requester's cart, grouped by (ingredient name, unit) with
    the amounts summed, rendered as a header, a spacer line and one bullet
    line per group. */
module ShoppingList {
  import opened Text
  import opened Tables
  import opened Models

  /** A row of values('ingredient__name', 'ingredient__measurment') with its
      amount; after annotate(Sum) the amount is the group's total. */
  datatype Item = Item(name: string, unit: string, amount: int)

  predicate HasKey(it: Item, name: string, unit: string) {
    it.name == name && it.unit == unit
  }

  /** The recipe ids of the requester's WishList rows, in table order. */
  function CartRecipes(cart: seq<(int, int)>, user: int): (recipes: seq<int>)
    ensures forall r :: r in recipes <==> (user, r) in cart
    decreases |cart|
  {
    if cart == [] then []
    else
      var init := cart[..|cart| - 1];
      var last := cart[|cart| - 1];
      assert cart == init + [last];
      CartRecipes(init, user) + if last.0 == user then [last.1] else []
  }

  /** The item a line of a cart recipe yields: its amount under its
      ingredient's name and unit label. */
  predicate ItemOfLine(it: Item, line: Amount, catalog: seq<Ingredient>, cartRecipes: set<int>) {
    && line.recipe in cartRecipes
    && FindIngredient(catalog, line.ingredient).Some?
    && var ing := FindIngredient(catalog, line.ingredient).value;
       it == Item(ing.name, UnitLabel(ing.unit), line.amount)
  }

  /** AmountIngredientInRecipe.objects.filter(recipe__in=cartRecipes),
      joined with the ingredient's name and unit, in table order. */
  function CartItems(amounts: seq<Amount>, catalog: seq<Ingredient>, cartRecipes: set<int>): (items: seq<Item>)
    ensures |items| <= |amounts|
    decreases |amounts|
  {
    if amounts == [] then []
    else
      var last := amounts[|amounts| - 1];
      var init := CartItems(amounts[..|amounts| - 1], catalog, cartRecipes);
      if last.recipe in cartRecipes then
        match FindIngredient(catalog, last.ingredient)
        case Some(ing) => init + [Item(ing.name, UnitLabel(ing.unit), last.amount)]
        case None => init
      else init
  }

  /** One more line adds at most its own item at the end. */
  lemma CartItemsGrow(amounts: seq<Amount>, catalog: seq<Ingredient>, cartRecipes: set<int>)
    requires amounts != []
    ensures var n := |amounts| - 1;
      var last := amounts[n];
      var items0 := CartItems(amounts[..n], catalog, cartRecipes);
      CartItems(amounts, catalog, cartRecipes) ==
        if last.recipe in cartRecipes && FindIngredient(catalog, last.ingredient).Some? then
          var ing := FindIngredient(catalog, last.ingredient).value;
          items0 + [Item(ing.name, UnitLabel(ing.unit), last.amount)]
        else items0
  {
  }

  /** Every item comes from a line of a cart recipe. */
  lemma {:induction false} CartItemsFromLines(amounts: seq<Amount>, catalog: seq<Ingredient>, cartRecipes: set<int>)
    ensures var items := CartItems(amounts, catalog, cartRecipes);
      forall j :: 0 <= j < |items| ==>
        exists k :: 0 <= k < |amounts| && ItemOfLine(items[j], amounts[k], catalog, cartRecipes)
    decreases |amounts|
  {
    if amounts != [] {
      var n := |amounts| - 1;
      var init := amounts[..n];
      CartItemsFromLines(init, catalog, cartRecipes);
      var items := CartItems(amounts, catalog, cartRecipes);
      var items0 := CartItems(init, catalog, cartRecipes);
      CartItemsGrow(amounts, catalog, cartRecipes);
      forall j | 0 <= j < |items|
        ensures exists k :: 0 <= k < |amounts| && ItemOfLine(items[j], amounts[k], catalog, cartRecipes)
      {
        if j < |items0| {
          assert items[j] == items0[j];
          assert exists k :: 0 <= k < |init| && ItemOfLine(items0[j], init[k], catalog, cartRecipes);
          var k :| 0 <= k < |init| && ItemOfLine(items0[j], init[k], catalog, cartRecipes);
          assert init[k] == amounts[k];
        } else {
          assert ItemOfLine(items[j], amounts[n], catalog, cartRecipes);
        }
      }
    }
  }

  /** Every line of a cart recipe whose ingredient exists gives an item. */
  lemma {:induction false} CartItemsCoverLines(amounts: seq<Amount>, catalog: seq<Ingredient>, cartRecipes: set<int>)
    ensures var items := CartItems(amounts, catalog, cartRecipes);
      forall k :: 0 <= k < |amounts| && amounts[k].recipe in cartRecipes && FindIngredient(catalog, amounts[k].ingredient).Some? ==>
        exists j :: 0 <= j < |items| && ItemOfLine(items[j], amounts[k], catalog, cartRecipes)
    decreases |amounts|
  {
    if amounts != [] {
      var n := |amounts| - 1;
      var init := amounts[..n];
      CartItemsCoverLines(init, catalog, cartRecipes);
      var items := CartItems(amounts, catalog, cartRecipes);
      var items0 := CartItems(init, catalog, cartRecipes);
      CartItemsGrow(amounts, catalog, cartRecipes);
      forall k | 0 <= k < |amounts| && amounts[k].recipe in cartRecipes && FindIngredient(catalog, amounts[k].ingredient).Some?
        ensures exists j :: 0 <= j < |items| && ItemOfLine(items[j], amounts[k], catalog, cartRecipes)
      {
        if k < n {
          assert init[k] == amounts[k];
          assert exists j :: 0 <= j < |items0| && ItemOfLine(items0[j], init[k], catalog, cartRecipes);
          var j :| 0 <= j < |items0| && ItemOfLine(items0[j], init[k], catalog, cartRecipes);
          assert items[j] == items0[j];
        } else {
          assert ItemOfLine(items[|items0|], amounts[n], catalog, cartRecipes);
        }
      }
    }
  }

  /** Some line of a cart recipe uses an ingredient with the group's
      (name, unit) key. */
  predicate KeyOfLine(g: Item, line: Amount, catalog: seq<Ingredient>, cartRecipes: set<int>) {
    && line.recipe in cartRecipes
    && FindIngredient(catalog, line.ingredient).Some?
    && var ing := FindIngredient(catalog, line.ingredient).value;
       HasKey(g, ing.name, UnitLabel(ing.unit))
  }

  /** Every group's key is the key of an ingredient some cart line uses. */
  lemma GroupsFromLines(amounts: seq<Amount>, catalog: seq<Ingredient>, cart: set<int>)
    ensures var groups := Aggregate(CartItems(amounts, catalog, cart));
      forall k :: 0 <= k < |groups| ==>
        exists m :: 0 <= m < |amounts| && KeyOfLine(groups[k], amounts[m], catalog, cart)
  {
    var items := CartItems(amounts, catalog, cart);
    var groups := Aggregate(items);
    AggregateMeaning(items);
    CartItemsFromLines(amounts, catalog, cart);
    forall k | 0 <= k < |groups|
      ensures exists m :: 0 <= m < |amounts| && KeyOfLine(groups[k], amounts[m], catalog, cart)
    {
      assert HasKey(groups[k], groups[k].name, groups[k].unit);
      assert Occurs(groups, groups[k].name, groups[k].unit);
      var j :| 0 <= j < |items| && HasKey(items[j], groups[k].name, groups[k].unit);
      var m :| 0 <= m < |amounts| && ItemOfLine(items[j], amounts[m], catalog, cart);
      assert KeyOfLine(groups[k], amounts[m], catalog, cart);
    }
  }

  /** An item's key has its group. */
  lemma ItemHasGroup(items: seq<Item>, j: nat)
    requires j < |items|
    ensures exists k :: 0 <= k < |Aggregate(items)| && HasKey(Aggregate(items)[k], items[j].name, items[j].unit)
  {
    AggregateMeaning(items);
    assert HasKey(items[j], items[j].name, items[j].unit);
    assert Occurs(items, items[j].name, items[j].unit);
    assert Occurs(Aggregate(items), items[j].name, items[j].unit);
  }

  /** Some group has the key of the line's ingredient. */
  predicate LineGrouped(groups: seq<Item>, line: Amount, catalog: seq<Ingredient>, cart: set<int>) {
    exists k :: 0 <= k < |groups| && KeyOfLine(groups[k], line, catalog, cart)
  }

  lemma LineHasGroup(amounts: seq<Amount>, catalog: seq<Ingredient>, cart: set<int>, m: int)
    requires 0 <= m < |amounts| && amounts[m].recipe in cart && FindIngredient(catalog, amounts[m].ingredient).Some?
    ensures LineGrouped(Aggregate(CartItems(amounts, catalog, cart)), amounts[m], catalog, cart)
  {
    var items := CartItems(amounts, catalog, cart);
    var groups := Aggregate(items);
    CartItemsCoverLines(amounts, catalog, cart);
    var j :| 0 <= j < |items| && ItemOfLine(items[j], amounts[m], catalog, cart);
    ItemHasGroup(items, j);
    var k :| 0 <= k < |groups| && HasKey(groups[k], items[j].name, items[j].unit);
    assert KeyOfLine(groups[k], amounts[m], catalog, cart);
  }

  /** Every line of a cart recipe whose ingredient exists has its group. */
  lemma LinesHaveGroups(amounts: seq<Amount>, catalog: seq<Ingredient>, cart: set<int>)
    ensures forall m :: 0 <= m < |amounts| && amounts[m].recipe in cart && FindIngredient(catalog, amounts[m].ingredient).Some? ==>
      LineGrouped(Aggregate(CartItems(amounts, catalog, cart)), amounts[m], catalog, cart)
  {
    forall m | 0 <= m < |amounts| && amounts[m].recipe in cart && FindIngredient(catalog, amounts[m].ingredient).Some?
      ensures LineGrouped(Aggregate(CartItems(amounts, catalog, cart)), amounts[m], catalog, cart)
    {
      LineHasGroup(amounts, catalog, cart, m);
    }
  }

  /** Every line of the table names an ingredient of the catalog: the
      foreign key of AmountIngredientInRecipe.ingredient. */
  predicate LinesKnown(amounts: seq<Amount>, catalog: seq<Ingredient>) {
    forall k :: 0 <= k < |amounts| ==> FindIngredient(catalog, amounts[k].ingredient).Some?
  }

  /** The sum of the amounts of the cart recipes' lines. */
  function CartLinesAmount(amounts: seq<Amount>, cartRecipes: set<int>): int
    decreases |amounts|
  {
    if amounts == [] then 0
    else
      var last := amounts[|amounts| - 1];
      CartLinesAmount(amounts[..|amounts| - 1], cartRecipes) + if last.recipe in cartRecipes then last.amount else 0
  }

  /** The items carry exactly the amounts of the cart recipes' lines. */
  lemma {:induction false} CartItemsTotal(amounts: seq<Amount>, catalog: seq<Ingredient>, cartRecipes: set<int>)
    requires LinesKnown(amounts, catalog)
    ensures Total(CartItems(amounts, catalog, cartRecipes)) == CartLinesAmount(amounts, cartRecipes)
    decreases |amounts|
  {
    if amounts != [] {
      var init := amounts[..|amounts| - 1];
      assert LinesKnown(init, catalog) by {
        forall k | 0 <= k < |init| ensures FindIngredient(catalog, init[k].ingredient).Some? {
          assert init[k] == amounts[k];
        }
      }
      CartItemsTotal(init, catalog, cartRecipes);
      var items := CartItems(amounts, catalog, cartRecipes);
      var items0 := CartItems(init, catalog, cartRecipes);
      if amounts[|amounts| - 1].recipe in cartRecipes {
        assert items[..|items| - 1] == items0;
      } else {
        assert items == items0;
      }
    }
  }

  /** The sum of the amounts of the items with the given key. */
  function SumFor(items: seq<Item>, name: string, unit: string): int
    decreases |items|
  {
    if items == [] then 0
    else
      var last := items[|items| - 1];
      SumFor(items[..|items| - 1], name, unit) + if HasKey(last, name, unit) then last.amount else 0
  }

  /** The sum of all amounts. */
  function Total(items: seq<Item>): int
    decreases |items|
  {
    if items == [] then 0 else Total(items[..|items| - 1]) + items[|items| - 1].amount
  }

  /** The position of the group with the given key, if there is one. */
  function FindGroup(groups: seq<Item>, name: string, unit: string): (k: Option<nat>)
    ensures k.Some? ==> k.value < |groups| && HasKey(groups[k.value], name, unit)
    ensures k.None? ==> forall j :: 0 <= j < |groups| ==> !HasKey(groups[j], name, unit)
    decreases |groups|
  {
    if groups == [] then None
    else if HasKey(groups[|groups| - 1], name, unit) then Some(|groups| - 1)
    else FindGroup(groups[..|groups| - 1], name, unit)
  }

  /** One item folded into the groups: its amount joins the group with its
      key, or it opens a new group at the end. */
  function AddItem(groups: seq<Item>, it: Item): seq<Item> {
    match FindGroup(groups, it.name, it.unit)
    case Some(k) => groups[k := Item(it.name, it.unit, groups[k].amount + it.amount)]
    case None => groups + [it]
  }

  /** values(name, unit).annotate(amount=Sum('amount')): one group per key,
      in the order the keys first appear. */
  function Aggregate(items: seq<Item>): seq<Item>
    decreases |items|
  {
    if items == [] then [] else AddItem(Aggregate(items[..|items| - 1]), items[|items| - 1])
  }

  predicate KeysDistinct(groups: seq<Item>) {
    forall i, j :: 0 <= i < j < |groups| ==> !HasKey(groups[i], groups[j].name, groups[j].unit)
  }

  /** Some item carries the key (name, unit). */
  predicate Occurs(items: seq<Item>, name: string, unit: string) {
    exists i :: 0 <= i < |items| && HasKey(items[i], name, unit)
  }

  lemma {:induction false} SumForAbsent(items: seq<Item>, name: string, unit: string)
    requires !Occurs(items, name, unit)
    ensures SumFor(items, name, unit) == 0
    decreases |items|
  {
    if items != [] {
      var init := items[..|items| - 1];
      assert !Occurs(init, name, unit) by {
        forall i | 0 <= i < |init| ensures !HasKey(init[i], name, unit) {
          assert init[i] == items[i];
        }
      }
      SumForAbsent(init, name, unit);
    }
  }

  lemma OccursAppend(items: seq<Item>, it: Item, name: string, unit: string)
    ensures Occurs(items + [it], name, unit) <==> Occurs(items, name, unit) || HasKey(it, name, unit)
  {
    var all := items + [it];
    if Occurs(items, name, unit) {
      var i :| 0 <= i < |items| && HasKey(items[i], name, unit);
      assert all[i] == items[i];
    }
    if HasKey(it, name, unit) {
      assert all[|items|] == it;
    }
    if Occurs(all, name, unit) {
      var i :| 0 <= i < |all| && HasKey(all[i], name, unit);
      if i < |items| {
        assert all[i] == items[i];
      }
    }
  }

  /** One step of the grouping: the old groups keep their keys and gain the
      item's amount when the key matches; a new group, the item itself, is
      opened only for a key no group had. */
  lemma AddItemStep(g: seq<Item>, it: Item)
    requires KeysDistinct(g)
    ensures var g' := AddItem(g, it);
      && KeysDistinct(g')
      && (forall name, unit :: Occurs(g', name, unit) <==> Occurs(g, name, unit) || HasKey(it, name, unit))
      && (forall j :: 0 <= j < |g| ==>
            HasKey(g'[j], g[j].name, g[j].unit)
            && g'[j].amount == g[j].amount + if HasKey(it, g[j].name, g[j].unit) then it.amount else 0)
      && (|g'| == |g| || (|g'| == |g| + 1 && g'[|g|] == it && !Occurs(g, it.name, it.unit)))
  {
    var g' := AddItem(g, it);
    match FindGroup(g, it.name, it.unit)
    case Some(k) =>
      forall name, unit ensures Occurs(g', name, unit) <==> Occurs(g, name, unit) || HasKey(it, name, unit) {
        if Occurs(g, name, unit) {
          var i :| 0 <= i < |g| && HasKey(g[i], name, unit);
          assert HasKey(g'[i], name, unit);
        }
        if HasKey(it, name, unit) {
          assert HasKey(g'[k], name, unit);
        }
        if Occurs(g', name, unit) {
          var i :| 0 <= i < |g'| && HasKey(g'[i], name, unit);
          assert HasKey(g[i], name, unit);
        }
      }
    case None =>
      forall name, unit ensures Occurs(g', name, unit) <==> Occurs(g, name, unit) || HasKey(it, name, unit) {
        OccursAppend(g, it, name, unit);
      }
  }

  /** The groups have distinct keys, a key has a group exactly when some item
      carries it (so every item is counted in exactly one group), and each
      group's amount is the sum over the items with its key. */
  lemma {:induction false} AggregateMeaning(items: seq<Item>)
    ensures KeysDistinct(Aggregate(items))
    ensures forall name, unit :: Occurs(Aggregate(items), name, unit) <==> Occurs(items, name, unit)
    ensures forall k :: 0 <= k < |Aggregate(items)| ==>
      Aggregate(items)[k].amount == SumFor(items, Aggregate(items)[k].name, Aggregate(items)[k].unit)
    decreases |items|
  {
    if items != [] {
      var init := items[..|items| - 1];
      var it := items[|items| - 1];
      AggregateMeaning(init);
      var g := Aggregate(init);
      AddItemStep(g, it);
      assert items == init + [it];
      forall name, unit ensures Occurs(items, name, unit) <==> Occurs(init, name, unit) || HasKey(it, name, unit) {
        OccursAppend(init, it, name, unit);
      }
      var g' := Aggregate(items);
      forall k | 0 <= k < |g'| ensures g'[k].amount == SumFor(items, g'[k].name, g'[k].unit) {
        if k >= |g| {
          SumForAbsent(init, it.name, it.unit);
        }
      }
    }
  }

  lemma {:induction false} TotalAppend(a: seq<Item>, b: seq<Item>)
    ensures Total(a + b) == Total(a) + Total(b)
    decreases |b|
  {
    if b == [] {
      assert a + b == a;
    } else {
      var init := b[..|b| - 1];
      assert (a + b)[..|a + b| - 1] == a + init;
      TotalAppend(a, init);
    }
  }

  lemma TotalUpdate(s: seq<Item>, k: nat, x: Item)
    requires k < |s|
    ensures Total(s[k := x]) == Total(s) - s[k].amount + x.amount
  {
    var s' := s[k := x];
    assert s == s[..k] + [s[k]] + s[k + 1..];
    assert s' == s[..k] + [x] + s[k + 1..];
    TotalAppend(s[..k] + [s[k]], s[k + 1..]);
    TotalAppend(s[..k], [s[k]]);
    TotalAppend(s[..k] + [x], s[k + 1..]);
    TotalAppend(s[..k], [x]);
    assert Total([s[k]]) == s[k].amount by { assert [s[k]][..0] == []; }
    assert Total([x]) == x.amount by { assert [x][..0] == []; }
  }

  /** Grouping loses no amount: the groups' total is the items' total. */
  lemma {:induction false} AggregateTotal(items: seq<Item>)
    ensures Total(Aggregate(items)) == Total(items)
    decreases |items|
  {
    if items != [] {
      var init := items[..|items| - 1];
      var it := items[|items| - 1];
      AggregateTotal(init);
      var g := Aggregate(init);
      match FindGroup(g, it.name, it.unit)
      case Some(k) =>
        TotalUpdate(g, k, Item(it.name, it.unit, g[k].amount + it.amount));
      case None =>
        assert (g + [it])[..|g|] == g;
    }
  }

  /** The total of the lines of the cart recipes that use one ingredient. */
  function LinesTotal(amounts: seq<Amount>, cartRecipes: set<int>, ingredient: int): int
    decreases |amounts|
  {
    if amounts == [] then 0
    else
      var last := amounts[|amounts| - 1];
      LinesTotal(amounts[..|amounts| - 1], cartRecipes, ingredient)
        + if last.recipe in cartRecipes && last.ingredient == ingredient then last.amount else 0
  }

  lemma UnitLabelInjective(a: Unit, b: Unit)
    ensures UnitLabel(a) == UnitLabel(b) ==> a == b
  {
    ParseUnitLabel(a);
    ParseUnitLabel(b);
  }

  /** In a valid catalog an id finds at most one ingredient, and a row's
      (name, unit) key is an ingredient's exactly when the row points at it. */
  lemma FindIngredientKey(catalog: seq<Ingredient>, ing: Ingredient, id: int)
    requires CatalogValid(catalog) && ing in catalog
    ensures (FindIngredient(catalog, id).Some?
             && FindIngredient(catalog, id).value.name == ing.name
             && UnitLabel(FindIngredient(catalog, id).value.unit) == UnitLabel(ing.unit))
            <==> id == ing.id
  {
    var a :| 0 <= a < |catalog| && catalog[a] == ing;
    var f := FindIngredient(catalog, id);
    if f.Some? {
      var b :| 0 <= b < |catalog| && catalog[b] == f.value;
      UnitLabelInjective(f.value.unit, ing.unit);
    } else {
      assert catalog[a].id != id;
    }
  }

  /** Each cart recipe line is counted once, under its own ingredient: the
      amount the list shows for an ingredient's key is the total of the cart
      recipes' lines that use that ingredient. */
  lemma {:induction false} CartItemsSum(amounts: seq<Amount>, catalog: seq<Ingredient>, cartRecipes: set<int>, ing: Ingredient)
    requires CatalogValid(catalog) && ing in catalog
    ensures SumFor(CartItems(amounts, catalog, cartRecipes), ing.name, UnitLabel(ing.unit))
            == LinesTotal(amounts, cartRecipes, ing.id)
    decreases |amounts|
  {
    if amounts != [] {
      var init := amounts[..|amounts| - 1];
      var last := amounts[|amounts| - 1];
      CartItemsSum(init, catalog, cartRecipes, ing);
      FindIngredientKey(catalog, ing, last.ingredient);
      var items := CartItems(amounts, catalog, cartRecipes);
      var items0 := CartItems(init, catalog, cartRecipes);
      if last.recipe in cartRecipes && FindIngredient(catalog, last.ingredient).Some? {
        assert items[..|items| - 1] == items0;
      } else {
        assert items == items0;
      }
    }
  }

  const Header: string := "СПИСОК ПОКУПОК"

  /** " " * n. */
  function Spaces(n: nat): (s: string)
    ensures |s| == n && forall k :: 0 <= k < n ==> s[k] == ' '
  {
    if n == 0 then "" else Spaces(n - 1) + " "
  }

  /** The width of the spacer line. */
  const SpacerWidth: nat := 50

  /** The second line: " " * 50. */
  const Spacer: string := Spaces(SpacerWidth)

  /** f"• {name} ({measurment}) — {amount}". */
  function GroupLine(g: Item): string {
    "• " + g.name + " (" + g.unit + ") — " + IntToString(g.amount)
  }

  /** content_lines: the header, the spacer, then one line per group. */
  function ShoppingLines(groups: seq<Item>): (lines: seq<string>)
    ensures |lines| == |groups| + 2
    ensures lines[0] == Header && lines[1] == Spacer
    ensures forall k :: 2 <= k < |lines| ==> lines[k] == GroupLine(groups[k - 2])
  {
    [Header, Spacer] + seq(|groups|, k requires 0 <= k < |groups| => GroupLine(groups[k]))
  }

  /** The loop that builds content_lines. */
  method RenderLines(groups: seq<Item>) returns (lines: seq<string>)
    ensures lines == ShoppingLines(groups)
  {
    lines := [Header, Spacer];
    for i := 0 to |groups|
      invariant lines == ShoppingLines(groups[..i])
    {
      ShoppingLinesStep(groups, i);
      lines := lines + [GroupLine(groups[i])];
    }
    assert groups[..|groups|] == groups;
  }

  /** One more group adds its line at the end. */
  lemma ShoppingLinesStep(groups: seq<Item>, i: nat)
    requires i < |groups|
    ensures ShoppingLines(groups[..i + 1]) == ShoppingLines(groups[..i]) + [GroupLine(groups[i])]
  {
    var g, g' := groups[..i + 1], groups[..i];
    var a, b := ShoppingLines(g), ShoppingLines(g') + [GroupLine(groups[i])];
    assert |a| == |b|;
    forall k | 2 <= k < |a| ensures a[k] == b[k] {
      assert g[k - 2] == groups[k - 2];
      if k < |a| - 1 {
        assert g'[k - 2] == groups[k - 2];
      }
    }
  }

  /** A group's line ends with its amount, and the amount reads back. */
  lemma GroupLineAmount(g: Item)
    ensures var line := GroupLine(g); var digits := IntToString(g.amount);
      |digits| < |line| && line[|line| - |digits|..] == digits && ParseInt(line[|line| - |digits|..]) == Some(g.amount)
  {
    ParseIntOfIntToString(g.amount);
  }

  /** The downloaded text splits back into its lines, provided no ingredient
      name or unit holds a line break. */
  lemma ContentLines(groups: seq<Item>)
    requires forall k :: 0 <= k < |groups| ==> '\n' !in groups[k].name && '\n' !in groups[k].unit
    ensures Split(Join(ShoppingLines(groups), "\n"), '\n') == ShoppingLines(groups)
  {
    var lines := ShoppingLines(groups);
    forall j | 2 <= j < |lines| ensures '\n' !in lines[j] {
      GroupLineOneLine(groups[j - 2]);
    }
    assert '\n' !in Spacer;
    SplitJoin(lines, '\n');
  }

  /** A group whose name and unit hold no line break renders as one line. */
  lemma GroupLineOneLine(g: Item)
    requires '\n' !in g.name && '\n' !in g.unit
    ensures '\n' !in GroupLine(g)
  {
    var digits := IntToString(g.amount);
    assert forall i :: 0 <= i < |digits| ==> digits[i] == '-' || IsDigit(digits[i]) by {
      if g.amount < 0 {
        assert forall i :: 1 <= i < |digits| ==> digits[i] == digits[1..][i - 1];
      }
    }
    assert GroupLine(g) == "• " + g.name + " (" + g.unit + ") — " + digits;
  }
}
