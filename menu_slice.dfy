/**
 * The catalog store: an ordered list of menu items and an ordered list of category
 * names, changed by five reducers, each of which may write a snapshot of the whole
 * state to persistent storage.
 */
module Catalog {
  import opened Options

  datatype MenuItem = MenuItem(
    id: string,
    name: string,
    description: string,
    price: real,
    image: string,
    category: string,
    available: bool,
    ingredients: seq<string>)

  /** The persisted shape `{items, categories}`. */
  datatype MenuState = MenuState(items: seq<MenuItem>, categories: seq<string>)

  /** The state used when storage holds no snapshot (or one that cannot be parsed). */
  const DefaultMenuState := MenuState([], [])

  predicate NoDuplicates(s: seq<string>) {
    forall i, j | 0 <= i < j < |s| :: s[i] != s[j]
  }

  /**
   * Every item's category is either registered or the empty string an item is left
   * with once its category has been deleted.
   */
  predicate CategoriesRegistered(items: seq<MenuItem>, categories: seq<string>) {
    forall i | 0 <= i < |items| :: items[i].category == "" || items[i].category in categories
  }

  /** `categories.includes(c) ? categories : [...categories, c]`. */
  function Registered(categories: seq<string>, c: string): (r: seq<string>)
    ensures c in r
    ensures forall x :: x in r <==> x in categories || x == c
    ensures c in categories ==> r == categories
    ensures c !in categories ==> r == categories + [c]
  {
    if c in categories then categories else categories + [c]
  }

  /** Registering keeps the list free of duplicates, and registering twice is registering once. */
  lemma RegisteredKeepsUnique(categories: seq<string>, c: string)
    requires NoDuplicates(categories)
    ensures NoDuplicates(Registered(categories, c))
    ensures Registered(Registered(categories, c), c) == Registered(categories, c)
  {
  }

  /** `items.findIndex(item => item.id === id)`: the first position holding `id`, or -1. */
  function IndexOfId(items: seq<MenuItem>, id: string): (k: int)
    ensures -1 <= k < |items|
    ensures k == -1 <==> forall i | 0 <= i < |items| :: items[i].id != id
    ensures k >= 0 ==> items[k].id == id && forall i | 0 <= i < k :: items[i].id != id
  {
    if |items| == 0 then -1
    else if items[0].id == id then 0
    else
      var k := IndexOfId(items[1..], id);
      if k == -1 then -1 else k + 1
  }

  /** `items.filter(item => item.id !== id)`. */
  function WithoutId(items: seq<MenuItem>, id: string): (r: seq<MenuItem>)
    ensures |r| <= |items|
    ensures forall x :: x in r <==> x in items && x.id != id
  {
    if |items| == 0 then []
    else if items[0].id == id then WithoutId(items[1..], id)
    else [items[0]] + WithoutId(items[1..], id)
  }

  /** Filtering works piece by piece, so the kept items stay in their original order. */
  lemma {:induction false} WithoutIdAppend(a: seq<MenuItem>, b: seq<MenuItem>, id: string)
    ensures WithoutId(a + b, id) == WithoutId(a, id) + WithoutId(b, id)
  {
    if |a| == 0 {
      assert a + b == b;
    } else {
      assert (a + b)[0] == a[0];
      assert (a + b)[1..] == a[1..] + b;
      WithoutIdAppend(a[1..], b, id);
    }
  }

  /** Deleting an id nobody has changes nothing. */
  lemma {:induction false} WithoutAbsentId(items: seq<MenuItem>, id: string)
    requires forall i | 0 <= i < |items| :: items[i].id != id
    ensures WithoutId(items, id) == items
  {
    if |items| > 0 {
      WithoutAbsentId(items[1..], id);
    }
  }

  /** `categories.filter(cat => cat !== c)`. */
  function Without(categories: seq<string>, c: string): (r: seq<string>)
    ensures forall x :: x in r <==> x in categories && x != c
  {
    if |categories| == 0 then []
    else if categories[0] == c then Without(categories[1..], c)
    else [categories[0]] + Without(categories[1..], c)
  }

  /** Filtering distributes over concatenation, so the kept names keep their order. */
  lemma {:induction false} WithoutAppend(a: seq<string>, b: seq<string>, c: string)
    ensures Without(a + b, c) == Without(a, c) + Without(b, c)
  {
    if |a| == 0 {
      assert a + b == b;
    } else {
      assert (a + b)[0] == a[0];
      assert (a + b)[1..] == a[1..] + b;
      WithoutAppend(a[1..], b, c);
    }
  }

  /** Deleting a name nobody uses changes nothing. */
  lemma {:induction false} WithoutAbsent(categories: seq<string>, c: string)
    requires c !in categories
    ensures Without(categories, c) == categories
  {
    if |categories| > 0 {
      WithoutAbsent(categories[1..], c);
    }
  }

  /** Filtering a list without duplicates leaves a list without duplicates. */
  lemma {:induction false} WithoutKeepsUnique(categories: seq<string>, c: string)
    requires NoDuplicates(categories)
    ensures NoDuplicates(Without(categories, c))
  {
    if |categories| > 0 {
      WithoutKeepsUnique(categories[1..], c);
      if categories[0] != c {
        var rest := Without(categories[1..], c);
        assert categories[0] !in categories[1..];
        assert categories[0] !in rest;
        var r := [categories[0]] + rest;
        forall i, j | 0 <= i < j < |r| ensures r[i] != r[j] {
          if i == 0 { assert r[j] == rest[j - 1]; }
          else { assert r[i] == rest[i - 1] && r[j] == rest[j - 1]; }
        }
      }
    }
  }

  /** One item after `deleteCategory(c)`: its category becomes `''` if it was `c`. */
  function Uncategorized(item: MenuItem, c: string): MenuItem {
    if item.category == c then item.(category := "") else item
  }

  /** `items.map(item => item.category === c ? {...item, category: ''} : item)`. */
  function ClearCategory(items: seq<MenuItem>, c: string): (r: seq<MenuItem>)
    ensures |r| == |items|
    ensures forall i | 0 <= i < |items| :: r[i] == Uncategorized(items[i], c)
  {
    if |items| == 0 then [] else [Uncategorized(items[0], c)] + ClearCategory(items[1..], c)
  }

  /**
   * After the cascade no item refers to `c`; ids, count and order are kept, and only the
   * category of the items that used `c` changed.
   */
  lemma ClearCategoryEffect(items: seq<MenuItem>, c: string)
    ensures var r := ClearCategory(items, c);
      (c != "" ==> forall i | 0 <= i < |r| :: r[i].category != c) &&
      (forall i | 0 <= i < |r| :: r[i].id == items[i].id) &&
      (forall i | 0 <= i < |r| :: items[i].category == c ==> r[i] == items[i].(category := "")) &&
      (forall i | 0 <= i < |r| :: items[i].category != c ==> r[i] == items[i])
  {
  }

  class MenuStore {
    var items: seq<MenuItem>
    var categories: seq<string>
    /** The last snapshot written under the `menuState` key, if any. */
    ghost var persisted: Option<MenuState>

    function State(): MenuState
      reads this
    {
      MenuState(items, categories)
    }

    /** The invariants the reducers keep. */
    ghost predicate Valid()
      reads this
    {
      NoDuplicates(categories) && CategoriesRegistered(items, categories)
    }

    /**
     * The store starts from the snapshot found in storage, or from the empty state when
     * there is none; starting writes nothing.
     */
    constructor (stored: Option<MenuState>)
      ensures State() == if stored.Some? then stored.value else DefaultMenuState
      ensures persisted == stored
      ensures stored.None? ==> Valid()
    {
      var s := if stored.Some? then stored.value else DefaultMenuState;
      items := s.items;
      categories := s.categories;
      persisted := stored;
    }

    /** `addMenuItem(item)`: append the item, register its category, write the snapshot. */
    method AddMenuItem(item: MenuItem)
      modifies this
      ensures items == old(items) + [item]
      ensures categories == Registered(old(categories), item.category)
      ensures persisted == Some(State())
      ensures old(Valid()) ==> Valid()
    {
      items := items + [item];
      if item.category !in categories {
        categories := categories + [item.category];
      }
      persisted := Some(State());
      if old(Valid()) {
        RegisteredKeepsUnique(old(categories), item.category);
      }
    }

    /**
     * `editMenuItem(item)`: replace the first item with the same id, in place, and register
     * its category; with no such item nothing changes and nothing is written.
     */
    method EditMenuItem(item: MenuItem)
      modifies this
      ensures var k := IndexOfId(old(items), item.id);
        if k == -1 then
          items == old(items) && categories == old(categories) && persisted == old(persisted)
        else
          items == old(items)[k := item] &&
          categories == Registered(old(categories), item.category) &&
          persisted == Some(State())
      ensures old(Valid()) ==> Valid()
    {
      var idx := IndexOfId(items, item.id);
      if idx != -1 {
        items := items[idx := item];
        if item.category !in categories {
          categories := categories + [item.category];
        }
        persisted := Some(State());
        if old(Valid()) {
          RegisteredKeepsUnique(old(categories), item.category);
        }
      }
    }

    /** `deleteMenuItem(id)`: drop every item with that id; the snapshot is always written. */
    method DeleteMenuItem(id: string)
      modifies this
      ensures items == WithoutId(old(items), id)
      ensures categories == old(categories)
      ensures persisted == Some(State())
      ensures old(Valid()) ==> Valid()
    {
      items := WithoutId(items, id);
      persisted := Some(State());
    }

    /** `addCategory(c)`: append `c` and write, unless it is already there. */
    method AddCategory(c: string)
      modifies this
      ensures items == old(items)
      ensures c in old(categories) ==> categories == old(categories) && persisted == old(persisted)
      ensures c !in old(categories) ==> categories == old(categories) + [c] && persisted == Some(State())
      ensures old(Valid()) ==> Valid()
    {
      if c !in categories {
        categories := categories + [c];
        persisted := Some(State());
        if old(Valid()) {
          RegisteredKeepsUnique(old(categories), c);
        }
      }
    }

    /**
     * `deleteCategory(c)`: remove the name and clear it from every item that used it;
     * the snapshot is always written.
     */
    method DeleteCategory(c: string)
      modifies this
      ensures categories == Without(old(categories), c)
      ensures items == ClearCategory(old(items), c)
      ensures persisted == Some(State())
      ensures old(Valid()) ==> Valid()
    {
      categories := Without(categories, c);
      items := ClearCategory(items, c);
      persisted := Some(State());
      if old(Valid()) {
        WithoutKeepsUnique(old(categories), c);
      }
    }
  }

  /**
   * Adding a category, then an item in it, then deleting the category leaves no
   * categories and the item with category `''`.
   */
  method DeleteCategoryScenario(item: MenuItem)
    requires item.category == "Drinks"
  {
    var store := new MenuStore(None);
    store.AddCategory("Drinks");
    store.AddMenuItem(item);
    assert store.categories == ["Drinks"];
    store.DeleteCategory("Drinks");
    assert store.categories == [];
    assert store.items[0].category == "";
    assert store.items[0].id == item.id;
  }

  /** Two items in the same new category register it exactly once. */
  method AutoRegisterScenario(a: MenuItem, b: MenuItem)
    requires a.category == b.category
  {
    var store := new MenuStore(None);
    store.AddMenuItem(a);
    store.AddMenuItem(b);
    assert store.categories == [a.category];
    assert store.Valid();
  }
}
