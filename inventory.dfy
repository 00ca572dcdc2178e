/**
 * The in-memory inventory of a sari-sari store: items with a name, a stock
 * quantity and a unit price, kept in insertion order, with at most one item
 * per case-insensitive name.
 *
 * Prices are whole amounts of the smallest currency unit (centavos), so
 * every value below is an exact integer.
 */
module Inventory {
  import opened Names

  datatype Option<T> = None | Some(value: T)

  /** One stock record. */
  datatype Item = Item(name: string, quantity: int, price: int) {

    /** The value of this record's stock: quantity times unit price. */
    function TotalPrice(): (r: int)
      ensures quantity == 0 || price == 0 ==> r == 0
      ensures quantity >= 0 && price >= 0 ==> r >= 0
    {
      quantity * price
    }
  }

  /** What adding an item reports to its caller. */
  datatype AddStatus = Added | AlreadyExists

  /** What updating a quantity reports: the quantity before and after, or that no item matched. */
  datatype UpdateStatus = Updated(oldQuantity: int, newQuantity: int) | NotFound

  /** The position of the first item whose name matches `name` case-insensitively. */
  function FindIndex(items: seq<Item>, name: string): (r: Option<nat>)
    ensures r.Some? ==> r.value < |items| && SameName(items[r.value].name, name)
    ensures r.Some? ==> forall j :: 0 <= j < r.value ==> !SameName(items[j].name, name)
    ensures r.None? <==> forall j :: 0 <= j < |items| ==> !SameName(items[j].name, name)
  {
    if items == [] then None
    else if SameName(items[0].name, name) then Some(0)
    else match FindIndex(items[1..], name)
      case None => None
      case Some(i) => Some(i + 1)
  }

  /** The store's invariant: no two items share a lower-cased name. */
  ghost predicate NamesDistinct(items: seq<Item>): (r: bool)
    ensures |items| <= 1 ==> r
  {
    forall i, j :: 0 <= i < j < |items| ==> !SameName(items[i].name, items[j].name)
  }

  /** True when no item has a negative quantity or price. */
  ghost predicate AllNonNegative(items: seq<Item>) {
    forall i :: 0 <= i < |items| ==> items[i].quantity >= 0 && items[i].price >= 0
  }

  /** The sum of the items' values, accumulated from the first item to the last as a running total. */
  function Total(items: seq<Item>): (r: int)
    ensures items == [] ==> r == 0
    ensures |items| == 1 ==> r == items[0].TotalPrice()
  {
    if items == [] then 0 else Total(items[..|items| - 1]) + items[|items| - 1].TotalPrice()
  }

  /** The list with the quantity of the item at position `k` replaced by `q`. */
  function SetQuantity(items: seq<Item>, k: nat, q: int): (r: seq<Item>)
    requires k < |items|
    ensures |r| == |items|
    ensures r[k].name == items[k].name && r[k].price == items[k].price && r[k].quantity == q
    ensures forall j :: 0 <= j < |items| && j != k ==> r[j] == items[j]
  {
    items[k := items[k].(quantity := q)]
  }

  /** The total of a list is the sum of the totals of any two parts it splits into. */
  lemma {:induction false} TotalConcat(a: seq<Item>, b: seq<Item>)
    ensures Total(a + b) == Total(a) + Total(b)
  {
    if b == [] {
      assert a + b == a;
    } else {
      var b' := b[..|b| - 1];
      assert (a + b)[..|a + b| - 1] == a + b';
      TotalConcat(a, b');
    }
  }

  /** Appending an item raises the total by exactly that item's value. */
  lemma TotalAppend(items: seq<Item>, x: Item)
    ensures Total(items + [x]) == Total(items) + x.TotalPrice()
  {
    assert (items + [x])[..|items + [x]| - 1] == items;
  }

  /** Splitting a list at any position splits its total. */
  lemma TotalSplit(items: seq<Item>, k: nat)
    requires k <= |items|
    ensures Total(items) == Total(items[..k]) + Total(items[k..])
  {
    assert items[..k] + items[k..] == items;
    TotalConcat(items[..k], items[k..]);
  }

  /** The total up to and including position `k` is the total before it plus the value of the item there. */
  lemma TotalPrefix(items: seq<Item>, k: nat)
    requires k < |items|
    ensures Total(items[..k + 1]) == Total(items[..k]) + items[k].TotalPrice()
  {
    assert items[..k + 1][..k] == items[..k];
  }

  /** The total of a list is the total before any position, plus the value of the item there, plus the total after it. */
  lemma TotalAt(items: seq<Item>, k: nat)
    requires k < |items|
    ensures Total(items) == Total(items[..k]) + items[k].TotalPrice() + Total(items[k + 1..])
  {
    TotalSplit(items, k + 1);
    TotalPrefix(items, k);
  }

  /** The same sum taken from the other end: the first value plus the sum of the rest. */
  function TotalFromFront(items: seq<Item>): int
  {
    if items == [] then 0 else items[0].TotalPrice() + TotalFromFront(items[1..])
  }

  /** Summing from the last item instead of the first gives the same total. */
  lemma {:induction false} TotalsAgree(items: seq<Item>)
    ensures Total(items) == TotalFromFront(items)
  {
    if items != [] {
      TotalsAgree(items[1..]);
      assert items == [items[0]] + items[1..];
      TotalConcat([items[0]], items[1..]);
      TotalAppend([], items[0]);
      assert [] + [items[0]] == [items[0]];
    }
  }

  /** With no negative quantity or price, the total is never negative. */
  lemma {:induction false} TotalNonNegative(items: seq<Item>)
    ensures AllNonNegative(items) ==> Total(items) >= 0
  {
    if items != [] && AllNonNegative(items) {
      var init, last := items[..|items| - 1], items[|items| - 1];
      assert AllNonNegative(init);
      TotalNonNegative(init);
      assert last.quantity >= 0 && last.price >= 0;
      assert last.TotalPrice() >= 0;
    }
  }

  /** Changing one quantity takes that item's old value out of the total and puts its new value in. */
  lemma TotalSetQuantity(items: seq<Item>, k: nat, q: int)
    requires k < |items|
    ensures Total(SetQuantity(items, k, q)) == Total(items) - items[k].quantity * items[k].price + q * items[k].price
  {
    var s := SetQuantity(items, k, q);
    assert Total(items) == Total(items[..k]) + items[k].TotalPrice() + Total(items[k + 1..]) by {
      TotalAt(items, k);
    }
    assert Total(s) == Total(items[..k]) + s[k].TotalPrice() + Total(items[k + 1..]) by {
      assert s[..k] == items[..k];
      assert s[k + 1..] == items[k + 1..];
      TotalAt(s, k);
    }
  }

  /** Lookup ignores case: names with equal lower-case forms find the same item. */
  lemma FindIgnoresCase(items: seq<Item>, a: string, b: string)
    requires SameName(a, b)
    ensures FindIndex(items, a) == FindIndex(items, b)
  {
    var ra, rb := FindIndex(items, a), FindIndex(items, b);
    if ra.Some? && rb.Some? {
      assert !(ra.value < rb.value) && !(rb.value < ra.value);
    }
  }

  /** In a list without duplicate names, every item is found at its own position by its own name. */
  lemma FindOwnName(items: seq<Item>, k: nat)
    requires NamesDistinct(items) && k < |items|
    ensures FindIndex(items, items[k].name) == Some(k)
  {
    assert SameName(items[k].name, items[k].name);
  }

  /** Conversely, a list in which every item is found at its own position has no duplicate names. */
  lemma FoundAtOwnIsDistinct(items: seq<Item>)
    requires forall k :: 0 <= k < |items| ==> FindIndex(items, items[k].name) == Some(k)
    ensures NamesDistinct(items)
  {
  }

  /** Appending an item whose name matches none keeps the names distinct. */
  lemma AppendKeepsDistinct(items: seq<Item>, x: Item)
    requires NamesDistinct(items) && FindIndex(items, x.name).None?
    ensures NamesDistinct(items + [x])
  {
    var s := items + [x];
    forall i, j | 0 <= i < j < |s| ensures !SameName(s[i].name, s[j].name) {
      if j < |items| {
        assert s[i] == items[i] && s[j] == items[j];
      } else {
        assert s[i] == items[i] && s[j] == x;
      }
    }
  }

  /** An appended item whose name matched none is found at the end, by its own name. */
  lemma AppendFindsNew(items: seq<Item>, x: Item)
    requires FindIndex(items, x.name).None?
    ensures FindIndex(items + [x], x.name) == Some(|items|)
  {
    var s := items + [x];
    assert forall j :: 0 <= j < |items| ==> s[j] == items[j];
    assert SameName(s[|items|].name, x.name);
  }

  /** Lookup looks at names only: two lists with the same names in the same order give the same answer. */
  lemma {:induction false} FindSameNames(a: seq<Item>, b: seq<Item>, name: string)
    requires |a| == |b| && forall j :: 0 <= j < |a| ==> a[j].name == b[j].name
    ensures FindIndex(a, name) == FindIndex(b, name)
  {
    if a != [] && !SameName(a[0].name, name) {
      FindSameNames(a[1..], b[1..], name);
    }
  }

  /** Changing a quantity moves no item and renames none, so every lookup and the invariant are unaffected. */
  lemma SetQuantityKeepsNames(items: seq<Item>, k: nat, q: int, name: string)
    requires k < |items|
    ensures FindIndex(SetQuantity(items, k, q), name) == FindIndex(items, name)
    ensures NamesDistinct(items) ==> NamesDistinct(SetQuantity(items, k, q))
  {
    FindSameNames(SetQuantity(items, k, q), items, name);
  }

  /** The store: an ordered list of items, updated in place. */
  class InventoryManagement {
    var items: seq<Item>

    /** No two items share a lower-cased name. */
    ghost predicate Valid()
      reads this
    {
      NamesDistinct(items)
    }

    /** A new store is empty. */
    constructor ()
      ensures items == [] && Valid()
    {
      items := [];
    }

    /**
     * Adds a new item at the end, unless an item with the same
     * case-insensitive name is already present, in which case nothing changes.
     */
    method AddItem(name: string, quantity: int, price: int) returns (status: AddStatus)
      modifies this
      ensures status == AlreadyExists <==> FindIndex(old(items), name).Some?
      ensures status == AlreadyExists ==> items == old(items)
      ensures status == Added ==> items == old(items) + [Item(name, quantity, price)]
      ensures status == Added ==> FindIndex(items, name) == Some(|old(items)|)
      ensures status == Added ==> Total(items) == Total(old(items)) + quantity * price
      ensures old(Valid()) ==> Valid()
    {
      var key := Lower(name);
      var i := 0;
      while i < |items|
        invariant 0 <= i <= |items|
        invariant forall j :: 0 <= j < i ==> !SameName(items[j].name, name)
      {
        if Lower(items[i].name) == key {
          status := AlreadyExists;
          return;
        }
        i := i + 1;
      }
      var newItem := Item(name, quantity, price);
      if Valid() {
        AppendKeepsDistinct(items, newItem);
      }
      AppendFindsNew(items, newItem);
      TotalAppend(items, newItem);
      items := items + [newItem];
      status := Added;
    }

    /**
     * Sets the quantity of the first item whose name matches case-insensitively,
     * reporting its previous quantity; reports NotFound and changes nothing otherwise.
     */
    method UpdateQuantity(name: string, newQuantity: int) returns (status: UpdateStatus)
      modifies this
      ensures FindIndex(old(items), name).None? ==> status == NotFound && items == old(items)
      ensures FindIndex(old(items), name).Some? ==>
        var k := FindIndex(old(items), name).value;
        && status == Updated(old(items)[k].quantity, newQuantity)
        && items == SetQuantity(old(items), k, newQuantity)
        && Total(items) == Total(old(items)) - old(items)[k].quantity * old(items)[k].price + newQuantity * old(items)[k].price
      ensures FindIndex(items, name) == FindIndex(old(items), name)
      ensures old(Valid()) ==> Valid()
    {
      var key := Lower(name);
      var i := 0;
      while i < |items|
        invariant 0 <= i <= |items|
        invariant forall j :: 0 <= j < i ==> !SameName(items[j].name, name)
      {
        if Lower(items[i].name) == key {
          var oldQuantity := items[i].quantity;
          SetQuantityKeepsNames(items, i, newQuantity, name);
          TotalSetQuantity(items, i, newQuantity);
          items := SetQuantity(items, i, newQuantity);
          status := Updated(oldQuantity, newQuantity);
          return;
        }
        i := i + 1;
      }
      status := NotFound;
    }

    /** The value of the whole stock: the sum of quantity times price over all items. */
    function CalculateTotalInventoryValue(): (total: int)
      reads this
      ensures items == [] ==> total == 0
      ensures AllNonNegative(items) ==> total >= 0
    {
      TotalNonNegative(items);
      Total(items)
    }
  }
}
