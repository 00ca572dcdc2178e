# Sari-sari store inventory, modelled in Dafny

This project models the data layer of a small retail shop's inventory
program. An `Item` is a stock record with a name, a quantity and a unit price.
Its value is quantity times price. The store, `InventoryManagement`, keeps an
ordered list of items and supports three operations:

- adding an item, which is refused when an item with the same name already
  exists, with names compared after lower-casing;
- setting the quantity of an existing item, found by the same comparison;
- totalling the value of the whole stock.

The model has three modules:

- `Names` (names.dfy): lower-casing of names, and `SameName`, the
  case-insensitive comparison the store uses.
- `Inventory` (inventory.dfy): the `Item` record and the status values the
  operations report. It also holds the specification functions on item lists
  (`FindIndex`, the first case-insensitive match; `Total`, the stock value;
  `SetQuantity`) and the lemmas about them. Finally, it holds the class
  `InventoryManagement`: its `items` field is a sequence that the methods
  reassign in place.
- `Demo` (demo.dfy): a fixed call sequence showing that lookup ignores case.
  "Egg" is added. Adding "egg" is refused. Updating "EGG" changes the stored
  item. Updating "Milk" finds nothing.

The source reports outcomes by printing messages. In the model they are
returned statuses: `Added` / `AlreadyExists` from `AddItem`, and
`Updated(oldQuantity, newQuantity)` / `NotFound` from `UpdateQuantity`.

Prices are integers counted in centavos, so every total is exact.

The store's invariant is `Valid()`: no two items have equal lower-cased names.
Both mutating methods preserve it: each ensures `old(Valid()) ==> Valid()`.
They do not require it, because the source's code does not depend on it.

Nothing in the code checks that quantity or price is non-negative, so no
operation requires it. Non-negativity appears only as a hypothesis, in
`TotalNonNegative`, `CalculateTotalInventoryValue` and the contract of
`Item.TotalPrice`.

## Model

| member | source | states |
|---|---|---|
| `Names.LowerChar` | inventorymanagement.py:45 | The lower-case form of a character is never a capital. Characters other than capitals are unchanged. A capital is changed, into a letter in 'a'..'z'. Which letter is stated by `LowerCharSame`. |
| `Names.LowerCharSame` | inventorymanagement.py:45 | Two characters lower alike exactly when they are equal, or one is a capital and the other is its own lower-case letter, 32 code points above it. So distinct capitals never lower alike: "Apple" and "Bpple" are different items. |
| `Names.Lower` | inventorymanagement.py:45 | Lower-casing a name keeps its length and lowers each character in place. |
| `Names.SameName` | inventorymanagement.py:45 | The comparison `item.name.lower() == name.lower()`: equal names always match, and matching names have equal length. Its full meaning is stated by `SameNameByCharacters`. |
| `Names.SameNameByCharacters` | inventorymanagement.py:63 | Two names match exactly when they have equal length and agree character by character after lowering. |
| `Names.LowerIdempotent` | inventorymanagement.py:45 | Lowering an already lowered name changes nothing, so the normalised form is a fixed point. |
| `Inventory.Item.TotalPrice` | inventorymanagement.py:17-19 | `get_total_price`, quantity times price. It is 0 when either factor is 0, and not negative when neither factor is negative. What it contributes to the store total is stated by `TotalAppend` and `TotalAt`. |
| `Inventory.Total` | inventorymanagement.py:95 | The `sum(...)` of `get_total_price` over the items, accumulated from the first item to the last. It is 0 for an empty list and the item's value for a one-item list. Its properties are stated by `TotalConcat`, `TotalAt` and `TotalsAgree`. |
| `Inventory.NamesDistinct` | inventorymanagement.py:44-51 | The store's invariant, which `InventoryManagement.Valid` states of `items`: no two items have equal lower-cased names. A list of at most one item always satisfies it. `FindOwnName` and `FoundAtOwnIsDistinct` show that it holds exactly when every item is found at its own position by its own name. |
| `Inventory.FoundAtOwnIsDistinct` | inventorymanagement.py:44-47 | If looking up every item's own name finds that item's position, then no two items share a lower-cased name. This is the converse of `FindOwnName`. |
| `Inventory.FindIndex` | inventorymanagement.py:44-45 | The lookup that both operations perform. When it returns a position, that item matches case-insensitively and no earlier item does. When it returns None, no item matches. |
| `Inventory.FindIgnoresCase` | inventorymanagement.py:63 | Two names with equal lower-case forms find the same item, or both find nothing. For example, "EGG" finds what "Egg" finds. |
| `Inventory.FindOwnName` | inventorymanagement.py:62-63 | Under the invariant, every item is found by its own name at its own position, so the first match is the only match. |
| `Inventory.FindSameNames` | inventorymanagement.py:62-63 | Lookup depends only on the names, in order: two lists with the same names give the same answer. |
| `Inventory.AppendKeepsDistinct` | inventorymanagement.py:44-51 | Appending an item whose name matches no existing item keeps all lower-cased names distinct. |
| `Inventory.AppendFindsNew` | inventorymanagement.py:50-51 | After appending an item whose name matched nothing, looking up that name finds the new last position. |
| `Inventory.SetQuantity` | inventorymanagement.py:64-65 | Setting a quantity keeps the list's length and the item's name and price, sets the quantity, and leaves every other item as it was. |
| `Inventory.SetQuantityKeepsNames` | inventorymanagement.py:62-67 | Changing a quantity changes no lookup result and preserves the invariant that names are distinct. |
| `Inventory.TotalConcat` | inventorymanagement.py:95 | The total of a concatenation is the sum of the totals of its parts. |
| `Inventory.TotalAppend` | inventorymanagement.py:17-19 | Appending an item raises the total by exactly that item's quantity times price. |
| `Inventory.TotalSplit` | inventorymanagement.py:95 | Splitting the list at any position splits the total into the totals of the two parts. |
| `Inventory.TotalPrefix` | inventorymanagement.py:95 | Extending a prefix by one item adds that item's quantity times price to the running total. |
| `Inventory.TotalAt` | inventorymanagement.py:95 | Each item contributes its quantity times price to the total exactly once, between the total of the items before it and the total of those after it. |
| `Inventory.TotalsAgree` | inventorymanagement.py:95 | Summing from the last item instead of the first gives the same total. |
| `Inventory.TotalNonNegative` | inventorymanagement.py:95 | When no quantity or price is negative, the total is not negative. |
| `Inventory.TotalSetQuantity` | inventorymanagement.py:64-65 | Changing one item's quantity removes its old value from the total and adds its new value. |
| `Inventory.InventoryManagement.constructor` | inventorymanagement.py:30-32 | A new store has an empty item list and satisfies the invariant. |
| `Inventory.InventoryManagement.AddItem` | inventorymanagement.py:34-52 | The result is AlreadyExists exactly when some item matches the name case-insensitively. In that case the list is unchanged. Otherwise the result is Added and exactly one item, with the given name, quantity and price, is appended at the end. Earlier items stay the same and in order. The new item is then found by its name, and the total rises by quantity times price. The invariant is preserved. |
| `Inventory.InventoryManagement.UpdateQuantity` | inventorymanagement.py:54-69 | When no item matches, the result is NotFound and the list is unchanged. Otherwise, for the first match, the result is Updated(old quantity, new quantity). Only that item's quantity changes: its name, its price, the list's length and order, and every other item stay the same. The total changes by the value difference. Lookups and the invariant are preserved. |
| `Inventory.InventoryManagement.CalculateTotalInventoryValue` | inventorymanagement.py:88-96 | The total value of an empty store is 0. It is never negative when no quantity or price is negative. |
| `Demo.CaseInsensitiveSession` | inventorymanagement.py:34-96 | The session calls `add_item`, `update_quantity` and `calculate_total_inventory_value`. Its quantity 60, price 7.00 and update to 45 follow inventorymanagement.py:185 and 195; the name is shortened to "Egg". After "Egg" (60 at 7.00) is added, adding "egg" reports AlreadyExists. Updating "EGG" to 45 reports Updated(60, 45). Updating "Milk" reports NotFound. The store then holds one item, "Egg", and its total is 315.00. |

## Left out

- The interactive menu, `input()` reading, and the conversion of text to numbers with its `ValueError` handling (inventorymanagement.py:101-168) are console input and output. They are not part of this model.
- `display_items` and `Item.__str__` (inventorymanagement.py:21-24, 71-86) only format and print rows: column widths, the peso sign and two-decimal rounding. The stored list they print is `items`.
- The `demo()` sequence (inventorymanagement.py:172-204) is a fixed series of calls whose results are printed. Its six-item run is not replayed. The shorter case-insensitive session in `Demo` exercises the same operations.
- The printed messages are replaced by the returned status values. The message texts are not modelled.
- Floating-point prices and currency rounding are left out. Prices are exact integers in centavos.
- Names.Lower: folds only the ASCII letters 'A'..'Z'. Python's `str.lower()` also lowers non-ASCII letters, using Unicode case tables that are not modelled.
- `Item` is modelled as a value, not as a mutable object. `update_quantity` mutates the stored `Item` object; the model replaces the list element with an updated copy. No `Item` object ever leaves the store in the source, so aliasing cannot be observed. The model does not capture object identity.
