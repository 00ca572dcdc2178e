/**
 * A fixed call sequence against the store, showing that lookup ignores
 * case. Prices are in centavos (7.00 is 700).
 */
module Demo {
  import opened Names
  import opened Inventory

  /**
   * "Egg" is stored; adding "egg" is refused, updating "EGG" changes the
   * stored "Egg", and updating "Milk" finds nothing.
   */
  method CaseInsensitiveSession()
    returns (first: AddStatus, duplicate: AddStatus, update: UpdateStatus, missing: UpdateStatus,
             size: nat, name: string, total: int)
    ensures first == Added
    ensures duplicate == AlreadyExists
    ensures update == Updated(60, 45)
    ensures missing == NotFound
    ensures size == 1 && name == "Egg"
    ensures total == 31500
  {
    var egg := Item("Egg", 60, 700);
    var store := new InventoryManagement();
    first := store.AddItem("Egg", 60, 700);
    assert store.items == [egg];

    assert FindIndex([egg], "egg") == Some(0) by {
      assert SameName("Egg", "egg");
    }
    duplicate := store.AddItem("egg", 10, 100);
    assert store.items == [egg];

    assert FindIndex([egg], "EGG") == Some(0) by {
      assert SameName("Egg", "EGG");
    }
    update := store.UpdateQuantity("EGG", 45);
    assert store.items == [egg.(quantity := 45)];

    assert FindIndex([egg.(quantity := 45)], "Milk") == None by {
      assert |Lower("Egg")| != |Lower("Milk")|;
    }
    missing := store.UpdateQuantity("Milk", 5);
    assert store.items == [egg.(quantity := 45)];
    size := |store.items|;
    name := store.items[0].name;
    total := store.CalculateTotalInventoryValue();
  }
}
