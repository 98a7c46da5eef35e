/** src/inventory.py: the fridge inventory kept in `inventory.json`. */
module Inventory {

  import opened Optional
  import opened Text
  import opened StringOrder
  import opened Listing

  /** The inventory file. `file` is None while `inventory.json` does not
      exist, and otherwise holds the file's "items" list. */
  class Fridge {
    var file: Option<seq<string>>

    constructor(file: Option<seq<string>>)
      ensures this.file == file
    {
      this.file := file;
    }

    /** `load_inventory`: a missing file is created empty. */
    method LoadInventory() returns (items: seq<string>)
      modifies this
      ensures items == Loaded(old(file))
      ensures old(file).None? ==> file == Some([])
      ensures old(file).Some? ==> file == old(file)
    {
      if file.None? {
        SaveInventory([]);
        items := [];
      } else {
        items := Clean(file.value);
      }
    }

    /** `save_inventory`: the file holds the canonical form of `items`. */
    method SaveInventory(items: seq<string>)
      modifies this
      ensures file == Some(Clean(items))
    {
      file := Some(Clean(items));
    }

    /** `add_item`: the stored list gains the cleaned item, if it has text. */
    method AddItem(item: string) returns (items: seq<string>)
      modifies this
      ensures items == Clean(Loaded(old(file)) + [item])
      ensures file == Some(items)
      ensures Elems(items) == Elems(Loaded(old(file))) + (if HasText(item) then {CleanItem(item)} else {})
    {
      var current := LoadInventory();
      current := current + [item];
      SaveInventory(current);
      items := LoadInventory();
      CleanIdempotent(current);
      CleanOfClean(Loaded(old(file)));
      CleanAppend(Loaded(old(file)), item);
    }

    /** `remove_item`: the stored list loses the entry equal to the cleaned item. */
    method RemoveItem(item: string) returns (items: seq<string>)
      modifies this
      ensures items == Without(Loaded(old(file)), CleanItem(item))
      ensures file == Some(items)
      ensures Elems(items) == Elems(Loaded(old(file))) - {CleanItem(item)}
    {
      var current := LoadInventory();
      items := Without(current, CleanItem(item));
      SaveInventory(items);
      WithoutKeepsClean(current, CleanItem(item));
    }
  }
}
