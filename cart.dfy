/** src/cart.py: the shopping cart kept in `shopping_cart.json`. */
module Cart {

  import opened Optional
  import opened Text
  import opened StringOrder
  import opened Listing

  /** The cart file. `file` is None while `shopping_cart.json` does not
      exist, and otherwise holds the file's "items" list. */
  class ShoppingCart {
    var file: Option<seq<string>>

    constructor(file: Option<seq<string>>)
      ensures this.file == file
    {
      this.file := file;
    }

    /** `load_cart`: a missing file is created empty. */
    method LoadCart() returns (items: seq<string>)
      modifies this
      ensures items == Loaded(old(file))
      ensures old(file).None? ==> file == Some([])
      ensures old(file).Some? ==> file == old(file)
    {
      if file.None? {
        SaveCart([]);
        items := [];
      } else {
        items := Clean(file.value);
      }
    }

    /** `save_cart`: the file holds the canonical form of `items`. */
    method SaveCart(items: seq<string>)
      modifies this
      ensures file == Some(Clean(items))
    {
      file := Some(Clean(items));
    }

    /** `add_to_cart`: the stored list gains the cleaned item, if it has text. */
    method AddToCart(item: string) returns (items: seq<string>)
      modifies this
      ensures items == Clean(Loaded(old(file)) + [item])
      ensures file == Some(items)
      ensures Elems(items) == Elems(Loaded(old(file))) + (if HasText(item) then {CleanItem(item)} else {})
    {
      var current := LoadCart();
      current := current + [item];
      SaveCart(current);
      items := LoadCart();
      CleanIdempotent(current);
      CleanOfClean(Loaded(old(file)));
      CleanAppend(Loaded(old(file)), item);
    }

    /** `remove_from_cart`: the stored list loses the entry equal to the cleaned item. */
    method RemoveFromCart(item: string) returns (items: seq<string>)
      modifies this
      ensures items == Without(Loaded(old(file)), CleanItem(item))
      ensures file == Some(items)
      ensures Elems(items) == Elems(Loaded(old(file))) - {CleanItem(item)}
    {
      var current := LoadCart();
      items := Without(current, CleanItem(item));
      SaveCart(items);
      WithoutKeepsClean(current, CleanItem(item));
    }
  }
}
