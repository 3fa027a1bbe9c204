/** The chip editor of the shopping list: the listed items, the items added
    since the last save ("pending"), the input box and the saving flag. */
module ShoppingPage {
  import opened Wrappers
  import opened Http
  import opened Text
  import opened Chips
  import opened ShoppingList

  class ShoppingListPage {
    var ingredients: seq<string>
    var newIngredients: seq<string>
    var currentIngredient: string
    var saving: bool

    constructor()
      ensures ingredients == [] && newIngredients == [] && currentIngredient == "" && !saving
    {
      ingredients, newIngredients, currentIngredient, saving := [], [], "", false;
    }

    /** Every pending item is also listed. */
    ghost predicate PendingListed()
      reads this
    {
      forall i :: 0 <= i < |newIngredients| ==> newIngredients[i] in ingredients
    }

    /** Loads the stored list: the reply's `shopping_list`, or nothing when
        the field is absent; no token or a failed request changes nothing. */
    method FetchIngredients(token: Option<string>, reply: Reply<Option<seq<string>>>)
      modifies this
      ensures Signed(token) && reply.Success? && reply.body.Some? ==> ingredients == reply.body.value
      ensures Signed(token) && reply.Success? && reply.body.None? ==> ingredients == []
      ensures !Signed(token) || !reply.Success? ==> ingredients == old(ingredients)
      ensures newIngredients == old(newIngredients) && currentIngredient == old(currentIngredient)
      ensures saving == old(saving)
    {
      if !Signed(token) {
        return;
      }
      match reply
      case Success(body) =>
        ingredients := if body.Some? then body.value else [];
      case Failure =>
      case NetworkError =>
    }

    /** Add handler: an accepted input is appended, trimmed, to both the
        listed and the pending items, and the box is cleared. */
    method AddChip()
      modifies this
      ensures old(PendingListed()) ==> PendingListed()
      ensures if Accepts(old(ingredients), old(currentIngredient)) then
          ingredients == old(ingredients) + [Trim(old(currentIngredient))] &&
          newIngredients == old(newIngredients) + [Trim(old(currentIngredient))] &&
          currentIngredient == ""
        else
          ingredients == old(ingredients) && newIngredients == old(newIngredients) &&
          currentIngredient == old(currentIngredient)
      ensures saving == old(saving)
    {
      var t := Trim(currentIngredient);
      if t != [] && t !in ingredients {
        if PendingListed() {
          ghost var pending := newIngredients + [t];
          forall i | 0 <= i < |pending| ensures pending[i] in ingredients + [t] {
            if i < |newIngredients| {
              assert pending[i] == newIngredients[i];
            }
          }
        }
        ingredients := ingredients + [t];
        newIngredients := newIngredients + [t];
        currentIngredient := "";
      }
    }

    /** Remove handler: the chip at `index` leaves the list and every copy of
        its text leaves the pending items; a position outside the list
        changes nothing. */
    method RemoveChip(index: int)
      modifies this
      ensures old(PendingListed()) ==> PendingListed()
      ensures if 0 <= index < |old(ingredients)| then
          ingredients == old(ingredients)[..index] + old(ingredients)[index + 1..] &&
          newIngredients == Without(old(newIngredients), old(ingredients)[index])
        else
          ingredients == old(ingredients) && newIngredients == old(newIngredients)
      ensures currentIngredient == old(currentIngredient) && saving == old(saving)
    {
      RemoveAtDeletes(ingredients, index);
      if 0 <= index < |ingredients| {
        var removed := ingredients[index];
        var kept := Without(newIngredients, removed);
        if PendingListed() {
          ghost var rest := ingredients[..index] + ingredients[index + 1..];
          forall i | 0 <= i < |kept| ensures kept[i] in rest {
            var x := kept[i];
            assert x in newIngredients && x != removed;
            var k :| 0 <= k < |ingredients| && ingredients[k] == x;
            if k < index {
              assert rest[k] == x;
            } else {
              assert rest[k - 1] == x;
            }
          }
        }
        newIngredients := kept;
      }
      ingredients := RemoveAt(ingredients, index);
    }

    /** Save handler: with a token and pending items it sends the pending
        items, one per line, and a successful reply empties the pending list;
        the request body sent, if any, is returned. */
    method UpdateIngredients(token: Option<string>, reply: Reply<()>) returns (body: Option<string>)
      modifies this
      ensures old(PendingListed()) ==> PendingListed()
      ensures !Signed(token) || old(newIngredients) == [] ==>
        body.None? && newIngredients == old(newIngredients)
      ensures Signed(token) && old(newIngredients) != [] ==>
        body == Some(Join(old(newIngredients), NewLine)) &&
        newIngredients == if reply.Success? then [] else old(newIngredients)
      ensures ingredients == old(ingredients) && currentIngredient == old(currentIngredient)
      ensures !saving
    {
      saving := true;
      body := None;
      if Signed(token) && newIngredients != [] {
        body := Some(Join(newIngredients, NewLine));
        if reply.Success? {
          newIngredients := [];
        }
      }
      saving := false;
    }
  }

  /** What the server stores for a save body: the replace handler's parse. */
  function Stored(body: string): (items: seq<string>)
    ensures WellFormedList(items)
  {
    ParseList(body)
  }

  /** As written, a save sends only the pending items and the server replaces
      the whole list with them: an item fetched from the server and still
      listed on the page is gone from the stored list afterwards. */
  lemma PendingOnlySaveDropsListed()
    ensures var ingredients := ["Milk", "Eggs"];
      var pending := ["Eggs"];
      "Milk" in ingredients && "Milk" !in Stored(Join(pending, NewLine))
  {
    assert WellFormedItem("Eggs");
    ParseExport(["Eggs"]);
    assert Join(["Eggs"], NewLine) == ExportText(["Eggs"]);
  }

  /** The body the save should send: every listed item, one per line, as the
      text-area editor of the same page sends. */
  function FullSaveBody(ingredients: seq<string>): string {
    Join(ingredients, NewLine)
  }

  /** With the full body, the stored list is what the page shows, so every
      pending item is saved and no listed item is dropped. */
  lemma FullSaveKeepsEverything(ingredients: seq<string>, pending: seq<string>)
    requires WellFormedList(ingredients)
    requires forall x :: x in pending ==> x in ingredients
    ensures Stored(FullSaveBody(ingredients)) == ingredients
    ensures forall x :: x in pending ==> x in Stored(FullSaveBody(ingredients))
  {
    ParseExport(ingredients);
  }
}
