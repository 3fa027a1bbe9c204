/** The text-area editor of the shopping list: the items are shown one per
    line, an edit splits the text back into items, and a save sends the text. */
module ShoppingTextbox {
  import opened Wrappers
  import opened Http
  import opened Text
  import opened ShoppingList

  class ShoppingListTextboxPage {
    var ingredients: seq<string>
    var saving: bool

    constructor()
      ensures ingredients == [] && !saving
    {
      ingredients, saving := [], false;
    }

    /** What the text area shows: the items joined by line breaks. */
    function Text(): string
      reads this
    {
      Join(ingredients, NewLine)
    }

    /** Change handler: the items become the edited text's lines, and the
        text area then shows exactly the text typed. */
    method Edit(text: string)
      modifies this
      ensures ingredients == Split(text, NewLine)
      ensures Text() == text
      ensures saving == old(saving)
    {
      ingredients := Split(text, NewLine);
      JoinSplit(text, NewLine);
    }

    /** Loads the stored list: the reply's `shopping_list`, or nothing when
        the field is absent; no token or a failed request changes nothing. */
    method FetchIngredients(token: Option<string>, reply: Reply<Option<seq<string>>>)
      modifies this
      ensures Signed(token) && reply.Success? && reply.body.Some? ==> ingredients == reply.body.value
      ensures Signed(token) && reply.Success? && reply.body.None? ==> ingredients == []
      ensures !Signed(token) || !reply.Success? ==> ingredients == old(ingredients)
      ensures saving == old(saving)
    {
      if Signed(token) && reply.Success? {
        ingredients := if reply.body.Some? then reply.body.value else [];
      }
    }

    /** Save handler: with a token it sends the text area's text, even when
        it is empty; the request body sent, if any, is returned. The items
        are not changed whatever the reply. */
    method UpdateIngredients(token: Option<string>) returns (body: Option<string>)
      modifies this
      ensures Signed(token) ==> body == Some(Text())
      ensures !Signed(token) ==> body.None?
      ensures ingredients == old(ingredients)
      ensures !saving
    {
      saving := true;
      body := if Signed(token) then Some(Join(ingredients, NewLine)) else None;
      saving := false;
    }
  }

  /** Saving what an edit produced stores the same list as submitting the
      typed text itself: the split and join in between lose nothing. */
  lemma EditThenSaveStoresTyped(text: string)
    ensures ParseList(Join(Split(text, NewLine), NewLine)) == ParseList(text)
  {
    JoinSplit(text, NewLine);
  }
}
