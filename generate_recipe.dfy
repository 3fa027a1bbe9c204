/** The recipe generator page: a question, two chip lists (ingredients and
    dietary restrictions) with their input boxes, and the query string sent
    to the generator. */
module GenerateRecipe {
  import opened Query
  import opened Chips

  /** The query parameters for `values`, each under the name `key`, in list order. */
  function Tagged(key: string, values: seq<string>): (params: seq<(string, string)>)
    ensures |params| == |values|
    ensures forall i :: 0 <= i < |values| ==> params[i] == (key, values[i])
  {
    if values == [] then [] else Tagged(key, values[..|values| - 1]) + [(key, values[|values| - 1])]
  }

  /** Parameters of two tagged lists split back into the two lists. */
  lemma {:induction false} TaggedAppend(key: string, a: seq<string>, b: seq<string>)
    ensures Tagged(key, a + b) == Tagged(key, a) + Tagged(key, b)
    decreases |b|
  {
    if b == [] {
      assert a + b == a;
    } else {
      TaggedAppend(key, a, b[..|b| - 1]);
      assert (a + b)[..|a + b| - 1] == a + b[..|b| - 1];
    }
  }

  class GenerateRecipePage {
    var question: string
    var ingredients: seq<string>
    var restrictions: seq<string>
    var currentIngredient: string
    var currentRestriction: string

    /** The page's state when it mounts: everything empty. */
    constructor()
      ensures question == "" && ingredients == [] && restrictions == []
      ensures currentIngredient == "" && currentRestriction == ""
    {
      question := "";
      ingredients := [];
      restrictions := [];
      currentIngredient := "";
      currentRestriction := "";
    }

    /** Both chip lists hold distinct, trimmed, non-blank chips. */
    ghost predicate Valid()
      reads this
    {
      Distinct(ingredients) && Clean(ingredients) && Distinct(restrictions) && Clean(restrictions)
    }

    /** Add handler for the ingredient box. */
    method AddIngredientChip()
      requires Valid()
      modifies this
      ensures Valid()
      ensures ingredients == AddChip(old(ingredients), old(currentIngredient)).values
      ensures currentIngredient == AddChip(old(ingredients), old(currentIngredient)).current
      ensures question == old(question) && restrictions == old(restrictions)
      ensures currentRestriction == old(currentRestriction)
    {
      AddChipKeepsInvariant(ingredients, currentIngredient);
      var e := AddChip(ingredients, currentIngredient);
      ingredients, currentIngredient := e.values, e.current;
    }

    /** Add handler for the dietary-restriction box. */
    method AddRestrictionChip()
      requires Valid()
      modifies this
      ensures Valid()
      ensures restrictions == AddChip(old(restrictions), old(currentRestriction)).values
      ensures currentRestriction == AddChip(old(restrictions), old(currentRestriction)).current
      ensures question == old(question) && ingredients == old(ingredients)
      ensures currentIngredient == old(currentIngredient)
    {
      AddChipKeepsInvariant(restrictions, currentRestriction);
      var e := AddChip(restrictions, currentRestriction);
      restrictions, currentRestriction := e.values, e.current;
    }

    /** Remove handler for the ingredient chip at `index`. */
    method RemoveIngredientChip(index: int)
      requires Valid()
      modifies this
      ensures Valid()
      ensures 0 <= index < |old(ingredients)| ==> ingredients == old(ingredients)[..index] + old(ingredients)[index + 1..]
      ensures !(0 <= index < |old(ingredients)|) ==> ingredients == old(ingredients)
      ensures question == old(question) && restrictions == old(restrictions)
      ensures currentIngredient == old(currentIngredient) && currentRestriction == old(currentRestriction)
    {
      RemoveAtDeletes(ingredients, index);
      ingredients := RemoveAt(ingredients, index);
    }

    /** Remove handler for the dietary-restriction chip at `index`. */
    method RemoveRestrictionChip(index: int)
      requires Valid()
      modifies this
      ensures Valid()
      ensures 0 <= index < |old(restrictions)| ==> restrictions == old(restrictions)[..index] + old(restrictions)[index + 1..]
      ensures !(0 <= index < |old(restrictions)|) ==> restrictions == old(restrictions)
      ensures question == old(question) && ingredients == old(ingredients)
      ensures currentIngredient == old(currentIngredient) && currentRestriction == old(currentRestriction)
    {
      RemoveAtDeletes(restrictions, index);
      restrictions := RemoveAt(restrictions, index);
    }

    /** The generator's query parameters: the question once, then one
        "ingredients" entry per ingredient chip, then one
        "dietary_restrictions" entry per restriction chip, each in list order. */
    method BuildParams() returns (params: seq<(string, string)>)
      ensures params == [("question", question)] + Tagged("ingredients", ingredients)
        + Tagged("dietary_restrictions", restrictions)
      ensures |params| == 1 + |ingredients| + |restrictions|
    {
      params := [("question", question)];
      var i := 0;
      while i < |ingredients|
        invariant 0 <= i <= |ingredients|
        invariant params == [("question", question)] + Tagged("ingredients", ingredients[..i])
      {
        assert ingredients[..i + 1][..i] == ingredients[..i];
        params := params + [("ingredients", ingredients[i])];
        i := i + 1;
      }
      assert ingredients[..i] == ingredients;
      var j := 0;
      while j < |restrictions|
        invariant 0 <= j <= |restrictions|
        invariant params == [("question", question)] + Tagged("ingredients", ingredients)
          + Tagged("dietary_restrictions", restrictions[..j])
      {
        assert restrictions[..j + 1][..j] == restrictions[..j];
        params := params + [("dietary_restrictions", restrictions[j])];
        j := j + 1;
      }
      assert restrictions[..j] == restrictions;
    }
  }
}
