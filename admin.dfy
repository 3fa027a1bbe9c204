/** The admin page: the recipe list it loads, the edit link, and the delete
    that drops a recipe from the list once the server confirms. */
module Admin {
  import opened Wrappers
  import opened Query
  import opened Http
  import opened Models

  const EditPrefix := "/edit-recipe-page/?id="

  /** Where the edit button navigates: the edit page with the id as query. */
  function EditTarget(id: string): (path: string)
    ensures |path| == |EditPrefix| + |id|
    ensures path[..|EditPrefix|] == EditPrefix && path[|EditPrefix|..] == id
  {
    EditPrefix + id
  }

  /** Edit targets of different recipes differ. */
  lemma EditTargetInjective(id1: string, id2: string)
    requires EditTarget(id1) == EditTarget(id2)
    ensures id1 == id2
  {
    assert id1 == EditTarget(id1)[|EditPrefix|..];
  }

  /** The list without the recipes whose id is `id`. */
  function WithoutRecipe(recipes: seq<Recipe>, id: string): (rest: seq<Recipe>)
    ensures forall r :: r in rest <==> r in recipes && r.RecipeID != id
  {
    var keep := (r: Recipe) => r.RecipeID != id;
    WhereMembers(recipes, keep);
    Where(recipes, keep)
  }

  /** With unique ids, dropping a listed id removes exactly that row and keeps
      the rest in order; dropping an unlisted id changes nothing. */
  lemma WithoutRecipeRemovesOne(recipes: seq<Recipe>, id: string)
    requires UniqueRecipeIds(recipes)
    ensures FindRecipe(recipes, id).None? ==> WithoutRecipe(recipes, id) == recipes
    ensures FindRecipe(recipes, id).Some? ==>
      var k := FindRecipe(recipes, id).value;
      WithoutRecipe(recipes, id) == recipes[..k] + recipes[k + 1..]
  {
    var p := (r: Recipe) => r.RecipeID != id;
    match FindRecipe(recipes, id)
    case None =>
      WhereAll(recipes, p);
    case Some(k) =>
      forall j | 0 <= j < |recipes| && j != k ensures p(recipes[j]) {
        if j > k {
          assert recipes[k].RecipeID != recipes[j].RecipeID;
        }
      }
      WhereDropsOne(recipes, p, k);
  }

  class AdminPage {
    var recipes: seq<Recipe>

    constructor()
      ensures recipes == []
    {
      recipes := [];
    }

    /** Load: a successful reply replaces the list; any other leaves it. */
    method FetchRecipes(reply: Reply<seq<Recipe>>)
      modifies this
      ensures reply.Success? ==> recipes == reply.body
      ensures !reply.Success? ==> recipes == old(recipes)
    {
      if reply.Success? {
        recipes := reply.body;
      }
    }

    /** Edit button: the page to navigate to. */
    method EditRecipe(id: string) returns (navigate: string)
      ensures navigate == EditTarget(id)
    {
      navigate := EditPrefix + id;
    }

    /** Delete button: once the server confirms, every row with the id leaves
        the list; a failed or rejected request leaves it as it was. */
    method DeleteRecipe(id: string, reply: Reply<()>)
      modifies this
      ensures reply.Success? ==> recipes == WithoutRecipe(old(recipes), id)
      ensures reply.Success? && UniqueRecipeIds(old(recipes)) && FindRecipe(old(recipes), id).Some? ==>
        var k := FindRecipe(old(recipes), id).value;
        recipes == old(recipes)[..k] + old(recipes)[k + 1..]
      ensures !reply.Success? ==> recipes == old(recipes)
    {
      if reply.Success? {
        if UniqueRecipeIds(recipes) {
          WithoutRecipeRemovesOne(recipes, id);
        }
        recipes := WithoutRecipe(recipes, id);
      }
    }
  }
}
