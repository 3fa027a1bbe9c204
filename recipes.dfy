/** Owner-scoped recipe handlers. Every read, update and delete looks the
    recipe up by id AND by the caller's UserID, so another user's recipe is
    reported as missing. The caller is the user the bearer token names. */
module Recipes {
  import opened Wrappers
  import opened Query
  import opened Http
  import opened Models
  import opened Database

  const RecipeNotFound := "Recipe not found"
  const CreatedMessage := "Recipe created successfully."

  /** The JSON body of a successful create: a message and nothing else. */
  const CreatedBody: map<string, string> := map["message" := CreatedMessage]

  predicate OwnedBy(recipe: Recipe, caller: string) {
    recipe.UserID == caller
  }

  /** Some ingredient, feed entry or bookmark row carries the recipe's id.
      These relationships have no delete cascade and their `RecipeID`
      columns are not nullable, so deleting such a recipe makes the commit
      fail: the flush would set those columns to NULL. */
  predicate HasDependents(db: Db, recipeId: string)
    reads db`ingredients, db`posts, db`bookmarks
  {
    First(db.ingredients, (i: Ingredient) => i.RecipeID == recipeId).Some? ||
    First(db.posts, (p: SocialMedia) => p.RecipeID == recipeId).Some? ||
    First(db.bookmarks, (b: Bookmark) => b.RecipeID == recipeId).Some?
  }

  /** The dependents test finds exactly the rows that point at the recipe. */
  lemma HasDependentsRows(db: Db, recipeId: string)
    ensures HasDependents(db, recipeId) <==>
      (exists k :: 0 <= k < |db.ingredients| && db.ingredients[k].RecipeID == recipeId) ||
      (exists k :: 0 <= k < |db.posts| && db.posts[k].RecipeID == recipeId) ||
      (exists k :: 0 <= k < |db.bookmarks| && db.bookmarks[k].RecipeID == recipeId)
  {
  }

  /** Deleting a recipe row leaves no row with its id, since ids are unique. */
  lemma DeletedRecipeIsGone(recipes: seq<Recipe>, k: nat, caller: string)
    requires UniqueRecipeIds(recipes)
    requires k < |recipes|
    ensures UniqueRecipeIds(recipes[..k] + recipes[k + 1..])
    ensures FindOwnedRecipe(recipes[..k] + recipes[k + 1..], caller, recipes[k].RecipeID).None?
    ensures FindRecipe(recipes[..k] + recipes[k + 1..], recipes[k].RecipeID).None?
  {
    var rest := recipes[..k] + recipes[k + 1..];
    forall j | 0 <= j < |rest| ensures rest[j].RecipeID != recipes[k].RecipeID {
      if j < k {
        assert rest[j] == recipes[j];
      } else {
        assert rest[j] == recipes[j + 1];
      }
    }
    forall i, j | 0 <= i < j < |rest| ensures rest[i].RecipeID != rest[j].RecipeID {
      var i' := if i < k then i else i + 1;
      var j' := if j < k then j else j + 1;
      assert rest[i] == recipes[i'] && rest[j] == recipes[j'];
    }
  }

  /** POST /recipes. `newId` is the uuid4 the row gets. */
  method CreateRecipe(db: Db, caller: string, title: string, content: string, newId: string)
    returns (o: Outcome<map<string, string>>)
    requires db.Valid()
    requires FindRecipe(db.recipes, newId).None?
    modifies db
    ensures db.Valid()
    ensures db.recipes == old(db.recipes) + [Recipe(newId, caller, title, content, true)]
    ensures db.users == old(db.users) && db.ingredients == old(db.ingredients) && db.posts == old(db.posts)
    ensures db.bookmarks == old(db.bookmarks) && db.shopping == old(db.shopping)
    ensures o == Created(CreatedBody)
  {
    db.recipes := db.recipes + [Recipe(newId, caller, title, content, true)];
    return Created(CreatedBody);
  }

  /** GET /recipes/{recipe_id} */
  method ReadRecipe(db: Db, caller: string, recipeId: string) returns (o: Outcome<Recipe>)
    ensures o.Ok? || o == NotFound(RecipeNotFound)
    ensures o.Ok? <==> exists k :: 0 <= k < |db.recipes| && db.recipes[k].RecipeID == recipeId && OwnedBy(db.recipes[k], caller)
    ensures o.Ok? ==> o.value in db.recipes && o.value.RecipeID == recipeId && OwnedBy(o.value, caller)
  {
    var k := FindOwnedRecipe(db.recipes, caller, recipeId);
    if k.None? {
      return NotFound(RecipeNotFound);
    }
    return Ok(db.recipes[k.value]);
  }

  /** GET /recipesall: exactly the caller's recipes, in table order. */
  method ReadAllRecipes(db: Db, caller: string) returns (o: Outcome<seq<Recipe>>)
    ensures o.Ok?
    ensures forall r :: r in o.value <==> r in db.recipes && OwnedBy(r, caller)
    ensures o.value == Where(db.recipes, (r: Recipe) => OwnedBy(r, caller))
  {
    WhereMembers(db.recipes, (r: Recipe) => OwnedBy(r, caller));
    return Ok(Where(db.recipes, (r: Recipe) => OwnedBy(r, caller)));
  }

  /** PUT /recipes/{recipe_id}: only the name and the content change. */
  method UpdateRecipe(db: Db, caller: string, recipeId: string, title: string, content: string)
    returns (o: Outcome<Recipe>)
    requires db.Valid()
    modifies db
    ensures db.Valid()
    ensures db.users == old(db.users) && db.ingredients == old(db.ingredients) && db.posts == old(db.posts)
    ensures db.bookmarks == old(db.bookmarks) && db.shopping == old(db.shopping)
    ensures FindOwnedRecipe(old(db.recipes), caller, recipeId).None? ==>
      o == NotFound(RecipeNotFound) && db.recipes == old(db.recipes)
    ensures FindOwnedRecipe(old(db.recipes), caller, recipeId).Some? ==>
      var k := FindOwnedRecipe(old(db.recipes), caller, recipeId).value;
      db.recipes == old(db.recipes)[k := old(db.recipes)[k].(RecipeName := title, RecipeContent := content)] &&
      o == Ok(db.recipes[k])
  {
    var k := FindOwnedRecipe(db.recipes, caller, recipeId);
    if k.None? {
      return NotFound(RecipeNotFound);
    }
    var updated := db.recipes[k.value].(RecipeName := title, RecipeContent := content);
    db.recipes := db.recipes[k.value := updated];
    return Ok(updated);
  }

  /** DELETE /recipes/{recipe_id}: removes exactly the caller's recipe with
      that id when no other row points at it; otherwise the commit fails with
      an uncaught integrity error and nothing is deleted. */
  method DeleteRecipe(db: Db, caller: string, recipeId: string) returns (o: Outcome<map<string, string>>)
    requires db.Valid()
    modifies db
    ensures db.Valid()
    ensures db.users == old(db.users) && db.ingredients == old(db.ingredients) && db.posts == old(db.posts)
    ensures db.bookmarks == old(db.bookmarks) && db.shopping == old(db.shopping)
    ensures if FindOwnedRecipe(old(db.recipes), caller, recipeId).None? then
        o == NotFound(RecipeNotFound) && db.recipes == old(db.recipes)
      else if HasDependents(db, recipeId) then
        o == ServerError && db.recipes == old(db.recipes)
      else
        var k := FindOwnedRecipe(old(db.recipes), caller, recipeId).value;
        db.recipes == old(db.recipes)[..k] + old(db.recipes)[k + 1..] &&
        FindRecipe(db.recipes, recipeId).None? &&
        o == NoContent
  {
    var k := FindOwnedRecipe(db.recipes, caller, recipeId);
    if k.None? {
      return NotFound(RecipeNotFound);
    }
    if HasDependents(db, recipeId) {
      return ServerError;
    }
    DeletedRecipeIsGone(db.recipes, k.value, caller);
    db.recipes := db.recipes[..k.value] + db.recipes[k.value + 1..];
    return NoContent;
  }

  /** A delete that succeeds is followed by a read that finds nothing. */
  method DeleteThenRead(db: Db, caller: string, recipeId: string) returns (deleted: Outcome<map<string, string>>, read: Outcome<Recipe>)
    requires db.Valid()
    modifies db
    ensures deleted == NoContent ==> read == NotFound(RecipeNotFound)
  {
    deleted := DeleteRecipe(db, caller, recipeId);
    read := ReadRecipe(db, caller, recipeId);
  }
}
