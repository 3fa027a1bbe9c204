/** The backend's database, held in memory: one sequence per table, in
    insertion order, and each user's shopping list as the sequence of its
    item names. */
module Database {
  import opened Models

  class Db {
    var users: seq<User>
    var recipes: seq<Recipe>
    var ingredients: seq<Ingredient>
    var posts: seq<SocialMedia>
    var bookmarks: seq<Bookmark>
    /** The `shopping_list_items` table grouped by `UserID`. */
    var shopping: map<string, seq<string>>

    /** The declared constraints, and the ones the handlers keep. */
    ghost predicate Valid()
      reads this`users, this`recipes, this`ingredients, this`posts
    {
      UniqueUserIds(users) && UniqueEmails(users) && UniqueRecipeIds(recipes) &&
      UniqueRecipeIngredients(ingredients) &&
      UniqueSmids(posts) && OnePostPerRecipe(posts) && LikesNonNegative(posts)
    }

    /** `filter_by(UserID=...)` on the shopping-list items: the user's item names. */
    function ShoppingListOf(userId: string): seq<string>
      reads this`shopping
    {
      if userId in shopping then shopping[userId] else []
    }

    constructor ()
      ensures Valid()
      ensures users == [] && recipes == [] && ingredients == [] && posts == [] && bookmarks == []
      ensures shopping == map[]
    {
      users, recipes, ingredients, posts, bookmarks := [], [], [], [], [];
      shopping := map[];
    }
  }
}
