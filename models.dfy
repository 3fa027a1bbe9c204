/** The persisted entities of the backend, one datatype per table, with the
    column defaults and the uniqueness constraints the handlers rely on.
    Every column declared `nullable=False` is a plain (never absent) field. */
module Models {
  import opened Wrappers
  import opened Query

  /** `Role` is True for an end user and False for an administrator. */
  const UserRole: bool := true
  const AdminRole: bool := false

  datatype User = User(UserID: string, Email: string, Password: string, Role: bool, Name: string)

  datatype Recipe = Recipe(
    RecipeID: string, UserID: string, RecipeName: string, RecipeContent: string,
    Visibility: bool)   // False is private, True is public

  datatype Ingredient = Ingredient(IngredientID: string, RecipeID: string, IngredientName: string)

  datatype Allergy = Allergy(AllergyID: string, UserID: string, IngredientName: string)

  datatype SocialMedia = SocialMedia(SMID: string, RecipeID: string, Likes: int)

  datatype Comment = Comment(CommentID: string, RecipeID: string, UserID: string, CommentText: string)

  datatype Bookmark = Bookmark(BookmarkID: string, UserID: string, RecipeID: string)

  datatype ShoppingListItem = ShoppingListItem(ItemID: string, UserID: string, IngredientName: string)

  /** A user row inserted without a role is an end user, not an administrator. */
  function NewUser(id: string, email: string, password: string, name: string): (u: User)
    ensures u.Role == UserRole && u.Role != AdminRole
    ensures u.UserID == id && u.Email == email
  {
    User(id, email, password, true, name)
  }

  /** A recipe row inserted without a visibility is private. */
  function NewRecipe(id: string, owner: string, name: string, content: string): (r: Recipe)
    ensures !r.Visibility
    ensures r.RecipeID == id && r.UserID == owner
  {
    Recipe(id, owner, name, content, false)
  }

  /** A feed entry inserted without a like count starts at zero likes. */
  function NewSocialMedia(smid: string, recipeId: string): (p: SocialMedia)
    ensures p.Likes == 0
    ensures p.SMID == smid && p.RecipeID == recipeId
  {
    SocialMedia(smid, recipeId, 0)
  }

  // Table constraints

  predicate UniqueUserIds(users: seq<User>) {
    forall i, j :: 0 <= i < j < |users| ==> users[i].UserID != users[j].UserID
  }

  /** `Email` is declared unique. */
  predicate UniqueEmails(users: seq<User>) {
    forall i, j :: 0 <= i < j < |users| ==> users[i].Email != users[j].Email
  }

  predicate UniqueRecipeIds(recipes: seq<Recipe>) {
    forall i, j :: 0 <= i < j < |recipes| ==> recipes[i].RecipeID != recipes[j].RecipeID
  }

  /** The pair (RecipeID, IngredientName) is declared unique. */
  predicate UniqueRecipeIngredients(ingredients: seq<Ingredient>) {
    forall i, j :: 0 <= i < j < |ingredients| && ingredients[i].RecipeID == ingredients[j].RecipeID ==>
      ingredients[i].IngredientName != ingredients[j].IngredientName
  }

  predicate UniqueSmids(posts: seq<SocialMedia>) {
    forall i, j :: 0 <= i < j < |posts| ==> posts[i].SMID != posts[j].SMID
  }

  /** Not a declared constraint: the publishing handler keeps it. */
  predicate OnePostPerRecipe(posts: seq<SocialMedia>) {
    forall i, j :: 0 <= i < j < |posts| ==> posts[i].RecipeID != posts[j].RecipeID
  }

  predicate LikesNonNegative(posts: seq<SocialMedia>) {
    forall i :: 0 <= i < |posts| ==> posts[i].Likes >= 0
  }

  // The lookups the handlers make (`.filter(...).first()`)

  function FindUser(users: seq<User>, userId: string): Option<nat> {
    First(users, (u: User) => u.UserID == userId)
  }

  function FindUserByEmail(users: seq<User>, email: string): Option<nat> {
    First(users, (u: User) => u.Email == email)
  }

  function FindRecipe(recipes: seq<Recipe>, recipeId: string): Option<nat> {
    First(recipes, (r: Recipe) => r.RecipeID == recipeId)
  }

  /** The recipe with this id, provided the caller owns it. */
  function FindOwnedRecipe(recipes: seq<Recipe>, owner: string, recipeId: string): Option<nat> {
    First(recipes, (r: Recipe) => r.RecipeID == recipeId && r.UserID == owner)
  }

  function FindPost(posts: seq<SocialMedia>, smid: string): Option<nat> {
    First(posts, (p: SocialMedia) => p.SMID == smid)
  }

  function FindPostOfRecipe(posts: seq<SocialMedia>, recipeId: string): Option<nat> {
    First(posts, (p: SocialMedia) => p.RecipeID == recipeId)
  }

  /** `recipe.ingredients`: the names of a recipe's ingredient rows, in table order. */
  function IngredientNames(ingredients: seq<Ingredient>, recipeId: string): (names: seq<string>)
    ensures forall n :: n in names <==>
      exists k :: 0 <= k < |ingredients| && ingredients[k].RecipeID == recipeId && ingredients[k].IngredientName == n
  {
    if ingredients == [] then []
    else
      var last := ingredients[|ingredients| - 1];
      IngredientNames(ingredients[..|ingredients| - 1], recipeId)
        + (if last.RecipeID == recipeId then [last.IngredientName] else [])
  }

  /** Because of the (RecipeID, IngredientName) constraint a recipe never lists a name twice. */
  lemma {:induction false} RecipeIngredientNamesDistinct(ingredients: seq<Ingredient>, recipeId: string)
    requires UniqueRecipeIngredients(ingredients)
    ensures Distinct(IngredientNames(ingredients, recipeId))
  {
    if ingredients != [] {
      var m := |ingredients| - 1;
      var init := ingredients[..m];
      assert UniqueRecipeIngredients(init);
      RecipeIngredientNamesDistinct(init, recipeId);
      var last := ingredients[m];
      if last.RecipeID == recipeId {
        forall k | 0 <= k < |init| && init[k].RecipeID == recipeId
          ensures init[k].IngredientName != last.IngredientName
        {
          assert init[k] == ingredients[k];
        }
        assert last.IngredientName !in IngredientNames(init, recipeId);
      }
    }
  }

  /** Because `Email` is unique, the login lookup finds the one user with that email. */
  lemma EmailLookupFindsTheUser(users: seq<User>, k: nat)
    requires UniqueEmails(users)
    requires k < |users|
    ensures FindUserByEmail(users, users[k].Email) == Some(k)
  {
    var p := (u: User) => u.Email == users[k].Email;
    var r := First(users, p);
    assert p(users[k]);
    assert r.Some?;
  }
}
