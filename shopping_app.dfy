/** The stand-alone server-rendered shopping-list application: the same four
    shopping-list handlers as the router, run against the application's own
    session, plus the login and logout handlers that write that session. */
module ShoppingApp {
  import opened Wrappers
  import opened Http
  import opened Models
  import opened Database
  import opened Text
  import ShoppingList

  const RecipesPath := "/recipes"
  const InvalidLogin := "Invalid email or password."

  class App {
    /** `request.session` of the current browser. */
    var session: Session
    const db: Db

    constructor (db: Db)
      ensures this.db == db && session == map[]
    {
      this.db := db;
      session := map[];
    }

    /** POST /login, with the submitted `email` and `password` fields, each
        None when absent. `checkpw(password, hash)` stands for bcrypt's
        password check. A missing password crashes on `.encode` before any
        lookup; a missing email matches no user, since Email is never NULL.
        The answer `Ok(InvalidLogin)` is the login page shown again with that error. */
    method LoginPost(email: Option<string>, password: Option<string>, checkpw: (string, string) -> bool)
      returns (o: Outcome<string>)
      modifies this
      ensures if password.None? then
          session == old(session) && o == ServerError
        else if email.Some? && FindUserByEmail(db.users, email.value).Some? &&
                checkpw(password.value, db.users[FindUserByEmail(db.users, email.value).value].Password) then
          session == map[UserIdKey := db.users[FindUserByEmail(db.users, email.value).value].UserID] &&
          o == Redirect(RecipesPath)
        else
          session == old(session) && o == Ok(InvalidLogin)
    {
      if password.None? {
        return ServerError;
      }
      if email.None? {
        return Ok(InvalidLogin);
      }
      var k := FindUserByEmail(db.users, email.value);
      if k.Some? && checkpw(password.value, db.users[k.value].Password) {
        session := map[];
        session := session[UserIdKey := db.users[k.value].UserID];
        return Redirect(RecipesPath);
      }
      return Ok(InvalidLogin);
    }

    /** GET /logout */
    method Logout() returns (o: Outcome<string>)
      modifies this
      ensures UserIdKey !in session && session == map[]
      ensures o == Redirect(LoginPath)
    {
      session := map k | k in session && k != UserIdKey :: session[k];
      session := map[];
      return Redirect(LoginPath);
    }

    /** GET /add_to_shopping_list/{recipe_id} */
    method AddToShoppingList(recipeId: string) returns (o: Outcome<string>)
      requires db.Valid()
      modifies db
      ensures db.Valid()
      ensures db.users == old(db.users) && db.recipes == old(db.recipes) && db.ingredients == old(db.ingredients)
      ensures db.posts == old(db.posts) && db.bookmarks == old(db.bookmarks)
      ensures if UserIdKey !in session then
          o == Redirect(LoginPath) && db.shopping == old(db.shopping)
        else if FindRecipe(db.recipes, recipeId).None? then
          o == NotFound(ShoppingList.RecipeNotFound) && db.shopping == old(db.shopping)
        else if FindUser(db.users, session[UserIdKey]).None? then
          o == ServerError && db.shopping == old(db.shopping)
        else
          var userId := session[UserIdKey];
          o == Redirect(ShoppingList.ShoppingListPath) &&
          db.shopping == old(db.shopping)[userId := ShoppingList.Merge(old(db.ShoppingListOf(userId)), IngredientNames(db.ingredients, recipeId))]
    {
      o := ShoppingList.AddToShoppingList(db, session, recipeId);
    }

    /** GET /shopping_list */
    method ViewShoppingListGet() returns (o: Outcome<seq<string>>)
      ensures UserIdKey !in session ==> o == Redirect(LoginPath)
      ensures UserIdKey in session && FindUser(db.users, session[UserIdKey]).None? ==> o == ServerError
      ensures UserIdKey in session && FindUser(db.users, session[UserIdKey]).Some? ==>
        o == Ok(db.ShoppingListOf(session[UserIdKey]))
    {
      o := ShoppingList.ViewShoppingListGet(db, session);
    }

    /** POST /shopping_list */
    method ViewShoppingListPost(form: Option<string>) returns (o: Outcome<seq<string>>)
      requires db.Valid()
      modifies db
      ensures db.Valid()
      ensures db.users == old(db.users) && db.recipes == old(db.recipes) && db.ingredients == old(db.ingredients)
      ensures db.posts == old(db.posts) && db.bookmarks == old(db.bookmarks)
      ensures if UserIdKey !in session then
          o == Redirect(LoginPath) && db.shopping == old(db.shopping)
        else if FindUser(db.users, session[UserIdKey]).None? || form.None? then
          o == ServerError && db.shopping == old(db.shopping)
        else
          o == Ok(ShoppingList.ParseList(form.value)) &&
          db.shopping == old(db.shopping)[session[UserIdKey] := ShoppingList.ParseList(form.value)]
    {
      o := ShoppingList.ViewShoppingListPost(db, session, form);
    }

    /** GET /save_shopping_list */
    method SaveShoppingList() returns (o: Outcome<string>)
      ensures UserIdKey !in session ==> o == Redirect(LoginPath)
      ensures UserIdKey in session && db.ShoppingListOf(session[UserIdKey]) == [] ==>
        o == BadRequest(ShoppingList.EmptyListMessage)
      ensures UserIdKey in session && db.ShoppingListOf(session[UserIdKey]) != [] ==>
        o == Ok(ShoppingList.ExportText(db.ShoppingListOf(session[UserIdKey])))
      ensures (UserIdKey in session && o.Ok? &&
               forall i :: 0 <= i < |db.ShoppingListOf(session[UserIdKey])| ==> NewLine !in db.ShoppingListOf(session[UserIdKey])[i]) ==>
        Split(o.value, NewLine) == db.ShoppingListOf(session[UserIdKey])
      ensures (UserIdKey in session && o.Ok? && ShoppingList.WellFormedList(db.ShoppingListOf(session[UserIdKey]))) ==>
        ShoppingList.ParseList(o.value) == db.ShoppingListOf(session[UserIdKey])
    {
      o := ShoppingList.SaveShoppingList(db, session);
    }
  }

  /** After logging in and out, handlers see no user again. */
  method LoginThenLogout(app: App, email: Option<string>, password: Option<string>, checkpw: (string, string) -> bool)
    returns (o: Outcome<seq<string>>)
    modifies app
    ensures o == Redirect(LoginPath)
  {
    var _ := app.LoginPost(email, password, checkpw);
    var _ := app.Logout();
    o := app.ViewShoppingListGet();
  }
}
