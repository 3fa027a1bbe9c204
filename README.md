# Recipe generation and social media: a Dafny model

This project models the core of a recipe site that has a FastAPI backend and a Next.js front end. Users save recipes, publish them to a shared feed, like and bookmark posts, and keep a shopping list built from recipe ingredients.

The backend is modelled as handlers over an in-memory database, the class `Database.Db`:
- it holds one sequence per table, in insertion order;
- each user's shopping list is a sequence of item names;
- its invariant `Db.Valid` is the uniqueness constraints plus the one-post-per-recipe and non-negative-likes rules.

Each handler answers with an `Http.Outcome`: `Ok`, `Created`, `NoContent`, `Redirect`, `BadRequest`, `Forbidden`, `NotFound`, or `ServerError`. `ServerError` stands for an uncaught Python exception.

Each front-end page is a class whose fields are the page's React state. Each handler is a method. A reply from the server is a parameter of type `Http.Reply`: a success with a body, a failure, or a network error. Every method states its whole new state.

The modules:
- `Text`: `str.split`/`join` on one separator, and `strip`.
- `Query`: `.filter().first()` and `.filter().all()`.
- `Models`: the tables, their defaults and constraints.
- `ShoppingList`: the shopping-list router.
- `ShoppingApp`: the stand-alone shopping-list application with login and logout.
- `Recipes`: owner-scoped recipe CRUD.
- `Social`: likes, publishing, the feed and bookmarks.
- `Utils`: `truncateContent`.
- `Chips`: the shared chip-list editor.
- Page modules: `GenerateRecipe`, `ShoppingPage`, `ShoppingTextbox`, `UserProfile`, `UploadRecipe`, `Admin`.
- `Auth`: the `useAuth` hook.
- `ProtectedRoute`: the route guard.

## Model

| member | source | states |
|---|---|---|
| Text.JoinSplit | frontend/app/shoppinglist-page/page-textbox.tsx:94-95 | joining the lines of a text with '\n' gives the text back |
| Text.SplitJoin | backend/routers/shoppinglist.py:102 | splitting '\n'-joined pieces that contain no '\n' gives the pieces back |
| Text.JoinedPiecesArePrefix | frontend/app/utils/utils.ts:6 | the first n lines of a text, joined again, are a prefix of the text |
| Text.Trim | backend/routers/shoppinglist.py:72 | `strip()`: the result has no surrounding space and is no longer than the input |
| Text.TrimRemovesSurroundingSpace | backend/routers/shoppinglist.py:72 | `strip()`'s value: the result is a slice of the input, and everything it leaves out at either end is whitespace; with the trimmed ends this is exactly the input without its surrounding space |
| Text.TrimKeepsOut | backend/routers/shoppinglist.py:72 | stripping introduces no character: one absent from the input (a newline, say) is absent from the result |
| Text.TrimBlank | backend/routers/shoppinglist.py:72 | the stripped item is empty exactly when the input is all whitespace, which is when the list comprehension drops it |
| Query.Where | backend/routers/recipes.py:99 | `.filter_by(...).all()`: no more rows than the table, and every row returned matches |
| Query.First | backend/routers/recipes.py:94 | `.filter_by(...).first()`: the index found is the first row that matches; None exactly when no row matches |
| Query.WhereMembers | backend/routers/recipes.py:99 | `.filter_by(...).all()`: a value is in the result exactly when it is a row that matches |
| Models.NewUser | backend/models.py:19 | a user inserted without a role gets Role true, the end-user role, never the admin role |
| Models.NewRecipe | backend/models.py:35 | a recipe inserted without a visibility is private |
| Models.NewSocialMedia | backend/models.py:67 | a feed entry starts with 0 likes |
| Models.IngredientNames | backend/routers/shoppinglist.py:38 | a name is among a recipe's ingredient names iff some ingredient row of that recipe carries it |
| Models.RecipeIngredientNamesDistinct | backend/models.py:45 | under the (RecipeID, IngredientName) constraint, a recipe never lists a name twice |
| Models.EmailLookupFindsTheUser | backend/models.py:17 | with unique emails, the email lookup finds exactly that user's row |
| Database.Db.Valid | backend/models.py:16-66 | the tables' declared constraints (unique user ids, emails, recipe ids, SMIDs and recipe-ingredient pairs) plus the handlers' one-entry-per-recipe and non-negative-likes rules; Db.constructor establishes it and every handler keeps it |
| Database.Db.constructor | backend/init_db.py:4-6 | a fresh database has empty tables and no shopping lists, and satisfies Valid |
| ShoppingList.MissingMembers | backend/routers/shoppinglist.py:34-45 | the names added are exactly the recipe's names not already listed; none are added when all are present |
| ShoppingList.Missing | backend/routers/shoppinglist.py:37-44 | the loop's additions: at most one per recipe name, each a recipe name not already on the list |
| ShoppingList.Merge | backend/routers/shoppinglist.py:34-45 | a merge keeps the old list as a prefix, and afterwards every recipe name is listed; nothing else is listed |
| ShoppingList.MergeIdempotent | backend/routers/shoppinglist.py:37-45 | merging the same recipe a second time adds nothing |
| ShoppingList.MissingDistinct | backend/routers/shoppinglist.py:37-45 | distinct recipe names yield distinct added names |
| ShoppingList.MergeDistinct | backend/routers/shoppinglist.py:34-45 | a duplicate-free list stays duplicate-free after a merge with distinct names |
| ShoppingList.KeepStripped | backend/routers/shoppinglist.py:72 | stripping pieces and dropping blanks yields only non-blank, trimmed, single-line items and never more items than pieces; its value is fixed by KeepStrippedOne and KeepStrippedAppend |
| ShoppingList.KeepStrippedOne | backend/routers/shoppinglist.py:72 | one line gives its stripped text, or nothing when the stripped text is empty |
| ShoppingList.KeepStrippedAppend | backend/routers/shoppinglist.py:72 | the comprehension works line by line: the items of two runs of lines are the items of the first followed by those of the second, in order |
| ShoppingList.ParseList | backend/routers/shoppinglist.py:71-72 | split at '\n', strip, drop blanks: every item stored is well formed, and there are no more items than lines |
| ShoppingList.ExportText | backend/routers/shoppinglist.py:102 | `'\n'.join(names)`: a non-empty list whose items hold no '\n' splits back into exactly that list |
| ShoppingList.KeepStrippedWellFormed | backend/routers/shoppinglist.py:72 | items that are already well formed pass the strip-and-drop step unchanged |
| ShoppingList.ParseExport | backend/routers/shoppinglist.py:71-72 | a replace with the exported text reproduces a list of non-blank, trimmed, single-line names |
| ShoppingList.ParseExportParse | backend/routers/shoppinglist.py:71-72 | export followed by replace is the identity on every list a replace can store |
| ShoppingList.ParseThreeLines | backend/test_shopping_list.py:144-158 | "Milk\nEggs\nBread" yields exactly the three items Milk, Eggs, Bread |
| ShoppingList.NewItems | backend/routers/shoppinglist.py:38-44 | the loop over the recipe's ingredients collects exactly the names not already on the list, in recipe order |
| ShoppingList.AddToShoppingList | backend/routers/shoppinglist.py:25-47 | no session user: redirect to /login; unknown recipe: 404 "Recipe not found."; no user row: server error; each of these changes nothing. Otherwise the user's list becomes the merge, the other users' lists are unchanged, and the answer is a redirect to /shopping_list |
| ShoppingList.ViewShoppingListGet | backend/routers/shoppinglist.py:49-63 | redirect to /login without a session user, otherwise the user's list |
| ShoppingList.ViewShoppingListPost | backend/routers/shoppinglist.py:65-91 | no session user: redirect. Missing user row or form field: server error, no change. Otherwise the user's list becomes exactly the parsed text, and the other users' lists are unchanged |
| ShoppingList.SaveShoppingList | backend/routers/shoppinglist.py:93-106 | redirect to /login without a session user; 400 "Your shopping list is empty." for an empty list; otherwise exactly `'\n'.join` of the names (ExportText), which splits back to a list whose items hold no '\n' and parses back to a well-formed list |
| ShoppingApp.App.LoginPost | backend/shoppinglist.py:31-44 | a form without a password crashes with a 500 and leaves the session; with a user whose email matches and whose password passes the check, the session holds exactly user_id and the answer redirects to /recipes; otherwise (a missing email included) the session is untouched and the error page is shown |
| ShoppingApp.App.Logout | backend/shoppinglist.py:46-50 | afterwards user_id is not in the session, which is empty, and the answer redirects to /login |
| ShoppingApp.App.AddToShoppingList | backend/shoppinglist.py:67-94 | the same merge contract, against the application's own session |
| ShoppingApp.App.ViewShoppingListGet | backend/shoppinglist.py:96-111 | the same view contract, against the application's own session |
| ShoppingApp.App.ViewShoppingListPost | backend/shoppinglist.py:113-142 | the same replace contract, against the application's own session |
| ShoppingApp.App.SaveShoppingList | backend/shoppinglist.py:144-159 | the same export contract, against the application's own session: 302 without a user, 400 for an empty list, otherwise exactly ExportText of the list, with both round trips |
| ShoppingApp.LoginThenLogout | backend/shoppinglist.py:46-50 | after a login and a logout, the list view redirects to /login |
| Recipes.DeletedRecipeIsGone | backend/routers/recipes.py:124-128 | removing a row with unique ids leaves no row with that id, owned or not |
| Recipes.CreateRecipe | backend/routers/recipes.py:69-83 | one recipe is appended, owned by the caller, with the title, the content and Visibility true; the answer is 201 with only a message |
| Recipes.ReadRecipe | backend/routers/recipes.py:86-97 | the recipe is answered iff it exists and the caller owns it; otherwise 404 |
| Recipes.ReadAllRecipes | backend/routers/recipes.py:98-100 | exactly the caller's recipes, in table order |
| Recipes.UpdateRecipe | backend/routers/recipes.py:102-116 | a missing or foreign recipe gives 404 and no change; otherwise only that row's name and content change |
| Recipes.DeleteRecipe | backend/routers/recipes.py:118-130 | a missing or foreign recipe gives 404 and no change; a recipe that an ingredient, feed entry or bookmark row points at makes the commit fail (backend/models.py:38-41 have no delete cascade and the children's RecipeID is not nullable): 500 and no change; otherwise exactly that row is removed and the answer is 204 |
| Recipes.HasDependentsRows | backend/models.py:38-41 | the dependents test holds exactly when some ingredient, feed-entry or bookmark row carries the recipe's id |
| Recipes.DeleteThenRead | backend/routers/recipes.py:118-130 | after a successful delete, reading the recipe gives 404 |
| Social.LikeCountsOne | backend/routers/social_media.py:108-111 | a like raises that post's count by exactly one and leaves every other row unchanged |
| Social.Like | backend/routers/social_media.py:108-111 | the posts table after a like: same rows with the same SMID and RecipeID, no count lowered; an unknown SMID changes nothing |
| Social.Unlike | backend/routers/social_media.py:128-133 | the posts table after an unlike: same rows with the same SMID and RecipeID, no count raised, no non-negative count made negative; an unknown SMID changes nothing |
| Social.UnlikeUndoesLike | backend/routers/social_media.py:111-133 | like followed by unlike restores the table |
| Social.LikesStayNonNegative | backend/routers/social_media.py:131-146 | neither like nor unlike makes a count negative |
| Social.FreshPostLikedOnce | backend/test_social_media.py:169-182 | a freshly published post reads one like after one like |
| Social.LikePost | backend/routers/social_media.py:101-117 | unknown SMID: 404 "Post not found on social media", no change; otherwise the like, and only the posts table changes |
| Social.UnlikePost | backend/routers/social_media.py:121-146 | unknown SMID: 404; otherwise the floored unlike, answering "Post unliked successfully" or "Cannot unlike, likes count is already zero" |
| Social.PublishGivesOneEntry | backend/routers/social_media.py:55-59 | after a publish the recipe has exactly one entry, the one whose SMID is answered; one entry per recipe, distinct SMIDs and non-negative likes are kept |
| Social.Publish | backend/routers/social_media.py:55-59 | the posts table after a publish: the old rows stay as a prefix, the recipe then has an entry, and a row is appended exactly when it had none |
| Social.PublishIdempotent | backend/routers/social_media.py:53-59 | a second publish of the same recipe changes nothing and answers the same SMID |
| Social.AddPost | backend/routers/social_media.py:41-69 | missing recipe: 404; foreign recipe: 403; no change in either case. Otherwise Visibility becomes true, an entry is created only if none exists, and its SMID is answered |
| Social.FetchPosts | backend/routers/social_media.py:76-97 | one record per public recipe, in table order, carrying the recipe's fields, plus its entry's SMID and likes, or None and 0 |
| Social.AddBookmark | backend/routers/social_media.py:150-164 | a bookmark of the caller for the recipe is appended, with no existence check |
| Social.BookmarkedRecipes | backend/routers/social_media.py:170-181 | every recipe returned exists and some bookmark points at it; every bookmark whose recipe exists yields that recipe |
| Social.FetchBookmarks | backend/routers/social_media.py:168-186 | exactly the recipes the caller's own bookmarks point at, in bookmark order, skipping dangling bookmarks |
| Utils.TruncateContent | frontend/app/utils/utils.ts:1-7 | content of at most maxLines lines is returned unchanged; otherwise the result ends in "\n....." and what precedes that is a prefix of the content |
| Utils.TruncatedLines | frontend/app/utils/utils.ts:6 | for maxLines >= 1, a cut preview's lines are the content's first maxLines lines plus "....."; a preview never has more than maxLines + 1 lines |
| Utils.TruncateToNothing | frontend/app/utils/utils.ts:6 | with maxLines 0 the preview is "\n.....", which has two lines |
| Utils.TruncateIdempotent | frontend/app/utils/utils.ts:3-6 | truncating twice with the same bound equals truncating once |
| Chips.AddChip | frontend/app/generate-recipe/page.tsx:24-27 | the list grows by one exactly when the trimmed input is non-blank and not listed; then that trimmed text is appended and the box is cleared; otherwise list and box are unchanged |
| Chips.AddChipKeepsInvariant | frontend/app/generate-recipe/page.tsx:24 | a duplicate-free list of trimmed, non-blank chips stays so after an add |
| Chips.AddChipTwice | frontend/app/generate-recipe/page.tsx:24 | adding the same input twice in a row adds it once |
| Chips.RemoveAtDeletes | frontend/app/generate-recipe/page.tsx:34 | removing index i deletes exactly that element and keeps the rest in order; an out-of-range index changes nothing |
| Chips.RemoveAt | frontend/app/generate-recipe/page.tsx:34 | `prev.filter((_, i) => i !== index)`: one element fewer exactly when the index is in range |
| Chips.Without | frontend/app/shoppinglist-page/page.tsx:96 | the items kept are exactly those different from the removed text |
| GenerateRecipe.Tagged | frontend/app/generate-recipe/page.tsx:42-43 | one parameter per chip, under the given name, in list order |
| GenerateRecipe.TaggedAppend | frontend/app/generate-recipe/page.tsx:42-43 | the parameters of two lists in a row are the parameters of each, in a row |
| GenerateRecipe.GenerateRecipePage.AddIngredientChip | frontend/app/generate-recipe/page.tsx:18-28 | the add rule on the ingredient list and box; the other fields are unchanged and the list invariant is kept |
| GenerateRecipe.GenerateRecipePage.AddRestrictionChip | frontend/app/generate-recipe/page.tsx:18-28 | the add rule on the restriction list and box; the other fields are unchanged |
| GenerateRecipe.GenerateRecipePage.RemoveIngredientChip | frontend/app/generate-recipe/page.tsx:30-35 | index removal on the ingredient list only |
| GenerateRecipe.GenerateRecipePage.RemoveRestrictionChip | frontend/app/generate-recipe/page.tsx:30-35 | index removal on the restriction list only |
| GenerateRecipe.GenerateRecipePage.BuildParams | frontend/app/generate-recipe/page.tsx:39-43 | "question" once, then one "ingredients" entry per chip, then one "dietary_restrictions" entry per chip, in list order |
| ShoppingPage.ShoppingListPage.FetchIngredients | frontend/app/shoppinglist-page/page.tsx:32-53 | with a token and an ok reply, the items become shopping_list, or [] when the field is absent; otherwise nothing changes |
| ShoppingPage.ShoppingListPage.AddChip | frontend/app/shoppinglist-page/page.tsx:85-91 | an accepted trimmed input is appended to both the listed and the pending items and the box is cleared; otherwise nothing changes; no precondition, and when every pending item was listed it stays listed |
| ShoppingPage.ShoppingListPage.RemoveChip | frontend/app/shoppinglist-page/page.tsx:93-97 | the chip at the index leaves the list and every copy of its text leaves the pending items; no precondition, and when every pending item was listed it stays listed |
| ShoppingPage.ShoppingListPage.UpdateIngredients | frontend/app/shoppinglist-page/page.tsx:55-83 | no request without a token or with nothing pending; otherwise the body is the pending items joined by '\n', success empties the pending list, the listed items never change, and saving ends false; no precondition, and when every pending item was listed it stays listed |
| ShoppingPage.Stored | backend/routers/shoppinglist.py:71-82 | what the server stores for a save body is a well-formed list |
| ShoppingPage.PendingOnlySaveDropsListed | frontend/app/shoppinglist-page/page.tsx:61 | finding: saving only the pending item "Eggs" stores a list without the still-listed "Milk" |
| ShoppingPage.FullSaveKeepsEverything | frontend/app/shoppinglist-page/page-textbox.tsx:59 | with every listed item in the body, the stored list equals the page's list and contains every pending item |
| ShoppingTextbox.ShoppingListTextboxPage.Edit | frontend/app/shoppinglist-page/page-textbox.tsx:93-95 | the items become the typed text's lines, and the text area then shows exactly the typed text |
| ShoppingTextbox.ShoppingListTextboxPage.FetchIngredients | frontend/app/shoppinglist-page/page-textbox.tsx:30-51 | with a token and an ok reply, the items become shopping_list, or []; otherwise nothing changes |
| ShoppingTextbox.ShoppingListTextboxPage.UpdateIngredients | frontend/app/shoppinglist-page/page-textbox.tsx:53-80 | with a token the body is the text area's text, with no emptiness check; without one there is no request; the items never change and saving ends false |
| ShoppingTextbox.EditThenSaveStoresTyped | frontend/app/shoppinglist-page/page-textbox.tsx:59-95 | saving after an edit stores what submitting the typed text would store |
| UserProfile.Remaining | frontend/app/user-profile/page.tsx:111 | exactly the allergies whose id differs from the deleted one remain |
| UserProfile.RemainingUniqueNames | frontend/app/user-profile/page.tsx:111 | deleting an allergy keeps the names on the page unique |
| UserProfile.RemovedPendingAllergyStays | frontend/app/user-profile/page.tsx:112 | finding: deleting a Peanut allergy that was added on the page leaves "Peanut" pending with no such allergy listed |
| UserProfile.PendingAfterRemoveAsWritten | frontend/app/user-profile/page.tsx:112 | as written: a pending name is kept exactly when it differs from the deleted allergy's id |
| UserProfile.PendingAfterRemoveListed | frontend/app/user-profile/page.tsx:110-113 | filtering pending names by the names still listed keeps every pending name listed, and keeps every pending name whose allergy remains |
| UserProfile.UserProfilePage.FetchAllergies | frontend/app/user-profile/page.tsx:34-55 | with a token and an ok reply the allergies become the reply; otherwise nothing changes |
| UserProfile.UserProfilePage.AddAllergy | frontend/app/user-profile/page.tsx:84-96 | an accepted trimmed name is appended under "temp-" and the clock reading, becomes pending, and the box is cleared; otherwise nothing changes; names stay unique |
| UserProfile.UserProfilePage.RemoveAllergy | frontend/app/user-profile/page.tsx:98-120 | only with a token and an ok reply: the allergy with the id leaves the page and pending names equal to the id are dropped; names stay unique |
| UserProfile.UserProfilePage.UpdateAllergies | frontend/app/user-profile/page.tsx:57-82 | no request without a token or with nothing pending; otherwise one request per pending name in order, and the pending list is emptied unless a request is rejected; saving ends false |
| UploadRecipe.IdOf | frontend/app/upload-recipe/page.tsx:53 | `data.id`: present iff the response has an id field, and then equal to it |
| UploadRecipe.UploadRecipePage.KeyDown | frontend/app/upload-recipe/page.tsx:16-22 | Enter with a non-blank input appends the untrimmed input, duplicates allowed, clears the box and sends nothing; Enter with a blank input submits implicitly through the default button: the first chip is removed when there is one, and a complete form is uploaded; any other key changes nothing |
| UploadRecipe.UploadRecipePage.RemoveIngredient | frontend/app/upload-recipe/page.tsx:108-113 | index removal on the ingredient chips only; the button submits the form, so a complete form is then uploaded and an incomplete one sends nothing |
| UploadRecipe.UploadRecipePage.Payload | frontend/app/upload-recipe/page.tsx:27-33 | the create body copies title, content, ingredients and cuisine, and sets userGenerated false |
| UploadRecipe.UploadRecipePage.Upload | frontend/app/upload-recipe/page.tsx:24-63 | the create request always goes first; a publish request with the response's id follows iff the create succeeds; the sequence is SubmitRequests of the current payload |
| UploadRecipe.SubmitRequests | frontend/app/upload-recipe/page.tsx:35-54 | the requests a submit sends: the create with the payload first, then a publish with the response's id iff the create succeeds |
| UploadRecipe.PublishAfterCreateHasNoId | backend/routers/recipes.py:83 | finding: the create response has no id, so the publish request carries none |
| UploadRecipe.PublishAfterCreateNamesTheRecipe | frontend/app/upload-recipe/page.tsx:45-54 | with the id in the create response, the publish request names the new recipe, which the publish handler finds and the uploader owns |
| Admin.EditTarget | frontend/app/admin/page.tsx:39-41 | the edit path is "/edit-recipe-page/?id=" followed by exactly the id |
| Admin.EditTargetInjective | frontend/app/admin/page.tsx:39-41 | different recipes get different edit paths |
| Admin.WithoutRecipe | frontend/app/admin/page.tsx:54 | exactly the rows whose RecipeID differs from the id remain |
| Admin.WithoutRecipeRemovesOne | frontend/app/admin/page.tsx:54 | with unique ids, a listed id removes exactly its row and keeps the rest in order; an unlisted id changes nothing |
| Admin.AdminPage.FetchRecipes | frontend/app/admin/page.tsx:14-33 | an ok reply replaces the list; anything else leaves it |
| Admin.AdminPage.EditRecipe | frontend/app/admin/page.tsx:39-41 | navigates to the recipe's edit path |
| Admin.AdminPage.DeleteRecipe | frontend/app/admin/page.tsx:43-62 | an ok reply removes every row with the id and keeps the rest in order; a failed or rejected request leaves the list |
| Auth.AuthAfter | frontend/app/hooks/useAuth.tsx:21-29 | signed in with the answered role iff the verify reply is ok; signed out with no role after a failure or a rejection |
| Auth.AuthHook.constructor | frontend/app/hooks/useAuth.tsx:11 | the hook starts not authenticated with no role |
| Auth.AuthHook.OnVerify | frontend/app/hooks/useAuth.tsx:14-30 | the state becomes what the verify reply says |
| ProtectedRoute.Route | frontend/app/components/ProtectedRoute.tsx:16-28 | not signed in: navigate to "/"; signed in with a disallowed role: navigate to that role's page; otherwise no navigation; the page is shown iff signed in with a role |
| ProtectedRoute.RedirectAsWritten | frontend/app/components/ProtectedRoute.tsx:20 | as written: the admin page exactly for the number 0; every Boolean role, admin's false included, goes to the user page |
| ProtectedRoute.FailClosed | frontend/app/hooks/useAuth.tsx:24-28 | after a failed or rejected verify the guard navigates to "/" and never shows the page |
| ProtectedRoute.AllowedSeesPage | frontend/app/components/ProtectedRoute.tsx:16-28 | an allowed role sees the page, with no navigation |
| ProtectedRoute.AdminRedirectLoops | frontend/app/components/ProtectedRoute.tsx:20 | finding: an admin, role false, on a user page is sent to /user-page, whose guard sends them there again |
| ProtectedRoute.IntendedRedirectSettles | frontend/app/components/ProtectedRoute.tsx:20 | redirecting role false to the admin page, every Boolean-role user who is sent away lands on a page that lets them stay |

## Left out

- `generate_recipe` (backend/routers/recipes.py:34-67) and backend/routers/llm_recipes.py are not part of this model. They are calls to a language-model service and parsing of its output. The generator page is modelled only up to the query it sends.
- Authentication (backend/routers/auth.py) is not part of this model. The caller's UserID is a parameter that stands for `get_current_user`. `bcrypt.checkpw` is a function parameter of `LoginPost`. The verify reply's role is a parameter of the hook.
- `add_comment` and `fetch_comments` (backend/routers/social_media.py:190-227) are left out. They refer to a `smid` column that the Comment table does not have. The Comment datatype is kept.
- uuid4 ids (RecipeID, SMID, BookmarkID) are parameters. Freshness is a precondition where a clash would matter (`CreateRecipe`, `AddPost`). `Date.now()` in `AddAllergy` is the parameter `now`.
- SQLAlchemy, HTTP transport, JSON encoding, templates, `localStorage`, dialogs, `setTimeout` redirects, `router.push`/`router.back`, and the startup event are left out. Handlers return outcomes, and page methods return the requests they send.
- Recipes.DeleteRecipe: the 204 answer carries the body `{"message": "Recipe deleted successfully"}` in the source (backend/routers/recipes.py:130); `NoContent` has no body, so the model drops it.
- Comment rows are not modelled, since no modelled handler creates them. A comment pointing at a recipe would also make `Recipes.DeleteRecipe` fail, which the model does not show.
- UploadRecipe.UploadRecipePage.RemoveIngredient: the upload a remove button's click triggers is modelled with the payload after the removal. That assumes React has re-rendered before the submit handler reads the state.
- UploadRecipe.UploadRecipePage.KeyDown: the browser's `required` validation is modelled as non-empty title, cuisine and content; other constraint checks are not modelled.
- The shopping-list items' own ids are not modelled. A user's list is the sequence of its item names, in insertion order.
- Text.Trim: only the six ASCII whitespace characters (space, tab, newline, carriage return, vertical tab, form feed) count as space. Python's `strip()` also removes the ASCII separators \x1c-\x1f, which JavaScript's `trim()` keeps, and both remove further Unicode spaces; the model follows neither in those cases.
- Utils.TruncateContent: `maxLines` is a natural number. A negative or fractional argument would give JavaScript `slice` semantics that are not modelled.
- UserProfile.UserProfilePage.UpdateAllergies: the `Promise.all` requests are sent one after another. `rejected` says whether any of them was rejected.
- The saving flags are modelled only as false at the end of a save. The moment in which they read true is not observable in the model.
- Verification runs once per mount in `useAuth`. React's effect scheduling is not modelled; `OnVerify` is the one update.
- ProtectedRoute.Route: a verify reply without a `role` field, which JavaScript reads as `undefined`, is not modelled. The role is a number or a Boolean.
- The allergy endpoints that the profile page calls are not part of this model. Their replies are parameters.
- The page classes keep the code's behaviour where a finding applies. The corrected definitions sit beside them.

## Findings

| source | as written | input that shows it | evidently intended | confidence | as-written member | corrected member |
|---|---|---|---|---|---|---|
| frontend/app/components/ProtectedRoute.tsx:20 | a disallowed role goes to /admin-page only when it is the number 0, but the login endpoint answers the Boolean Role (backend/routers/auth.py:45) and the pages pass Boolean role lists (frontend/app/admin/page.tsx:65) | an admin (role false) opening /user-page, which allows [true] | send role false to the admin page | not executed; assumes the verify endpoint, which is not part of this model, answers the Boolean role as login does | ProtectedRoute.AdminRedirectLoops | ProtectedRoute.IntendedRedirectSettles |
| frontend/app/user-profile/page.tsx:112 | pending names are filtered against the deleted allergy's id, not its name | delete the allergy "temp-5"/"Peanut" added on the page but not saved, with the server confirming the delete: "Peanut" stays pending and the next save stores it | drop pending names whose allergy is no longer listed | not executed; needs the delete endpoint, which is not part of this model, to confirm | UserProfile.RemovedPendingAllergyStays | UserProfile.PendingAfterRemoveListed |
| frontend/app/upload-recipe/page.tsx:53 | the publish request reads `data.id` from the create response, which holds only a message (backend/routers/recipes.py:83), so `data.id` is undefined, `JSON.stringify` drops the `recipe_id` key, and the publish schema rejects the body for the missing required field (backend/routers/social_media.py:31-32) | any successful upload | the create response carries the new recipe's id | not executed | UploadRecipe.PublishAfterCreateHasNoId | UploadRecipe.PublishAfterCreateNamesTheRecipe |
| frontend/app/shoppinglist-page/page.tsx:61 | only the pending items are sent, and the server replaces the whole list with them (backend/routers/shoppinglist.py:75-82) | fetched list ["Milk"], add "Eggs", save: the stored list is ["Eggs"] | send every listed item, as the text-area editor does | not executed; assumes the request reaches the shopping-list router with the user in the session, while the page sends only a Bearer header (frontend/app/shoppinglist-page/page.tsx:63-67) and backend/main.py mounts no shopping-list router | ShoppingPage.PendingOnlySaveDropsListed | ShoppingPage.FullSaveKeepsEverything |
