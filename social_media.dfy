/** The social feed: like counters with a floor at zero, publishing a recipe
    (owner check, one feed entry per recipe), the feed of public recipes, and
    per-user bookmarks. The caller is the user the bearer token names. */
module Social {
  import opened Wrappers
  import opened Query
  import opened Http
  import opened Models
  import opened Database

  const PostNotFound := "Post not found on social media"
  const RecipeNotFound := "Recipe not found"
  const PermissionDenied := "Permission denied"
  const Liked := "Post liked successfully"
  const Unliked := "Post unliked successfully"
  const AlreadyZero := "Cannot unlike, likes count is already zero"
  const BookmarkAdded := "Bookmark added successfully"

  // Likes

  /** The posts table after a like of `smid`. */
  function Like(posts: seq<SocialMedia>, smid: string): (liked: seq<SocialMedia>)
    ensures |liked| == |posts|
    ensures forall j :: 0 <= j < |posts| ==>
      liked[j].SMID == posts[j].SMID && liked[j].RecipeID == posts[j].RecipeID && liked[j].Likes >= posts[j].Likes
    ensures FindPost(posts, smid).None? ==> liked == posts
  {
    match FindPost(posts, smid)
    case None => posts
    case Some(k) => posts[k := posts[k].(Likes := posts[k].Likes + 1)]
  }

  /** The posts table after an unlike of `smid`: a count at zero stays at zero. */
  function Unlike(posts: seq<SocialMedia>, smid: string): (unliked: seq<SocialMedia>)
    ensures |unliked| == |posts|
    ensures forall j :: 0 <= j < |posts| ==>
      unliked[j].SMID == posts[j].SMID && unliked[j].RecipeID == posts[j].RecipeID &&
      unliked[j].Likes <= posts[j].Likes && (posts[j].Likes >= 0 ==> unliked[j].Likes >= 0)
    ensures FindPost(posts, smid).None? ==> unliked == posts
  {
    match FindPost(posts, smid)
    case None => posts
    case Some(k) => if posts[k].Likes > 0 then posts[k := posts[k].(Likes := posts[k].Likes - 1)] else posts
  }

  /** A like raises that post's count by one and touches no other row. */
  lemma LikeCountsOne(posts: seq<SocialMedia>, smid: string, k: nat)
    requires FindPost(posts, smid) == Some(k)
    ensures |Like(posts, smid)| == |posts|
    ensures FindPost(Like(posts, smid), smid) == Some(k)
    ensures Like(posts, smid)[k].Likes == posts[k].Likes + 1
    ensures Like(posts, smid)[k].SMID == smid && Like(posts, smid)[k].RecipeID == posts[k].RecipeID
    ensures forall j :: 0 <= j < |posts| && j != k ==> Like(posts, smid)[j] == posts[j]
  {
    FirstAfterUpdate(posts, (p: SocialMedia) => p.SMID == smid, k, posts[k].(Likes := posts[k].Likes + 1));
  }

  /** Liking then unliking the same post restores the table. */
  lemma UnlikeUndoesLike(posts: seq<SocialMedia>, smid: string)
    requires LikesNonNegative(posts)
    ensures Unlike(Like(posts, smid), smid) == posts
  {
    match FindPost(posts, smid)
    case None =>
    case Some(k) =>
      LikeCountsOne(posts, smid, k);
      var liked := Like(posts, smid);
      assert liked[k := liked[k].(Likes := liked[k].Likes - 1)] == posts;
  }

  /** Neither a like nor an unlike makes a count negative. */
  lemma LikesStayNonNegative(posts: seq<SocialMedia>, smid: string)
    requires LikesNonNegative(posts)
    ensures LikesNonNegative(Like(posts, smid))
    ensures LikesNonNegative(Unlike(posts, smid))
  {
  }

  /** A freshly published post reads one like after one like. */
  lemma FreshPostLikedOnce(posts: seq<SocialMedia>, smid: string, recipeId: string)
    requires FindPost(posts, smid).None?
    ensures var liked := Like(posts + [NewSocialMedia(smid, recipeId)], smid);
      liked[|posts|].SMID == smid && liked[|posts|].Likes == 1
  {
    FirstAppend(posts, (p: SocialMedia) => p.SMID == smid, NewSocialMedia(smid, recipeId));
  }

  /** POST /like_post with body {smid} */
  method LikePost(db: Db, smid: string) returns (o: Outcome<string>)
    requires db.Valid()
    modifies db
    ensures db.Valid()
    ensures db.posts == Like(old(db.posts), smid)
    ensures db.users == old(db.users) && db.recipes == old(db.recipes) && db.ingredients == old(db.ingredients)
    ensures db.bookmarks == old(db.bookmarks) && db.shopping == old(db.shopping)
    ensures o == if FindPost(old(db.posts), smid).None? then NotFound(PostNotFound) else Ok(Liked)
  {
    var k := FindPost(db.posts, smid);
    if k.None? {
      return NotFound(PostNotFound);
    }
    LikeCountsOne(db.posts, smid, k.value);
    db.posts := db.posts[k.value := db.posts[k.value].(Likes := db.posts[k.value].Likes + 1)];
    return Ok(Liked);
  }

  /** POST /unlike_post with body {smid} */
  method UnlikePost(db: Db, smid: string) returns (o: Outcome<string>)
    requires db.Valid()
    modifies db
    ensures db.Valid()
    ensures db.posts == Unlike(old(db.posts), smid)
    ensures db.users == old(db.users) && db.recipes == old(db.recipes) && db.ingredients == old(db.ingredients)
    ensures db.bookmarks == old(db.bookmarks) && db.shopping == old(db.shopping)
    ensures FindPost(old(db.posts), smid).None? ==> o == NotFound(PostNotFound)
    ensures FindPost(old(db.posts), smid).Some? ==>
      o == if old(db.posts)[FindPost(old(db.posts), smid).value].Likes > 0 then Ok(Unliked) else Ok(AlreadyZero)
  {
    var k := FindPost(db.posts, smid);
    if k.None? {
      return NotFound(PostNotFound);
    }
    if db.posts[k.value].Likes > 0 {
      db.posts := db.posts[k.value := db.posts[k.value].(Likes := db.posts[k.value].Likes - 1)];
      return Ok(Unliked);
    }
    return Ok(AlreadyZero);
  }

  // Publishing

  /** The posts table after publishing `recipeId`: an entry is added only if the recipe has none. */
  function Publish(posts: seq<SocialMedia>, recipeId: string, newSmid: string): (published: seq<SocialMedia>)
    ensures |posts| <= |published| <= |posts| + 1 && published[..|posts|] == posts
    ensures FindPostOfRecipe(published, recipeId).Some?
    ensures |published| == |posts| + 1 <==> FindPostOfRecipe(posts, recipeId).None?
  {
    if FindPostOfRecipe(posts, recipeId).Some? then posts
    else
      FirstAppend(posts, (p: SocialMedia) => p.RecipeID == recipeId, NewSocialMedia(newSmid, recipeId));
      posts + [NewSocialMedia(newSmid, recipeId)]
  }

  /** The SMID a publish answers with: that of the recipe's entry. */
  function PublishedSmid(posts: seq<SocialMedia>, recipeId: string, newSmid: string): string {
    match FindPostOfRecipe(posts, recipeId)
    case Some(k) => posts[k].SMID
    case None => newSmid
  }

  /** After a publish the recipe has exactly one entry, the one whose SMID is answered,
      and the table keeps one entry per recipe and distinct SMIDs. */
  lemma PublishGivesOneEntry(posts: seq<SocialMedia>, recipeId: string, newSmid: string)
    requires OnePostPerRecipe(posts) && UniqueSmids(posts) && LikesNonNegative(posts)
    requires FindPost(posts, newSmid).None?
    ensures var after := Publish(posts, recipeId, newSmid);
      OnePostPerRecipe(after) && UniqueSmids(after) && LikesNonNegative(after) &&
      FindPostOfRecipe(after, recipeId).Some? &&
      after[FindPostOfRecipe(after, recipeId).value].SMID == PublishedSmid(posts, recipeId, newSmid)
  {
    var after := Publish(posts, recipeId, newSmid);
    if FindPostOfRecipe(posts, recipeId).None? {
      FirstAppend(posts, (p: SocialMedia) => p.RecipeID == recipeId, NewSocialMedia(newSmid, recipeId));
    }
  }

  /** Publishing a second time, whatever new SMID is at hand, changes nothing
      and answers the same SMID. */
  lemma PublishIdempotent(posts: seq<SocialMedia>, recipeId: string, smid1: string, smid2: string)
    ensures Publish(Publish(posts, recipeId, smid1), recipeId, smid2) == Publish(posts, recipeId, smid1)
    ensures PublishedSmid(Publish(posts, recipeId, smid1), recipeId, smid2) == PublishedSmid(posts, recipeId, smid1)
  {
    if FindPostOfRecipe(posts, recipeId).None? {
      FirstAppend(posts, (p: SocialMedia) => p.RecipeID == recipeId, NewSocialMedia(smid1, recipeId));
    }
  }

  /** POST /add_post with body {recipe_id}. `newSmid` is the uuid4 a new entry gets. */
  method AddPost(db: Db, caller: string, recipeId: string, newSmid: string) returns (o: Outcome<string>)
    requires db.Valid()
    requires FindPost(db.posts, newSmid).None?
    modifies db
    ensures db.Valid()
    ensures db.users == old(db.users) && db.ingredients == old(db.ingredients)
    ensures db.bookmarks == old(db.bookmarks) && db.shopping == old(db.shopping)
    ensures FindRecipe(old(db.recipes), recipeId).None? ==>
      o == NotFound(RecipeNotFound) && db.recipes == old(db.recipes) && db.posts == old(db.posts)
    ensures (FindRecipe(old(db.recipes), recipeId).Some? &&
      old(db.recipes)[FindRecipe(old(db.recipes), recipeId).value].UserID != caller) ==>
      o == Forbidden(PermissionDenied) && db.recipes == old(db.recipes) && db.posts == old(db.posts)
    ensures (FindRecipe(old(db.recipes), recipeId).Some? &&
      old(db.recipes)[FindRecipe(old(db.recipes), recipeId).value].UserID == caller) ==>
      var k := FindRecipe(old(db.recipes), recipeId).value;
      db.recipes == old(db.recipes)[k := old(db.recipes)[k].(Visibility := true)] &&
      db.posts == Publish(old(db.posts), recipeId, newSmid) &&
      o == Ok(PublishedSmid(old(db.posts), recipeId, newSmid))
  {
    var k := FindRecipe(db.recipes, recipeId);
    if k.None? {
      return NotFound(RecipeNotFound);
    }
    if db.recipes[k.value].UserID != caller {
      return Forbidden(PermissionDenied);
    }
    db.recipes := db.recipes[k.value := db.recipes[k.value].(Visibility := true)];
    var entry := FindPostOfRecipe(db.posts, recipeId);
    var smid;
    if entry.None? {
      PublishGivesOneEntry(db.posts, recipeId, newSmid);
      db.posts := db.posts + [NewSocialMedia(newSmid, recipeId)];
      smid := newSmid;
    } else {
      smid := db.posts[entry.value].SMID;
    }
    return Ok(smid);
  }

  // The feed

  /** One feed record: the recipe's columns, its entry's SMID and likes, or
      None and 0 when the recipe has no entry. */
  datatype FeedPost = FeedPost(
    SMID: Option<string>, RecipeID: string, RecipeName: string, RecipeContent: string,
    UserID: string, Likes: int)

  function FeedEntry(recipe: Recipe, posts: seq<SocialMedia>): FeedPost {
    match FindPostOfRecipe(posts, recipe.RecipeID)
    case None => FeedPost(None, recipe.RecipeID, recipe.RecipeName, recipe.RecipeContent, recipe.UserID, 0)
    case Some(k) => FeedPost(Some(posts[k].SMID), recipe.RecipeID, recipe.RecipeName, recipe.RecipeContent, recipe.UserID, posts[k].Likes)
  }

  /** The public recipes, in table order. */
  function VisibleRecipes(recipes: seq<Recipe>): (visible: seq<Recipe>)
    ensures forall i :: 0 <= i < |visible| ==> visible[i] in recipes && visible[i].Visibility
  {
    var keep := (r: Recipe) => r.Visibility;
    WhereMembers(recipes, keep);
    Where(recipes, keep)
  }

  /** GET /posts: one record per public recipe, in table order. */
  method FetchPosts(db: Db) returns (o: Outcome<seq<FeedPost>>)
    ensures o.Ok?
    ensures |o.value| == |VisibleRecipes(db.recipes)|
    ensures forall i :: 0 <= i < |o.value| ==>
      var recipe := VisibleRecipes(db.recipes)[i];
      recipe in db.recipes && recipe.Visibility &&
      o.value[i].RecipeID == recipe.RecipeID && o.value[i].RecipeName == recipe.RecipeName &&
      o.value[i].RecipeContent == recipe.RecipeContent && o.value[i].UserID == recipe.UserID &&
      (FindPostOfRecipe(db.posts, recipe.RecipeID).None? ==> o.value[i].SMID.None? && o.value[i].Likes == 0) &&
      (FindPostOfRecipe(db.posts, recipe.RecipeID).Some? ==>
         var p := db.posts[FindPostOfRecipe(db.posts, recipe.RecipeID).value];
         o.value[i].SMID == Some(p.SMID) && o.value[i].Likes == p.Likes)
  {
    var recipes := VisibleRecipes(db.recipes);
    var feed: seq<FeedPost> := [];
    var i := 0;
    while i < |recipes|
      invariant 0 <= i <= |recipes|
      invariant |feed| == i
      invariant forall j :: 0 <= j < i ==> feed[j] == FeedEntry(recipes[j], db.posts)
    {
      feed := feed + [FeedEntry(recipes[i], db.posts)];
      i := i + 1;
    }
    assert forall j :: 0 <= j < |recipes| ==> recipes[j] in recipes;
    return Ok(feed);
  }

  // Bookmarks

  /** POST /add_bookmark with body {recipe_id}. No check that the recipe exists. */
  method AddBookmark(db: Db, caller: string, recipeId: string, newId: string) returns (o: Outcome<string>)
    requires db.Valid()
    modifies db
    ensures db.Valid()
    ensures db.bookmarks == old(db.bookmarks) + [Bookmark(newId, caller, recipeId)]
    ensures db.users == old(db.users) && db.recipes == old(db.recipes) && db.ingredients == old(db.ingredients)
    ensures db.posts == old(db.posts) && db.shopping == old(db.shopping)
    ensures o == Ok(BookmarkAdded)
  {
    db.bookmarks := db.bookmarks + [Bookmark(newId, caller, recipeId)];
    return Ok(BookmarkAdded);
  }

  /** The recipes the bookmarks point at, in bookmark order, skipping bookmarks
      whose recipe is gone. */
  function BookmarkedRecipes(marks: seq<Bookmark>, recipes: seq<Recipe>): (found: seq<Recipe>)
    ensures |found| <= |marks|
    ensures forall r :: r in found ==> r in recipes
    ensures forall r :: r in found ==> exists k :: 0 <= k < |marks| && marks[k].RecipeID == r.RecipeID
    ensures forall k :: 0 <= k < |marks| && FindRecipe(recipes, marks[k].RecipeID).Some? ==>
      recipes[FindRecipe(recipes, marks[k].RecipeID).value] in found
  {
    if marks == [] then []
    else
      var init := marks[..|marks| - 1];
      var last := marks[|marks| - 1];
      var rest := BookmarkedRecipes(init, recipes);
      assert forall k :: 0 <= k < |init| ==> init[k] == marks[k];
      match FindRecipe(recipes, last.RecipeID)
      case None => rest
      case Some(j) => rest + [recipes[j]]
  }

  /** The caller's bookmarks, in table order. */
  function BookmarksOf(bookmarks: seq<Bookmark>, caller: string): (marks: seq<Bookmark>)
    ensures forall i :: 0 <= i < |marks| ==> marks[i] in bookmarks && marks[i].UserID == caller
  {
    var keep := (b: Bookmark) => b.UserID == caller;
    WhereMembers(bookmarks, keep);
    Where(bookmarks, keep)
  }

  /** GET /bookmarks: the caller's bookmarked recipes that still exist. */
  method FetchBookmarks(db: Db, caller: string) returns (o: Outcome<seq<Recipe>>)
    ensures o.Ok?
    ensures o.value == BookmarkedRecipes(BookmarksOf(db.bookmarks, caller), db.recipes)
    ensures forall r :: r in o.value ==>
      r in db.recipes && exists b :: b in db.bookmarks && b.UserID == caller && b.RecipeID == r.RecipeID
  {
    var marks := BookmarksOf(db.bookmarks, caller);
    var found: seq<Recipe> := [];
    var i := 0;
    while i < |marks|
      invariant 0 <= i <= |marks|
      invariant found == BookmarkedRecipes(marks[..i], db.recipes)
    {
      assert marks[..i + 1][..i] == marks[..i];
      var k := FindRecipe(db.recipes, marks[i].RecipeID);
      if k.Some? {
        found := found + [db.recipes[k.value]];
      }
      i := i + 1;
    }
    assert marks[..i] == marks;
    forall r | r in found
      ensures exists b :: b in db.bookmarks && b.UserID == caller && b.RecipeID == r.RecipeID
    {
      var k :| 0 <= k < |marks| && marks[k].RecipeID == r.RecipeID;
      assert marks[k] in marks;
    }
    return Ok(found);
  }
}
