/** The recipe upload page: title, cuisine, content, a chip list of
    ingredients entered with the Enter key, and the two requests a submit
    makes: create the recipe, then publish it to the feed. */
module UploadRecipe {
  import opened Wrappers
  import opened Http
  import opened Text
  import opened Chips
  import opened Models
  import Recipes

  /** The JSON body of the create request. */
  datatype RecipePayload = RecipePayload(
    title: string, content: string, ingredients: seq<string>, cuisine: string, userGenerated: bool)

  /** A request the page sends: the create with its body, or the publish
      with the `recipe_id` it carries (None when the key is absent: `JSON.stringify`
      drops a key whose value is `undefined`). */
  datatype Request = CreateRecipe(payload: RecipePayload) | PublishPost(recipeId: Option<string>)

  /** The `id` field of a create response, None when the field is absent. */
  function IdOf(body: map<string, string>): (id: Option<string>)
    ensures id.Some? <==> "id" in body
    ensures id.Some? ==> id.value == body["id"]
  {
    if "id" in body then Some(body["id"]) else None
  }

  /** The requests a submit sends for `payload`, in order: the create, then,
      only when it succeeds, the publish with the create response's `id`. */
  function SubmitRequests(payload: RecipePayload, createReply: Reply<map<string, string>>): (requests: seq<Request>)
    ensures |requests| >= 1 && requests[0] == CreateRecipe(payload)
    ensures createReply.Success? <==> |requests| == 2
    ensures createReply.Success? ==> requests[1] == PublishPost(IdOf(createReply.body))
  {
    [CreateRecipe(payload)] + if createReply.Success? then [PublishPost(IdOf(createReply.body))] else []
  }

  class UploadRecipePage {
    var title: string
    var cuisine: string
    var ingredients: seq<string>
    var newIngredient: string
    var content: string

    constructor()
      ensures title == "" && cuisine == "" && ingredients == [] && newIngredient == "" && content == ""
    {
      title, cuisine, ingredients, newIngredient, content := "", "", [], "", "";
    }

    /** The form's `required` fields are filled, so a submit passes the
        browser's validation and reaches the submit handler. */
    predicate FormComplete()
      reads this
    {
      title != "" && cuisine != "" && content != ""
    }

    /** Key handler of the ingredient box. Enter with a non-blank input
        appends the input as typed (untrimmed, duplicates allowed), clears
        the box and, its default prevented, sends nothing. Enter with a blank
        input is not prevented, so the browser submits the form implicitly
        by clicking its default button: the first chip's remove button when
        there are chips (which removes that chip), and the form is uploaded
        when complete. Any other key changes nothing. Returns the requests
        sent. */
    method KeyDown(key: string, createReply: Reply<map<string, string>>) returns (requests: seq<Request>)
      modifies this
      ensures if key == "Enter" && Trim(old(newIngredient)) != [] then
          ingredients == old(ingredients) + [old(newIngredient)] && newIngredient == "" && requests == []
        else if key == "Enter" then
          ingredients == (if old(ingredients) == [] then [] else old(ingredients)[1..]) &&
          newIngredient == old(newIngredient) &&
          requests == if FormComplete() then SubmitRequests(Payload(), createReply) else []
        else
          ingredients == old(ingredients) && newIngredient == old(newIngredient) && requests == []
      ensures title == old(title) && cuisine == old(cuisine) && content == old(content)
    {
      if key == "Enter" && Trim(newIngredient) != [] {
        ingredients := ingredients + [newIngredient];
        newIngredient := "";
        requests := [];
      } else if key == "Enter" {
        requests := RemoveIngredient(0, createReply);
      } else {
        requests := [];
      }
    }

    /** Remove button of the chip at `index`. The button has no `type`
        inside the form, so it is a submit button: after the removal the
        click submits the form, which uploads it when complete. Returns the
        requests sent. */
    method RemoveIngredient(index: int, createReply: Reply<map<string, string>>) returns (requests: seq<Request>)
      modifies this
      ensures 0 <= index < |old(ingredients)| ==> ingredients == old(ingredients)[..index] + old(ingredients)[index + 1..]
      ensures !(0 <= index < |old(ingredients)|) ==> ingredients == old(ingredients)
      ensures requests == if FormComplete() then SubmitRequests(Payload(), createReply) else []
      ensures title == old(title) && cuisine == old(cuisine) && content == old(content)
      ensures newIngredient == old(newIngredient)
    {
      RemoveAtDeletes(ingredients, index);
      ingredients := RemoveAt(ingredients, index);
      if FormComplete() {
        requests := Upload(createReply);
      } else {
        requests := [];
      }
    }

    /** The create request's body: the form's fields, marked as not generated. */
    function Payload(): (p: RecipePayload)
      reads this
      ensures p.title == title && p.content == content && p.ingredients == ingredients
      ensures p.cuisine == cuisine && !p.userGenerated
    {
      RecipePayload(title, content, ingredients, cuisine, false)
    }

    /** Submit handler: the create request first; only when it succeeds, the
        publish request with the `id` of the create response. Returns the
        requests in the order sent. */
    method Upload(createReply: Reply<map<string, string>>) returns (requests: seq<Request>)
      ensures |requests| >= 1 && requests[0] == CreateRecipe(Payload())
      ensures createReply.Success? <==> |requests| == 2
      ensures createReply.Success? ==> requests[1] == PublishPost(IdOf(createReply.body))
      ensures |requests| <= 2
      ensures requests == SubmitRequests(Payload(), createReply)
    {
      requests := [CreateRecipe(Payload())];
      if createReply.Success? {
        requests := requests + [PublishPost(IdOf(createReply.body))];
      }
    }
  }

  /** As written, the backend's create response has no `id`, so after every
      successful create the publish request's body has no `recipe_id` key,
      which the publish endpoint's body schema rejects as a missing field: the recipe never
      gets a feed entry from this page. */
  lemma PublishAfterCreateHasNoId()
    ensures IdOf(Recipes.CreatedBody) == None
  {
    assert "id" !in Recipes.CreatedBody;
  }

  /** The create response as intended: the message and the new recipe's id. */
  function CreatedBodyWithId(newId: string): map<string, string> {
    map["message" := Recipes.CreatedMessage, "id" := newId]
  }

  /** With the id in the create response, the publish request names the
      recipe just created, which the publish endpoint then finds and which
      belongs to the uploader, so its owner check passes. */
  lemma PublishAfterCreateNamesTheRecipe(recipes: seq<Recipe>, caller: string, title: string, content: string, newId: string)
    requires FindRecipe(recipes, newId).None?
    ensures IdOf(CreatedBodyWithId(newId)) == Some(newId)
    ensures var after := recipes + [Recipe(newId, caller, title, content, true)];
      FindRecipe(after, newId) == Some(|recipes|) && after[|recipes|].UserID == caller
  {
    var after := recipes + [Recipe(newId, caller, title, content, true)];
    assert forall k :: 0 <= k < |recipes| ==> after[k] == recipes[k];
    assert after[|recipes|].RecipeID == newId;
  }
}
