/** The shopping-list handlers: merge a recipe's ingredients into the
    caller's list, show the list, replace it from newline-separated text, and
    export it as text. The caller is the `user_id` stored in the session;
    without one every handler redirects to the login page and changes nothing. */
module ShoppingList {
  import opened Wrappers
  import opened Query
  import opened Text
  import opened Http
  import opened Models
  import opened Database

  const ShoppingListPath := "/shopping_list"
  const RecipeNotFound := "Recipe not found."
  const EmptyListMessage := "Your shopping list is empty."

  /** The names, in order, that are not in `existing`. */
  function Missing(existing: seq<string>, names: seq<string>): (added: seq<string>)
    ensures |added| <= |names|
    ensures forall i :: 0 <= i < |added| ==> added[i] in names && added[i] !in existing
  {
    if names == [] then []
    else
      var last := names[|names| - 1];
      Missing(existing, names[..|names| - 1]) + (if last in existing then [] else [last])
  }

  /** The names added are exactly the names not in `existing`; none when all are. */
  lemma {:induction false} MissingMembers(existing: seq<string>, names: seq<string>)
    ensures forall x :: x in Missing(existing, names) <==> x in names && x !in existing
    ensures (forall n :: n in names ==> n in existing) ==> Missing(existing, names) == []
  {
    if names != [] {
      var init := names[..|names| - 1];
      MissingMembers(existing, init);
      assert names == init + [names[|names| - 1]];
    }
    var added := Missing(existing, names);
    if added != [] {
      assert added[0] in added;
    }
  }

  /** The list after merging a recipe's ingredient names into it. */
  function Merge(list: seq<string>, names: seq<string>): (merged: seq<string>)
    ensures |merged| >= |list| && merged[..|list|] == list
    ensures forall n :: n in names ==> n in merged
    ensures forall x :: x in merged <==> x in list || x in names
  {
    MissingMembers(list, names);
    list + Missing(list, names)
  }

  /** Merging the same names a second time adds nothing. */
  lemma MergeIdempotent(list: seq<string>, names: seq<string>)
    ensures Merge(Merge(list, names), names) == Merge(list, names)
  {
    MissingMembers(Merge(list, names), names);
  }

  /** Missing names of a duplicate-free list are duplicate-free. */
  lemma {:induction false} MissingDistinct(existing: seq<string>, names: seq<string>)
    requires Distinct(names)
    ensures Distinct(Missing(existing, names))
  {
    if names != [] {
      var init := names[..|names| - 1];
      var last := names[|names| - 1];
      assert Distinct(init);
      MissingDistinct(existing, init);
      MissingMembers(existing, init);
      assert last !in init;
    }
  }

  /** A list without duplicates keeps none after merging a recipe whose names are distinct. */
  lemma MergeDistinct(list: seq<string>, names: seq<string>)
    requires Distinct(list) && Distinct(names)
    ensures Distinct(Merge(list, names))
  {
    var extra := Missing(list, names);
    MissingDistinct(list, names);
    MissingMembers(list, names);
    var merged := list + extra;
    forall i, j | 0 <= i < j < |merged| ensures merged[i] != merged[j] {
      if j >= |list| && i < |list| {
        assert merged[j] in extra;
      }
    }
  }

  /** An item as a replace can store it: non-blank, trimmed, on one line. */
  predicate WellFormedItem(name: string) {
    name != [] && IsTrimmed(name) && NewLine !in name
  }

  predicate WellFormedList(items: seq<string>) {
    forall i :: 0 <= i < |items| ==> WellFormedItem(items[i])
  }

  /** Each piece stripped, blank pieces dropped. */
  function KeepStripped(pieces: seq<string>): (items: seq<string>)
    requires forall i :: 0 <= i < |pieces| ==> NewLine !in pieces[i]
    ensures WellFormedList(items)
    ensures |items| <= |pieces|
  {
    if pieces == [] then []
    else
      var t := Trim(pieces[0]);
      var rest := KeepStripped(pieces[1..]);
      KeptItem(pieces[0], rest);
      if t == [] then rest else [t] + rest
  }

  /** A stripped line put in front of well-formed items keeps them well formed. */
  lemma KeptItem(line: string, rest: seq<string>)
    requires NewLine !in line
    requires WellFormedList(rest)
    ensures var t := Trim(line); WellFormedList(if t == [] then rest else [t] + rest)
  {
    var t := Trim(line);
    if t != [] {
      TrimKeepsOut(line, NewLine);
      assert WellFormedItem(t);
      var kept := [t] + rest;
      forall i | 0 <= i < |kept| ensures WellFormedItem(kept[i]) {
        if i > 0 {
          assert kept[i] == rest[i - 1];
        }
      }
    }
  }

  /** One line gives its stripped text, or nothing when it is blank. */
  lemma KeepStrippedOne(line: string)
    requires NewLine !in line
    ensures KeepStripped([line]) == if Trim(line) == [] then [] else [Trim(line)]
  {
    assert [line][1..] == [];
  }

  /** The comprehension works line by line: the items of two runs of lines
      are the items of the first followed by those of the second. */
  lemma {:induction false} KeepStrippedAppend(a: seq<string>, b: seq<string>)
    requires forall i :: 0 <= i < |a| ==> NewLine !in a[i]
    requires forall i :: 0 <= i < |b| ==> NewLine !in b[i]
    ensures KeepStripped(a + b) == KeepStripped(a) + KeepStripped(b)
  {
    if a == [] {
      assert a + b == b;
    } else {
      assert (a + b)[0] == a[0];
      assert (a + b)[1..] == a[1..] + b;
      KeepStrippedAppend(a[1..], b);
    }
  }

  /** The items a replace stores for the submitted text: every line
      stripped, blank lines dropped, so every item is well formed. */
  function ParseList(text: string): (items: seq<string>)
    ensures WellFormedList(items)
    ensures |items| <= |Split(text, NewLine)|
  {
    KeepStripped(Split(text, NewLine))
  }

  /** The text an export answers with: the items joined with newlines, which
      split back into the items when none holds a newline. */
  function ExportText(items: seq<string>): (text: string)
    ensures items != [] && (forall i :: 0 <= i < |items| ==> NewLine !in items[i]) ==>
      Split(text, NewLine) == items
  {
    if items != [] && (forall i :: 0 <= i < |items| ==> NewLine !in items[i]) then
      SplitJoin(items, NewLine);
      Join(items, NewLine)
    else
      Join(items, NewLine)
  }

  lemma {:induction false} KeepStrippedWellFormed(items: seq<string>)
    requires WellFormedList(items)
    ensures KeepStripped(items) == items
  {
    if items != [] {
      TrimTrimmed(items[0]);
      KeepStrippedWellFormed(items[1..]);
    }
  }

  /** Replacing the list with its own export reproduces it. */
  lemma ParseExport(items: seq<string>)
    requires WellFormedList(items)
    ensures ParseList(ExportText(items)) == items
  {
    var text := ExportText(items);
    if items == [] {
      assert Split(text, NewLine) == [""];
      assert KeepStripped([""]) == [];
    } else {
      assert forall i :: 0 <= i < |items| ==> NewLine !in items[i];
      SplitJoin(items, NewLine);
      KeepStrippedWellFormed(items);
    }
  }

  /** Export followed by replace is the identity on every stored list, so
      replacing with the same text twice is replacing once. */
  lemma ParseExportParse(text: string)
    ensures ParseList(ExportText(ParseList(text))) == ParseList(text)
  {
    ParseExport(ParseList(text));
  }

  /** Three lines give three items. */
  lemma ParseThreeLines()
    ensures ParseList("Milk\nEggs\nBread") == ["Milk", "Eggs", "Bread"]
  {
    var items := ["Milk", "Eggs", "Bread"];
    assert Join(items[2..], NewLine) == "Bread";
    assert Join(items[1..], NewLine) == "Eggs\nBread";
    assert Join(items, NewLine) == "Milk\nEggs\nBread";
    assert WellFormedItem("Milk") && WellFormedItem("Eggs") && WellFormedItem("Bread");
    ParseExport(items);
  }

  /** GET /add_to_shopping_list/{recipe_id} */
  method AddToShoppingList(db: Db, session: Session, recipeId: string) returns (o: Outcome<string>)
    requires db.Valid()
    modifies db
    ensures db.Valid()
    ensures db.users == old(db.users) && db.recipes == old(db.recipes) && db.ingredients == old(db.ingredients)
    ensures db.posts == old(db.posts) && db.bookmarks == old(db.bookmarks)
    ensures if UserIdKey !in session then
        o == Redirect(LoginPath) && db.shopping == old(db.shopping)
      else if FindRecipe(db.recipes, recipeId).None? then
        o == NotFound(RecipeNotFound) && db.shopping == old(db.shopping)
      else if FindUser(db.users, session[UserIdKey]).None? then
        o == ServerError && db.shopping == old(db.shopping)
      else
        var userId := session[UserIdKey];
        o == Redirect(ShoppingListPath) &&
        db.shopping == old(db.shopping)[userId := Merge(old(db.ShoppingListOf(userId)), IngredientNames(db.ingredients, recipeId))]
  {
    if UserIdKey !in session {
      return Redirect(LoginPath);
    }
    var found := FindRecipe(db.recipes, recipeId);
    if found.None? {
      return NotFound(RecipeNotFound);
    }
    var recipe := db.recipes[found.value];
    var u := FindUser(db.users, session[UserIdKey]);
    if u.None? {
      return ServerError;
    }
    var user := db.users[u.value];
    var existing := db.ShoppingListOf(user.UserID);
    var names := IngredientNames(db.ingredients, recipe.RecipeID);
    var newItems := NewItems(existing, names);
    db.shopping := db.shopping[user.UserID := existing + newItems];
    return Redirect(ShoppingListPath);
  }

  /** The handler's loop over the recipe's ingredient names: those not yet
      on the list, in order. */
  method NewItems(existing: seq<string>, names: seq<string>) returns (newItems: seq<string>)
    ensures newItems == Missing(existing, names)
  {
    newItems := [];
    var k := 0;
    while k < |names|
      invariant 0 <= k <= |names|
      invariant newItems == Missing(existing, names[..k])
    {
      assert names[..k + 1][..k] == names[..k];
      assert Missing(existing, names[..k + 1]) ==
        Missing(existing, names[..k]) + (if names[k] in existing then [] else [names[k]]);
      if names[k] !in existing {
        newItems := newItems + [names[k]];
      }
      k := k + 1;
    }
    assert names[..k] == names;
  }

  /** GET /shopping_list */
  method ViewShoppingListGet(db: Db, session: Session) returns (o: Outcome<seq<string>>)
    ensures UserIdKey !in session ==> o == Redirect(LoginPath)
    ensures UserIdKey in session && FindUser(db.users, session[UserIdKey]).None? ==> o == ServerError
    ensures UserIdKey in session && FindUser(db.users, session[UserIdKey]).Some? ==>
      o == Ok(db.ShoppingListOf(session[UserIdKey]))
  {
    if UserIdKey !in session {
      return Redirect(LoginPath);
    }
    var u := FindUser(db.users, session[UserIdKey]);
    if u.None? {
      return ServerError;
    }
    var user := db.users[u.value];
    return Ok(db.ShoppingListOf(user.UserID));
  }

  /** POST /shopping_list: `form` is the submitted `shopping_list` field, if any. */
  method ViewShoppingListPost(db: Db, session: Session, form: Option<string>) returns (o: Outcome<seq<string>>)
    requires db.Valid()
    modifies db
    ensures db.Valid()
    ensures db.users == old(db.users) && db.recipes == old(db.recipes) && db.ingredients == old(db.ingredients)
    ensures db.posts == old(db.posts) && db.bookmarks == old(db.bookmarks)
    ensures if UserIdKey !in session then
        o == Redirect(LoginPath) && db.shopping == old(db.shopping)
      else if FindUser(db.users, session[UserIdKey]).None? || form.None? then
        o == ServerError && db.shopping == old(db.shopping)
      else
        o == Ok(ParseList(form.value)) &&
        db.shopping == old(db.shopping)[session[UserIdKey] := ParseList(form.value)]
  {
    if UserIdKey !in session {
      return Redirect(LoginPath);
    }
    var u := FindUser(db.users, session[UserIdKey]);
    if u.None? || form.None? {
      return ServerError;
    }
    var user := db.users[u.value];
    var items := ParseList(form.value);
    db.shopping := db.shopping[user.UserID := items];
    return Ok(items);
  }

  /** GET /save_shopping_list: the list as a text download. */
  method SaveShoppingList(db: Db, session: Session) returns (o: Outcome<string>)
    ensures UserIdKey !in session ==> o == Redirect(LoginPath)
    ensures UserIdKey in session && db.ShoppingListOf(session[UserIdKey]) == [] ==>
      o == BadRequest(EmptyListMessage)
    ensures UserIdKey in session && db.ShoppingListOf(session[UserIdKey]) != [] ==>
      o == Ok(ExportText(db.ShoppingListOf(session[UserIdKey])))
    ensures (UserIdKey in session && o.Ok? &&
             forall i :: 0 <= i < |db.ShoppingListOf(session[UserIdKey])| ==> NewLine !in db.ShoppingListOf(session[UserIdKey])[i]) ==>
      Split(o.value, NewLine) == db.ShoppingListOf(session[UserIdKey])
    ensures UserIdKey in session && o.Ok? && WellFormedList(db.ShoppingListOf(session[UserIdKey])) ==>
      ParseList(o.value) == db.ShoppingListOf(session[UserIdKey])
  {
    if UserIdKey !in session {
      return Redirect(LoginPath);
    }
    var items := db.ShoppingListOf(session[UserIdKey]);
    if items == [] {
      return BadRequest(EmptyListMessage);
    }
    var text := ExportText(items);
    if WellFormedList(items) {
      ParseExport(items);
    }
    return Ok(text);
  }
}
