/** The allergy editor of the profile page: the allergies shown (stored ones
    and ones added on the page under a temporary id), the names added since
    the last save ("pending"), the input box and the saving flag. */
module UserProfile {
  import opened Wrappers
  import opened Query
  import opened Http
  import opened Text
  import opened Chips

  /** An allergy as the page holds it. */
  datatype AllergyChip = AllergyChip(AllergyID: string, IngredientName: string)

  function Names(allergies: seq<AllergyChip>): (names: seq<string>)
    ensures |names| == |allergies|
    ensures forall i :: 0 <= i < |allergies| ==> names[i] == allergies[i].IngredientName
  {
    if allergies == [] then [] else Names(allergies[..|allergies| - 1]) + [allergies[|allergies| - 1].IngredientName]
  }

  /** No two allergies on the page share a name. */
  predicate UniqueNames(allergies: seq<AllergyChip>) {
    forall i, j :: 0 <= i < j < |allergies| ==> allergies[i].IngredientName != allergies[j].IngredientName
  }

  /** Every pending name is the name of an allergy on the page. */
  predicate PendingListed(allergies: seq<AllergyChip>, pending: seq<string>) {
    forall n :: n in pending ==> n in Names(allergies)
  }

  /** Decimal digits of a clock reading. */
  function DecimalString(n: nat): string
    decreases n
  {
    if n < 10 then [(48 + n) as char] else DecimalString(n / 10) + [(48 + n % 10) as char]
  }

  /** The id an allergy added on the page gets until it is saved. */
  function TempId(now: nat): string {
    "temp-" + DecimalString(now)
  }

  /** The allergies left after the one with `allergyID` is deleted. */
  function Remaining(allergies: seq<AllergyChip>, allergyID: string): (rest: seq<AllergyChip>)
    ensures forall a :: a in rest <==> a in allergies && a.AllergyID != allergyID
  {
    var keep := (a: AllergyChip) => a.AllergyID != allergyID;
    WhereMembers(allergies, keep);
    Where(allergies, keep)
  }

  /** The pending names after a deletion as the page computes them: names
      equal to the deleted allergy's id are dropped. */
  function PendingAfterRemoveAsWritten(pending: seq<string>, allergyID: string): (kept: seq<string>)
    ensures forall n :: n in kept <==> n in pending && n != allergyID
  {
    Without(pending, allergyID)
  }

  /** As written, deleting an allergy that was added on the page but not yet
      saved leaves its name pending, so the next save stores an allergy that
      is no longer listed. */
  lemma RemovedPendingAllergyStays()
    ensures var allergies := [AllergyChip(TempId(5), "Peanut")];
      var pending := ["Peanut"];
      PendingListed(allergies, pending) &&
      Remaining(allergies, TempId(5)) == [] &&
      PendingAfterRemoveAsWritten(pending, TempId(5)) == ["Peanut"] &&
      !PendingListed(Remaining(allergies, TempId(5)), PendingAfterRemoveAsWritten(pending, TempId(5)))
  {
    var id := TempId(5);
    var allergies := [AllergyChip(id, "Peanut")];
    assert id == "temp-5";
    assert "Peanut" != id by { assert "Peanut"[0] != id[0]; }
    assert Names(allergies) == ["Peanut"];
    var kept := Without(["Peanut"], id);
    assert "Peanut" in kept;
    assert |kept| <= 1;
  }

  /** The pending names after a deletion as intended: only names still on the page stay. */
  function PendingAfterRemove(allergies: seq<AllergyChip>, pending: seq<string>, allergyID: string): seq<string> {
    Where(pending, (n: string) => n in Names(Remaining(allergies, allergyID)))
  }

  /** The intended deletion keeps every pending name listed and keeps every
      pending name whose allergy is still on the page. */
  lemma PendingAfterRemoveListed(allergies: seq<AllergyChip>, pending: seq<string>, allergyID: string)
    ensures PendingListed(Remaining(allergies, allergyID), PendingAfterRemove(allergies, pending, allergyID))
    ensures forall n :: n in pending && n in Names(Remaining(allergies, allergyID)) ==>
      n in PendingAfterRemove(allergies, pending, allergyID)
  {
    WhereMembers(pending, (n: string) => n in Names(Remaining(allergies, allergyID)));
  }

  class UserProfilePage {
    var allergies: seq<AllergyChip>
    var newAllergies: seq<string>
    var currentAllergy: string
    var saving: bool

    constructor()
      ensures allergies == [] && newAllergies == [] && currentAllergy == "" && !saving
    {
      allergies, newAllergies, currentAllergy, saving := [], [], "", false;
    }

    /** Loads the stored allergies; no token or a failed request changes nothing. */
    method FetchAllergies(token: Option<string>, reply: Reply<seq<AllergyChip>>)
      modifies this
      ensures Signed(token) && reply.Success? ==> allergies == reply.body
      ensures !(Signed(token) && reply.Success?) ==> allergies == old(allergies)
      ensures newAllergies == old(newAllergies) && currentAllergy == old(currentAllergy)
      ensures saving == old(saving)
    {
      if Signed(token) && reply.Success? {
        allergies := reply.body;
      }
    }

    /** Add handler: a trimmed, non-blank name not on the page yet is added
        under the temporary id for the clock reading `now`, becomes pending,
        and the box is cleared; anything else changes nothing. */
    method AddAllergy(now: nat)
      modifies this
      ensures UniqueNames(old(allergies)) ==> UniqueNames(allergies)
      ensures PendingListed(old(allergies), old(newAllergies)) ==> PendingListed(allergies, newAllergies)
      ensures if Accepts(Names(old(allergies)), old(currentAllergy)) then
          allergies == old(allergies) + [AllergyChip(TempId(now), Trim(old(currentAllergy)))] &&
          newAllergies == old(newAllergies) + [Trim(old(currentAllergy))] && currentAllergy == ""
        else
          allergies == old(allergies) && newAllergies == old(newAllergies) &&
          currentAllergy == old(currentAllergy)
      ensures saving == old(saving)
    {
      var name := Trim(currentAllergy);
      if name != [] && name !in Names(allergies) {
        var added := allergies + [AllergyChip(TempId(now), name)];
        AddedAllergyKeepsInvariants(allergies, newAllergies, AllergyChip(TempId(now), name));
        allergies := added;
        newAllergies := newAllergies + [name];
        currentAllergy := "";
      }
    }

    /** Delete handler, as written: on a successful reply the allergy with
        `allergyID` leaves the page and pending names equal to that id leave
        the pending list; no token or a failed request changes nothing. */
    method RemoveAllergy(allergyID: string, token: Option<string>, reply: Reply<()>)
      modifies this
      ensures Signed(token) && reply.Success? ==>
        allergies == Remaining(old(allergies), allergyID) &&
        newAllergies == PendingAfterRemoveAsWritten(old(newAllergies), allergyID)
      ensures !(Signed(token) && reply.Success?) ==>
        allergies == old(allergies) && newAllergies == old(newAllergies)
      ensures UniqueNames(old(allergies)) ==> UniqueNames(allergies)
      ensures currentAllergy == old(currentAllergy) && saving == old(saving)
    {
      if Signed(token) && reply.Success? {
        if UniqueNames(allergies) {
          RemainingUniqueNames(allergies, allergyID);
        }
        allergies := Remaining(allergies, allergyID);
        newAllergies := PendingAfterRemoveAsWritten(newAllergies, allergyID);
      }
    }

    /** Save handler: with a token and pending names it sends one request per
        pending name, in order, and returns them; unless a request is
        rejected the pending list is emptied, whatever the statuses. */
    method UpdateAllergies(token: Option<string>, rejected: bool) returns (requests: seq<string>)
      modifies this
      ensures !Signed(token) || old(newAllergies) == [] ==>
        requests == [] && newAllergies == old(newAllergies)
      ensures Signed(token) && old(newAllergies) != [] ==>
        requests == old(newAllergies) && newAllergies == if rejected then old(newAllergies) else []
      ensures allergies == old(allergies) && currentAllergy == old(currentAllergy)
      ensures !saving
    {
      saving := true;
      requests := [];
      if Signed(token) && newAllergies != [] {
        var i := 0;
        while i < |newAllergies|
          invariant 0 <= i <= |newAllergies|
          invariant requests == newAllergies[..i]
        {
          requests := requests + [newAllergies[i]];
          i := i + 1;
        }
        assert newAllergies[..i] == newAllergies;
        if !rejected {
          newAllergies := [];
        }
      }
      saving := false;
    }
  }

  /** An allergy whose name is not on the page yet, added to the page and to
      the pending names, keeps names unique and every pending name listed. */
  lemma AddedAllergyKeepsInvariants(allergies: seq<AllergyChip>, pending: seq<string>, chip: AllergyChip)
    requires chip.IngredientName !in Names(allergies)
    ensures UniqueNames(allergies) ==> UniqueNames(allergies + [chip])
    ensures PendingListed(allergies, pending) ==> PendingListed(allergies + [chip], pending + [chip.IngredientName])
  {
    var added := allergies + [chip];
    assert Names(added) == Names(allergies) + [chip.IngredientName];
    if UniqueNames(allergies) {
      forall i, j | 0 <= i < j < |added| ensures added[i].IngredientName != added[j].IngredientName {
        if j == |allergies| {
          assert Names(allergies)[i] == added[i].IngredientName;
        }
      }
    }
    if PendingListed(allergies, pending) {
      forall n | n in pending + [chip.IngredientName] ensures n in Names(added) {
        if n != chip.IngredientName {
          assert n in pending;
        }
      }
    }
  }

  /** Deleting an allergy keeps the names on the page unique. */
  lemma {:induction false} RemainingUniqueNames(allergies: seq<AllergyChip>, allergyID: string)
    requires UniqueNames(allergies)
    ensures UniqueNames(Remaining(allergies, allergyID))
  {
    if allergies != [] {
      var init := allergies[..|allergies| - 1];
      var last := allergies[|allergies| - 1];
      assert UniqueNames(init);
      RemainingUniqueNames(init, allergyID);
      var kept := Remaining(init, allergyID);
      assert Remaining(allergies, allergyID) == kept + (if last.AllergyID != allergyID then [last] else []);
      forall a | a in kept ensures a.IngredientName != last.IngredientName {
        var k :| 0 <= k < |init| && init[k] == a;
        assert allergies[k] == a;
      }
    }
  }
}
