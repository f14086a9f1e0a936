/**
 * The delete command: finds a study spot by name in the study tracker and removes it,
 * taking it off the favourites first when it is one. The tracker is a collection of
 * spots whose names are unique; only the three operations the command calls are modelled.
 */
module Commands {
  import opened Wrappers

  const MESSAGE_DELETE_STUDYSPOT_SUCCESS_PREFIX: string := "Deleted study spot: "

  /** A study spot as the command sees it: its name and whether it is a favourite. */
  datatype StudySpot = StudySpot(name: string, isFavourite: bool)

  /** The command's failure: no spot has the given name. */
  datatype CommandException = InvalidName

  /** No two spots share a name. */
  predicate UniqueNames(spots: seq<StudySpot>) {
    forall i, j | 0 <= i < j < |spots| :: spots[i].name != spots[j].name
  }

  /** The position of the first spot called `name`, or |spots| when there is none. */
  function IndexOfName(spots: seq<StudySpot>, name: string): (k: nat)
    ensures k <= |spots|
    ensures k < |spots| ==> spots[k].name == name
    ensures forall i | 0 <= i < k :: spots[i].name != name
  {
    if spots == [] then 0
    else if spots[0].name == name then 0
    else 1 + IndexOfName(spots[1..], name)
  }

  /** The position of the first occurrence of `spot`, or |spots| when it is absent. */
  function IndexOfSpot(spots: seq<StudySpot>, spot: StudySpot): (k: nat)
    ensures k <= |spots|
    ensures k < |spots| ==> spots[k] == spot
    ensures forall i | 0 <= i < k :: spots[i] != spot
  {
    if spots == [] then 0
    else if spots[0] == spot then 0
    else 1 + IndexOfSpot(spots[1..], spot)
  }

  /** A spot found at `k` and nowhere before is first found at `k`. */
  lemma FirstOccurrence(spots: seq<StudySpot>, spot: StudySpot, k: nat)
    requires k < |spots| && spots[k] == spot
    requires forall i | 0 <= i < k :: spots[i] != spot
    ensures IndexOfSpot(spots, spot) == k
  {
  }

  /** `spots` without the spot at `k`, the others in their order. */
  function RemoveAt(spots: seq<StudySpot>, k: nat): (r: seq<StudySpot>)
    requires k < |spots|
    ensures |r| == |spots| - 1
    ensures forall i | 0 <= i < k :: r[i] == spots[i]
    ensures forall i | k <= i < |r| :: r[i] == spots[i + 1]
  {
    spots[..k] + spots[k + 1..]
  }

  /**
   * Deleting the spot named `name` keeps the names unique, leaves no spot with that
   * name and keeps every other spot.
   */
  lemma DeletedNameIsGone(spots: seq<StudySpot>, name: string)
    requires UniqueNames(spots)
    requires IndexOfName(spots, name) < |spots|
    ensures var r := RemoveAt(spots, IndexOfName(spots, name));
      && UniqueNames(r)
      && (forall i | 0 <= i < |r| :: r[i].name != name)
      && multiset(r) + multiset{spots[IndexOfName(spots, name)]} == multiset(spots)
  {
    var k := IndexOfName(spots, name);
    var r := RemoveAt(spots, k);
    assert spots == spots[..k] + [spots[k]] + spots[k + 1..];
    forall i | k <= i < |r| ensures r[i].name != name {
      assert r[i] == spots[i + 1] && k < i + 1;
    }
  }

  /**
   * On unique names, the favourite path of the command, which swaps in the
   * unfavourited copy and then deletes that copy, removes the same position as
   * deleting the found spot directly.
   */
  lemma UnfavouriteThenDelete(spots: seq<StudySpot>, k: nat)
    requires UniqueNames(spots) && k < |spots|
    ensures var unfav := spots[k].(isFavourite := false);
      && IndexOfSpot(spots, spots[k]) == k
      && IndexOfSpot(spots[k := unfav], unfav) == k
      && RemoveAt(spots[k := unfav], k) == RemoveAt(spots, k)
  {
    var unfav := spots[k].(isFavourite := false);
    var swapped := spots[k := unfav];
    forall i | 0 <= i < k ensures swapped[i] != unfav && spots[i] != spots[k] {
      assert spots[i].name != spots[k].name;
    }
    FirstOccurrence(spots, spots[k], k);
    FirstOccurrence(swapped, unfav, k);
    assert RemoveAt(swapped, k) == RemoveAt(spots, k);
  }

  /** The model the command works on: the study tracker's spots. */
  class StudyTracker {
    var spots: seq<StudySpot>

    ghost predicate Valid()
      reads this
    {
      UniqueNames(spots)
    }

    constructor(spots: seq<StudySpot>)
      requires UniqueNames(spots)
      ensures Valid() && this.spots == spots
    {
      this.spots := spots;
    }

    /** findStudySpot: the spot called `name`, or None standing for null. */
    function FindStudySpot(name: string): (r: Option<StudySpot>)
      reads this
      ensures r.Some? <==> exists i | 0 <= i < |spots| :: spots[i].name == name
      ensures r.Some? ==> r.value in spots && r.value.name == name
    {
      var k := IndexOfName(spots, name);
      if k < |spots| then Some(spots[k]) else None
    }

    /** removeStudySpotFromFavourites: puts the unfavourited copy in the spot's place and returns it. */
    method RemoveStudySpotFromFavourites(spot: StudySpot) returns (unfav: StudySpot)
      requires Valid() && spot in spots
      modifies this
      ensures Valid()
      ensures unfav == spot.(isFavourite := false)
      ensures spots == old(spots)[IndexOfSpot(old(spots), spot) := unfav]
    {
      unfav := spot.(isFavourite := false);
      spots := spots[IndexOfSpot(spots, spot) := unfav];
    }

    /** deleteStudySpot: removes the spot, which must be in the tracker. */
    method DeleteStudySpot(target: StudySpot)
      requires Valid() && target in spots
      modifies this
      ensures Valid()
      ensures spots == RemoveAt(old(spots), IndexOfSpot(old(spots), target))
    {
      spots := RemoveAt(spots, IndexOfSpot(spots, target));
    }
  }

  /** A delete command, which carries only the name of the spot to delete. */
  datatype DeleteCommand = DeleteCommand(name: string)

  /**
   * execute: an unknown name fails with InvalidName and changes nothing; a known one
   * removes that spot, and only that spot, whether or not it was a favourite, and
   * reports its name.
   */
  method Execute(command: DeleteCommand, model: StudyTracker) returns (r: Result<string, CommandException>)
    requires model.Valid()
    modifies model
    ensures model.Valid()
    ensures var k := IndexOfName(old(model.spots), command.name);
      if k == |old(model.spots)| then
        r == Failure(InvalidName) && model.spots == old(model.spots)
      else
        && r == Success(MESSAGE_DELETE_STUDYSPOT_SUCCESS_PREFIX + command.name)
        && model.spots == RemoveAt(old(model.spots), k)
  {
    var found := model.FindStudySpot(command.name);
    if found.None? {
      return Failure(InvalidName);
    }
    var studySpotToDelete := found.value;
    var k := IndexOfName(model.spots, command.name);
    UnfavouriteThenDelete(model.spots, k);
    DeletedNameIsGone(model.spots, command.name);
    if studySpotToDelete.isFavourite {
      var unfavStudySpot := model.RemoveStudySpotFromFavourites(studySpotToDelete);
      model.DeleteStudySpot(unfavStudySpot);
    } else {
      model.DeleteStudySpot(studySpotToDelete);
    }
    r := Success(MESSAGE_DELETE_STUDYSPOT_SUCCESS_PREFIX + studySpotToDelete.name);
  }

  /** equals: two delete commands are equal when they name the same spot. */
  function Equals(a: DeleteCommand, b: DeleteCommand): (r: bool)
    ensures r <==> a == b
  {
    a.name == b.name
  }

  /**
   * Equal delete commands find and remove the same spot from any tracker; unequal ones
   * that both find a spot in a tracker with unique names remove different spots and so
   * leave different trackers.
   */
  lemma EqualCommandsDeleteAlike(a: DeleteCommand, b: DeleteCommand, spots: seq<StudySpot>)
    requires UniqueNames(spots)
    ensures Equals(a, b) ==> IndexOfName(spots, a.name) == IndexOfName(spots, b.name)
    ensures !Equals(a, b) && IndexOfName(spots, a.name) < |spots| && IndexOfName(spots, b.name) < |spots| ==>
      RemoveAt(spots, IndexOfName(spots, a.name)) != RemoveAt(spots, IndexOfName(spots, b.name))
  {
    var ka, kb := IndexOfName(spots, a.name), IndexOfName(spots, b.name);
    if !Equals(a, b) && ka < |spots| && kb < |spots| {
      DeletedNameIsGone(spots, a.name);
      var ra, rb := RemoveAt(spots, ka), RemoveAt(spots, kb);
      var j := if ka < kb then ka else ka - 1;
      assert rb[j] == spots[ka] && ra[j].name != a.name;
    }
  }
}
