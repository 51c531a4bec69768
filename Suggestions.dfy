/**
 * `GET /api/suggestions`: places suggested to the caller, chosen by the
 * category of the place in the caller's first like row, defaulting to
 * restaurants, at most five of them.
 */
module Suggestions {
  import opened Basics
  import opened Preferences

  /** A row of the `places` table, reduced to what the selection reads; `category` is nullable. */
  datatype Place = Place(id: int, name: string, category: Option<string>)

  /** The answer: 401 with its message, or the suggested places. */
  datatype Suggestion =
    | NotSignedIn(error: string)
    | Suggested(places: seq<Place>)

  /** The category used when no liked place decides it. */
  const DefaultCategory: string := "restaurant"

  /** `.limit(5)`. */
  const Limit: nat := 5

  /** The caller's like rows, in table order. */
  function LikeRows(rows: seq<Preference>, user: string): (likes: seq<Preference>)
    ensures forall row :: row in likes <==> row in rows && row.userId == user && row.interactionType == Like
    ensures forall k :: 0 <= k < |likes| ==> likes[k].userId == user && likes[k].interactionType == Like
  {
    Filter(rows, (row: Preference) => row.userId == user && row.interactionType == Like)
  }

  /**
   * `likedPlace?.[0]?.category ?? "restaurant"`: the category of the first
   * catalog place whose id is the first like row's place id, when that id is a
   * truthy number, the place exists and its category is not NULL.
   */
  function TargetCategory(likes: seq<Preference>, catalog: seq<Place>): string {
    var firstLiked := if likes == [] then None else likes[0].placeId;
    var likedPlace := if Truthy(firstLiked) then Filter(catalog, (p: Place) => p.id == firstLiked.value) else [];
    if likedPlace != [] && likedPlace[0].category.Some? then likedPlace[0].category.value else DefaultCategory
  }

  /** The places of `catalog` in category `c`, in catalog order. */
  function InCategory(catalog: seq<Place>, c: string): seq<Place> {
    Filter(catalog, (p: Place) => p.category == Some(c))
  }

  /** The route's answer for caller `userId`, preference rows `rows` and the places `catalog`. */
  function Suggest(userId: Option<string>, rows: seq<Preference>, catalog: seq<Place>): (r: Suggestion)
    ensures !SignedIn(userId) <==> r == NotSignedIn("You must be logged in to get suggestions")
    ensures r.Suggested? ==> |r.places| <= Limit
    ensures r.Suggested? ==> forall p :: p in r.places ==>
      p in catalog && p.category == Some(TargetCategory(LikeRows(rows, userId.value), catalog))
  {
    if !SignedIn(userId) then NotSignedIn("You must be logged in to get suggestions")
    else
      var target := TargetCategory(LikeRows(rows, userId.value), catalog);
      Suggested(Take(InCategory(catalog, target), Limit))
  }

  /**
   * The suggestions are the leading places of the target category: the first
   * five of them when there are five or more, all of them otherwise.
   */
  lemma SuggestedAreFirstMatches(user: string, rows: seq<Preference>, catalog: seq<Place>)
    requires user != ""
    ensures var target := TargetCategory(LikeRows(rows, user), catalog);
      var matches := InCategory(catalog, target);
      var places := Suggest(Some(user), rows, catalog).places;
      |places| == (if Count(catalog, (p: Place) => p.category == Some(target)) < Limit then Count(catalog, (p: Place) => p.category == Some(target)) else Limit)
      && forall k :: 0 <= k < |places| ==> places[k] == matches[k]
  {
    var target := TargetCategory(LikeRows(rows, user), catalog);
    CountIsFilterLength(catalog, (p: Place) => p.category == Some(target));
  }

  /** When no like row exists, restaurants are suggested. */
  lemma NoLikesMeansRestaurants(catalog: seq<Place>)
    ensures TargetCategory([], catalog) == DefaultCategory
  {
  }

  /**
   * The target is the category of the first like row's place: the first
   * catalog place carrying that id, when the id is truthy and the category set.
   */
  lemma TargetOfLikedPlace(likes: seq<Preference>, catalog: seq<Place>, k: int)
    requires likes != [] && Truthy(likes[0].placeId)
    requires 0 <= k < |catalog| && catalog[k].id == likes[0].placeId.value && catalog[k].category.Some?
    requires forall j :: 0 <= j < k ==> catalog[j].id != catalog[k].id
    ensures TargetCategory(likes, catalog) == catalog[k].category.value
  {
    var id := likes[0].placeId.value;
    FilterFirst(catalog, (p: Place) => p.id == id, k);
  }

  /**
   * A target other than restaurants comes from a liked place: the first like
   * row names, by a truthy id, a catalog place of that category.
   */
  lemma TargetFromLikedPlace(likes: seq<Preference>, catalog: seq<Place>)
    requires TargetCategory(likes, catalog) != DefaultCategory
    ensures likes != [] && Truthy(likes[0].placeId)
    ensures exists p :: p in catalog && p.id == likes[0].placeId.value && p.category == Some(TargetCategory(likes, catalog))
  {
    var id := likes[0].placeId.value;
    var likedPlace := Filter(catalog, (p: Place) => p.id == id);
    assert likedPlace[0] in likedPlace;
  }

  /**
   * Only the first like row is consulted: rows after it never change the
   * target, so a first row with no place id means restaurants even when later
   * rows like places.
   */
  lemma FirstLikeOnly(first: Preference, rest: seq<Preference>, other: seq<Preference>, catalog: seq<Place>)
    ensures TargetCategory([first] + rest, catalog) == TargetCategory([first] + other, catalog)
    ensures first.placeId == None ==> TargetCategory([first] + rest, catalog) == DefaultCategory
  {
    assert ([first] + rest)[0] == first && ([first] + other)[0] == first;
  }

  /**
   * Already-liked places are not excluded: a liked place that leads the
   * catalog is among the suggestions.
   */
  lemma LikedPlaceSuggested(user: string, rows: seq<Preference>, liked: Place, rest: seq<Place>)
    requires user != ""
    requires var likes := LikeRows(rows, user); likes != [] && likes[0].placeId == Some(liked.id)
    requires liked.id != 0 && liked.category.Some?
    ensures liked in Suggest(Some(user), rows, [liked] + rest).places
  {
    var catalog := [liked] + rest;
    TargetOfLikedPlace(LikeRows(rows, user), catalog, 0);
    assert InCategory(catalog, liked.category.value)[0] == liked;
  }

  /** An empty catalog suggests nothing, without an error. */
  lemma EmptyCatalog(user: string, rows: seq<Preference>)
    requires user != ""
    ensures Suggest(Some(user), rows, []) == Suggested([])
  {
  }
}
