/**
 * The like buttons of the suggestions page: a `Record<number, boolean>` of
 * liked recommendation ids, flipped one id per click.
 */
module LikeToggle {

  /** `!!likes[id]`: an id with no entry reads as not liked. */
  predicate IsLiked(likes: map<int, bool>, id: int) {
    id in likes && likes[id]
  }

  /** `{ ...prev, [id]: !prev[id] }`: the entry for `id` becomes the negation of its reading. */
  function Toggle(likes: map<int, bool>, id: int): (next: map<int, bool>)
    ensures next.Keys == likes.Keys + {id}
  {
    likes[id := !IsLiked(likes, id)]
  }

  /** The button's caption for a card. */
  function Label(liked: bool): string {
    if liked then "Apreciat" else "Like"
  }

  /** The button's variant for a card. */
  function Variant(liked: bool): string {
    if liked then "default" else "outline"
  }

  /** Toggling an id flips its liked status. */
  lemma ToggleFlips(likes: map<int, bool>, id: int)
    ensures IsLiked(Toggle(likes, id), id) <==> !IsLiked(likes, id)
  {
  }

  /** Toggling an id leaves every other id's entry as it was, present or absent. */
  lemma ToggleKeepsOthers(likes: map<int, bool>, id: int, other: int)
    requires other != id
    ensures other in Toggle(likes, id) <==> other in likes
    ensures other in likes ==> Toggle(likes, id)[other] == likes[other]
  {
  }

  /** Toggling the same id twice restores every id's liked status. */
  lemma ToggleTwice(likes: map<int, bool>, id: int, j: int)
    ensures IsLiked(Toggle(Toggle(likes, id), id), j) <==> IsLiked(likes, j)
  {
  }

  /** The state after clicking the ids of `clicks` in order, from `likes`. */
  function Clicks(likes: map<int, bool>, clicks: seq<int>): map<int, bool>
    decreases |clicks|
  {
    if clicks == [] then likes else Clicks(Toggle(likes, clicks[0]), clicks[1..])
  }

  /** How many times `id` occurs in `clicks`. */
  function Occurrences(clicks: seq<int>, id: int): nat {
    if clicks == [] then 0 else (if clicks[0] == id then 1 else 0) + Occurrences(clicks[1..], id)
  }

  /**
   * From the initial empty record, an id is liked exactly when it was clicked an
   * odd number of times; in particular an id never clicked reads as not liked.
   */
  lemma {:induction false} ClicksParity(likes: map<int, bool>, clicks: seq<int>, id: int)
    ensures IsLiked(Clicks(likes, clicks), id) <==> (IsLiked(likes, id) <==> Occurrences(clicks, id) % 2 == 0)
    decreases |clicks|
  {
    if clicks != [] {
      ClicksParity(Toggle(likes, clicks[0]), clicks[1..], id);
    }
  }

  /** The caption reads "Apreciat" exactly when the item is liked. */
  lemma LabelShowsLike(likes: map<int, bool>, id: int)
    ensures Label(IsLiked(likes, id)) == "Apreciat" <==> IsLiked(likes, id)
    ensures Variant(IsLiked(likes, id)) == "default" <==> IsLiked(likes, id)
  {
  }
}
