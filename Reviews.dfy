/**
 * The reviews list of a place page: new reviews are put in front, each card
 * shows five stars of which the first `rating` are filled, and the author is
 * shown by the part of the e-mail address before the `@`.
 */
module Reviews {
  import opened Basics
  import opened Text

  /** A review as the page receives it; `comment` may be NULL and `createdAt` is a timestamp. */
  datatype Review = Review(
    id: int,
    placeId: int,
    userId: string,
    userEmail: string,
    rating: int,
    comment: Option<string>,
    createdAt: int)

  /** `[newReview, ...prev]`. */
  function AddReview(reviews: seq<Review>, newReview: Review): (next: seq<Review>)
    ensures |next| == |reviews| + 1
    ensures next[0] == newReview
    ensures next[1..] == reviews
  {
    [newReview] + reviews
  }

  /** How many stars a card shows. */
  const StarCount: nat := 5

  /** `Array.from({ length: 5 }).map((_, i) => i < rating)`: which of the five stars are filled. */
  function Stars(rating: int): (stars: seq<bool>)
    ensures |stars| == StarCount
  {
    seq(StarCount, i => i < rating)
  }

  /** How many entries of `s` are `true`. */
  function Filled(s: seq<bool>): nat {
    if s == [] then 0 else (if s[0] then 1 else 0) + Filled(s[1..])
  }

  /** A sequence of `n` filled stars followed only by empty ones has `n` filled. */
  lemma {:induction false} FilledPrefix(s: seq<bool>, n: int)
    requires 0 <= n <= |s|
    requires forall i :: 0 <= i < |s| ==> (s[i] <==> i < n)
    ensures Filled(s) == n
    decreases |s|
  {
    if s != [] {
      FilledPrefix(s[1..], if n == 0 then 0 else n - 1);
    }
  }

  /** The number of filled stars is the rating clamped to 0..5. */
  lemma FilledStars(rating: int)
    ensures Filled(Stars(rating)) == if rating < 0 then 0 else if rating > 5 then 5 else rating
  {
    var n := if rating < 0 then 0 else if rating > 5 then 5 else rating;
    FilledPrefix(Stars(rating), n);
  }

  /** `userEmail.split("@")[0]`. */
  function AuthorName(email: string): (name: string)
    ensures name <= email
    ensures '@' !in name
    ensures '@' in email ==> email[|name|] == '@'
    ensures '@' !in email ==> name == email
  {
    Split(email, '@')[0]
  }

  /** What a card of the list shows. */
  datatype Card = Card(stars: seq<bool>, author: string, comment: Option<string>)

  /** The section below the heading: the "No reviews yet." line, or one card per review. */
  datatype Listing = NoReviews | Cards(cards: seq<Card>)

  /** The list as rendered from `reviews`. */
  function Render(reviews: seq<Review>): (view: Listing)
    ensures view == NoReviews <==> reviews == []
    ensures view.Cards? ==> |view.cards| == |reviews|
    ensures view.Cards? ==> forall k :: 0 <= k < |reviews| ==>
      view.cards[k] == Card(Stars(reviews[k].rating), AuthorName(reviews[k].userEmail), reviews[k].comment)
  {
    if |reviews| > 0 then
      Cards(seq(|reviews|, k requires 0 <= k < |reviews| =>
        Card(Stars(reviews[k].rating), AuthorName(reviews[k].userEmail), reviews[k].comment)))
    else NoReviews
  }

  /** After a review is added the list shows cards, the new one first and the old ones after it in order. */
  lemma AddedReviewShown(reviews: seq<Review>, newReview: Review)
    ensures Render(AddReview(reviews, newReview)).Cards?
    ensures Render(AddReview(reviews, newReview)).cards[0].author == AuthorName(newReview.userEmail)
    ensures reviews != [] ==> Render(AddReview(reviews, newReview)).cards[1..] == Render(reviews).cards
  {
    var next := AddReview(reviews, newReview);
    if reviews != [] {
      assert forall k :: 0 <= k < |reviews| ==> next[k + 1] == reviews[k];
    }
  }
}
