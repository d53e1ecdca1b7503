/**
 * The product details page's own review: the rating dialog loads the
 * anonymous user's earlier review, and saving it updates that review in
 * place or puts a new one at the head of the list.
 */
module ProdDetails {
  import opened JsCore

  /** One entry of the product's review list. */
  datatype Review = Review(rating: JsNumber, comment: string, date: string, reviewerName: string, reviewerEmail: string)

  const AnonymousName: string := "Anonymous User"
  const AnonymousEmail: string := "anonymous@test.com"
  const NeedRatingMessage: string := "Please provide a rating."

  predicate IsAnonymous(r: Review) {
    r.reviewerName == AnonymousName
  }

  /** A rating is truthy unless it is 0 or NaN. */
  predicate TruthyNumber(n: JsNumber) {
    !n.NaN? && !n.IsZero()
  }

  /** `reviews.find((rev) => rev.reviewerName === "Anonymous User")`, as an index. */
  function FindAnonymous(rs: seq<Review>): (r: Option<nat>)
    ensures r.Some? ==> r.value < |rs| && IsAnonymous(rs[r.value])
    ensures r.Some? ==> forall j :: 0 <= j < r.value ==> !IsAnonymous(rs[j])
    ensures r.None? ==> forall j :: 0 <= j < |rs| ==> !IsAnonymous(rs[j])
  {
    if rs == [] then None
    else if IsAnonymous(rs[0]) then Some(0)
    else match FindAnonymous(rs[1..])
      case None => None
      case Some(i) => Some(i + 1)
  }

  /** The review list after saving rating, comment and time stamp for the anonymous user. */
  function Upsert(rs: seq<Review>, rating: JsNumber, comment: string, now: string): seq<Review> {
    match FindAnonymous(rs)
    case Some(i) => rs[i := rs[i].(rating := rating, comment := comment, date := now)]
    case None => [Review(rating, comment, now, AnonymousName, AnonymousEmail)] + rs
  }

  /** The number of anonymous reviews in the list. */
  function AnonymousCount(rs: seq<Review>): nat {
    if rs == [] then 0 else (if IsAnonymous(rs[0]) then 1 else 0) + AnonymousCount(rs[1..])
  }

  /** An existing anonymous review is updated where it stands; nothing else moves or changes. */
  lemma UpsertUpdatesFirstAnonymous(rs: seq<Review>, rating: JsNumber, comment: string, now: string)
    requires FindAnonymous(rs).Some?
    ensures |Upsert(rs, rating, comment, now)| == |rs|
    ensures forall j :: 0 <= j < |rs| && j != FindAnonymous(rs).value ==> Upsert(rs, rating, comment, now)[j] == rs[j]
    ensures Upsert(rs, rating, comment, now)[FindAnonymous(rs).value] ==
      Review(rating, comment, now, AnonymousName, rs[FindAnonymous(rs).value].reviewerEmail)
  {
  }

  /** Without an anonymous review, a new one heads the list and the old reviews follow unchanged. */
  lemma UpsertPrependsNew(rs: seq<Review>, rating: JsNumber, comment: string, now: string)
    requires FindAnonymous(rs).None?
    ensures |Upsert(rs, rating, comment, now)| == |rs| + 1
    ensures Upsert(rs, rating, comment, now)[0] == Review(rating, comment, now, AnonymousName, AnonymousEmail)
    ensures Upsert(rs, rating, comment, now)[1..] == rs
  {
  }

  /** Replacing a review by one of the same kind keeps the anonymous count. */
  lemma {:induction false} AnonymousCountUpdate(rs: seq<Review>, i: nat, x: Review)
    requires i < |rs| && IsAnonymous(x) == IsAnonymous(rs[i])
    ensures AnonymousCount(rs[i := x]) == AnonymousCount(rs)
  {
    if i > 0 {
      assert rs[i := x][1..] == rs[1..][i - 1 := x];
      AnonymousCountUpdate(rs[1..], i - 1, x);
    }
  }

  /** Without a match the count is zero. */
  lemma {:induction false} AnonymousCountNone(rs: seq<Review>)
    requires forall j :: 0 <= j < |rs| ==> !IsAnonymous(rs[j])
    ensures AnonymousCount(rs) == 0
  {
    if rs != [] {
      AnonymousCountNone(rs[1..]);
    }
  }

  /** After a save there is at least one anonymous review, and no more than before unless there were none. */
  lemma UpsertAnonymousCount(rs: seq<Review>, rating: JsNumber, comment: string, now: string)
    ensures AnonymousCount(Upsert(rs, rating, comment, now)) ==
      if AnonymousCount(rs) == 0 then 1 else AnonymousCount(rs)
  {
    match FindAnonymous(rs)
    case Some(i) =>
      AnonymousCountUpdate(rs, i, rs[i].(rating := rating, comment := comment, date := now));
      AnonymousCountFound(rs, i);
    case None =>
      AnonymousCountNone(rs);
      var r := Upsert(rs, rating, comment, now);
      assert r[1..] == rs;
  }

  /** A list with an anonymous review at i counts at least one. */
  lemma {:induction false} AnonymousCountFound(rs: seq<Review>, i: nat)
    requires i < |rs| && IsAnonymous(rs[i])
    ensures AnonymousCount(rs) >= 1
  {
    if i > 0 {
      AnonymousCountFound(rs[1..], i - 1);
    }
  }

  /** The saved review is the one the dialog loads next time. */
  lemma UpsertThenFind(rs: seq<Review>, rating: JsNumber, comment: string, now: string)
    ensures FindAnonymous(Upsert(rs, rating, comment, now)).Some?
    ensures Upsert(rs, rating, comment, now)[FindAnonymous(Upsert(rs, rating, comment, now)).value].rating == rating
    ensures Upsert(rs, rating, comment, now)[FindAnonymous(Upsert(rs, rating, comment, now)).value].comment == comment
  {
    var r := Upsert(rs, rating, comment, now);
    match FindAnonymous(rs)
    case Some(i) =>
      assert IsAnonymous(r[i]);
      assert forall j :: 0 <= j < i ==> r[j] == rs[j];
    case None =>
      assert IsAnonymous(r[0]);
  }

  /** How onSaveReviewDialog ended. */
  datatype SaveOutcome =
    | NeedRating          // the "Please provide a rating." box; nothing saved
    | Saved               // the dialog closes
    | NoReviewList        // `aReviews.find` on a missing list throws; the error box shows its message

  /** The rating dialog's part of the product details model. */
  class ReviewModel {
    var userRating: JsNumber
    var userComment: string
    var reviewPresent: bool
    /** `/reviews`; None while the product has no review list. */
    var reviews: Option<seq<Review>>

    /** The fields getProdDetails adds to the fetched product. */
    constructor (reviews: Option<seq<Review>>)
      ensures userRating == Finite(0.0) && userComment == "" && !reviewPresent && this.reviews == reviews
    {
      userRating := Finite(0.0);
      userComment := "";
      reviewPresent := false;
      this.reviews := reviews;
    }

    /** checkUserReview: load the anonymous user's earlier review, if there is one. */
    method CheckUserReview()
      modifies this
      ensures reviews == old(reviews)
      ensures var rs := old(reviews).GetOr([]);
        FindAnonymous(rs).Some? ==>
          userRating == rs[FindAnonymous(rs).value].rating
          && userComment == rs[FindAnonymous(rs).value].comment && reviewPresent
      ensures FindAnonymous(old(reviews).GetOr([])).None? ==>
        userRating == old(userRating) && userComment == old(userComment) && reviewPresent == old(reviewPresent)
    {
      var aReviews := reviews.GetOr([]);
      var found := FindAnonymous(aReviews);
      if found.Some? {
        userRating := aReviews[found.value].rating;
        userComment := aReviews[found.value].comment;
        reviewPresent := true;
      }
    }

    /** onCancelReviewDialog: the dialog's inputs are cleared. */
    method CancelReviewDialog()
      modifies this
      ensures userRating == Finite(0.0) && userComment == ""
      ensures reviewPresent == old(reviewPresent) && reviews == old(reviews)
    {
      userRating := Finite(0.0);
      userComment := "";
    }

    /**
     * onSaveReviewDialog with `now` = the current time as ISO text: a falsy
     * rating is refused; otherwise the trimmed comment is saved as the
     * anonymous review and reviewPresent is set.
     */
    method SaveReviewDialog(now: string) returns (outcome: SaveOutcome)
      modifies this
      ensures !TruthyNumber(old(userRating)) ==> outcome == NeedRating
      ensures TruthyNumber(old(userRating)) && old(reviews).None? ==> outcome == NoReviewList
      ensures outcome != Saved ==> reviews == old(reviews) && reviewPresent == old(reviewPresent)
      ensures TruthyNumber(old(userRating)) && old(reviews).Some? ==>
        outcome == Saved && reviewPresent
        && reviews == Some(Upsert(old(reviews).value, old(userRating), Trim(old(userComment)), now))
      ensures userRating == old(userRating) && userComment == old(userComment)
    {
      var iRating := userRating;
      var sComment := Trim(userComment);
      if !TruthyNumber(iRating) {
        return NeedRating;
      }
      if reviews.None? {
        return NoReviewList;
      }
      var aReviews := reviews.value;
      var existing := FindAnonymous(aReviews);
      if existing.Some? {
        var i := existing.value;
        aReviews := aReviews[i := aReviews[i].(rating := iRating, comment := sComment, date := now)];
      } else {
        aReviews := [Review(iRating, sComment, now, AnonymousName, AnonymousEmail)] + aReviews;
      }
      reviews := Some(aReviews);
      reviewPresent := true;
      outcome := Saved;
    }
  }
}
