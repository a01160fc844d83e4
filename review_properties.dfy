/**
 * What the review routes guarantee, stated over the store transitions
 * AddReviewStep and DeleteReviewStep that the ReviewService methods are proved to follow.
 */
module ReviewProperties {
  import opened ReviewModel
  import opened ReviewRouter

  /** A product's stored rating is the exact mean grade of its active reviews. */
  ghost predicate RatingIsMean(s: Store, productId: int) {
    var active := ActiveReviewsOf(s.reviews, productId);
    forall p :: p in s.products && p.id == productId ==> |active| > 0 && p.rating == Some(Mean(active))
  }

  // ---------------------------------------------------------------------------
  // Selections and sums under appending a row

  lemma {:induction false} ActiveReviewsOfAppend(rs: seq<Review>, r: Review, productId: int)
    ensures ActiveReviewsOf(rs + [r], productId)
            == ActiveReviewsOf(rs, productId) + (if r.isActive && r.productId == productId then [r] else [])
  {
    if rs == [] {
      assert rs + [r] == [r];
      assert [r][1..] == [];
    } else {
      var head := if rs[0].isActive && rs[0].productId == productId then [rs[0]] else [];
      var tail := if r.isActive && r.productId == productId then [r] else [];
      assert (rs + [r])[0] == rs[0] && (rs + [r])[1..] == rs[1..] + [r];
      ActiveReviewsOfAppend(rs[1..], r, productId);
      assert ActiveReviewsOf(rs + [r], productId) == head + (ActiveReviewsOf(rs[1..], productId) + tail);
      assert head + (ActiveReviewsOf(rs[1..], productId) + tail) == (head + ActiveReviewsOf(rs[1..], productId)) + tail;
    }
  }

  /** The sum of n grades that each lie in [lo, hi] lies in [n*lo, n*hi]. */
  lemma {:induction false} GradeSumBounds(rs: seq<Review>, lo: int, hi: int)
    requires forall x :: x in rs ==> lo <= x.grade <= hi
    ensures |rs| * lo <= GradeSum(rs) <= |rs| * hi
  {
    if rs != [] {
      var rest := rs[1..];
      assert forall x :: x in rest ==> x in rs;
      GradeSumBounds(rest, lo, hi);
      assert rs[0] in rs;
      MulSucc(|rest|, lo);
      MulSucc(|rest|, hi);
    }
  }

  lemma MulSucc(n: int, c: int)
    ensures (n + 1) * c == n * c + c
  {
  }

  /** The rating never leaves the range of the grades it averages. */
  lemma MeanWithinGrades(rs: seq<Review>, lo: int, hi: int)
    requires |rs| > 0
    requires forall x :: x in rs ==> lo <= x.grade <= hi
    ensures lo as real <= Mean(rs) <= hi as real
  {
    GradeSumBounds(rs, lo, hi);
    var n, sum := |rs|, GradeSum(rs);
    QuotientBounds(sum, n, lo, hi);
    assert Mean(rs) == sum as real / n as real;
  }

  /** Integer bounds n*lo <= sum <= n*hi carry over to the exact quotient sum / n. */
  lemma QuotientBounds(sum: int, n: int, lo: int, hi: int)
    requires n > 0
    requires n * lo <= sum <= n * hi
    ensures lo as real <= sum as real / n as real <= hi as real
  {
  }

  // ---------------------------------------------------------------------------
  // add_review

  /** The role is checked first, then the product; either failure leaves the store as it was. */
  lemma AddReviewGuards(s: Store, caller: Caller, productId: int, comment: Option<string>, grade: int)
    ensures var (response, s') := AddReviewStep(s, caller, productId, comment, grade);
      && (response.Forbidden? <==> !caller.isCustomer)
      && (response.NotFound? <==>
            caller.isCustomer && forall p :: p in s.products ==> !(p.isActive && p.id == productId))
      && (response.Ok? <==>
            caller.isCustomer && exists p :: p in s.products && p.isActive && p.id == productId)
      && (!response.Ok? ==> s' == s)
  {
  }

  /** A successful submission appends exactly one fresh, active review and keeps the key unique. */
  lemma AddReviewInserts(s: Store, caller: Caller, productId: int, comment: Option<string>, grade: int)
    requires WellFormed(s)
    requires AddReviewStep(s, caller, productId, comment, grade).0.Ok?
    ensures var s' := AddReviewStep(s, caller, productId, comment, grade).1;
      && s'.reviews == s.reviews + [Review(s.nextId, caller.id, productId, comment, grade, true)]
      && (forall x :: x in s.reviews ==> x.id != s.nextId)
      && s'.nextId > s.nextId
      && WellFormed(s')
  {
  }

  /** Unfolds a successful submission into the store it produces (a helper for the lemmas below). */
  lemma AddReviewOk(s: Store, caller: Caller, productId: int, comment: Option<string>, grade: int)
    requires AddReviewStep(s, caller, productId, comment, grade).0.Ok?
    ensures var reviews := s.reviews + [Review(s.nextId, caller.id, productId, comment, grade, true)];
      AddReviewStep(s, caller, productId, comment, grade).1
      == Store(reviews, SetRating(s.products, productId, Mean(ActiveReviewsOf(reviews, productId))), s.nextId + 1)
  {
  }

  /**
   * After a successful submission every row of the product holds the mean grade of its
   * active reviews, which are the earlier ones plus the new one; nothing else in the
   * products table changes.
   */
  lemma AddReviewRating(s: Store, caller: Caller, productId: int, comment: Option<string>, grade: int)
    requires AddReviewStep(s, caller, productId, comment, grade).0.Ok?
    ensures var s' := AddReviewStep(s, caller, productId, comment, grade).1;
      var before := ActiveReviewsOf(s.reviews, productId);
      var after := ActiveReviewsOf(s'.reviews, productId);
      && after == before + [Review(s.nextId, caller.id, productId, comment, grade, true)]
      && |after| >= 1
      && GradeSum(after) == GradeSum(before) + grade
      && |s'.products| == |s.products|
      && (forall i :: 0 <= i < |s.products| && s.products[i].id == productId ==>
            s'.products[i] == s.products[i].(rating := Some(Mean(after))))
      && (forall i :: 0 <= i < |s.products| && s.products[i].id != productId ==>
            s'.products[i] == s.products[i])
      && RatingIsMean(s', productId)
  {
    AddReviewOk(s, caller, productId, comment, grade);
    var added := Review(s.nextId, caller.id, productId, comment, grade, true);
    var before := ActiveReviewsOf(s.reviews, productId);
    ActiveReviewsOfAppend(s.reviews, added, productId);
    var after := before + [added];
    GradeSumAppend(before, added);
    RatedRowsHoldRating(s.products, productId, Mean(after));
  }

  /** After the rating update every row with the product's id holds the new rating. */
  lemma RatedRowsHoldRating(ps: seq<Product>, productId: int, rating: real)
    ensures forall p :: p in SetRating(ps, productId, rating) && p.id == productId ==> p.rating == Some(rating)
  {
  }

  /** Rows with another id come through the rating update unchanged. */
  lemma OtherRowsUnrated(ps: seq<Product>, productId: int, rating: real, other: int)
    requires other != productId
    ensures forall p :: p in SetRating(ps, productId, rating) && p.id == other ==> p in ps
  {
  }

  /** Submitting a review for one product keeps every other product's rating consistent. */
  lemma AddReviewKeepsOtherRatings(s: Store, caller: Caller, productId: int, comment: Option<string>,
                                   grade: int, other: int)
    requires other != productId
    requires RatingIsMean(s, other)
    requires AddReviewStep(s, caller, productId, comment, grade).0.Ok?
    ensures RatingIsMean(AddReviewStep(s, caller, productId, comment, grade).1, other)
  {
    AddReviewOk(s, caller, productId, comment, grade);
    var added := Review(s.nextId, caller.id, productId, comment, grade, true);
    var after := ActiveReviewsOf(s.reviews + [added], productId);
    ActiveReviewsOfAppend(s.reviews, added, other);
    var active := ActiveReviewsOf(s.reviews, other);
    assert ActiveReviewsOf(s.reviews + [added], other) == active by {
      assert active + [] == active;
    }
    var ps' := SetRating(s.products, productId, Mean(after));
    OtherRowsUnrated(s.products, productId, Mean(after), other);
    forall p | p in ps' && p.id == other ensures |active| > 0 && p.rating == Some(Mean(active)) {
      assert p in s.products;
    }
  }

  /**
   * The aggregate invariant: when every product's rating is the mean of its active grades,
   * a successful submission keeps it so for every product.
   */
  lemma AddReviewKeepsAllRatings(s: Store, caller: Caller, productId: int, comment: Option<string>, grade: int)
    requires forall q :: RatingIsMean(s, q)
    requires AddReviewStep(s, caller, productId, comment, grade).0.Ok?
    ensures forall q :: RatingIsMean(AddReviewStep(s, caller, productId, comment, grade).1, q)
  {
    forall q ensures RatingIsMean(AddReviewStep(s, caller, productId, comment, grade).1, q) {
      if q == productId {
        AddReviewRating(s, caller, productId, comment, grade);
      } else {
        AddReviewKeepsOtherRatings(s, caller, productId, comment, grade, q);
      }
    }
  }

  // ---------------------------------------------------------------------------
  // delete_reviews

  /**
   * The review is looked up by id regardless of its flag, before the role is checked;
   * either failure leaves the store as it was. Retiring an already retired review succeeds.
   */
  lemma DeleteReviewGuards(s: Store, caller: Caller, reviewId: int)
    ensures var (response, s') := DeleteReviewStep(s, caller, reviewId);
      && (response.NotFound? <==> forall x :: x in s.reviews ==> x.id != reviewId)
      && (response.Forbidden? <==> (exists x :: x in s.reviews && x.id == reviewId) && !caller.isAdmin)
      && (response.Ok? <==> (exists x :: x in s.reviews && x.id == reviewId) && caller.isAdmin)
      && (!response.Ok? ==> s' == s)
  {
  }

  /**
   * A successful deletion clears the flag of that one review and changes nothing else:
   * no other review, no product and so no rating, which may therefore go stale.
   * The retired review disappears from both listings.
   */
  lemma DeleteReviewRetires(s: Store, caller: Caller, reviewId: int)
    requires WellFormed(s)
    requires DeleteReviewStep(s, caller, reviewId).0.Ok?
    ensures var s' := DeleteReviewStep(s, caller, reviewId).1;
      && s'.products == s.products
      && s'.nextId == s.nextId
      && |s'.reviews| == |s.reviews|
      && (forall i :: 0 <= i < |s.reviews| ==>
            s'.reviews[i] == if s.reviews[i].id == reviewId then s.reviews[i].(isActive := false) else s.reviews[i])
      && WellFormed(s')
      && (forall x :: x in AllReviews(s') ==> x.id != reviewId)
      && (forall slug :: ProductsReviews(s', slug).Ok? ==>
            forall x :: x in ProductsReviews(s', slug).value ==> x.id != reviewId)
  {
  }

  // ---------------------------------------------------------------------------
  // The staleness the deletion route leaves behind, as a concrete scenario proved step by step:
  // product "widget" gets grades 4 and 2, then an admin retires the grade-4 review.

  const Widget := Product(7, "widget", true, None)
  const Shopper := Caller(10, true, false)
  const Admin := Caller(1, false, true)
  const FirstReview := Review(1, 10, 7, None, 4, true)
  const SecondReview := Review(2, 10, 7, None, 2, true)

  const Empty := Store([], [Widget], 1)
  const AfterFirst := Store([FirstReview], [Widget.(rating := Some(4.0))], 2)
  const AfterSecond := Store([FirstReview, SecondReview], [Widget.(rating := Some(3.0))], 3)
  const AfterRetire := Store([FirstReview.(isActive := false), SecondReview], [Widget.(rating := Some(3.0))], 3)

  /** The first review, grade 4, sets the rating to 4.0. */
  lemma WidgetFirstReview()
    ensures AddReviewStep(Empty, Shopper, 7, None, 4) == (Ok(()), AfterFirst)
  {
    assert FindActiveById([Widget], 7) == Some(Widget);
    AddReviewOk(Empty, Shopper, 7, None, 4);
    assert [] + [FirstReview] == [FirstReview];
    assert ActiveReviewsOf([FirstReview], 7) == [FirstReview] by {
      assert [FirstReview][1..] == [];
    }
    assert Mean([FirstReview]) == 4.0 by {
      assert [FirstReview][1..] == [];
      assert GradeSum([FirstReview]) == 4 && |[FirstReview]| == 1;
    }
    assert SetRating([Widget], 7, 4.0) == [Widget.(rating := Some(4.0))] by {
      var rated := SetRating([Widget], 7, 4.0);
      assert |rated| == 1 && rated[0] == Widget.(rating := Some(4.0));
    }
  }

  /** The second review, grade 2, sets the rating to the mean 3.0. */
  lemma WidgetSecondReview()
    ensures AddReviewStep(AfterFirst, Shopper, 7, None, 2) == (Ok(()), AfterSecond)
  {
    var rated := Widget.(rating := Some(4.0));
    assert FindActiveById([rated], 7) == Some(rated);
    AddReviewOk(AfterFirst, Shopper, 7, None, 2);
    var both := [FirstReview] + [SecondReview];
    assert both == [FirstReview, SecondReview];
    assert ActiveReviewsOf(both, 7) == both by {
      assert ActiveReviewsOf([FirstReview], 7) == [FirstReview] by {
        assert [FirstReview][1..] == [];
      }
      ActiveReviewsOfAppend([FirstReview], SecondReview, 7);
    }
    assert Mean(both) == 3.0 by {
      GradeSumAppend([FirstReview], SecondReview);
      assert GradeSum(both) == 6 && |both| == 2;
    }
    assert SetRating([rated], 7, 3.0) == [Widget.(rating := Some(3.0))] by {
      var rerated := SetRating([rated], 7, 3.0);
      assert |rerated| == 1 && rerated[0] == Widget.(rating := Some(3.0));
    }
  }

  /** Retiring the grade-4 review succeeds and leaves the products table as it was. */
  lemma WidgetRetireFirst()
    ensures DeleteReviewStep(AfterSecond, Admin, 1) == (Ok(()), AfterRetire)
  {
    assert FindReview([FirstReview, SecondReview], 1) == Some(0);
    assert [FirstReview, SecondReview][0 := FirstReview.(isActive := false)]
           == [FirstReview.(isActive := false), SecondReview];
  }

  /** Before the deletion the stored rating is the mean of the active grades. */
  lemma RatingFreshBeforeDelete()
    ensures RatingIsMean(AfterSecond, 7)
  {
    WidgetFirstReview();
    WidgetSecondReview();
    AddReviewRating(AfterFirst, Shopper, 7, None, 2);
  }

  /** Once the grade-4 review is retired, only the grade-2 review of the widget is active. */
  lemma ActiveAfterRetire()
    ensures ActiveReviewsOf(AfterRetire.reviews, 7) == [SecondReview]
  {
  }

  /** After the deletion the product's listing shows only the grade-2 review. */
  lemma ListingAfterDelete()
    ensures ProductsReviews(AfterRetire, "widget") == Ok([SecondReview])
  {
    var rated := Widget.(rating := Some(3.0));
    assert FindActiveBySlug([rated], "widget") == Some(rated);
    ActiveAfterRetire();
  }

  /** The rating stays 3.0 after the deletion, which is no longer the mean of the active grades. */
  lemma StaleRatingAfterDelete()
    ensures AfterRetire.products == AfterSecond.products
    ensures !RatingIsMean(AfterRetire, 7)
  {
    ActiveAfterRetire();
    assert Mean([SecondReview]) == 2.0 by {
      assert [SecondReview][1..] == [];
      assert GradeSum([SecondReview]) == 2 && |[SecondReview]| == 1;
    }
    assert Widget.(rating := Some(3.0)) in AfterRetire.products;
  }
}
