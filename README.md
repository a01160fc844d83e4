# Product reviews service — a Dafny model

This project models the review routes of a small e-commerce API:

- listing every active review;
- listing the active reviews of the active product with a given slug;
- submitting a review, which only a customer may do;
- retiring (soft-deleting) a review, which only an admin may do.

Submitting a review recomputes the product's rating as the mean grade of its active reviews. Retiring a review does not recompute it.

The database is an in-memory `Store` with three parts:

- the reviews table, as a sequence in insertion order;
- the products table, as a sequence;
- the counter that hands out fresh review ids, standing in for the primary key's autoincrement.

A request that fails aborts its transaction. So in the model, every error leaves the store exactly as it was.

Layout:

- `review_model.dfy`, module `ReviewModel`: the `Review` record and its column defaults, and the primary-key predicates `UniqueIds` and `IdsBelow`.
- `review_router.dfy`, module `ReviewRouter`:
  - the `Caller`, `Product` and `Response` types (`Ok` / `NotFound` / `Forbidden`);
  - the table selections and the two read-only routes as functions;
  - the grade-sum loop as the method `SumGrades`;
  - the two state-changing routes as the transition functions `AddReviewStep` and `DeleteReviewStep`;
  - the class `ReviewService`. It holds the store in fields, and its methods `AddReview` and `DeleteReview` update those fields in place. Each method is proved to follow its transition function and to keep the primary-key invariant.
- `review_properties.dfy`, module `ReviewProperties`:
  - what the routes guarantee, as lemmas over the transition functions: guard order, "an error changes nothing", the inserted row, the rating as an exact mean, and "nothing else changes";
  - a concrete scenario, proved step by step, showing that the rating goes stale after a deletion.

The rating is an exact `real` (`Option<real>`), not a float. The model leaves a product's rating before its first review unconstrained: this service never writes it. The widget scenario starts from `None`.

## Model

| member | source | states |
|---|---|---|
| ReviewModel.NewReview | app/models/reviews.py:9-21 | a newly inserted review is active by default; it keeps the given id, user, product, optional comment and any integer grade |
| ReviewModel.AppendFreshId | app/models/reviews.py:12 | a review carrying the store's next id differs in id from every stored review, and appending it keeps ids unique and below the advanced counter |
| ReviewRouter.ActiveReviews | app/routers/reviews.py:20 | a review is selected exactly when it is stored and active |
| ReviewRouter.ActiveReviewsCount | app/routers/reviews.py:20 | an active review is selected exactly as many times as it is stored, and a retired one never |
| ReviewRouter.ActiveReviewsAllCounts | app/routers/reviews.py:20 | the same multiplicity fact for every review at once |
| ReviewRouter.ActiveReviewsOf | app/routers/reviews.py:32 | a review is selected exactly when it is stored, active and belongs to the given product |
| ReviewRouter.ActiveReviewsOfCount | app/routers/reviews.py:32 | an active review of the product is selected exactly as many times as it is stored; any other review never |
| ReviewRouter.ActiveReviewsOfAllCounts | app/routers/reviews.py:32 | the same multiplicity fact for every review at once |
| ReviewRouter.FindActiveBySlug | app/routers/reviews.py:26-27 | None exactly when no stored product is both active and carries the slug; otherwise a stored, active product with that slug |
| ReviewRouter.FindActiveById | app/routers/reviews.py:41-42 | None exactly when no stored product is both active and has the id; otherwise a stored, active product with that id |
| ReviewRouter.FindReview | app/routers/reviews.py:84-85 | None exactly when no stored review, active or retired, has the id; otherwise a position holding a review with that id |
| ReviewRouter.AllReviews | app/routers/reviews.py:18-21 | the result holds exactly the stored reviews whose flag is active, each as many times as it is stored; the store is an input only, so nothing changes |
| ReviewRouter.ProductsReviews | app/routers/reviews.py:24-33 | NotFound exactly when no product is both active and has the slug (never Forbidden); otherwise the result holds exactly the active reviews of such a product, each as many times as it is stored |
| ReviewRouter.GradeSum | app/routers/reviews.py:58-61 | definition: the sum of the grades; its properties are carried by GradeSumAppend, GradeSumBounds and SumGrades |
| ReviewRouter.GradeSumAppend | app/routers/reviews.py:60-61 | by induction: a review appended at the end adds its grade to the sum, which is the step the loop invariant of SumGrades needs |
| ReviewRouter.Mean | app/routers/reviews.py:57-66 | definition: the grade sum divided exactly by the count, defined only when there is at least one review; its properties are carried by MeanWithinGrades and AddReviewRating |
| ReviewRouter.SumGrades | app/routers/reviews.py:58-61 | the accumulate loop returns the sum of all grades; its invariant is that the running total is the sum over the prefix seen so far |
| ReviewRouter.SetRating | app/routers/reviews.py:63-67 | every product row with the target id gets the new rating; every other row is unchanged; the table keeps its length |
| ReviewRouter.AddReviewStep | app/routers/reviews.py:36-78 | definition of the submission as a store transition: the role check, then the product check, then the insert and the rating write; its properties are carried by AddReviewGuards, AddReviewInserts, AddReviewRating, AddReviewKeepsOtherRatings and AddReviewKeepsAllRatings |
| ReviewRouter.DeleteReviewStep | app/routers/reviews.py:81-101 | definition of the deletion as a store transition: the lookup by id, then the role check, then clearing the flag; its properties are carried by DeleteReviewGuards and DeleteReviewRetires |
| ReviewRouter.ReviewService.constructor | app/models/reviews.py:12 | an empty reviews table over the given products satisfies the key invariant, with ids handed out from 1 |
| ReviewRouter.ReviewService.AddReview | app/routers/reviews.py:36-78 | the in-place update keeps the key invariant, and its response and new state are those of AddReviewStep: role check, product check, insert, grade-sum loop, rating write |
| ReviewRouter.ReviewService.DeleteReview | app/routers/reviews.py:81-101 | the in-place update keeps the key invariant, and its response and new state are those of DeleteReviewStep: lookup by id, then role check, then clearing the flag |
| ReviewProperties.ActiveReviewsOfAppend | app/routers/reviews.py:54-55 | appending a row to the table appends it to a product's active selection exactly when it is active and belongs to that product |
| ReviewProperties.GradeSumBounds | app/routers/reviews.py:60-61 | when every grade lies in [lo, hi], the sum of n grades lies in [n*lo, n*hi] |
| ReviewProperties.MeanWithinGrades | app/routers/reviews.py:66 | the mean written as the rating lies between the smallest and largest bound on the grades it averages (e.g. 1 to 5 when grades are), though no range is enforced |
| ReviewProperties.AddReviewGuards | app/routers/reviews.py:40-46 | Forbidden exactly when the caller is not a customer, whatever the product; NotFound exactly when a customer names no active product; Ok exactly when a customer names an active product; any error leaves the store unchanged |
| ReviewProperties.AddReviewInserts | app/routers/reviews.py:47-52 | on success exactly one review is appended: it has the next id (fresh, unlike every stored id), the caller's id as author, the requested product, comment and grade, and is active; earlier rows are untouched and ids stay unique |
| ReviewProperties.AddReviewRating | app/routers/reviews.py:54-67 | on success the product's active reviews are the earlier ones plus the new one, so there is at least one; each row of the product holds their exact mean and the grade sum grew by the new grade; other product rows are unchanged; the product's rating is the mean of its active grades |
| ReviewProperties.RatedRowsHoldRating | app/routers/reviews.py:63-67 | after the update every product row with the target id holds the new rating |
| ReviewProperties.OtherRowsUnrated | app/routers/reviews.py:63-67 | after the update every product row with another id was already in the table |
| ReviewProperties.RatingIsMean | app/routers/reviews.py:54-67 | definition of the aggregate invariant for one product: every row with its id holds the exact mean of its active grades, and there is at least one; AddReviewRating and AddReviewKeepsAllRatings establish it, StaleRatingAfterDelete shows a deletion breaking it |
| ReviewProperties.AddReviewKeepsOtherRatings | app/routers/reviews.py:54-67 | a submission for one product keeps any other product's rating equal to the mean of that product's active grades |
| ReviewProperties.AddReviewKeepsAllRatings | app/routers/reviews.py:54-67 | when every product's rating is the mean of its active grades, a successful submission keeps that true for every product |
| ReviewProperties.DeleteReviewGuards | app/routers/reviews.py:84-101 | NotFound exactly when no review has the id, even for a non-admin; Forbidden exactly when it exists and the caller is not an admin; Ok exactly when it exists and the caller is an admin, even if the review is already retired; any error leaves the store unchanged |
| ReviewProperties.DeleteReviewRetires | app/routers/reviews.py:90-92 | on success only the review with that id has its flag cleared: products, so ratings, and the id counter are unchanged; ids stay unique; the retired review is absent from both listings |
| ReviewProperties.WidgetFirstReview | app/routers/reviews.py:47-67 | on a product with no reviews, a first review with grade 4 sets its rating to 4.0 |
| ReviewProperties.WidgetSecondReview | app/routers/reviews.py:47-67 | a second review with grade 2 sets the rating to the mean 3.0 |
| ReviewProperties.WidgetRetireFirst | app/routers/reviews.py:84-92 | an admin retiring the grade-4 review succeeds and leaves the products table, rating 3.0 included, as it was |
| ReviewProperties.RatingFreshBeforeDelete | app/routers/reviews.py:54-67 | right after the second review, the stored rating is the mean of the active grades |
| ReviewProperties.ActiveAfterRetire | app/routers/reviews.py:32 | after the retirement the grade-2 review is the product's only active review |
| ReviewProperties.ListingAfterDelete | app/routers/reviews.py:24-33 | after the retirement the product's listing returns only the grade-2 review |
| ReviewProperties.StaleRatingAfterDelete | app/routers/reviews.py:90-92 | after the retirement the stored rating stays 3.0 although the active grades now average 2.0, so the rating is stale |

## Left out

- HTTP routing, status codes and `async`/`await`: errors are the `NotFound` and `Forbidden` cases of `Response`, and success is `Ok(())`. The acknowledgement bodies returned on success are not modelled.
- Database sessions, the insert/select/update statements and `commit`: the store is a value the routes read and replace. Transaction atomicity is modelled as "an error leaves the store unchanged". Store and transport failures are not modelled.
- Concurrency, including lost updates between simultaneous submissions for one product: the model is sequential.
- Token handling and the current-user lookup: the caller record is an input. A token without an `id` entry is not modelled.
- The `comment_date` column: its default reads the wall clock.
- Float rounding of `reviews_sum / reviews_len`: the rating is the exact rational mean as a `real`.
- The rating before a product's first review is left unconstrained: this service never writes it, and products are created elsewhere.
- Foreign-key checks on `user_id` and `product_id`: the model stores them as plain integers.
- Integer column widths: grades and ids are unbounded integers.
- Id assignment: the store hands out consecutive ids from a counter starting at 1, standing in for the database's autoincrement.
- Row order of query results: the selections have no ORDER BY, so the model returns rows in table order. When several active products share a slug, the lookup takes the first in table order.
- ReviewRouter.ActiveReviews: states which reviews are selected and how many times, not their order. ActiveReviewsCount gives the multiplicity.
- ReviewRouter.ActiveReviewsOf: states which reviews are selected and how many times, not their order. ActiveReviewsOfCount gives the multiplicity.
- ReviewRouter.AllReviews: states which reviews are listed and how many times, not their order.
- ReviewRouter.ProductsReviews: states which reviews are listed and how many times, not their order.
- Slug generation, product and category creation, and the imports the route module does not use are not part of this model.
