/**
 * The review service behind the `/reviews` routes: two read-only queries, submitting a
 * review (which recomputes the product's rating) and soft-deleting a review.
 *
 * The database is an in-memory store: the reviews table in insertion order, the products
 * table, and the counter the store draws fresh review ids from. A failing request
 * aborts its transaction, so every error leaves the store exactly as it was.
 */
module ReviewRouter {
  import opened ReviewModel

  /** The authenticated caller, as the identity layer hands it over. */
  datatype Caller = Caller(id: int, isCustomer: bool, isAdmin: bool)

  /**
   * The columns of a product this service reads or writes. The rating a product carries
   * before its first review is set elsewhere and left unconstrained here.
   */
  datatype Product = Product(id: int, slug: string, isActive: bool, rating: Option<real>)

  /** What a request answers: a value, or one of the two errors the routes raise. */
  datatype Response<+T> = Ok(value: T) | NotFound | Forbidden

  /** The whole persistent state the service works on. */
  datatype Store = Store(reviews: seq<Review>, products: seq<Product>, nextId: int)

  /** The store's own guarantee: review ids are a unique key and all lie below the next fresh id. */
  ghost predicate WellFormed(s: Store) {
    UniqueIds(s.reviews) && IdsBelow(s.reviews, s.nextId)
  }

  // ---------------------------------------------------------------------------
  // Selections over the tables

  /** The reviews whose flag is active, each as often as it is stored, in table order. */
  function ActiveReviews(rs: seq<Review>): (r: seq<Review>)
    ensures forall x :: x in r <==> x in rs && x.isActive
    ensures |r| <= |rs|
  {
    if rs == [] then []
    else (if rs[0].isActive then [rs[0]] else []) + ActiveReviews(rs[1..])
  }

  /** Each active review is selected as often as it is stored; a retired one never. */
  lemma {:induction false} ActiveReviewsCount(rs: seq<Review>, x: Review)
    ensures multiset(ActiveReviews(rs))[x] == if x.isActive then multiset(rs)[x] else 0
  {
    if rs != [] {
      assert rs == [rs[0]] + rs[1..];
      ActiveReviewsCount(rs[1..], x);
    }
  }

  /** The active reviews of one product, each as often as it is stored, in table order. */
  function ActiveReviewsOf(rs: seq<Review>, productId: int): (r: seq<Review>)
    ensures forall x :: x in r <==> x in rs && x.isActive && x.productId == productId
    ensures |r| <= |rs|
  {
    if rs == [] then []
    else (if rs[0].isActive && rs[0].productId == productId then [rs[0]] else [])
         + ActiveReviewsOf(rs[1..], productId)
  }

  /** Each active review of the product is selected as often as it is stored; any other never. */
  lemma {:induction false} ActiveReviewsOfCount(rs: seq<Review>, productId: int, x: Review)
    ensures multiset(ActiveReviewsOf(rs, productId))[x] ==
            if x.isActive && x.productId == productId then multiset(rs)[x] else 0
  {
    if rs != [] {
      assert rs == [rs[0]] + rs[1..];
      ActiveReviewsOfCount(rs[1..], productId, x);
    }
  }

  /** The first active product with the given slug, if there is one. */
  function FindActiveBySlug(ps: seq<Product>, slug: string): (r: Option<Product>)
    ensures r.None? <==> forall p :: p in ps ==> !(p.isActive && p.slug == slug)
    ensures r.Some? ==> r.value in ps && r.value.isActive && r.value.slug == slug
  {
    if ps == [] then None
    else if ps[0].isActive && ps[0].slug == slug then Some(ps[0])
    else FindActiveBySlug(ps[1..], slug)
  }

  /** The first active product with the given id, if there is one. */
  function FindActiveById(ps: seq<Product>, productId: int): (r: Option<Product>)
    ensures r.None? <==> forall p :: p in ps ==> !(p.isActive && p.id == productId)
    ensures r.Some? ==> r.value in ps && r.value.isActive && r.value.id == productId
  {
    if ps == [] then None
    else if ps[0].isActive && ps[0].id == productId then Some(ps[0])
    else FindActiveById(ps[1..], productId)
  }

  /** The position of the first review with the given id, whether it is active or retired. */
  function FindReview(rs: seq<Review>, reviewId: int): (r: Option<nat>)
    ensures r.None? <==> forall x :: x in rs ==> x.id != reviewId
    ensures r.Some? ==> r.value < |rs| && rs[r.value].id == reviewId
  {
    if rs == [] then None
    else if rs[0].id == reviewId then Some(0)
    else match FindReview(rs[1..], reviewId)
      case None => None
      case Some(i) => Some(i + 1)
  }

  // ---------------------------------------------------------------------------
  // The two read-only routes

  /** GET /reviews/: every active review; the store is not touched. */
  function AllReviews(s: Store): (r: seq<Review>)
    ensures forall x :: multiset(r)[x] == if x.isActive then multiset(s.reviews)[x] else 0
    ensures forall x :: x in r <==> x in s.reviews && x.isActive
  {
    ActiveReviewsAllCounts(s.reviews);
    ActiveReviews(s.reviews)
  }

  lemma ActiveReviewsAllCounts(rs: seq<Review>)
    ensures forall x :: multiset(ActiveReviews(rs))[x] == if x.isActive then multiset(rs)[x] else 0
  {
    forall x ensures multiset(ActiveReviews(rs))[x] == if x.isActive then multiset(rs)[x] else 0 {
      ActiveReviewsCount(rs, x);
    }
  }

  /** GET /reviews/{slug}: the active reviews of the active product carrying that slug. */
  function ProductsReviews(s: Store, slug: string): (r: Response<seq<Review>>)
    ensures !r.Forbidden?
    ensures r.NotFound? <==> forall p :: p in s.products ==> !(p.isActive && p.slug == slug)
    ensures r.Ok? ==> exists p :: p in s.products && p.isActive && p.slug == slug &&
                       (forall x :: multiset(r.value)[x] ==
                          if x.isActive && x.productId == p.id then multiset(s.reviews)[x] else 0) &&
                       (forall x :: x in r.value <==> x in s.reviews && x.isActive && x.productId == p.id)
  {
    match FindActiveBySlug(s.products, slug)
    case None => NotFound
    case Some(p) =>
      ActiveReviewsOfAllCounts(s.reviews, p.id);
      Ok(ActiveReviewsOf(s.reviews, p.id))
  }

  lemma ActiveReviewsOfAllCounts(rs: seq<Review>, productId: int)
    ensures forall x :: multiset(ActiveReviewsOf(rs, productId))[x] ==
              if x.isActive && x.productId == productId then multiset(rs)[x] else 0
  {
    forall x ensures multiset(ActiveReviewsOf(rs, productId))[x] ==
                     if x.isActive && x.productId == productId then multiset(rs)[x] else 0 {
      ActiveReviewsOfCount(rs, productId, x);
    }
  }

  // ---------------------------------------------------------------------------
  // The rating

  /** Sum of the grades. */
  function GradeSum(rs: seq<Review>): int {
    if rs == [] then 0 else rs[0].grade + GradeSum(rs[1..])
  }

  /** One more review at the end adds its grade to the sum. */
  lemma {:induction false} GradeSumAppend(rs: seq<Review>, r: Review)
    ensures GradeSum(rs + [r]) == GradeSum(rs) + r.grade
  {
    if rs == [] {
      assert [r][1..] == [];
    } else {
      assert (rs + [r])[1..] == rs[1..] + [r];
      GradeSumAppend(rs[1..], r);
    }
  }

  /** The exact arithmetic mean of the grades. */
  function Mean(rs: seq<Review>): real
    requires |rs| > 0
  {
    GradeSum(rs) as real / |rs| as real
  }

  /** The accumulate loop of add_review: the running total adds each review's grade in turn. */
  method SumGrades(rs: seq<Review>) returns (total: int)
    ensures total == GradeSum(rs)
  {
    total := 0;
    for i := 0 to |rs|
      invariant total == GradeSum(rs[..i])
    {
      assert rs[..i + 1] == rs[..i] + [rs[i]];
      GradeSumAppend(rs[..i], rs[i]);
      total := total + rs[i].grade;
    }
    assert rs[..|rs|] == rs;
  }

  /** The rating update: every product row with that id, active or not, gets the new rating. */
  function SetRating(ps: seq<Product>, productId: int, rating: real): (r: seq<Product>)
    ensures |r| == |ps|
    ensures forall i :: 0 <= i < |ps| ==>
              r[i] == if ps[i].id == productId then ps[i].(rating := Some(rating)) else ps[i]
  {
    if ps == [] then []
    else [if ps[0].id == productId then ps[0].(rating := Some(rating)) else ps[0]]
         + SetRating(ps[1..], productId, rating)
  }

  // ---------------------------------------------------------------------------
  // The two state-changing routes, as transitions of the store

  /**
   * POST /reviews/: the role is checked before the product. On success the review is
   * inserted with the next id and the product's rating becomes the mean grade of its
   * active reviews, the new one included.
   */
  function AddReviewStep(s: Store, caller: Caller, productId: int, comment: Option<string>, grade: int)
    : (Response<()>, Store)
  {
    if !caller.isCustomer then (Forbidden, s)
    else if FindActiveById(s.products, productId).None? then (NotFound, s)
    else
      var added := NewReview(s.nextId, caller.id, productId, comment, grade);
      var reviews := s.reviews + [added];
      var active := ActiveReviewsOf(reviews, productId);
      assert added in active;
      (Ok(()), Store(reviews, SetRating(s.products, productId, Mean(active)), s.nextId + 1))
  }

  /**
   * DELETE /reviews/{id}: the review is looked up by id alone before the role is checked.
   * On success that review is retired; no rating is recomputed.
   */
  function DeleteReviewStep(s: Store, caller: Caller, reviewId: int): (Response<()>, Store)
  {
    match FindReview(s.reviews, reviewId)
    case None => (NotFound, s)
    case Some(i) =>
      if !caller.isAdmin then (Forbidden, s)
      else (Ok(()), s.(reviews := s.reviews[i := s.reviews[i].(isActive := false)]))
  }

  /** The service over its store, updated in place request by request. */
  class ReviewService {
    var reviews: seq<Review>
    var products: seq<Product>
    var nextId: int

    ghost function State(): Store
      reads this
    {
      Store(reviews, products, nextId)
    }

    ghost predicate Valid()
      reads this
    {
      WellFormed(State())
    }

    /** An empty reviews table over the given products; ids start at 1. */
    constructor (products: seq<Product>)
      ensures Valid()
      ensures State() == Store([], products, 1)
    {
      this.reviews := [];
      this.products := products;
      this.nextId := 1;
    }

    method AddReview(caller: Caller, productId: int, comment: Option<string>, grade: int)
      returns (response: Response<()>)
      requires Valid()
      modifies this
      ensures Valid()
      ensures (response, State()) == AddReviewStep(old(State()), caller, productId, comment, grade)
    {
      ghost var expected := AddReviewStep(State(), caller, productId, comment, grade);
      if !caller.isCustomer {
        return Forbidden;
      }
      var product := FindActiveById(products, productId);
      if product.None? {
        return NotFound;
      }
      var added := NewReview(nextId, caller.id, productId, comment, grade);
      AppendFreshId(reviews, added, nextId);
      reviews := reviews + [added];
      nextId := nextId + 1;

      var active := ActiveReviewsOf(reviews, productId);
      assert added in active;
      var count := |active|;
      var total := SumGrades(active);
      var rating := total as real / count as real;
      assert rating == Mean(active);
      assert expected.1 == Store(reviews, SetRating(products, productId, rating), nextId);
      products := SetRating(products, productId, rating);
      response := Ok(());
    }

    method DeleteReview(caller: Caller, reviewId: int) returns (response: Response<()>)
      requires Valid()
      modifies this
      ensures Valid()
      ensures (response, State()) == DeleteReviewStep(old(State()), caller, reviewId)
    {
      var found := FindReview(reviews, reviewId);
      if found.None? {
        return NotFound;
      }
      if !caller.isAdmin {
        return Forbidden;
      }
      var i := found.value;
      reviews := reviews[i := reviews[i].(isActive := false)];
      response := Ok(());
    }
  }
}
