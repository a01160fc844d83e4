/**
 * The `reviews` table: one row per review a customer submitted.
 * The creation timestamp (comment_date) is wall-clock input and is not modelled.
 */
module ReviewModel {

  datatype Option<+T> = None | Some(value: T)

  /** One stored review. Reviews are retired by clearing `isActive`, never removed. */
  datatype Review = Review(
    id: int,                  // primary key, assigned by the store
    userId: int,              // reference to the authoring user
    productId: int,           // reference to the reviewed product
    comment: Option<string>,  // nullable free text
    grade: int,               // any integer: no range is enforced
    isActive: bool)           // soft-delete flag

  /** The row the store holds after an insert that leaves `is_active` to its column default. */
  function NewReview(id: int, userId: int, productId: int, comment: Option<string>, grade: int): (r: Review)
    ensures r.isActive
    ensures r.id == id && r.userId == userId && r.productId == productId
    ensures r.comment == comment && r.grade == grade
  {
    Review(id, userId, productId, comment, grade, true)
  }

  /** The primary-key constraint: no two stored reviews share an id. */
  ghost predicate UniqueIds(rs: seq<Review>) {
    forall i, j :: 0 <= i < j < |rs| ==> rs[i].id != rs[j].id
  }

  /** Every stored id is below `bound`, the next id the store hands out. */
  ghost predicate IdsBelow(rs: seq<Review>, bound: int) {
    forall i :: 0 <= i < |rs| ==> rs[i].id < bound
  }

  /** Appending a review that carries the next id keeps the key unique and advances the bound. */
  lemma AppendFreshId(rs: seq<Review>, r: Review, bound: int)
    requires UniqueIds(rs) && IdsBelow(rs, bound)
    requires r.id == bound
    ensures forall x :: x in rs ==> x.id != r.id
    ensures UniqueIds(rs + [r]) && IdsBelow(rs + [r], bound + 1)
  {
  }
}
