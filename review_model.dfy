/** A review of a mechanic after a booking. The repository's Review schema is
    not part of this model; the record holds exactly the fields the review
    handler writes when it creates one. */
module ReviewModel {
  import opened Docs

  datatype Review = Review(
    userId: Id,
    mechanicId: Id,
    bookingId: Id,
    rating: int,
    title: string,
    comment: string,
    verified: bool)

  const MinRating := 1
  const MaxRating := 5

  predicate RatingInRange(r: Review) {
    MinRating <= r.rating <= MaxRating
  }
}
