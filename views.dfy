/**
  The review views: listing reviews by book or by user, filtering the book
  list by category and author, and the review store the list/create and
  detail views act on.
 */
module Views {
  import opened Wrappers
  import opened Aggregate
  import opened Models

  // ---------------------------------------------------------------- query sets

  /** `queryset.filter(...)`: the elements satisfying `p`, in their original order. */
  function Filter<T(!new)>(s: seq<T>, p: T -> bool): (r: seq<T>)
    ensures |r| <= |s|
    ensures forall x :: x in r <==> x in s && p(x)
  {
    if s == [] then [] else (if p(s[0]) then [s[0]] else []) + Filter(s[1..], p)
  }

  /** Filtering distributes over concatenation, so it keeps the original order. */
  lemma {:induction false} FilterAppend<T(!new)>(a: seq<T>, b: seq<T>, p: T -> bool)
    ensures Filter(a + b, p) == Filter(a, p) + Filter(b, p)
  {
    if a == [] {
      assert a + b == b;
    } else {
      assert (a + b)[0] == a[0];
      assert (a + b)[1..] == a[1..] + b;
      FilterAppend(a[1..], b, p);
    }
  }

  /** The lookup `book__id=bookId`. */
  function OfBook(bookId: nat): Review -> bool {
    (x: Review) => x.book == bookId
  }

  /** The lookup `user__id=userId`. */
  function OfUser(userId: nat): Review -> bool {
    (x: Review) => x.user == userId
  }

  /** `ReviewsListCreateView.get_queryset`: the reviews of the book in the URL. */
  function ReviewsOfBook(reviews: seq<Review>, bookId: nat): (r: seq<Review>)
    ensures forall x :: x in r <==> x in reviews && x.book == bookId
  {
    Filter(reviews, OfBook(bookId))
  }

  /** `UserReviewsView.get_queryset`: the reviews written by the user in the URL. */
  function ReviewsOfUser(reviews: seq<Review>, userId: nat): (r: seq<Review>)
    ensures forall x :: x in r <==> x in reviews && x.user == userId
  {
    Filter(reviews, OfUser(userId))
  }

  /** `Review.objects.filter(book=book, user=user)`. */
  function ReviewsOfPair(reviews: seq<Review>, userId: nat, bookId: nat): (r: seq<Review>)
    ensures forall x :: x in r <==> x in reviews && x.user == userId && x.book == bookId
  {
    ReviewsOfBook(ReviewsOfUser(reviews, userId), bookId)
  }

  /** `review_queryset.exists()`: the user already has a review of the book. */
  function HasReview(reviews: seq<Review>, userId: nat, bookId: nat): (b: bool)
    ensures b <==> exists k :: 0 <= k < |reviews| && reviews[k].user == userId && reviews[k].book == bookId
  {
    var r := ReviewsOfPair(reviews, userId, bookId);
    assert r != [] ==> r[0] in r;
    r != []
  }

  /**
    `BookViewSet.get_queryset`: all books, narrowed to the given category if a
    category parameter is present and non-empty, then to the given author if
    an author parameter is. A missing or empty parameter is `None`.
   */
  function BookList(books: seq<Book>, category: Option<nat>, author: Option<nat>): (r: seq<Book>)
    ensures forall b :: b in r <==>
              && b in books
              && (category.Some? ==> b.category == category)
              && (author.Some? ==> b.author == author.value)
    ensures category.None? && author.None? ==> r == books
  {
    var byCategory := if category.Some? then Filter(books, (b: Book) => b.category == category) else books;
    if author.Some? then Filter(byCategory, (b: Book) => b.author == author.value) else byCategory
  }

  /** `Book.objects.get(id=book_id)`: the position of the book with that id, if any. */
  function FindBook(books: seq<Book>, id: nat): (r: Option<nat>)
    ensures r.Some? ==> r.value < |books| && books[r.value].id == id
    ensures r.None? <==> forall b :: b in books ==> b.id != id
  {
    if books == [] then None
    else if books[|books| - 1].id == id then Some(|books| - 1)
    else FindBook(books[..|books| - 1], id)
  }

  /** The position of the review with that id, if any (the detail view's object lookup). */
  function FindReview(reviews: seq<Review>, id: nat): (r: Option<nat>)
    ensures r.Some? ==> r.value < |reviews| && reviews[r.value].id == id
    ensures r.None? <==> forall x :: x in reviews ==> x.id != id
  {
    if reviews == [] then None
    else if reviews[|reviews| - 1].id == id then Some(|reviews| - 1)
    else FindReview(reviews[..|reviews| - 1], id)
  }

  // ---------------------------------------------------------------- the review store

  /** Why a review request fails. */
  datatype ReviewError =
    | NotAuthenticated   // anonymous caller on the create path
    | InvalidFields      // rating outside 1..5 or comment too long
    | BookDoesNotExist   // `Book.objects.get` found no row
    | AlreadyReviewed    // "You are already reviewed this movie"
    | NotFound           // no review with that id

  /** A partial update of a review: only the writable fields, each optional. */
  datatype ReviewPatch = ReviewPatch(rating: Option<int>, comment: Option<Option<string>>)

  ghost predicate BookIdsUnique(books: seq<Book>) {
    forall i, j :: 0 <= i < j < |books| ==> books[i].id != books[j].id
  }

  ghost predicate ReviewIdsIncreasing(reviews: seq<Review>) {
    forall i, j :: 0 <= i < j < |reviews| ==> reviews[i].id < reviews[j].id
  }

  ghost predicate OneReviewPerPair(reviews: seq<Review>) {
    forall i, j :: 0 <= i < j < |reviews| ==>
      reviews[i].user != reviews[j].user || reviews[i].book != reviews[j].book
  }

  /**
    The checks of the create path, in the order they run: authentication
    (`IsAuthenticatedOrReadOnly`), the serializer's field validation, the
    book lookup, the one-review-per-user check. `None` means all passed.
   */
  function Rejection(books: seq<Book>, reviews: seq<Review>, user: Option<nat>, bookId: nat,
                     rating: int, comment: Option<string>): (e: Option<ReviewError>)
    ensures e == Some(NotAuthenticated) <==> user.None?
    ensures e == Some(InvalidFields) <==> user.Some? && !ReviewFieldsValid(rating, comment)
    ensures e == Some(BookDoesNotExist) <==>
              user.Some? && ReviewFieldsValid(rating, comment) && FindBook(books, bookId).None?
    ensures e == Some(AlreadyReviewed) <==>
              && user.Some? && ReviewFieldsValid(rating, comment) && FindBook(books, bookId).Some?
              && HasReview(reviews, user.value, bookId)
    ensures e.Some? ==> e.value in {NotAuthenticated, InvalidFields, BookDoesNotExist, AlreadyReviewed}
  {
    if user.None? then Some(NotAuthenticated)
    else if !ReviewFieldsValid(rating, comment) then Some(InvalidFields)
    else if FindBook(books, bookId).None? then Some(BookDoesNotExist)
    else if HasReview(reviews, user.value, bookId) then Some(AlreadyReviewed)
    else None
  }

  /** Every book's stored aggregate is that of the ratings submitted for it. */
  ghost predicate AggregatesMatch(books: seq<Book>, submitted: map<nat, seq<int>>) {
    forall i :: 0 <= i < |books| ==>
      books[i].id in submitted &&
      AggregateMatches(books[i].avgRating, books[i].numberRating, submitted[books[i].id])
  }

  /**
    The book after the queryset update `avg_rating = (avg_rating * number_rating + r) / (number_rating + 1)`,
    `number_rating = number_rating + 1`; nothing else about it changes.
   */
  function Absorb(b: Book, r: int): Book {
    b.(avgRating := NewAverage(b.avgRating, b.numberRating, r), numberRating := b.numberRating + 1)
  }

  /** Absorbing a valid rating into one book's aggregate, and recording it, keeps all aggregates in step. */
  lemma AbsorbRating(books: seq<Book>, submitted: map<nat, seq<int>>, i: nat, r: int)
    requires BookIdsUnique(books) && AggregatesMatch(books, submitted)
    requires i < |books| && ValidRating(r)
    ensures AggregatesMatch(books[i := Absorb(books[i], r)], submitted[books[i].id := submitted[books[i].id] + [r]])
  {
    var b := books[i];
    AggregateStep(b.avgRating, b.numberRating, submitted[b.id], r);
  }

  /** The constraints the book and review tables keep. */
  ghost predicate TablesValid(books: seq<Book>, reviews: seq<Review>, nextBookId: nat, nextReviewId: nat,
                              submitted: map<nat, seq<int>>)
  {
    && BookIdsUnique(books)
    && (forall i :: 0 <= i < |books| ==> books[i].id < nextBookId)
    && ReviewIdsIncreasing(reviews)
    && (forall i :: 0 <= i < |reviews| ==> reviews[i].id < nextReviewId)
    && OneReviewPerPair(reviews)
    && AggregatesMatch(books, submitted)
  }

  /** A successful submission keeps the tables' constraints. */
  lemma SubmitPreserves(books: seq<Book>, reviews: seq<Review>, nextBookId: nat, nextReviewId: nat,
                        submitted: map<nat, seq<int>>, i: nat, x: Review)
    requires TablesValid(books, reviews, nextBookId, nextReviewId, submitted)
    requires i < |books| && books[i].id == x.book && x.id == nextReviewId
    requires ValidRating(x.rating) && !HasReview(reviews, x.user, x.book)
    ensures TablesValid(books[i := Absorb(books[i], x.rating)], reviews + [x], nextBookId, nextReviewId + 1,
                        submitted[x.book := submitted[x.book] + [x.rating]])
  {
    AbsorbRating(books, submitted, i, x.rating);
    InsertPreserves(reviews, nextReviewId, x);
    var books' := books[i := Absorb(books[i], x.rating)];
    forall j | 0 <= j < |books'| ensures books'[j].id == books[j].id {
    }
  }

  /**
    The book and review tables. `submitted` records, per book, the ratings
    that went through review submission; every book's aggregate is the mean
    and count of exactly those ratings.
   */
  class Catalog {
    var books: seq<Book>
    var reviews: seq<Review>
    var nextBookId: nat
    var nextReviewId: nat
    ghost var submitted: map<nat, seq<int>>

    ghost predicate Valid()
      reads this
    {
      TablesValid(books, reviews, nextBookId, nextReviewId, submitted)
    }

    constructor ()
      ensures Valid()
      ensures books == [] && reviews == [] && submitted == map[]
    {
      books, reviews := [], [];
      nextBookId, nextReviewId := 1, 1;
      submitted := map[];
    }

    /** Book creation with the model defaults for the aggregate. */
    method AddBook(user: nat, name: string, description: string, category: Option<nat>, author: nat)
      returns (b: Book)
      requires Valid()
      modifies this
      ensures Valid()
      ensures b == NewBook(old(nextBookId), user, name, description, category, author)
      ensures books == old(books) + [b] && reviews == old(reviews)
      ensures nextBookId == old(nextBookId) + 1 && nextReviewId == old(nextReviewId)
      ensures submitted == old(submitted)[b.id := []]
    {
      b := NewBook(nextBookId, user, name, description, category, author);
      books := books + [b];
      submitted := submitted[b.id := []];
      nextBookId := nextBookId + 1;
    }

    /**
      `ReviewsListCreateView.create` / `perform_create`: an anonymous caller is
      refused, then the serializer validates the fields, then the book is looked
      up, then a second review by the same user is refused; on success the book's
      aggregate absorbs the rating and the review is inserted, bound to the
      requesting user and the book in the URL.
     */
    method PerformCreate(user: Option<nat>, bookId: nat, rating: int, comment: Option<string>)
      returns (res: Result<Review, ReviewError>)
      requires Valid()
      modifies this
      ensures Valid()
      ensures nextBookId == old(nextBookId)
      ensures res.Err? <==> Rejection(old(books), old(reviews), user, bookId, rating, comment).Some?
      ensures res.Err? ==>
                && res.error == Rejection(old(books), old(reviews), user, bookId, rating, comment).value
                && books == old(books) && reviews == old(reviews) &&
                nextReviewId == old(nextReviewId) && submitted == old(submitted)
      ensures res.Ok? ==>
                var i := FindBook(old(books), bookId).value;
                var b := old(books)[i];
                && res.value == Review(old(nextReviewId), user.value, rating, comment, bookId)
                && reviews == old(reviews) + [res.value]
                && nextReviewId == old(nextReviewId) + 1
                && books == old(books)[i := Absorb(b, rating)]
                && submitted == old(submitted)[bookId := old(submitted)[bookId] + [rating]]
                && ReviewsOfPair(reviews, user.value, bookId) == [res.value]
    {
      var rejected := Rejection(books, reviews, user, bookId, rating, comment);
      if rejected.Some? {
        return Err(rejected.value);
      }
      var u := user.value;
      var i := FindBook(books, bookId).value;
      var review := Review(nextReviewId, u, rating, comment, bookId);
      SubmitPreserves(books, reviews, nextBookId, nextReviewId, submitted, i, review);
      PairAfterInsert(reviews, review);
      books, reviews, nextReviewId, submitted :=
        books[i := Absorb(books[i], rating)], reviews + [review], nextReviewId + 1,
        submitted[bookId := submitted[bookId] + [rating]];
      return Ok(review);
    }

    /**
      `ReviewDetailView` update: the review's rating and comment change, the
      book's aggregate does not.
     */
    method UpdateReview(reviewId: nat, patch: ReviewPatch) returns (res: Result<Review, ReviewError>)
      requires Valid()
      modifies this
      ensures Valid()
      ensures books == old(books) && submitted == old(submitted)
      ensures nextBookId == old(nextBookId) && nextReviewId == old(nextReviewId)
      ensures res == Err(NotFound) <==> FindReview(old(reviews), reviewId).None?
      ensures res.Err? ==> reviews == old(reviews)
      ensures res.Ok? ==>
                var k := FindReview(old(reviews), reviewId).value;
                var x := old(reviews)[k];
                && res.value == x.(rating := patch.rating.GetOr(x.rating), comment := patch.comment.GetOr(x.comment))
                && ReviewFieldsValid(res.value.rating, res.value.comment)
                && reviews == old(reviews)[k := res.value]
      ensures FindReview(old(reviews), reviewId).Some? ==>
                var x := old(reviews)[FindReview(old(reviews), reviewId).value];
                res.Err? <==> !ReviewFieldsValid(patch.rating.GetOr(x.rating), patch.comment.GetOr(x.comment))
      ensures FindReview(old(reviews), reviewId).Some? && res.Err? ==> res.error == InvalidFields
    {
      var found := FindReview(reviews, reviewId);
      if found.None? {
        return Err(NotFound);
      }
      var k := found.value;
      var x := reviews[k];
      var updated := x.(rating := patch.rating.GetOr(x.rating), comment := patch.comment.GetOr(x.comment));
      if !ReviewFieldsValid(updated.rating, updated.comment) {
        return Err(InvalidFields);
      }
      reviews := reviews[k := updated];
      return Ok(updated);
    }

    /**
      `ReviewDetailView` delete: the review disappears, the book's aggregate
      does not change.
     */
    method DeleteReview(reviewId: nat) returns (res: Result<Review, ReviewError>)
      requires Valid()
      modifies this
      ensures Valid()
      ensures books == old(books) && submitted == old(submitted)
      ensures nextBookId == old(nextBookId) && nextReviewId == old(nextReviewId)
      ensures res == Err(NotFound) <==> FindReview(old(reviews), reviewId).None?
      ensures res.Ok? <==> FindReview(old(reviews), reviewId).Some?
      ensures res.Err? ==> reviews == old(reviews)
      ensures res.Ok? ==>
                var k := FindReview(old(reviews), reviewId).value;
                res.value == old(reviews)[k] && reviews == old(reviews)[..k] + old(reviews)[k + 1..]
    {
      var found := FindReview(reviews, reviewId);
      if found.None? {
        return Err(NotFound);
      }
      var k := found.value;
      var x := reviews[k];
      RemovePreserves(reviews, k);
      reviews := reviews[..k] + reviews[k + 1..];
      return Ok(x);
    }
  }

  /** A review for a pair that had none is then the only one for that pair. */
  lemma PairAfterInsert(reviews: seq<Review>, x: Review)
    requires !HasReview(reviews, x.user, x.book)
    ensures ReviewsOfPair(reviews + [x], x.user, x.book) == [x]
  {
    FilterAppend(reviews, [x], OfUser(x.user));
    var users := ReviewsOfUser(reviews, x.user);
    FilterAppend(users, [x], OfBook(x.book));
    assert Filter([x], OfUser(x.user)) == [x];
    assert Filter([x], OfBook(x.book)) == [x];
    assert ReviewsOfPair(reviews, x.user, x.book) == [];
  }

  /** Appending a review with a fresh id for a pair that had none keeps the review table's invariants. */
  lemma InsertPreserves(reviews: seq<Review>, nextId: nat, x: Review)
    requires ReviewIdsIncreasing(reviews) && OneReviewPerPair(reviews)
    requires forall i :: 0 <= i < |reviews| ==> reviews[i].id < nextId
    requires x.id == nextId && !HasReview(reviews, x.user, x.book)
    ensures ReviewIdsIncreasing(reviews + [x]) && OneReviewPerPair(reviews + [x])
    ensures forall i :: 0 <= i < |reviews + [x]| ==> (reviews + [x])[i].id < nextId + 1
  {
  }

  /** Removing one review keeps the review table's invariants. */
  lemma RemovePreserves(reviews: seq<Review>, k: nat)
    requires k < |reviews|
    requires ReviewIdsIncreasing(reviews) && OneReviewPerPair(reviews)
    ensures ReviewIdsIncreasing(reviews[..k] + reviews[k + 1..])
    ensures OneReviewPerPair(reviews[..k] + reviews[k + 1..])
  {
    var r := reviews[..k] + reviews[k + 1..];
    forall i | 0 <= i < |r| ensures r[i] == reviews[if i < k then i else i + 1] {
    }
  }

  /**
    The aggregate invariant of the review store: every book's `avg_rating *
    number_rating` is the sum of the ratings submitted for it, and its average
    lies in [1, 5] once it has a rating.
   */
  lemma BookAggregate(c: Catalog, i: nat)
    requires c.Valid() && i < |c.books|
    ensures var b := c.books[i];
      && b.avgRating * b.numberRating as real == Sum(c.submitted[b.id]) as real
      && b.numberRating == |c.submitted[b.id]|
      && (b.numberRating >= 1 ==> 1.0 <= b.avgRating <= 5.0)
  {
    var b := c.books[i];
    AggregateMeaning(b.avgRating, b.numberRating, c.submitted[b.id]);
  }
}
