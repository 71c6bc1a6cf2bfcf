# Book reviews with a running rating average

A model, in Dafny, of the behavioural core of a book-catalogue and review web
API (a Django REST Framework project). Users register, log in and edit their
profile; books carry an aggregate rating; each user may post one review per
book, and posting it folds the rating into the book's running average.

What is modelled:

- **Review submission** (`ReviewsListCreateView.perform_create`): the class
  `Views.Catalog` holds the book table and the review table. `PerformCreate`
  refuses an anonymous caller, then invalid fields (rating outside 1..5,
  comment over 255 characters), then a book id with no row, then a second
  review by the same user for the same book. On success it updates the book
  in place with `avg' = (avg * n + r) / (n + 1)`, `n' = n + 1`, and appends the
  review. The review's user is the requesting user and its book is the one in
  the URL, never payload fields. The class invariant ties every book's
  aggregate to a ghost record of the ratings submitted for it: `avg` is their
  mean and `n` their count. So `avg * n` is their sum, and `avg` lies in
  [1, 5] once `n >= 1`. `real` stands in for the stored float.
- **Review detail** (`ReviewDetailView`): update and delete change the review
  table and leave every book's aggregate as it was, exactly as the source does.
- **Read filters**: reviews by book, reviews by user, and the book list narrowed
  by category and/or author, as order-preserving filters.
- **User creation** (`UserManager.create_user` / `create_superuser`): the
  username check comes before the e-mail check. The e-mail is normalized
  (`normalize_email`). Username and e-mail are unique in the user table. New
  users get the default flags, and superusers get the staff and superuser flags.
- **User serializers**: registration (`password == password2`, `password2`
  dropped, password stored so that it checks), profile update (password
  agreement only when one is given, partial field update, password set only
  when given), login (`authenticate` is a function parameter).

Modules: `Wrappers` (Option, Result), `PyStr` (the Python string built-ins the
code relies on: `strip`, `lower`, the last '@', `str(int)`), `Aggregate` (the
running average), `Models` (my_app/models.py), `Views` (my_app/views.py),
`UserSerializers` (user/serializers.py).

Notes on the source's behaviour:

- A submission for a missing book raises `Book.DoesNotExist` from
  `Book.objects.get`. That is not the framework's `Http404`, so it is not a
  "not found" response. The model reports it as `BookDoesNotExist`.
- Updating or deleting a review does not touch the book's aggregate. The model
  keeps this asymmetry. The aggregate invariant is therefore stated against
  the ratings submitted through the create path, not against the current
  review table.
- The one-review-per-user check is an application-level check before the
  insert. The review table has no unique constraint.

## Model

| member | source | states |
|---|---|---|
| Aggregate.NewAverageIsMean | my_app/views.py:67-70 | the incremental update applied to the mean of `rs` with count `|rs|` yields exactly the mean of `rs + [r]` |
| Aggregate.MeanTimesCount | my_app/views.py:67-69 | mean times count equals the sum of the ratings (`avg_rating * number_rating` is the total) |
| Aggregate.MeanInRange | my_app/models.py:89 | with every rating in 1..5 and at least one rating, the mean lies in [1, 5] |
| Aggregate.NewAverageInRange | my_app/views.py:67-69 | one update step with a rating in 1..5 keeps the average in [1, 5], starting from count 0 or from an average already in [1, 5] |
| Aggregate.AggregateStep | my_app/views.py:66-70 | adding a valid rating through the update keeps (avg, n) equal to (mean, count) of the submitted ratings |
| Aggregate.AggregateMeaning | my_app/views.py:67-70 | a matching aggregate has `avg * n == sum` and `1 <= avg <= 5` once `n >= 1` |
| Aggregate.Replay | my_app/models.py:80-81 | starting from the defaults 0 / 0 and applying the update once per rating gives the arithmetic mean and the count |
| Aggregate.SumBounds | my_app/models.py:89 | with ratings in 1..5 the sum lies between the count and five times the count |
| PyStr.IntStringRoundTrip | my_app/models.py:94 | `str(rating)` is a decimal literal that reads back as the rating |
| PyStr.LastIndexOf | my_app/models.py:19 | finds the last '@' where the address is split: that character is '@', none follows it, and `None` exactly when there is none |
| Models.SetPassword | my_app/models.py:20 | after `set_password(p)` exactly `p` checks, and `None` leaves nothing that checks; no other field changes |
| Models.NormalizeEmailShape | my_app/models.py:19 | normalization keeps an address without '@' unchanged, keeps '@' presence, and keeps a non-empty address non-empty |
| Models.NormalizeEmailParts | my_app/models.py:19 | for an address with no surrounding whitespace, the part before the last '@' keeps its case and the domain after it is lower-cased |
| Models.NormalizeEmailIdempotent | my_app/models.py:19 | normalizing a normalized address changes nothing |
| Models.NormalizeEmailExample | my_app/tests/test_models.py:53-68 | "EXAMPLE3@EXAMPLE.COM" is stored as "EXAMPLE3@example.com" |
| Models.NewUser | my_app/models.py:19-20 | a created user has the given username and name, the normalized e-mail, `is_staff` false, `is_active` true, `is_superuser` false, and exactly the given password checks |
| Models.AppendUser | my_app/models.py:35-36 | inserting a user whose username and e-mail are not taken keeps both unique |
| Models.UserManager.CreateUser | my_app/models.py:12-23 | an empty username fails first, then an empty e-mail; a taken username or normalized e-mail fails; any failure leaves the table unchanged; success appends exactly the new user |
| Models.UserManager.CreateSuperuser | my_app/models.py:25-31 | fails exactly as `create_user` does; on success the stored user is `create_user`'s user with `is_staff` and `is_superuser` set |
| Models.UserManager.Save | my_app/models.py:35-36 | saving a user fails exactly when another row holds its username or e-mail; otherwise only the row with its id is replaced |
| Models.NewBook | my_app/models.py:80-81 | a new book's aggregate is that of no ratings: average 0, count 0 |
| Models.ReviewStringRating | my_app/models.py:93-94 | a review's string is its rating digit, " \| ", the book's name, " \| ", the username, and the digit reads back as the rating |
| Views.Filter | my_app/views.py:41 | a query-set filter keeps exactly the elements satisfying the lookup, and no more elements than it started with |
| Views.FilterAppend | my_app/views.py:41 | filtering distributes over concatenation, so the original order is kept |
| Views.ReviewsOfBook | my_app/views.py:52-54 | the review list of a book holds exactly the reviews whose book is that id |
| Views.ReviewsOfUser | my_app/views.py:82-84 | the review list of a user holds exactly the reviews whose user is that id |
| Views.ReviewsOfPair | my_app/views.py:61 | the filter on book and user holds exactly the reviews of that user for that book |
| Views.HasReview | my_app/views.py:61-63 | the existence check holds exactly when some review has that user and that book |
| Views.BookList | my_app/views.py:35-45 | the book list holds exactly the books matching the category if one is given and the author if one is given; with neither, all books in order |
| Views.FindBook | my_app/views.py:58 | the lookup finds a position holding the id, or reports that no book has it |
| Views.FindReview | my_app/views.py:74-75 | the detail lookup finds a position holding the review id, or reports that no review has it |
| Views.Rejection | my_app/views.py:56-64 | the create path's refusals in order: anonymous caller, invalid fields, missing book, existing review for (user, book); none means all checks pass |
| Views.AbsorbRating | my_app/views.py:67-70 | updating one book's aggregate with a valid rating, and recording it, keeps every book's aggregate equal to the mean and count of its submitted ratings |
| Views.SubmitPreserves | my_app/views.py:56-72 | a successful submission keeps unique book ids, increasing review ids, one review per (user, book) and all aggregates in step |
| Views.PairAfterInsert | my_app/views.py:72 | after inserting a review for a pair that had none, that review is the only one for the pair |
| Views.InsertPreserves | my_app/views.py:61-64 | appending a review with a fresh id for a pair without a review keeps the review table's constraints |
| Views.RemovePreserves | my_app/views.py:74-77 | deleting a review keeps the review table's constraints |
| Views.Catalog.AddBook | my_app/models.py:80-81 | a created book is appended with average 0 and count 0, and its submitted ratings start empty |
| Views.Catalog.PerformCreate | my_app/views.py:56-72 | fails exactly on `Rejection`, and then changes nothing; on success only the target book's aggregate changes, to the new average with count + 1; the review bound to (requesting user, URL book) is appended; it is then the only review for that pair |
| Views.Catalog.UpdateReview | my_app/views.py:74-77 | a missing id fails with `NotFound`; a found review fails exactly when the patched fields are invalid, and then with `InvalidFields`; otherwise only the review's rating and comment change, and no book aggregate changes |
| Views.Catalog.DeleteReview | my_app/views.py:74-77 | fails with `NotFound` exactly when no review has the id, and succeeds exactly when one does; success removes exactly that review; no book aggregate changes |
| Views.BookAggregate | my_app/views.py:66-70 | in a valid store every book has `avg_rating * number_rating` equal to the sum of its submitted ratings and `number_rating` equal to their count; once rated, its average lies in [1, 5] |
| UserSerializers.PasswordField | user/serializers.py:18-19 | the password field, with its declared minimum in force, accepts exactly the passwords of six or more characters |
| UserSerializers.ShortPasswordAcceptedAsWritten | user/serializers.py:7-9 | the declared field, as written, accepts the five-character password "short" |
| UserSerializers.ShortPasswordRefused | user/tests.py:81-93 | with the minimum in force, "short" is refused |
| UserSerializers.ValidateRegistration | user/serializers.py:22-29 | registration validation passes exactly when the two passwords are equal, and returns the data unchanged |
| UserSerializers.Register | user/serializers.py:7-34 | with the password rule given (the fields as declared, or with the 6-character minimum): a password the rule refuses fails first, then mismatched passwords; otherwise registration fails exactly when `create_user` would, with its error (missing username, then missing e-mail, then `IntegrityError`); any failure stores nothing; success appends the user with the next id and advances the id counter by one; that user is built from username, e-mail, name and password; that password checks; the response has no password |
| UserSerializers.PasswordCheck | user/serializers.py:7-19 | the declared fields impose no minimum length; with the minimum in force exactly those of six or more characters pass; a refusal is always `PasswordTooShort` |
| UserSerializers.ShortPasswordRegistersAsWritten | user/serializers.py:7-34 | as written, the short-password registration (with `name` supplied) on an empty table succeeds and returns the stored user |
| UserSerializers.ShortPasswordRefusedAsIntended | user/tests.py:81-93 | with the minimum in force, the same registration is refused with `PasswordTooShort` |
| UserSerializers.ValidateUpdate | user/serializers.py:58-66 | update validation passes exactly when neither password is given (non-empty), or when both are equal |
| UserSerializers.ApplyUpdate | user/serializers.py:68-78 | only supplied fields change; omitted ones keep their value; the password changes only when a non-empty one is given, and then exactly it checks; id and flags are untouched |
| UserSerializers.ApplyUpdateIdempotent | user/serializers.py:68-78 | applying the same update twice equals applying it once |
| UserSerializers.EmptyUpdateIsIdentity | user/serializers.py:68-78 | an update supplying nothing leaves the user unchanged |
| UserSerializers.UpdateProfile | user/serializers.py:38-78 | with the password rule given: a password the rule refuses fails first, then mismatched passwords, both with the table unchanged; once both checks pass, the update fails (`IntegrityError`) exactly when another row holds the updated username or e-mail; success replaces only the requesting user's row with the updated user and returns its fields without password |
| UserSerializers.ValidateLogin | user/serializers.py:88-103 | login fails with an "authorization" error exactly when `authenticate` yields no user; otherwise the credentials are returned with that user attached |

## Findings

| source | as written | input that shows it | evidently intended | confidence | as-written member | corrected member |
|---|---|---|---|---|---|---|
| user/serializers.py:7-19 | `password`/`password2` are declared explicitly as `CharField`s without `min_length`. The `min_length: 6` in `Meta.extra_kwargs` is ignored for explicitly declared fields, so no minimum applies (same at lines 39-55). | registration with `password = password2 = "short"` and all other fields valid is accepted. user/tests.py:81-93 expects it refused; its payload would be refused because it lacks the required `name` (User.name has no default, my_app/models.py:37). | passwords shorter than 6 characters are refused | medium, not executed | `UserSerializers.ShortPasswordRegistersAsWritten` | `UserSerializers.ShortPasswordRefusedAsIntended` |

## Left out

- Concurrency: the check-then-insert race and the database-side `F()` update are out of scope. Each operation runs as one atomic step.
- Float rounding of `avg_rating`: modelled exactly with `real`.
- `Views.Catalog.PerformCreate`: does not model the framework's HTTP status mapping. A missing book is reported as `BookDoesNotExist` rather than an unhandled server error.
- `Views.Catalog.UpdateReview`: the ownership permission is not modelled (`IsReviewUserOrReadOnly` is not part of this model), so any caller may update. `Views.Catalog.DeleteReview` has the same gap. Both also leave out anonymous-caller refusal.
- Generic create/update/delete of authors, categories and books: framework CRUD. Books enter only through `AddBook` with the default aggregate. The book serializer also lets a client write `avg_rating` and `number_rating` directly (my_app/serializers.py:27); that path is not modelled. For the same reason `number_rating` is a `nat`.
- Deleting a book, and its cascade to reviews, is not modelled.
- Views.BookList: the `category` and `author` query parameters are typed as optional ids. A non-numeric value makes the source's `filter` raise `ValueError`; that error path is not modelled. An empty value counts as absent, as in the source.
- Serializer field validation that the framework generates (required fields, blank strings, whitespace trimming, maximum lengths of user fields, e-mail format, unique validators) is not modelled. Uniqueness is enforced by the user table (`IntegrityError`) instead. Of the review fields, only the rating range and the 255-character comment limit are checked.
- Password hashing: a stored password is either usable with its plain secret or unusable. `check_password` is equality with the usable secret.
- `authenticate` is a parameter of `ValidateLogin`; token creation and the login view are not modelled.
- `Models.NormalizeEmail`: lower-casing covers ASCII letters only. Python's `str.lower` also folds other Unicode letters.
- `__str__` of `Author`, `Category` and `Book` (each returns the name) appear only as the book name inside the review string.
- URL routing, admin registration, migrations and the views of the `user` app: wiring only.
- The ordering of list results is the table order (insertion order); the source declares no ordering.
