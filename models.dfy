/**
  The data model: users and their manager, books with their rating aggregate,
  reviews, and the string form of a review.
 */
module Models {
  import opened Wrappers
  import opened PyStr
  import opened Aggregate

  // ---------------------------------------------------------------- users

  /** The stored password: a usable one (hashing is abstracted away) or the unusable marker. */
  datatype Credential = Unusable | Usable(secret: string)

  datatype User = User(
    id: nat,
    username: string,
    email: string,
    name: string,
    password: Credential,
    isStaff: bool,
    isActive: bool,
    isSuperuser: bool)

  /** The errors `create_user` raises: two `ValueError`s and the store's `IntegrityError`. */
  datatype UserError = MissingUsername | MissingEmail | IntegrityError

  /** `user.check_password(raw)`: only a usable password equal to `raw` checks. */
  predicate CheckPassword(u: User, raw: string) {
    u.password == Usable(raw)
  }

  /** `user.set_password(password)`: `None` leaves the user with an unusable password. */
  function SetPassword(u: User, password: Option<string>): (r: User)
    ensures forall raw :: CheckPassword(r, raw) <==> password == Some(raw)
    ensures r == u.(password := r.password)
  {
    match password
    case Some(p) => u.(password := Usable(p))
    case None => u.(password := Unusable)
  }

  /**
    `BaseUserManager.normalize_email`: if the stripped address contains an '@',
    the part after the last '@' is lower-cased and the part before it kept;
    otherwise the address is returned as given.
   */
  function NormalizeEmail(email: string): string {
    match LastIndexOf(Strip(email), '@')
    case None => email
    case Some(k) => Strip(email)[..k] + "@" + Lower(Strip(email)[k + 1..])
  }

  /**
    Normalization keeps an address without '@' exactly as given, never adds or
    removes the '@', and never empties a non-empty address.
   */
  lemma NormalizeEmailShape(email: string)
    ensures '@' in NormalizeEmail(email) <==> '@' in email
    ensures '@' !in email ==> NormalizeEmail(email) == email
    ensures |email| > 0 ==> |NormalizeEmail(email)| > 0
  {
    StripKeepsNonSpace(email, '@');
    var s := Strip(email);
    if '@' in s {
      var k := LastIndexOf(s, '@').value;
      assert NormalizeEmail(email)[k] == '@';
    }
  }

  /** An address that `strip` leaves alone is split at its last '@'. */
  lemma NormalizeStripped(s: string, k: nat)
    requires Strip(s) == s && LastIndexOf(s, '@') == Some(k)
    ensures NormalizeEmail(s) == s[..k] + "@" + Lower(s[k + 1..])
  {
    var t := Strip(s);
    assert t == s;
    assert LastIndexOf(t, '@') == Some(k);
  }

  /** The '@' in front of a domain without '@' is the last one, and splits the address back into its parts. */
  lemma LastAtSeparator(local: string, domain: string)
    requires '@' !in domain
    ensures var e := local + "@" + domain;
      && LastIndexOf(e, '@') == Some(|local|)
      && e[..|local|] == local && e[|local| + 1..] == domain
  {
    var e := local + "@" + domain;
    assert e[|local|] == '@';
    assert forall j :: |local| < j < |e| ==> e[j] == domain[j - |local| - 1];
    assert e[..|local|] == local;
    assert e[|local| + 1..] == domain;
  }

  /** An address with non-whitespace ends is left alone by `strip`. */
  lemma JoinedTrimmed(local: string, domain: string)
    requires local == [] || !IsSpace(local[0])
    requires domain == [] || !IsSpace(domain[|domain| - 1])
    ensures Strip(local + "@" + domain) == local + "@" + domain
  {
    var e := local + "@" + domain;
    assert e[0] == if local == [] then '@' else local[0];
    assert e[|e| - 1] == if domain == [] then '@' else domain[|domain| - 1];
    StripTrimmed(e);
  }

  /**
    For an address without surrounding whitespace, the local part (everything
    before the last '@') keeps its case and the domain is lower-cased.
   */
  lemma NormalizeEmailParts(local: string, domain: string)
    requires '@' !in domain
    requires local == [] || !IsSpace(local[0])
    requires domain == [] || !IsSpace(domain[|domain| - 1])
    ensures NormalizeEmail(local + "@" + domain) == local + "@" + Lower(domain)
  {
    JoinedTrimmed(local, domain);
    LastAtSeparator(local, domain);
    NormalizeStripped(local + "@" + domain, |local|);
  }

  /** A stripped address split at its last '@' is left as it is once its domain is lower-cased. */
  lemma NormalizedIsFixed(s: string, k: nat)
    requires k < |s| && s[k] == '@'
    requires forall j :: k < j < |s| ==> s[j] != '@'
    requires !IsSpace(s[0]) && !IsSpace(s[|s| - 1])
    ensures var r := s[..k] + "@" + Lower(s[k + 1..]); NormalizeEmail(r) == r
  {
    var local, domain := s[..k], s[k + 1..];
    assert '@' !in Lower(domain) by {
      forall j | 0 <= j < |domain| ensures domain[j] != '@' {
        assert domain[j] == s[k + 1 + j];
      }
      LowerKeeps(domain, '@');
    }
    assert local == [] || local[0] == s[0];
    var lowered := Lower(domain);
    assert lowered == [] || !IsSpace(lowered[|lowered| - 1]) by {
      if domain != [] {
        assert domain[|domain| - 1] == s[|s| - 1];
        LowerCharKeepsNonSpace(domain[|domain| - 1]);
      }
    }
    NormalizeEmailParts(local, lowered);
    LowerTwice(domain);
  }

  /** Normalizing an already normalized address changes nothing. */
  lemma NormalizeEmailIdempotent(email: string)
    ensures NormalizeEmail(NormalizeEmail(email)) == NormalizeEmail(email)
  {
    if '@' in email {
      NormalizedWithAtIsFixed(email);
    } else {
      NormalizeEmailShape(email);
    }
  }

  lemma NormalizedWithAtIsFixed(email: string)
    requires '@' in email
    ensures NormalizeEmail(NormalizeEmail(email)) == NormalizeEmail(email)
  {
    StripKeepsNonSpace(email, '@');
    var s := Strip(email);
    var k := LastIndexOf(s, '@').value;
    StripEnds(email);
    NormalizedIsFixed(s, k);
    var r := s[..k] + "@" + Lower(s[k + 1..]);
    NormalizeSplits(email, k);
    assert NormalizeEmail(email) == r;
  }

  /** Where the stripped address has its last '@' at `k`, normalization splits there. */
  lemma NormalizeSplits(email: string, k: nat)
    requires LastIndexOf(Strip(email), '@') == Some(k)
    ensures var s := Strip(email); NormalizeEmail(email) == s[..k] + "@" + Lower(s[k + 1..])
  {
  }

  /** An address of the e-mail normalization test: the local part keeps its case, the domain loses it. */
  lemma NormalizeEmailExample()
    ensures NormalizeEmail("EXAMPLE3@EXAMPLE.COM") == "EXAMPLE3@example.com"
  {
    assert "EXAMPLE3" + "@" + "EXAMPLE.COM" == "EXAMPLE3@EXAMPLE.COM" by {}
    ExampleDomainLowered();
    assert "EXAMPLE3" + "@" + "example.com" == "EXAMPLE3@example.com" by {}
    NormalizeEmailParts("EXAMPLE3", "EXAMPLE.COM");
  }

  lemma ExampleDomainLowered()
    ensures Lower("EXAMPLE.COM") == "example.com"
  {
  }

  /** A user as `create_user` builds it: model defaults, normalized e-mail, password set. */
  function NewUser(id: nat, username: string, email: string, password: Option<string>, name: string): (u: User)
    ensures u.id == id && u.username == username && u.name == name
    ensures u.email == NormalizeEmail(email)
    ensures !u.isStaff && u.isActive && !u.isSuperuser
    ensures forall raw :: CheckPassword(u, raw) <==> password == Some(raw)
  {
    var u := User(id, username, NormalizeEmail(email), name, Unusable, false, true, false);
    SetPassword(u, password)
  }

  predicate UsernameTaken(users: seq<User>, username: string) {
    exists u :: u in users && u.username == username
  }

  predicate EmailTaken(users: seq<User>, email: string) {
    exists u :: u in users && u.email == email
  }

  /** The user table with the unique constraints on username and e-mail. */
  ghost predicate UsersValid(users: seq<User>, nextId: nat) {
    && (forall i :: 0 <= i < |users| ==> users[i].id < nextId)
    && (forall i, j :: 0 <= i < j < |users| ==>
          && users[i].id != users[j].id
          && users[i].username != users[j].username
          && users[i].email != users[j].email)
  }

  /** Inserting a user with a fresh id, username and e-mail keeps the table's constraints. */
  lemma AppendUser(users: seq<User>, nextId: nat, u: User)
    requires UsersValid(users, nextId) && u.id == nextId
    requires !UsernameTaken(users, u.username) && !EmailTaken(users, u.email)
    ensures UsersValid(users + [u], nextId + 1)
  {
    forall i | 0 <= i < |users|
      ensures users[i].username != u.username && users[i].email != u.email
    {
      assert users[i] in users;
    }
  }

  /** `UserManager` together with the user table it saves into. */
  class UserManager {
    var users: seq<User>
    var nextId: nat

    ghost predicate Valid()
      reads this
    {
      UsersValid(users, nextId)
    }

    constructor ()
      ensures Valid() && users == [] && nextId == 1
    {
      users := [];
      nextId := 1;
    }

    /**
      `create_user`: rejects an empty username, then an empty e-mail; builds the
      user and inserts it, which the store refuses when the username or the
      normalized e-mail is already taken.
     */
    method CreateUser(username: string, email: string, password: Option<string>, name: string)
      returns (res: Result<User, UserError>)
      requires Valid()
      modifies this
      ensures Valid()
      ensures username == [] ==> res == Err(MissingUsername)
      ensures username != [] && email == [] ==> res == Err(MissingEmail)
      ensures username != [] && email != [] &&
              (UsernameTaken(old(users), username) || EmailTaken(old(users), NormalizeEmail(email)))
              ==> res == Err(IntegrityError)
      ensures res.Ok? <==>
                username != [] && email != [] &&
                !UsernameTaken(old(users), username) && !EmailTaken(old(users), NormalizeEmail(email))
      ensures res.Err? ==> users == old(users) && nextId == old(nextId)
      ensures res.Ok? ==>
                && res.value == NewUser(old(nextId), username, email, password, name)
                && users == old(users) + [res.value]
                && nextId == old(nextId) + 1
    {
      if username == [] {
        return Err(MissingUsername);
      }
      if email == [] {
        return Err(MissingEmail);
      }
      var u := NewUser(nextId, username, email, password, name);
      if UsernameTaken(users, u.username) || EmailTaken(users, u.email) {
        return Err(IntegrityError);
      }
      AppendUser(users, nextId, u);
      users := users + [u];
      nextId := nextId + 1;
      return Ok(u);
    }

    /**
      `create_superuser`: `create_user` followed by setting the staff and
      superuser flags on the saved user.
     */
    method CreateSuperuser(username: string, email: string, password: Option<string>, name: string)
      returns (res: Result<User, UserError>)
      requires Valid()
      modifies this
      ensures Valid()
      ensures username == [] ==> res == Err(MissingUsername)
      ensures username != [] && email == [] ==> res == Err(MissingEmail)
      ensures username != [] && email != [] &&
              (UsernameTaken(old(users), username) || EmailTaken(old(users), NormalizeEmail(email)))
              ==> res == Err(IntegrityError)
      ensures res.Ok? <==>
                username != [] && email != [] &&
                !UsernameTaken(old(users), username) && !EmailTaken(old(users), NormalizeEmail(email))
      ensures res.Err? ==> users == old(users) && nextId == old(nextId)
      ensures res.Ok? ==>
                && res.value == NewUser(old(nextId), username, email, password, name).(isStaff := true, isSuperuser := true)
                && users == old(users) + [res.value]
                && nextId == old(nextId) + 1
    {
      res := CreateUser(username, email, password, name);
      if res.Ok? {
        var su := res.value.(isStaff := true, isSuperuser := true);
        users := users[|users| - 1 := su];
        res := Ok(su);
      }
    }

    /**
      `user.save()` of an existing user: the row with the same id is replaced,
      unless another row already holds the new username or e-mail.
     */
    method Save(u: User) returns (res: Result<User, UserError>)
      requires Valid()
      requires exists k :: 0 <= k < |users| && users[k].id == u.id
      modifies this
      ensures Valid()
      ensures nextId == old(nextId) && |users| == |old(users)|
      ensures res.Err? <==> exists k :: 0 <= k < |old(users)| && old(users)[k].id != u.id &&
                                       (old(users)[k].username == u.username || old(users)[k].email == u.email)
      ensures res.Err? ==> res.error == IntegrityError && users == old(users)
      ensures res.Ok? ==>
                && res.value == u
                && forall k :: 0 <= k < |users| ==>
                     users[k] == if old(users)[k].id == u.id then u else old(users)[k]
    {
      var k :| 0 <= k < |users| && users[k].id == u.id;
      if exists j :: 0 <= j < |users| && users[j].id != u.id &&
                     (users[j].username == u.username || users[j].email == u.email) {
        return Err(IntegrityError);
      }
      users := users[k := u];
      return Ok(u);
    }
  }

  // ---------------------------------------------------------------- books and reviews

  datatype Book = Book(
    id: nat,
    user: nat,
    name: string,
    description: string,
    category: Option<nat>,
    author: nat,
    avgRating: real,
    numberRating: nat)

  /** A book as created, with the field defaults `avg_rating = 0` and `number_rating = 0`. */
  function NewBook(id: nat, user: nat, name: string, description: string, category: Option<nat>, author: nat): (b: Book)
    ensures b.id == id && b.name == name && b.category == category && b.author == author
    ensures AggregateMatches(b.avgRating, b.numberRating, [])
  {
    Book(id, user, name, description, category, author, 0.0, 0)
  }

  datatype Review = Review(id: nat, user: nat, rating: int, comment: Option<string>, book: nat)

  /** The longest comment the review model stores. */
  const MaxCommentLength: nat := 255

  /** What the review serializer accepts for the writable fields: a rating in 1..5 and a short enough comment. */
  predicate ReviewFieldsValid(rating: int, comment: Option<string>) {
    ValidRating(rating) && (comment.None? || |comment.value| <= MaxCommentLength)
  }

  /**
    `Review.__str__`: the rating, the book's string form (its name) and the
    user's string form (its username), separated by " | ".
   */
  function ReviewString(r: Review, book: Book, user: User): string
    requires r.book == book.id && r.user == user.id
  {
    IntToString(r.rating) + " | " + book.name + " | " + user.username
  }

  /** A valid rating is printed as its single digit, which reads back as the rating. */
  lemma ReviewStringRating(r: Review, book: Book, user: User)
    requires r.book == book.id && r.user == user.id && ValidRating(r.rating)
    ensures var s := ReviewString(r, book, user);
      |s| >= 4 && s[1..4] == " | " && IsDigit(s[0]) && ParseNat(s[..1]) == r.rating
    ensures ReviewString(r, book, user)[4..] == book.name + " | " + user.username
  {
    var d := IntToString(r.rating);
    assert d == NatToString(r.rating);
    assert |d| == 1;
    IntStringRoundTrip(r.rating);
    var s := ReviewString(r, book, user);
    assert s[..1] == d;
  }
}
