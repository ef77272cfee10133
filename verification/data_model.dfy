/**
  The three entity schemas, `User`, `Product` and `Order`, and the request
  validation that turns a JSON body into one of them.

  A body is a payload whose fields may be missing (`None`). `ParseUser`,
  `ParseProduct` and `ParseOrder` fill in declared defaults and either return
  the record or list every violated field constraint, in field order, as the
  schema library does. Each record's `Valid` predicate states the constraints
  directly; the parse functions are proved to accept exactly the payloads
  whose filled-in record is valid.
*/
module DataModel {
  import opened Wrappers
  import EmailPattern

  const NameMaxLength: nat := 32
  const EmailMaxLength: nat := 128
  const PasswordMinLength: nat := 6
  const PasswordMaxLength: nat := 64
  const DescriptionMaxLength: nat := 128

  /** A `datetime`; only its identity matters here. */
  datatype Timestamp = Timestamp(ticks: int)

  datatype User = User(id: int, name: string, surname: string, email: string, password: string) {
    ghost predicate Valid() {
      && id >= 0
      && |name| <= NameMaxLength
      && |surname| <= NameMaxLength
      && |email| <= EmailMaxLength
      && EmailPattern.MatchesPattern(email)
      && PasswordMinLength <= |password| <= PasswordMaxLength
    }
  }

  /** `cost` is a float in the source; here a real. */
  datatype Product = Product(id: int, name: string, description: string, cost: real) {
    predicate Valid() {
      && id >= 0
      && |name| <= NameMaxLength
      && |description| <= DescriptionMaxLength
      && cost > 0.0
    }
  }

  datatype Order = Order(id: int, userId: int, productId: int, date: Timestamp, status: bool) {
    predicate Valid() {
      id >= 0 && userId >= 0 && productId >= 0
    }
  }

  /** Why a field was refused. */
  datatype Violation =
    | Missing(field: string)
    | TooShort(field: string, min: nat)
    | TooLong(field: string, max: nat)
    | Negative(field: string)       // a `ge=0` bound
    | NotPositive(field: string)    // a `gt=0` bound
    | InvalidEmail                  // `check_email` raised "Invalid email address"

  datatype UserPayload = UserPayload(
    id: Option<int>, name: Option<string>, surname: Option<string>,
    email: Option<string>, password: Option<string>)
  {
    predicate HasRequired() {
      name.Some? && surname.Some? && email.Some? && password.Some?
    }

    /** The record the body describes, `id` defaulting to 0. */
    function WithDefaults(): User
      requires HasRequired()
    {
      User(id.GetOr(0), name.value, surname.value, email.value, password.value)
    }
  }

  datatype ProductPayload = ProductPayload(
    id: Option<int>, name: Option<string>, description: Option<string>, cost: Option<real>)
  {
    predicate HasRequired() {
      name.Some? && description.Some? && cost.Some?
    }

    /** The record the body describes, `id` defaulting to 0. */
    function WithDefaults(): Product
      requires HasRequired()
    {
      Product(id.GetOr(0), name.value, description.value, cost.value)
    }
  }

  datatype OrderPayload = OrderPayload(
    id: Option<int>, userId: Option<int>, productId: Option<int>,
    date: Option<Timestamp>, status: Option<bool>)
  {
    predicate HasRequired() {
      id.Some? && userId.Some? && productId.Some?
    }

    /** The record the body describes: `date` defaults to the time of
        validation `now`, `status` to false; `id` has no default. */
    function WithDefaults(now: Timestamp): Order
      requires HasRequired()
    {
      Order(id.value, userId.value, productId.value, date.GetOr(now), status.GetOr(false))
    }
  }

  // Per-field checks; each returns the violations of one field.

  /** An integer field with `ge=0`; `required` when it has no default. */
  function CheckNonNegative(field: string, v: Option<int>, required: bool): seq<Violation> {
    match v
    case None => if required then [Missing(field)] else []
    case Some(x) => if x < 0 then [Negative(field)] else []
  }

  /** A required string field with `max_length`. */
  function CheckMaxLength(field: string, v: Option<string>, max: nat): seq<Violation> {
    match v
    case None => [Missing(field)]
    case Some(s) => if |s| > max then [TooLong(field, max)] else []
  }

  /** `User.password`: `min_length=6`, `max_length=64`. */
  function CheckPassword(v: Option<string>): seq<Violation> {
    match v
    case None => [Missing("password")]
    case Some(s) =>
      if |s| < PasswordMinLength then [TooShort("password", PasswordMinLength)]
      else if |s| > PasswordMaxLength then [TooLong("password", PasswordMaxLength)]
      else []
  }

  /** `User.check_email`: the value is returned unchanged when it matches the
      pattern and refused otherwise. */
  function CheckEmail(value: string): (r: Result<string, Violation>)
    ensures r.Success? <==> EmailPattern.MatchesPattern(value)
    ensures r.Success? ==> r.value == value
    ensures r.Failure? ==> r.error == InvalidEmail
  {
    EmailPattern.ScannerMatchesPattern(value);
    if EmailPattern.IsEmail(value) then Success(value) else Failure(InvalidEmail)
  }

  /** `User.email`: the length bound first; the validator runs only on a value
      that passed it. */
  function CheckEmailField(v: Option<string>): seq<Violation> {
    match v
    case None => [Missing("email")]
    case Some(s) =>
      if |s| > EmailMaxLength then [TooLong("email", EmailMaxLength)]
      else match CheckEmail(s)
        case Success(_) => []
        case Failure(e) => [e]
  }

  /** Validation of a `User` body. */
  function ParseUser(p: UserPayload): (r: Result<User, seq<Violation>>)
    ensures r.Success? <==> p.HasRequired() && p.WithDefaults().Valid()
    ensures r.Success? ==> r.value == p.WithDefaults()
    ensures r.Failure? ==> r.error != []
    ensures p.name.None? ==> r.Failure? && Missing("name") in r.error
    ensures p.surname.None? ==> r.Failure? && Missing("surname") in r.error
    ensures p.email.None? ==> r.Failure? && Missing("email") in r.error
    ensures p.password.None? ==> r.Failure? && Missing("password") in r.error
  {
    var errors :=
      CheckNonNegative("id", p.id, false)
      + CheckMaxLength("name", p.name, NameMaxLength)
      + CheckMaxLength("surname", p.surname, NameMaxLength)
      + CheckEmailField(p.email)
      + CheckPassword(p.password);
    if errors == [] then Success(p.WithDefaults()) else Failure(errors)
  }

  /** Validation of a `Product` body. */
  function ParseProduct(p: ProductPayload): (r: Result<Product, seq<Violation>>)
    ensures r.Success? <==> p.HasRequired() && p.WithDefaults().Valid()
    ensures r.Success? ==> r.value == p.WithDefaults()
    ensures r.Failure? ==> r.error != []
    ensures p.name.None? ==> r.Failure? && Missing("name") in r.error
    ensures p.description.None? ==> r.Failure? && Missing("description") in r.error
    ensures p.cost.None? ==> r.Failure? && Missing("cost") in r.error
  {
    var errors :=
      CheckNonNegative("id", p.id, false)
      + CheckMaxLength("name", p.name, NameMaxLength)
      + CheckMaxLength("description", p.description, DescriptionMaxLength)
      + (match p.cost
         case None => [Missing("cost")]
         case Some(c) => if c <= 0.0 then [NotPositive("cost")] else []);
    if errors == [] then Success(p.WithDefaults()) else Failure(errors)
  }

  /** Validation of an `Order` body at time `now`. */
  function ParseOrder(p: OrderPayload, now: Timestamp): (r: Result<Order, seq<Violation>>)
    ensures r.Success? <==> p.HasRequired() && p.WithDefaults(now).Valid()
    ensures r.Success? ==> r.value == p.WithDefaults(now)
    ensures r.Failure? ==> r.error != []
    ensures p.id.None? ==> r.Failure? && Missing("id") in r.error
    ensures p.userId.None? ==> r.Failure? && Missing("user_id") in r.error
    ensures p.productId.None? ==> r.Failure? && Missing("product_id") in r.error
  {
    var errors :=
      CheckNonNegative("id", p.id, true)
      + CheckNonNegative("user_id", p.userId, true)
      + CheckNonNegative("product_id", p.productId, true);
    if errors == [] then Success(p.WithDefaults(now)) else Failure(errors)
  }

  /** A body without `id` yields a user with id 0; one with `id` keeps it. */
  lemma UserIdDefault(p: UserPayload)
    requires ParseUser(p).Success?
    ensures ParseUser(p).value.id == (if p.id.None? then 0 else p.id.value)
  {
  }

  /** A body without `id` yields a product with id 0; one with `id` keeps it. */
  lemma ProductIdDefault(p: ProductPayload)
    requires ParseProduct(p).Success?
    ensures ParseProduct(p).value.id == (if p.id.None? then 0 else p.id.value)
  {
  }

  /** An order body without `date` is stamped `now`, without `status` is open. */
  lemma OrderDefaults(p: OrderPayload, now: Timestamp)
    requires ParseOrder(p, now).Success?
    ensures p.date.None? ==> ParseOrder(p, now).value.date == now
    ensures p.status.None? ==> ParseOrder(p, now).value.status == false
  {
  }

  /** A password outside 6..64 characters is always refused, naming the bound
      it broke; one inside never draws a password violation. */
  lemma PasswordBounds(p: UserPayload)
    requires p.password.Some?
    ensures var n := |p.password.value|;
      (n < 6 ==> ParseUser(p).Failure? && TooShort("password", 6) in ParseUser(p).error)
      && (n > 64 ==> ParseUser(p).Failure? && TooLong("password", 64) in ParseUser(p).error)
      && (6 <= n <= 64 && ParseUser(p).Failure? ==>
            TooShort("password", 6) !in ParseUser(p).error && TooLong("password", 64) !in ParseUser(p).error)
  {
  }

  /** The two example e-mails of the API's description are refused. */
  lemma MalformedEmailsRefused(p: UserPayload)
    requires p.email == Some("not-an-email") || p.email == Some("a@b")
    ensures ParseUser(p).Failure?
  {
    EmailPattern.RejectsMissingAt();
    EmailPattern.RejectsMissingDot();
  }
}
