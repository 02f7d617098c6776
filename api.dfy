/**
 * The HTTP handlers of app/main.py as compositions of the store, the
 * classifier and the token functions. A handler's result is the JSON body
 * it answers with, or the error (`HTTPException`, or a 422 from body
 * validation before the handler runs). The clock (`now`, whole seconds) and
 * the classifier's raw reply are parameters.
 */
module Api {
  import opened Wrappers
  import opened Text
  import opened Models
  import opened Schemas
  import opened Security
  import opened Sentiment
  import opened Crud

  /** An error response: a status with a detail message, or a 422 field list. */
  datatype HttpError = HttpError(status: int, detail: string) | Unprocessable(errors: seq<FieldError>) {
    function Status(): int {
      match this
      case HttpError(status, _) => status
      case Unprocessable(_) => 422
    }
  }

  /** The process-wide collaborators, fixed at start-up. */
  datatype Services = Services(hasher: Argon2, jwt: JwtCodec, emailCheck: EmailCheck)

  /** What the API keeps true of the store: its constraints, authors and labels. */
  ghost predicate ApiInvariant(store: Crud.Store)
    reads store
  {
    && store.Valid()
    && AllAuthored(store.reviews)
    && forall i :: 0 <= i < |store.reviews| ==> LabelOf(store.reviews[i].sentimiento).Some?
  }

  /** Every label fits the 20-character `sentimiento` column. */
  lemma LabelsFitColumn(l: Label)
    ensures |LabelText(l)| <= SENTIMIENTO_MAX_LEN
  {
  }

  // ------------------------------------------------------------ POST /register

  /** `register`: refuses a registered email with 400, otherwise stores one user. */
  method Register(store: Crud.Store, svc: Services, email: string, password: string, salt: nat)
    returns (r: Result<string, HttpError>)
    requires store.Valid()
    modifies store
    ensures store.Valid() && store.reviews == old(store.reviews)
    ensures old(ApiInvariant(store)) ==> ApiInvariant(store)
    ensures r.Err? ==> r.error.Status() == 400 || r.error.Status() == 422
    ensures ParseRegisterIn(svc.emailCheck, email, password).Err? ==>
      && r == Err(Unprocessable(ParseRegisterIn(svc.emailCheck, email, password).error))
      && store.users == old(store.users)
    ensures ParseRegisterIn(svc.emailCheck, email, password).Ok? ==>
      var address := ParseRegisterIn(svc.emailCheck, email, password).value.email;
      && (old(store.FindByEmail(address)).Some? ==>
            r == Err(HttpError(400, "Email ya registrado")) && store.users == old(store.users))
      && (old(store.FindByEmail(address)).None? ==>
            && r == Ok("Usuario creado con éxito")
            && store.users == old(store.users) + [User(|old(store.users)| + 1, address, HashPassword(svc.hasher, password, salt))])
  {
    var payload := ParseRegisterIn(svc.emailCheck, email, password);
    if payload.Err? {
      return Err(Unprocessable(payload.error));
    }
    if store.FindByEmail(payload.value.email).Some? {
      return Err(HttpError(400, "Email ya registrado"));
    }
    // The email was just found absent, so the unique constraint cannot fire.
    var _ := store.CreateUser(svc.hasher, payload.value.email, payload.value.password, salt);
    r := Ok("Usuario creado con éxito");
  }

  // --------------------------------------------------------------- POST /token

  /**
   * `login`: the same 400 for an unknown email and for a wrong password;
   * otherwise a bearer token whose subject is the email.
   */
  function Login(store: Crud.Store, svc: Services, username: string, password: string, now: int)
    : (r: Result<TokenOut, HttpError>)
    reads store
    ensures r.Err? <==> store.Authenticate(svc.hasher, username, password).None?
    ensures r.Err? ==> r.error == HttpError(400, "Credenciales inválidas")
    ensures r.Ok? ==> r.value.tokenType == "bearer"
    ensures r.Ok? ==> r.value.accessToken == CreateAccessToken(svc.jwt, username, None, now)
  {
    match store.Authenticate(svc.hasher, username, password)
    case None => Err(HttpError(400, "Credenciales inválidas"))
    case Some(user) => Ok(TokenOut(CreateAccessToken(svc.jwt, user.email, None, now)))
  }

  /** An unknown email and a wrong password are answered identically. */
  lemma LoginFailsAlike(store: Crud.Store, svc: Services, username: string, password: string, now: int)
    requires
      || store.FindByEmail(username).None?
      || !VerifyPassword(svc.hasher, Some(password), store.FindByEmail(username).value.hashedPassword)
    ensures Login(store, svc, username, password, now) == Err(HttpError(400, "Credenciales inválidas"))
  {
    store.AuthenticateFailsAlike(svc.hasher, username, password);
  }

  /** A user registered with a password can log in with it. */
  lemma RegisteredUserLogsIn(store: Crud.Store, svc: Services, u: User, password: string, salt: nat, now: int)
    requires Sound(svc.hasher) && store.Valid() && u in store.users
    requires u.hashedPassword == HashPassword(svc.hasher, password, salt)
    ensures Login(store, svc, u.email, password, now).Ok?
  {
    store.StoredUserAuthenticates(svc.hasher, u, password, salt);
  }

  /** The token from a successful login decodes to the email for one hour. */
  lemma LoginTokenNamesUser(store: Crud.Store, svc: Services, username: string, password: string, now: int, later: int)
    requires Faithful(svc.jwt)
    requires Login(store, svc, username, password, now).Ok?
    requires username != ""
    requires now <= later <= now + 60 * ACCESS_TOKEN_EXPIRE_MINUTES
    ensures DecodeToken(svc.jwt, Login(store, svc, username, password, now).value.accessToken, later) == Ok(username)
  {
    IssueThenDecode(svc.jwt, username, None, now, later);
  }

  // ------------------------------------------------------- get_current_email

  /** `get_current_email`: the email of a valid bearer token; every failure is 401. */
  function GetCurrentEmail(jwt: JwtCodec, authorization: Option<string>, now: int): (r: Result<string, HttpError>)
    ensures r.Err? ==> r.error.HttpError? && r.error.Status() == 401
    ensures authorization.GetOr("") == "" ==> r == Err(HttpError(401, "Falta header Authorization"))
    ensures r.Ok? ==>
      var parts := Words(authorization.value);
      |parts| == 2 && Lower(parts[0]) == "bearer" && DecodeToken(jwt, parts[1], now) == Ok(r.value)
  {
    if authorization.GetOr("") == "" then
      Err(HttpError(401, "Falta header Authorization"))
    else
      var parts := Words(authorization.value);
      if |parts| != 2 || Lower(parts[0]) != "bearer" then
        Err(HttpError(401, "Formato de Authorization inválido"))
      else
        match DecodeAccessToken(jwt, parts[1], now)
        case Ok(email) => Ok(email)
        case Err(e) => Err(HttpError(401, Message(e)))
  }

  /** A present header that is not two words starting with "bearer" is malformed. */
  lemma MalformedHeader(jwt: JwtCodec, header: string, now: int)
    requires header != ""
    requires |Words(header)| != 2 || Lower(Words(header)[0]) != "bearer"
    ensures GetCurrentEmail(jwt, Some(header), now) == Err(HttpError(401, "Formato de Authorization inválido"))
  {
  }

  /**
   * A header "<ws>scheme<ws>token<ws>" with the scheme "bearer" in any case
   * gives the token's subject, or a 401 carrying the decode message.
   */
  lemma {:induction false} WellFormedHeader(
    jwt: JwtCodec, p: string, scheme: string, m: string, token: string, q: string, now: int)
    requires AllSpace(p) && AllSpace(m) && AllSpace(q) && m != []
    requires NoSpace(scheme) && Lower(scheme) == "bearer"
    requires token != [] && NoSpace(token)
    ensures GetCurrentEmail(jwt, Some(p + scheme + m + token + q), now) ==
      match DecodeToken(jwt, token, now)
      case Ok(email) => Ok(email)
      case Err(e) => Err(HttpError(401, Message(e)))
  {
    WordsOfTwo(p, scheme, m, token, q);
    assert p + scheme + m + token + q != "" by {
      assert |p + scheme + m + token + q| >= |token|;
    }
  }

  /** "Bearer <token>" with a token from a login authorises as the logged-in email. */
  lemma {:induction false} LoginThenAuthorize(
    store: Crud.Store, svc: Services, username: string, password: string, now: int, later: int)
    requires Faithful(svc.jwt)
    requires Login(store, svc, username, password, now).Ok?
    requires username != ""
    requires now <= later <= now + 60 * ACCESS_TOKEN_EXPIRE_MINUTES
    requires var t := Login(store, svc, username, password, now).value.accessToken; t != [] && NoSpace(t)
    ensures GetCurrentEmail(svc.jwt, Some("Bearer " + Login(store, svc, username, password, now).value.accessToken), later)
      == Ok(username)
  {
    var token := Login(store, svc, username, password, now).value.accessToken;
    LoginTokenNamesUser(store, svc, username, password, now, later);
    assert Lower("Bearer") == "bearer";
    assert "Bearer " + token == [] + "Bearer" + " " + token + [];
    WellFormedHeader(svc.jwt, [], "Bearer", " ", token, [], later);
  }

  // ------------------------------------------------------------- POST /reviews

  /**
   * `crear_review`: authorise, validate the body, classify the text from the
   * classifier's `reply`, and store the review under the caller's email.
   */
  method CrearReview(
    store: Crud.Store, svc: Services, authorization: Option<string>,
    producto: string, textoResena: string, reply: Option<string>, now: nat)
    returns (r: Result<ReviewOut, HttpError>)
    requires store.Valid()
    modifies store
    ensures store.Valid() && store.users == old(store.users)
    ensures old(ApiInvariant(store)) ==> ApiInvariant(store)
    ensures r.Ok? ==> LabelOf(r.value.sentimiento) == Some(Classify(reply))
    ensures GetCurrentEmail(svc.jwt, authorization, now).Err? ==>
      r == Err(GetCurrentEmail(svc.jwt, authorization, now).error) && store.reviews == old(store.reviews)
    ensures GetCurrentEmail(svc.jwt, authorization, now).Ok? && ParseReviewCreate(producto, textoResena).Err? ==>
      r == Err(Unprocessable(ParseReviewCreate(producto, textoResena).error)) && store.reviews == old(store.reviews)
    ensures GetCurrentEmail(svc.jwt, authorization, now).Ok? && ParseReviewCreate(producto, textoResena).Ok? ==>
      var review := Review(|old(store.reviews)| + 1, producto, textoResena, LabelText(Classify(reply)), now,
                           Some(GetCurrentEmail(svc.jwt, authorization, now).value));
      && store.reviews == old(store.reviews) + [review]
      && r == Ok(ReviewOut(review.id, producto, textoResena, LabelText(Classify(reply)), now, review.usuarioEmail.value))
  {
    var current := GetCurrentEmail(svc.jwt, authorization, now);
    if current.Err? {
      return Err(current.error);
    }
    var payload := ParseReviewCreate(producto, textoResena);
    if payload.Err? {
      return Err(Unprocessable(payload.error));
    }
    var sentimiento := LabelText(Classify(reply));
    var review := store.CreateReview(payload.value.producto, payload.value.textoResena, sentimiento, current.value, now);
    LabelRoundTrip(Classify(reply));
    r := Ok(ReviewOut(review.id, review.producto, review.textoResena, review.sentimiento, review.createdAt, current.value));
  }

  // ------------------------------------------------------ GET /reviews/{producto}

  /** The response bodies of some reviews, if every one of them has an author. */
  function SerializeAll(rs: seq<Review>): (r: Option<seq<ReviewOut>>)
    ensures r.Some? <==> AllAuthored(rs)
    ensures r.Some? ==> |r.value| == |rs| && forall i :: 0 <= i < |rs| ==> ToReviewOut(rs[i]) == Some(r.value[i])
  {
    if rs == [] then Some([])
    else
      match (ToReviewOut(rs[0]), SerializeAll(rs[1..]))
      case (Some(first), Some(rest)) => Some([first] + rest)
      case _ => None
  }

  /** `list_reviews`: the store's listing for the product, as response bodies. */
  function ListReviews(store: Crud.Store, producto: string): (r: Result<seq<ReviewOut>, HttpError>)
    reads store
    ensures r.Ok? <==> AllAuthored(store.ReviewsByProduct(producto))
    ensures r.Ok? ==>
      var listed := store.ReviewsByProduct(producto);
      |r.value| == |listed| && forall i :: 0 <= i < |listed| ==> ToReviewOut(listed[i]) == Some(r.value[i])
  {
    match SerializeAll(store.ReviewsByProduct(producto))
    case Some(out) => Ok(out)
    case None => Err(HttpError(500, "Internal Server Error"))
  }

  /** Under the API invariant the listing always serialises. */
  lemma {:induction false} ListReviewsSucceeds(store: Crud.Store, producto: string)
    requires ApiInvariant(store)
    ensures ListReviews(store, producto).Ok?
  {
    var listed := store.ReviewsByProduct(producto);
    forall i | 0 <= i < |listed| ensures listed[i].usuarioEmail.Some? {
      assert listed[i] in store.reviews;
      var k :| 0 <= k < |store.reviews| && store.reviews[k] == listed[i];
    }
  }

  /** A store holding one authored review of a product lists exactly that review. */
  lemma {:induction false} ListingOfOneReview(store: Crud.Store, producto: string)
    requires |store.reviews| == 1 && store.reviews[0].producto == producto
    requires store.reviews[0].usuarioEmail.Some?
    ensures ListReviews(store, producto) == Ok([ToReviewOut(store.reviews[0]).value])
  {
    var stored := store.reviews[0];
    assert store.reviews == [stored] && [stored][1..] == [];
    assert OfProduct(store.reviews, producto) == [stored];
    var rs := store.ReviewsByProduct(producto);
    assert multiset(rs) == multiset{stored};
    assert |rs| == 1 && rs[0] in multiset(rs);
    assert rs == [stored];
    var out := ToReviewOut(stored).value;
    assert [stored][0] == stored && ToReviewOut(stored) == Some(out);
    assert SerializeAll([stored][1..]) == Some([]);
    assert SerializeAll([stored]) == Some([out] + []);
    assert [out] + [] == [out];
    assert SerializeAll(rs) == Some([out]);
  }

  // ----------------------------------------------------------- a whole session

  /** Register "a@x.com", fail to log in with a wrong password, then log in. */
  method RegisterAndLogin(svc: Services, salt: nat, now: nat)
    returns (store: Crud.Store, refused: Result<TokenOut, HttpError>, header: string)
    requires Sound(svc.hasher) && Faithful(svc.jwt) && Compact(svc.jwt)
    requires svc.emailCheck("a@x.com") == Some("a@x.com")
    requires svc.hasher.verify(svc.hasher.hash("secret1", salt), "wrong1") != Verified
    ensures fresh(store) && ApiInvariant(store) && store.reviews == []
    ensures refused == Err(HttpError(400, "Credenciales inválidas"))
    ensures GetCurrentEmail(svc.jwt, Some(header), now) == Ok("a@x.com")
  {
    store := new Crud.Store();
    var registered := Register(store, svc, "a@x.com", "secret1", salt);
    assert registered == Ok("Usuario creado con éxito");
    var user := store.users[0];
    refused := Login(store, svc, "a@x.com", "wrong1", now);
    assert refused.Err? by {
      assert store.FindByEmail("a@x.com") == Some(user);
    }
    var login := Login(store, svc, "a@x.com", "secret1", now);
    assert login.Ok? by {
      RegisteredUserLogsIn(store, svc, user, "secret1", salt, now);
    }
    header := "Bearer " + login.value.accessToken;
    LoginThenAuthorize(store, svc, "a@x.com", "secret1", now, now);
  }

  /**
   * The whole session: after registering, a login with a wrong password is
   * refused and one with the right password succeeds; a review without a
   * header is refused, one with the bearer token is stored with the label of
   * the classifier's reply, and the product's listing shows it.
   */
  method Session(svc: Services, salt: nat, now: nat)
    returns (refused: Result<TokenOut, HttpError>, denied: Result<ReviewOut, HttpError>,
             created: Result<ReviewOut, HttpError>, listed: Result<seq<ReviewOut>, HttpError>)
    requires Sound(svc.hasher) && Faithful(svc.jwt) && Compact(svc.jwt)
    requires svc.emailCheck("a@x.com") == Some("a@x.com")
    requires svc.hasher.verify(svc.hasher.hash("secret1", salt), "wrong1") != Verified
    ensures refused == Err(HttpError(400, "Credenciales inválidas"))
    ensures denied == Err(HttpError(401, "Falta header Authorization"))
    ensures created.Ok? && created.value.sentimiento == "positivo"
    ensures created.value.usuarioEmail == "a@x.com" && created.value.producto == "Widget"
    ensures listed.Ok? && |listed.value| == 1
    ensures listed.value == [created.value]
  {
    var store, header;
    store, refused, header := RegisterAndLogin(svc, salt, now);
    assert Classify(Some("positivo")) == Positivo by {
      ExactLabel("positivo", Positivo);
    }
    denied := CrearReview(store, svc, None, "Widget", "Me encanta", Some("positivo"), now);
    created := CrearReview(store, svc, Some(header), "Widget", "Me encanta", Some("positivo"), now);
    listed := ListReviews(store, "Widget");
    ListingOfOneReview(store, "Widget");
  }
}
