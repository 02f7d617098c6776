/**
 * Request and response bodies (app/schemas.py). Parsing a request body is a
 * function from its raw fields to the validated record or the list of field
 * errors that the framework answers with status 422.
 */
module Schemas {
  import opened Wrappers
  import opened Models

  const PASSWORD_MIN_LEN: nat := 6
  const PRODUCTO_MIN_LEN: nat := 1
  const TEXTO_RESENA_MIN_LEN: nat := 1

  datatype ErrorKind = NotAnEmail | StringTooShort(minLength: nat)

  datatype FieldError = FieldError(field: string, kind: ErrorKind)

  /**
   * `EmailStr`: the address checker is a parameter; it gives the normalised
   * address, or `None` for a string that is not an address.
   */
  type EmailCheck = string -> Option<string>

  /** `RegisterIn`. */
  datatype RegisterIn = RegisterIn(email: string, password: string)

  function ParseRegisterIn(check: EmailCheck, email: string, password: string): (r: Result<RegisterIn, seq<FieldError>>)
    ensures r.Ok? <==> check(email).Some? && |password| >= PASSWORD_MIN_LEN
    ensures r.Ok? ==> r.value == RegisterIn(check(email).value, password)
    ensures r.Err? ==> r.error != []
    ensures r.Err? ==> (FieldError("email", NotAnEmail) in r.error <==> check(email).None?)
    ensures r.Err? ==>
      (FieldError("password", StringTooShort(PASSWORD_MIN_LEN)) in r.error <==> |password| < PASSWORD_MIN_LEN)
  {
    var errors :=
      (if check(email).None? then [FieldError("email", NotAnEmail)] else [])
      + (if |password| < PASSWORD_MIN_LEN then [FieldError("password", StringTooShort(PASSWORD_MIN_LEN))] else []);
    if errors == [] then Ok(RegisterIn(check(email).value, password)) else Err(errors)
  }

  /** `ReviewCreate`. */
  datatype ReviewCreate = ReviewCreate(producto: string, textoResena: string)

  function ParseReviewCreate(producto: string, textoResena: string): (r: Result<ReviewCreate, seq<FieldError>>)
    ensures r.Ok? <==> producto != [] && textoResena != []
    ensures r.Ok? ==> r.value == ReviewCreate(producto, textoResena)
    ensures r.Err? ==> r.error != []
    ensures r.Err? ==> (FieldError("producto", StringTooShort(PRODUCTO_MIN_LEN)) in r.error <==> producto == [])
    ensures r.Err? ==>
      (FieldError("texto_resena", StringTooShort(TEXTO_RESENA_MIN_LEN)) in r.error <==> textoResena == [])
  {
    var errors :=
      (if |producto| < PRODUCTO_MIN_LEN then [FieldError("producto", StringTooShort(PRODUCTO_MIN_LEN))] else [])
      + (if |textoResena| < TEXTO_RESENA_MIN_LEN
         then [FieldError("texto_resena", StringTooShort(TEXTO_RESENA_MIN_LEN))] else []);
    if errors == [] then Ok(ReviewCreate(producto, textoResena)) else Err(errors)
  }

  /** `TokenOut`; `token_type` defaults to "bearer". */
  datatype TokenOut = TokenOut(accessToken: string, tokenType: string := "bearer")

  lemma TokenTypeDefault(token: string)
    ensures TokenOut(token).tokenType == "bearer"
  {
  }

  /** `ReviewOut`: the six fields a review is answered with. */
  datatype ReviewOut = ReviewOut(
    id: nat,
    producto: string,
    textoResena: string,
    sentimiento: string,
    createdAt: nat,
    usuarioEmail: string)

  /**
   * Reading a stored review into `ReviewOut`; `usuario_email` is a required
   * string there, so a review without an author does not serialise.
   */
  function ToReviewOut(r: Review): (o: Option<ReviewOut>)
    ensures o.Some? <==> r.usuarioEmail.Some?
    ensures o.Some? ==>
      && o.value.id == r.id
      && o.value.producto == r.producto
      && o.value.textoResena == r.textoResena
      && o.value.sentimiento == r.sentimiento
      && o.value.createdAt == r.createdAt
      && Some(o.value.usuarioEmail) == r.usuarioEmail
  {
    match r.usuarioEmail
    case None => None
    case Some(email) => Some(ReviewOut(r.id, r.producto, r.textoResena, r.sentimiento, r.createdAt, email))
  }
}
