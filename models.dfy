/** The two tables, `users` and `reviews` (app/models.py). */
module Models {
  import opened Wrappers

  /** The declared length of `sentimiento`: `String(20)`. */
  const SENTIMIENTO_MAX_LEN: nat := 20

  /** A row of `users`. `email` and `hashedPassword` are NOT NULL. */
  datatype User = User(id: nat, email: string, hashedPassword: string)

  /**
   * A row of `reviews`. `producto`, `textoResena` and `sentimiento` are NOT
   * NULL; `createdAt` is the insertion time in seconds; `usuarioEmail` is a
   * nullable reference to `users.email`.
   */
  datatype Review = Review(
    id: nat,
    producto: string,
    textoResena: string,
    sentimiento: string,
    createdAt: nat,
    usuarioEmail: Option<string>)

  /** The unique index on `users.email`. */
  predicate UniqueEmails(users: seq<User>) {
    forall i, j :: 0 <= i < j < |users| ==> users[i].email != users[j].email
  }

  /** Every review names its author. */
  predicate AllAuthored(reviews: seq<Review>) {
    forall i :: 0 <= i < |reviews| ==> reviews[i].usuarioEmail.Some?
  }
}
