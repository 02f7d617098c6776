/**
 * The queries and inserts of app/crud.py over an in-memory copy of the two
 * tables. A session commit becomes an update of the store's sequences; the
 * ids the database assigns are positions counted from 1 (rows are never
 * deleted), and the insertion time of a review is a parameter.
 */
module Crud {
  import opened Wrappers
  import opened Models
  import opened Security

  /** The unique constraint on `users.email` rejecting an insert. */
  datatype StoreError = DuplicateEmail

  /** `query(User).filter(User.email == email).first()` over the rows in order. */
  function FirstWithEmail(users: seq<User>, email: string): (r: Option<User>)
    ensures r.Some? ==> r.value in users && r.value.email == email
    ensures r.None? <==> forall u :: u in users ==> u.email != email
  {
    if users == [] then None
    else if users[0].email == email then Some(users[0])
    else FirstWithEmail(users[1..], email)
  }

  /** `filter(Review.producto == producto)`: exact match, rows kept in order. */
  function OfProduct(reviews: seq<Review>, producto: string): (rs: seq<Review>)
    ensures forall r :: r in rs <==> r in reviews && r.producto == producto
    ensures |rs| <= |reviews|
  {
    if reviews == [] then []
    else (if reviews[0].producto == producto then [reviews[0]] else []) + OfProduct(reviews[1..], producto)
  }

  /** The filter keeps every copy of a review of the product and no copy of any other. */
  lemma {:induction false} OfProductCounts(reviews: seq<Review>, producto: string, r: Review)
    ensures multiset(OfProduct(reviews, producto))[r] == if r.producto == producto then multiset(reviews)[r] else 0
    decreases |reviews|
  {
    if reviews != [] {
      assert reviews == [reviews[0]] + reviews[1..];
      OfProductCounts(reviews[1..], producto, r);
    }
  }

  /** In a sequence of pairwise distinct rows each row occurs at most once. */
  lemma {:induction false} DistinctAtMostOnce(s: seq<Review>, x: Review)
    requires forall i, j :: 0 <= i < j < |s| ==> s[i] != s[j]
    ensures multiset(s)[x] <= 1
    decreases |s|
  {
    if s != [] {
      var tail := s[1..];
      assert s == [s[0]] + tail;
      forall i, j | 0 <= i < j < |tail| ensures tail[i] != tail[j] {
        assert tail[i] == s[i + 1] && tail[j] == s[j + 1];
      }
      DistinctAtMostOnce(tail, x);
      if x == s[0] {
        assert x !in tail by {
          forall k | 0 <= k < |tail| ensures tail[k] != x { assert tail[k] == s[k + 1]; }
        }
      }
    }
  }

  /** `order_by(created_at.desc())`: newest first. */
  predicate NewestFirst(rs: seq<Review>) {
    forall i, j :: 0 <= i < j < |rs| ==> rs[i].createdAt >= rs[j].createdAt
  }

  /** No review in `rs` is newer than `t`. */
  predicate NotNewerThan(t: nat, rs: seq<Review>) {
    forall x :: x in rs ==> x.createdAt <= t
  }

  lemma {:induction false} NewestFirstCons(h: Review, rs: seq<Review>)
    requires NotNewerThan(h.createdAt, rs) && NewestFirst(rs)
    ensures NewestFirst([h] + rs)
  {
    var out := [h] + rs;
    forall i, j | 0 <= i < j < |out| ensures out[i].createdAt >= out[j].createdAt {
      assert out[j] == rs[j - 1];
      if i > 0 { assert out[i] == rs[i - 1]; } else { assert rs[j - 1] in rs; }
    }
  }

  function InsertNewestFirst(r: Review, rs: seq<Review>): (out: seq<Review>)
    requires NewestFirst(rs)
    ensures NewestFirst(out)
    ensures forall x :: x in out <==> x == r || x in rs
    ensures multiset(out) == multiset(rs) + multiset{r}
  {
    if rs == [] || r.createdAt >= rs[0].createdAt then
      HeadIsNewest(r, rs);
      NewestFirstCons(r, rs);
      [r] + rs
    else
      var rest := InsertNewestFirst(r, rs[1..]);
      assert rs == [rs[0]] + rs[1..];
      HeadStaysNewest(r, rs, rest);
      NewestFirstCons(rs[0], rest);
      [rs[0]] + rest
  }

  /** A review at least as new as the head of a newest-first list is newer than all of it. */
  lemma {:induction false} HeadIsNewest(r: Review, rs: seq<Review>)
    requires NewestFirst(rs)
    requires rs == [] || r.createdAt >= rs[0].createdAt
    ensures NotNewerThan(r.createdAt, rs)
  {
    forall x | x in rs ensures x.createdAt <= r.createdAt {
      var k :| 0 <= k < |rs| && rs[k] == x;
    }
  }

  /** The head stays ahead of the tail once an older review is inserted into it. */
  lemma {:induction false} HeadStaysNewest(r: Review, rs: seq<Review>, rest: seq<Review>)
    requires NewestFirst(rs) && rs != [] && r.createdAt < rs[0].createdAt
    requires forall x :: x in rest <==> x == r || x in rs[1..]
    ensures NotNewerThan(rs[0].createdAt, rest)
  {
    forall x | x in rest ensures x.createdAt <= rs[0].createdAt {
      if x != r {
        var k :| 0 <= k < |rs[1..]| && rs[1..][k] == x;
        assert rs[k + 1] == x;
      }
    }
  }

  /**
   * One ordering the query may return. The database does not fix the order of
   * reviews with equal timestamps; this one keeps them in insertion order.
   */
  function SortNewestFirst(rs: seq<Review>): (out: seq<Review>)
    ensures NewestFirst(out)
    ensures multiset(out) == multiset(rs)
  {
    if rs == [] then []
    else
      assert rs == [rs[0]] + rs[1..];
      InsertNewestFirst(rs[0], SortNewestFirst(rs[1..]))
  }

  lemma {:induction false} InsertInFront(r: Review, rs: seq<Review>)
    requires NewestFirst(rs)
    requires rs == [] || r.createdAt >= rs[0].createdAt
    ensures InsertNewestFirst(r, rs) == [r] + rs
  {
  }

  lemma {:induction false} InsertBehind(r: Review, h: Review, rs: seq<Review>)
    requires NewestFirst([h] + rs) && NewestFirst(rs)
    requires r.createdAt < h.createdAt
    ensures InsertNewestFirst(r, [h] + rs) == [h] + InsertNewestFirst(r, rs)
  {
    assert ([h] + rs)[1..] == rs;
  }

  lemma {:induction false} SortTwo(b: Review, c: Review)
    requires b.createdAt < c.createdAt
    ensures SortNewestFirst([b, c]) == [c, b]
  {
    assert [b, c][1..] == [c] && [c][1..] == [];
    InsertInFront(c, []);
    assert SortNewestFirst([c]) == [c];
    InsertBehind(b, c, []);
    InsertInFront(b, []);
    assert [c] + [b] == [c, b];
  }

  /** Three reviews with increasing timestamps come back newest first. */
  lemma {:induction false} SortExample(a: Review, b: Review, c: Review)
    requires a.createdAt < b.createdAt < c.createdAt
    ensures SortNewestFirst([a, b, c]) == [c, b, a]
  {
    assert [a, b, c][1..] == [b, c];
    SortTwo(b, c);
    assert [c, b] == [c] + [b];
    InsertBehind(a, c, [b]);
    InsertBehind(a, b, []);
    InsertInFront(a, []);
    assert [c] + ([b] + [a]) == [c, b, a];
  }

  /** The filter keeps the reviews of the product, in order. */
  lemma {:induction false} FilterExample(a: Review, q: Review, b: Review, c: Review, producto: string)
    requires a.producto == b.producto == c.producto == producto != q.producto
    ensures OfProduct([a, q, b, c], producto) == [a, b, c]
  {
    var s := [a, q, b, c];
    assert s[1..] == [q, b, c] && s[2..] == [b, c] && s[3..] == [c] && [c][1..] == [];
    assert OfProduct([c], producto) == [c];
    assert OfProduct([b, c], producto) == [b, c];
    assert OfProduct([q, b, c], producto) == [b, c];
  }

  /**
   * Reviews of one product stored at t1 < t2 < t3, with one of another product
   * among them, are listed as t3, t2, t1.
   */
  lemma {:induction false} ListingExample(a: Review, q: Review, b: Review, c: Review, producto: string)
    requires a.producto == b.producto == c.producto == producto != q.producto
    requires a.createdAt < b.createdAt < c.createdAt
    ensures SortNewestFirst(OfProduct([a, q, b, c], producto)) == [c, b, a]
  {
    FilterExample(a, q, b, c, producto);
    SortExample(a, b, c);
  }

  class Store {
    var users: seq<User>
    var reviews: seq<Review>

    /** The database's constraints: unique emails, ids 1, 2, ... in insertion order. */
    ghost predicate Valid()
      reads this
    {
      && UniqueEmails(users)
      && (forall i :: 0 <= i < |users| ==> users[i].id == i + 1)
      && (forall i :: 0 <= i < |reviews| ==> reviews[i].id == i + 1)
    }

    /** Empty tables. */
    constructor ()
      ensures Valid() && users == [] && reviews == []
    {
      users, reviews := [], [];
    }

    /** `get_user_by_email`. */
    function FindByEmail(email: string): (r: Option<User>)
      reads this
      ensures r.Some? ==> r.value in users && r.value.email == email
      ensures r.None? <==> forall u :: u in users ==> u.email != email
    {
      FirstWithEmail(users, email)
    }

    /** With unique emails the user found is the one stored under that email. */
    lemma FindByEmailIsTheUser(u: User)
      requires Valid() && u in users
      ensures FindByEmail(u.email) == Some(u)
    {
      var v := FindByEmail(u.email).value;
      var i :| 0 <= i < |users| && users[i] == u;
      var j :| 0 <= j < |users| && users[j] == v;
      assert users[i].email == users[j].email;
    }

    /**
     * `create_user`: stores the email with `hash_password(password)` under the
     * next id, or fails on the unique constraint and changes nothing.
     */
    method CreateUser(h: Argon2, email: string, password: string, salt: nat) returns (r: Result<User, StoreError>)
      requires Valid()
      modifies this
      ensures Valid() && reviews == old(reviews)
      ensures old(FindByEmail(email)).Some? ==> r == Err(DuplicateEmail) && users == old(users)
      ensures old(FindByEmail(email)).None? ==>
        && r == Ok(User(|old(users)| + 1, email, HashPassword(h, password, salt)))
        && users == old(users) + [r.value]
    {
      var user := User(|users| + 1, email, HashPassword(h, password, salt));
      if FindByEmail(email).Some? {
        return Err(DuplicateEmail);
      }
      users := users + [user];
      r := Ok(user);
    }

    /** `authenticate_user`: the stored user when the password verifies, else None. */
    function Authenticate(h: Argon2, email: string, password: string): (r: Option<User>)
      reads this
      ensures r.Some? ==> r == FindByEmail(email)
      ensures r.None? <==>
        FindByEmail(email).None? || !VerifyPassword(h, Some(password), FindByEmail(email).value.hashedPassword)
    {
      match FindByEmail(email)
      case None => None
      case Some(user) => if VerifyPassword(h, Some(password), user.hashedPassword) then Some(user) else None
    }

    /** A user stored with the hash of a password logs in with that password. */
    lemma StoredUserAuthenticates(h: Argon2, u: User, password: string, salt: nat)
      requires Sound(h) && Valid() && u in users
      requires u.hashedPassword == HashPassword(h, password, salt)
      ensures Authenticate(h, u.email, password) == Some(u)
    {
      FindByEmailIsTheUser(u);
      HashThenVerify(h, password, salt);
    }

    /** An unknown email and a wrong password give the same answer. */
    lemma AuthenticateFailsAlike(h: Argon2, email: string, password: string)
      requires FindByEmail(email).None? || !VerifyPassword(h, Some(password), FindByEmail(email).value.hashedPassword)
      ensures Authenticate(h, email, password) == None
    {
    }

    /**
     * `create_review`: stores exactly the given fields under the next id, with
     * the insertion time `now`.
     */
    method CreateReview(producto: string, textoResena: string, sentimiento: string, usuarioEmail: string, now: nat)
      returns (r: Review)
      requires Valid()
      modifies this
      ensures Valid() && users == old(users)
      ensures r == Review(|old(reviews)| + 1, producto, textoResena, sentimiento, now, Some(usuarioEmail))
      ensures reviews == old(reviews) + [r]
    {
      r := Review(|reviews| + 1, producto, textoResena, sentimiento, now, Some(usuarioEmail));
      reviews := reviews + [r];
    }

    /** `get_reviews_by_product`: every review of that product, newest first. */
    function ReviewsByProduct(producto: string): (rs: seq<Review>)
      reads this
      ensures forall r :: r in rs <==> r in reviews && r.producto == producto
      ensures NewestFirst(rs)
      ensures multiset(rs) == multiset(OfProduct(reviews, producto))
    {
      var matching := OfProduct(reviews, producto);
      var sorted := SortNewestFirst(matching);
      assert forall r :: r in sorted <==> r in multiset(matching);
      sorted
    }

    /** Rows have distinct ids, so a listing holds each review of the product exactly once. */
    lemma ListedOnce(producto: string, r: Review)
      requires Valid()
      ensures multiset(ReviewsByProduct(producto))[r] == if r in reviews && r.producto == producto then 1 else 0
    {
      forall i, j | 0 <= i < j < |reviews| ensures reviews[i] != reviews[j] {
        assert reviews[i].id != reviews[j].id;
      }
      DistinctAtMostOnce(reviews, r);
      OfProductCounts(reviews, producto, r);
    }
  }
}
