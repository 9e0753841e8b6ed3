/**
 * The server's state and route handlers. The two JSON files are the
 * `users` and `bookings` sequences of a `Store`; every handler loads the
 * whole collection, computes the new one and writes it back whole.
 */
module Server {
  import opened Wrappers
  import opened JsText
  import opened Records
  import opened Credentials
  import opened Auth
  import opened Users
  import opened Bookings

  const EmailAlreadyRegistered: Response := Response(400, Message("Email already registered"))
  const Registered: Response := Response(200, Message("Registered successfully"))
  const BookingCancelled: Response := Response(200, Message("Booking cancelled"))

  class Store {
    /** The contents of `data/users.json`. */
    var users: seq<User>
    /** The contents of `data/bookings.json`. */
    var bookings: seq<Booking>

    constructor (users: seq<User>, bookings: seq<Booking>)
      ensures this.users == users && this.bookings == bookings
    {
      this.users := users;
      this.bookings := bookings;
    }

    /** `readData(usersFile)`. */
    method ReadUsers() returns (s: seq<User>)
      ensures s == users
    {
      s := users;
    }

    /** `writeData(usersFile, s)`: the file is replaced whole. */
    method WriteUsers(s: seq<User>)
      modifies this
      ensures users == s && bookings == old(bookings)
    {
      users := s;
    }

    /** `readData(bookingsFile)`. */
    method ReadBookings() returns (s: seq<Booking>)
      ensures s == bookings
    {
      s := bookings;
    }

    /** `writeData(bookingsFile, s)`: the file is replaced whole. */
    method WriteBookings(s: seq<Booking>)
      modifies this
      ensures bookings == s && users == old(users)
    {
      bookings := s;
    }

    /**
     * `POST /api/register`. A taken address is refused and nothing is
     * written; otherwise exactly one user, holding the digest of the
     * password, is appended. Only a message is returned, never a token.
     */
    method Register(name: string, email: string, password: string, id: int, salt: string, cred: Credentials)
      returns (r: Response)
      modifies this
      ensures bookings == old(bookings)
      ensures EmailTaken(old(users), email) ==> r == EmailAlreadyRegistered && users == old(users)
      ensures !EmailTaken(old(users), email) ==>
                r == Registered && users == old(users) + [NewUser(id, name, email, password, salt, cred)]
      ensures EmailsUnique(old(users)) ==> EmailsUnique(users)
      ensures EmailTaken(users, email)
    {
      var us := ReadUsers();
      if FirstWithEmail(us, email).Some? {
        r := EmailAlreadyRegistered;
        return;
      }
      var hashed := cred.hash(password, salt);
      var newUser := User(id, name, email, hashed);
      us := us + [newUser];
      WriteUsers(us);
      r := Registered;
      assert users[|users| - 1] == newUser;
      if EmailsUnique(old(users)) {
        AppendKeepsUnique(old(users), newUser);
      }
    }

    /** `POST /api/login`; the store is only read. */
    method Login(email: string, password: string, cred: Credentials) returns (r: Response)
      ensures r == LoginResponse(users, email, password, cred)
    {
      var us := ReadUsers();
      var found := FirstWithEmail(us, email);
      if found.None? || !cred.compare(password, us[found.value].password) {
        r := InvalidCredentials;
        return;
      }
      var u := us[found.value];
      var token := cred.sign(Claims(u.id, u.email), SECRET);
      r := Ok(LoggedIn(token, PublicUser(u.id, u.name, u.email)));
    }

    /** The handler of `GET /api/bookings` for the authenticated `user`. */
    method ListBookings(user: Claims) returns (r: Response)
      ensures r.status == 200 && r.body.BookingList?
      ensures forall b :: b in r.body.bookings <==> b in bookings && b.userId == user.id
      ensures r.body.bookings == OwnedBy(bookings, user.id)
    {
      var all := ReadBookings();
      r := Ok(BookingList(OwnedBy(all, user.id)));
    }

    /**
     * The handler of `POST /api/bookings`: the owner is the authenticated
     * user, never a field of the request body.
     */
    method CreateBooking(user: Claims, roomId: string, checkin: string, checkout: string, id: int)
      returns (r: Response)
      modifies this
      ensures users == old(users)
      ensures bookings == old(bookings) + [NewBooking(id, user.id, roomId, checkin, checkout)]
      ensures r == Ok(BookingCreated("Booking created", NewBooking(id, user.id, roomId, checkin, checkout)))
    {
      var bs := ReadBookings();
      var newBooking := Booking(id, user.id, roomId, checkin, checkout);
      bs := bs + [newBooking];
      WriteBookings(bs);
      r := Ok(BookingCreated("Booking created", newBooking));
    }

    /**
     * The handler of `DELETE /api/bookings/:id`: removes the caller's
     * bookings with id `parseInt(idParam)` and answers the same message
     * whether or not anything was removed.
     */
    method CancelBooking(user: Claims, idParam: string) returns (r: Response)
      modifies this
      ensures users == old(users)
      ensures bookings == Cancelled(old(bookings), ParseInt(idParam), user.id)
      ensures r == BookingCancelled
    {
      var bs := ReadBookings();
      var updated := Cancelled(bs, ParseInt(idParam), user.id);
      WriteBookings(updated);
      r := BookingCancelled;
    }

    /** `GET /api/bookings` behind the `auth` middleware. */
    method GetBookings(authorization: Option<string>, cred: Credentials) returns (r: Response)
      ensures Authenticate(authorization, cred).Denied? ==> r == Authenticate(authorization, cred).response
      ensures Authenticate(authorization, cred).Granted? ==>
                r == Ok(BookingList(OwnedBy(bookings, Authenticate(authorization, cred).user.id)))
    {
      match Authenticate(authorization, cred)
      case Denied(response) => r := response;
      case Granted(user) => r := ListBookings(user);
    }

    /** `POST /api/bookings` behind the `auth` middleware; a denied request writes nothing. */
    method PostBookings(authorization: Option<string>, cred: Credentials,
                        roomId: string, checkin: string, checkout: string, id: int) returns (r: Response)
      modifies this
      ensures users == old(users)
      ensures Authenticate(authorization, cred).Denied? ==>
                r == Authenticate(authorization, cred).response && bookings == old(bookings)
      ensures Authenticate(authorization, cred).Granted? ==>
                var b := NewBooking(id, Authenticate(authorization, cred).user.id, roomId, checkin, checkout);
                bookings == old(bookings) + [b] && r == Ok(BookingCreated("Booking created", b))
    {
      match Authenticate(authorization, cred)
      case Denied(response) => r := response;
      case Granted(user) => r := CreateBooking(user, roomId, checkin, checkout, id);
    }

    /** `DELETE /api/bookings/:id` behind the `auth` middleware; a denied request writes nothing. */
    method DeleteBooking(authorization: Option<string>, cred: Credentials, idParam: string) returns (r: Response)
      modifies this
      ensures users == old(users)
      ensures Authenticate(authorization, cred).Denied? ==>
                r == Authenticate(authorization, cred).response && bookings == old(bookings)
      ensures Authenticate(authorization, cred).Granted? ==>
                r == BookingCancelled &&
                bookings == Cancelled(old(bookings), ParseInt(idParam), Authenticate(authorization, cred).user.id)
    {
      match Authenticate(authorization, cred)
      case Denied(response) => r := response;
      case Granted(user) => r := CancelBooking(user, idParam);
    }
  }

  /**
   * Registering the same address twice: the second call is refused and the
   * address still belongs to exactly one user.
   */
  method RegisterTwice(store: Store, name: string, email: string, password: string,
                       id1: int, id2: int, salt1: string, salt2: string, cred: Credentials)
    returns (first: Response, second: Response)
    requires EmailsUnique(store.users)
    modifies store
    ensures first == (if EmailTaken(old(store.users), email) then EmailAlreadyRegistered else Registered)
    ensures second == EmailAlreadyRegistered
    ensures EmailsUnique(store.users) && |WithEmail(store.users, email)| == 1
  {
    first := store.Register(name, email, password, id1, salt1, cred);
    ghost var afterFirst := store.users;
    second := store.Register(name, email, password, id2, salt2, cred);
    assert store.users == afterFirst;
    UniqueEmailHasOneOwner(store.users, email);
  }

  /**
   * Register, log in, and present the issued token as `Bearer <token>`: the
   * request is let through as the new user.
   */
  method RegisterLoginAuthenticate(store: Store, name: string, email: string, password: string,
                                   id: int, salt: string, cred: Credentials)
    returns (token: string)
    requires Sound(cred)
    requires !EmailTaken(store.users, email)
    modifies store
    ensures store.users == old(store.users) + [NewUser(id, name, email, password, salt, cred)]
    ensures store.bookings == old(store.bookings)
    ensures LoginResponse(store.users, email, password, cred) == Ok(LoggedIn(token, PublicUser(id, name, email)))
    ensures Authenticate(Some("Bearer " + token), cred) == Granted(Claims(id, email))
  {
    var _ := store.Register(name, email, password, id, salt, cred);
    RegisterThenLogin(old(store.users), id, name, email, password, salt, cred);
    var r := store.Login(email, password, cred);
    token := r.body.token;
    assert token == cred.sign(Claims(id, email), SECRET);
    SignedTokenAuthenticates(Claims(id, email), "Bearer", cred);
    assert "Bearer" + " " + token == "Bearer " + token;
  }

  /**
   * Create a booking, then delete it through the decimal form of its id as
   * the same user: the booking collection is back where it started.
   */
  method CreateThenDelete(store: Store, user: Claims, roomId: string, checkin: string, checkout: string, id: int)
    requires forall i :: 0 <= i < |store.bookings| ==>
               !(store.bookings[i].id == id && store.bookings[i].userId == user.id)
    modifies store
    ensures store.bookings == old(store.bookings) && store.users == old(store.users)
  {
    var _ := store.CreateBooking(user, roomId, checkin, checkout, id);
    var _ := store.CancelBooking(user, IntToDecimal(id));
    CreateThenCancel(old(store.bookings), NewBooking(id, user.id, roomId, checkin, checkout));
  }
}
