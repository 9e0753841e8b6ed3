/** The stored records and the JSON responses the handlers send. */
module Records {

  /** An entry of `data/users.json`; `password` holds the bcrypt digest. */
  datatype User = User(id: int, name: string, email: string, password: string)

  /** The user object returned by login: everything but the password. */
  datatype PublicUser = PublicUser(id: int, name: string, email: string)

  /** An entry of `data/bookings.json`. */
  datatype Booking = Booking(id: int, userId: int, roomId: string, checkin: string, checkout: string)

  /** The JSON bodies the handlers send. */
  datatype Body =
    | Message(message: string)
    | LoggedIn(token: string, user: PublicUser)
    | BookingList(bookings: seq<Booking>)
    | BookingCreated(message: string, booking: Booking)

  /** An HTTP status code with its JSON body (`res.json` sends 200). */
  datatype Response = Response(status: nat, body: Body)

  function Ok(body: Body): (r: Response) { Response(200, body) }
}
