/**
 * The rows of the record store's tables and the shapes of its responses.
 * A nullable column is an `Option`; a `string` column that the handlers scan
 * into a Go `string` is a plain `string`. Prices are float64 in the source and
 * are only carried along here, never computed with.
 */
module Models {

  import opened Rows

  /** A row of `users`. */
  datatype User = User(
    id: int,
    firstName: string,
    lastName: string,
    username: string,
    email: string,
    passwordHash: string,
    city: string,
    role: string)

  /** A row of `ensembles`; `kind` is the `type` column. */
  datatype Ensemble = Ensemble(id: int, name: string, kind: string)

  /** A row of `musicians`; `ensembleId` becomes NULL when the ensemble is deleted. */
  datatype Musician = Musician(
    id: int,
    firstName: string,
    lastName: string,
    role: string,
    ensembleId: Option<int>)

  /** A row of `tracks`: owned by a musician or by an ensemble. */
  datatype TrackRow = TrackRow(
    id: int,
    name: string,
    duration: int,
    musicianId: Option<int>,
    ensembleId: Option<int>)

  /** A row of `records`, as the record queries scan it. */
  datatype RecordRow = RecordRow(
    id: int,
    title: string,
    recordLabel: string,
    wholesaleAddress: string,
    wholesalePrice: real,
    retailPrice: real,
    releaseDate: string,
    soldLastYear: int,
    soldCurrentYear: int,
    stock: int)

  /** A row of `record_tracks`. */
  datatype Link = Link(recordId: int, trackId: int)

  /** A row of `cart_items`. */
  datatype CartRow = CartRow(userId: int, recordId: int, quantity: int)

  /**
   * One row of the tracks query: the track LEFT JOINed with its musician's
   * first and last name and its ensemble's name (NULL when the join finds
   * no row).
   */
  datatype TrackJoinRow = TrackJoinRow(
    track: TrackRow,
    musicianFirstName: Option<string>,
    musicianLastName: Option<string>,
    ensembleName: Option<string>)

  /**
   * A track in a response. A display name is "" (left out of the JSON) when
   * the track has no owner of that kind.
   */
  datatype Track = Track(
    id: int,
    name: string,
    duration: int,
    musicianId: Option<int>,
    ensembleId: Option<int>,
    musicianName: string,
    ensembleName: string)

  /**
   * A record in a response. `tracks` is the Go slice: `None` is a nil slice
   * (JSON null), `Some([])` an empty one.
   */
  datatype Record = Record(row: RecordRow, tracks: Option<seq<Track>>)

  /** A cart entry in a response; `record` is the pointer that may stay nil. */
  datatype CartItem = CartItem(userId: int, recordId: int, quantity: int, record: Option<Record>)

  /** How a request fails, one constructor per distinct client or server error. */
  datatype ErrorClass =
    | BadRequest        // 400: malformed or missing input
    | Unauthorized      // 401: missing or malformed credentials
    | Forbidden         // 403: authenticated but not an admin
    | RecordNotFound    // 404 "Record not found"
    | ItemNotFound      // 404 "Item not found in cart"
    | EnsembleNotFound  // 404 "Ensemble not found"
    | Conflict          // 409: a UNIQUE column already holds the value
    | StorageError      // 500: the engine refused the statement
    | InternalError     // 500: no user in the request context

  /** The reply of a handler that answers with a message only. */
  datatype Status = Done | Rejected(error: ErrorClass)

  /** The reply of a handler that answers with a value. */
  datatype Result<T> = Ok(value: T) | Err(error: ErrorClass)
}
