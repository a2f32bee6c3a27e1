/** Values shared by every part of the journal application: store keys,
    Java's nullable references, and the exceptions a call can throw. */
module Common {

  /** A MongoDB ObjectId. Only equality between ids matters to the model. */
  type Id(==)

  /** A Java reference that may be null (None), e.g. a nullable String. */
  datatype Option<+T> = None | Some(value: T)

  /** The exception classes the handlers distinguish. */
  datatype ExceptionKind =
    | IllegalArgument   // java.lang.IllegalArgumentException
    | DuplicateKey      // org.springframework.dao.DuplicateKeyException
    | Other             // any other RuntimeException

  /** A thrown exception; `getMessage()` may return null. */
  datatype Exception = Exception(kind: ExceptionKind, message: Option<string>)

  /** What a call produced: a returned value or a thrown exception. */
  datatype Result<+T> = Ok(value: T) | Err(exception: Exception)

  /** Spring Data's `save(null)` fails its not-null assertion with this exception. */
  const NullEntity: Exception := Exception(IllegalArgument, Some("Entity must not be null"))

  /** A unique-index violation reported by the store on a write. */
  const DuplicateUserName: Exception := Exception(DuplicateKey, Some("E11000 duplicate key error"))

  /** Java's `s != null && !s.equals("")`. */
  predicate IsSet(s: Option<string>) {
    s.Some? && s.value != ""
  }
}
