/** Success/failure values for operations whose errors the database reports to the caller. */
module Results {

  datatype Result<+T, +E> = Success(value: T) | Failure(error: E)

}
