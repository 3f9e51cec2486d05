/** What the model keeps of the HTTP exchanges: the one status code the code accepts. */
module Http {
  /** Both requests only read the body of a `200 OK` response. */
  const StatusOk := 200
}
