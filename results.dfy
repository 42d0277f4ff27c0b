/** Failure-carrying results. The source aborts the process (`panic`,
    `log.Fatal`) on every I/O or repository error; the model returns the
    error instead, and every caller propagates it. */
module Results {

  /** Why a run aborts. */
  datatype Fault =
    | RepositoryUnreadable  // git.PlainOpen, Head, Log or ForEach failed
    | DirectoryUnreadable   // os.Open or Readdir failed
    | IndexOutOfRange       // a slice read past its length (Go panics)

  datatype Result<T> = Success(value: T) | Failure(fault: Fault)
}
