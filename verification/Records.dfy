/** The persisted record of a development environment. */
module Records {
  datatype Status = Progressing | Deployed | Destroying | Error

  /** `interrupt`: the error is, or wraps, the interrupt signal. */
  datatype Err = Err(id: nat, interrupt: bool)
}
