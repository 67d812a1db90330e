/** Result types shared by every component. */
module Common {

  datatype Option<+T> = None | Some(value: T)

  /** The two failure classes of the controller: a tenant's mistake, or a fault
      of the system around it. */
  datatype Error = UserError | SystemError

  datatype Result<+T> = Ok(value: T) | Err(error: Error)
}
