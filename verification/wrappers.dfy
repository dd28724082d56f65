/** Failure-carrying results shared by the model. */
module Wrappers {

  datatype Option<+T> = None | Some(value: T)

  /** Why code generation aborted. Every one of these is a Rust panic in the
      source: compilation of the whole module stops. */
  datatype Panic =
    | Unsupported      // `panic!("singlepass can't emit ...")` on an operand combination
    | Unimplemented    // an `unimplemented!()` body was reached
    | NoTempRegister   // `pick_temp_gpr().unwrap()` / `acquire_temp_gpr().unwrap()` on None
    | WrongType        // `Global::set` with a value of another type
    | Immutable        // `Global::set` on an immutable global

  datatype Result<+T> = Ok(value: T) | Fail(error: Panic)

  /** Outcome of a state-changing operation that returns nothing. */
  datatype Outcome = Done | Abort(error: Panic)
}
