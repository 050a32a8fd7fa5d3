/** Optional values and the three ways a step of the translator can end. */
module Wrappers {

  datatype Option<+T> = None | Some(value: T)

  /** `Ok(value)`: the step succeeded. `Fail(msg)`: it threw a `std::string`, which the
      driver catches, reports as `ERROR: msg` and survives. `Abort(why)`: an `assert`
      failed or an exception nobody catches was thrown; the process ends. */
  datatype Result<+T> = Ok(value: T) | Fail(msg: string) | Abort(why: string)
}
