/** Choices the environment makes: replies, delays, what other parties do next. */
module Environment {

  /** Any value at all of the type asked for. */
  method Any<T(0)>() returns (x: T) {
    x := *;
  }
}
