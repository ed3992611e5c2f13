/** How a JavaScript evaluation ends: with a value, or with a thrown TypeError.
    The normalizer never throws on purpose; every TypeError in this model is one
    the JavaScript engine raises (reading a property of null, calling a value that
    is not a function, `.map` on something that is not an array, ...). */
module Outcome {

  datatype Result<+T> = Ok(value: T) | TypeError {

    predicate IsFailure() {
      TypeError?
    }

    function PropagateFailure<U>(): Result<U>
      requires TypeError?
    {
      TypeError
    }

    function Extract(): T
      requires Ok?
    {
      value
    }
  }

  datatype Option<+T> = None | Some(value: T)
}
