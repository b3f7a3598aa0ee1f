/** The two exceptions the search can raise, as values. */
module Outcomes {

  datatype Failure =
    | ZeroDivision  // ZeroDivisionError: the average fitness of an empty population
    | EmptyRange    // ValueError of random.randint(0, -1): children are needed but nothing was retained

  datatype Result<T> = Ok(value: T) | Err(error: Failure)
}
