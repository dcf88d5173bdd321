/** Failure-carrying values shared by every module of the model.

    The Python code reports every failure by raising an exception; here each
    raise site becomes one constructor of `Error` and the operation returns
    `Failure(...)` instead of a value. */
module Results {

  datatype Option<+T> = None | Some(value: T)

  /** One constructor per exception the modelled code can raise. */
  datatype Error =
    | EmptyWordSet          // "Empty word set"
    | MixedWordLengths      // "Word list must contain all same size words"
    | WrongLength           // "[w] needs to be N letters"
    | NotAWord              // "[w] is not a valid word!"
    | MissingCandidateSet   // "candidate_set not specified in config"
    | TreeMismatch          // "... not using an accurate solution tree ..."
    | NoCandidates          // "... not using an accurate dictionary!"
    | NoFrequency           // "No frequency distribution could be attained ..."
    | NoExplorable          // indexing the empty explorable list
    | NoGuessWord           // submitting the solver's `None` to a game still in play

  datatype Result<+T> = Success(value: T) | Failure(error: Error)
}
