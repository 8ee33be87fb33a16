/** Failure-carrying wrappers shared by every module of the model. */
module Common {

  /** A value that may be missing (pandas' NaT / NaN, an empty minimum). */
  datatype Option<+T> = None | Some(value: T)

  /** The outcome of a step of the script that can stop it. */
  datatype Result<+T, +E> = Ok(value: T) | Err(error: E)
}

/** The ways the script stops before drawing its last chart. */
module Failures {

  datatype ScriptError =
    | NoOptionColumn // data_df['option'] of an empty quote list raises KeyError (gamma.py:58)
    | BadExpiry      // pd.to_datetime raises on an expiry text (gamma.py:60)
    | MergeMismatch  // "PUT CALL MERGE FAILED" and exit() (gamma.py:77-79)
    | BadStrike      // astype(float) raises on a strike text (gamma.py:91)
    | NoGammaFlip    // zeroGamma[0] of an empty array raises (gamma.py:196)
}
