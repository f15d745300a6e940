/** Failure-compatible wrappers and small sequence facts shared by every module of the model. */
module Common {

  datatype Option<T> = None | Some(value: T)

  /** The Python exceptions that the modelled code can raise. */
  datatype Error =
    | StructError    // struct.error: bad format string, wrong buffer length, bad argument
    | UnicodeError   // UnicodeDecodeError or UnicodeEncodeError from a text codec
    | LookupError    // unknown text encoding name
    | IndexError     // index out of range
    | AttributeError // an attribute the object does not have

  datatype Result<T> = Ok(value: T) | Err(error: Error) {
    predicate IsFailure() { Err? }

    function PropagateFailure<U>(): Result<U>
      requires Err?
    {
      Err(error)
    }

    function Extract(): T
      requires Ok?
    {
      value
    }
  }

  /** A prefix one longer is the prefix followed by the next element. */
  lemma TakeSnoc<T>(s: seq<T>, k: nat)
    requires 0 < k <= |s|
    ensures s[..k - 1] + [s[k - 1]] == s[..k]
  {
  }

  /** A prefix of a prefix is a prefix. */
  lemma TakeTake<T>(s: seq<T>, k: nat, n: nat)
    requires k <= n <= |s|
    ensures s[..n][..k] == s[..k]
  {
  }
}
