/** Values shared by every part of the model: bytes, the error values the
    filesystem layer and the template compiler produce, and a small
    Option/Result pair for operations that can fail. */
module Common {

  newtype byte = x: int | 0 <= x < 256

  type Bytes = seq<byte>

  /** The error values that flow through template discovery.
      `NotExist` and `Invalid` are the filesystem sentinels (fs.ErrNotExist /
      os.ErrNotExist and fs.ErrInvalid / os.ErrInvalid), `EOF` is io.EOF,
      `Message` is any other error carrying its text (an `Asset` callback
      failure, a template parse error, a bytes.Reader complaint), and
      `Aggregate` is the single error compilation returns when one or more
      files failed. */
  datatype Error =
    | NotExist
    | Invalid
    | EOF
    | Message(text: string)
    | Aggregate(errs: seq<Error>)

  datatype Option<+T> = None | Some(value: T)

  datatype Result<+T> = Success(value: T) | Failure(error: Error) {
    predicate IsFailure() {
      Failure?
    }

    function PropagateFailure<U>(): Result<U>
      requires Failure?
    {
      Failure(error)
    }

    function Extract(): T
      requires Success?
    {
      value
    }
  }
}
