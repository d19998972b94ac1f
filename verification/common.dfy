/** Null-free stand-ins for Java's nullable references and thrown exceptions. */
module Common {

  /** A possibly absent value: `None` stands for a Java `null`. */
  datatype Option<T> = None | Some(value: T)

  /** A value or the failure that prevented computing it. */
  datatype Result<T, E> = Ok(value: T) | Err(error: E)

  /** The exceptions the modelled Java code raises or lets escape. */
  datatype Exception =
    | IllegalArgument
    | IllegalState
    | NullPointer
    | ClassCast
    | IndexOutOfBounds
    | IOFailure
    | RemoteFailure
    | TransformFailure
    | Runtime(cause: Exception)

  /** How a void Java call ended: normally, or by throwing. */
  datatype Outcome = Done | Thrown(ex: Exception)

  /** `f` applied to every element of `xs`, in order. */
  function Map<A, B>(f: A -> B, xs: seq<A>): (r: seq<B>)
    ensures |r| == |xs|
    ensures forall i :: 0 <= i < |xs| ==> r[i] == f(xs[i])
  {
    seq(|xs|, i requires 0 <= i < |xs| => f(xs[i]))
  }
}
