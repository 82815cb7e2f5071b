/** The vocabulary shared by the step library: the untyped value that request
    and response bodies are made of, Java's 32-bit `int`, and the ways a step
    can fail. */
module Values {

  /** Java's `int`: the type of the status, size and count arguments of the steps. */
  type Int32 = x: int | -0x8000_0000 <= x < 0x8000_0000

  /** A body as the JSON and YAML mappers hand it over: `null`, a Boolean, an
      integer, a string, a `List` or a `Map` keyed by strings, nested freely. */
  datatype Value =
    | Null
    | Bool(b: bool)
    | Int(i: int)
    | Str(s: string)
    | List(items: seq<Value>)
    | Map(fields: map<string, Value>)

  /** Why a step fails; each kind stands for the Java exception named beside it. */
  datatype Failure =
    | ArgumentError    // IllegalArgumentException: unknown verb, body on a GET
    | MissingCell      // IndexOutOfBoundsException: a header row with fewer than two cells
    | NoResponseYet    // NullPointerException on `response` before any call
    | EvaluationError  // the expression does not parse, or a segment cannot be read
    | NotAString       // the placeholder value is not a string (ClassCastException, or null)
    | ShapeMismatch    // an assertion found null, or a value of the wrong kind
    | AssertionFailed  // a well-shaped value with the wrong content
    | TransportError   // the HTTP exchange itself threw

  datatype Option<T> = None | Some(value: T)

  datatype Result<T> = Ok(value: T) | Err(error: Failure)

  /** The verdict of a step that returns nothing. */
  datatype Outcome = Pass | Fail(error: Failure)
}
