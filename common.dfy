/** Values shared by every part of the model: optional values, outcomes that may have
    raised a Python exception, and the HTTP errors FastAPI turns exceptions into. */
module Common {

  datatype Option<+T> = None | Some(value: T) {
    /** Python's `d.get(key, default)` once the lookup has produced an Option. */
    function GetOr(default: T): T {
      match this
      case Some(v) => v
      case None => default
    }
  }

  /** Python's `a or b` over optional strings: `a` when it is a non-empty string, else `b`
      (`None` and "" are both false). */
  function Or(a: Option<string>, b: Option<string>): (r: Option<string>)
    ensures a.Some? && a.value != "" ==> r == a
    ensures a.None? || a.value == "" ==> r == b
  {
    if a.Some? && a.value != "" then a else b
  }

  /** The outcome of a Python call: the value it returned, or the exception it raised. */
  datatype Result<+T, +E> = Ok(value: T) | Err(error: E)

  /** The exceptions the modelled code can raise or let through. */
  datatype PyError =
    | KeyError(key: string)          // `d[key]` on a dict without `key`
    | AttributeError(typeName: string, name: string)  // attribute `name` looked up on an object of a type that lacks it
    | Raised(message: string)        // any exception coming from a library call

  /** `str(e)`: a KeyError prints its key between single quotes, an AttributeError names the
      object's type and the attribute, both quoted, and any other exception prints its message. */
  function ErrorText(e: PyError): (text: string)
    ensures e.KeyError? ==>
      |text| == |e.key| + 2 && text[0] == '\'' && text[|text| - 1] == '\'' && text[1..|text| - 1] == e.key
    ensures e.AttributeError? ==>
      && |text| == |e.typeName| + |AttributeSuffix(e.name)| + 2
      && text[0] == '\'' && text[1..|e.typeName| + 1] == e.typeName && text[|e.typeName| + 1] == '\''
      && text[|e.typeName| + 2..] == AttributeSuffix(e.name)
    ensures e.Raised? ==> text == e.message
  {
    match e
    case KeyError(k) => "'" + k + "'"
    case AttributeError(t, n) => "'" + t + "'" + AttributeSuffix(n)
    case Raised(m) => m
  }

  /** What follows the quoted type name in the text of an AttributeError. */
  function AttributeSuffix(name: string): string {
    " object has no attribute '" + name + "'"
  }

  /** FastAPI's `HTTPException(status_code, detail)`. */
  datatype HttpException = HttpException(status: int, detail: string)

  const Unauthorized: int := 401
}
