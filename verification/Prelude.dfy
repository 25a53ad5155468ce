// Types shared by the whole model: integer widths, optional values and the library's errors.
module Prelude {

  type byte = x: int | 0 <= x < 0x100
  type u16 = x: int | 0 <= x < 0x1_0000
  type u32 = x: int | 0 <= x < 0x1_0000_0000
  type i32 = x: int | -0x8000_0000 <= x < 0x8000_0000

  /** An optional value, usable with `:-`. */
  datatype Option<+T> = None | Some(value: T) {
    predicate IsFailure() {
      None?
    }

    function PropagateFailure<U>(): Option<U>
      requires None?
    {
      None
    }

    function Extract(): T
      requires Some?
    {
      value
    }
  }

  /** Why a text does not fit a C string buffer, or does not come out of one. */
  datatype TextError = TooLong | ContainsNul | MissingNul | InvalidUtf8

  /** The error kinds of the library; an ioctl error keeps its errno. */
  datatype Error =
    | InvalidRuleCombination
    | InvalidInterfaceName(reason: TextError)
    | InvalidAnchorName(reason: TextError)
    | InvalidLabel(reason: TextError)
    | InvalidPortRange
    | InvalidAddressFamily(family: byte)
    | StateAlreadyActive
    | AnchorDoesNotExist
    | Ioctl(errno: int)

  /** Success or failure, usable with `:-`. */
  datatype Result<+T, +E> = Ok(value: T) | Err(error: E) {
    predicate IsFailure() {
      Err?
    }

    function PropagateFailure<U>(): Result<U, E>
      requires Err?
    {
      Err(error)
    }

    function Extract(): T
      requires Ok?
    {
      value
    }

    function MapErr<F>(f: E -> F): Result<T, F> {
      match this
      case Ok(v) => Ok(v)
      case Err(e) => Err(f(e))
    }
  }

  function Min(a: int, b: int): int {
    if a <= b then a else b
  }

  function Max(a: int, b: int): int {
    if a <= b then b else a
  }

  lemma Regroup<T>(a: seq<T>, b: seq<T>, c: seq<T>)
    ensures a + (b + c) == (a + b) + c
  {
  }
}
