/** Results, options and the error kinds that the archive readers distinguish. */
module Basics {
  datatype Option<+T> = None | Some(value: T)

  /** A failure-compatible result, so that `:-` reads as the source's `?`. */
  datatype Result<+T, +E> = Ok(value: T) | Err(error: E) {
    predicate IsFailure() {
      Err?
    }

    function PropagateFailure<U>(): Result<U, E>
      requires Err?
    {
      Err(error)
    }

    function Extract(): T
      requires Ok?
    {
      value
    }
  }

  /** The `std::io::ErrorKind` values that the modelled code produces itself. */
  datatype ErrorKind = UnexpectedEof | InvalidData | InvalidInput | Unsupported | NotFound

  type IoResult<+T> = Result<T, ErrorKind>

  /** `?` on the value of a result, keeping only whether it succeeded. */
  function ToOption<T, E>(r: Result<T, E>): Option<T> {
    match r
    case Ok(v) => Some(v)
    case Err(_) => None
  }

  /** Both succeed with the same value, or both fail, perhaps with different errors. */
  predicate SameOutcome<T(==), E>(a: Result<T, E>, b: Result<T, E>) {
    ToOption(a) == ToOption(b)
  }

  function Concat<T>(parts: seq<seq<T>>): seq<T> {
    if parts == [] then [] else parts[0] + Concat(parts[1..])
  }

  lemma Assoc<T>(a: seq<T>, b: seq<T>, c: seq<T>)
    ensures a + (b + c) == a + b + c
  {
  }

  lemma TakeAfterDrop<T>(s: seq<T>, from: nat, len: nat)
    requires from + len <= |s|
    ensures s[from..][..len] == s[from..from + len]
    ensures s[from..][len..] == s[from + len..]
  {
  }

  lemma {:induction false} ConcatAppend<T>(a: seq<seq<T>>, b: seq<seq<T>>)
    ensures Concat(a + b) == Concat(a) + Concat(b)
  {
    if a == [] {
      assert a + b == b;
    } else {
      assert (a + b)[1..] == a[1..] + b;
      ConcatAppend(a[1..], b);
    }
  }

  lemma ConcatOne<T>(a: seq<T>)
    ensures Concat([a]) == a
  {
    assert [a][1..] == [];
  }
}
