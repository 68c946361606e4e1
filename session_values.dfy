/** Values shared by every session adapter: the PHP values a session can hold,
    the session state itself, and the errors the adapters raise. */
module SessionValues {

  /** A PHP value as far as the adapters distinguish it: `null`, the scalars,
      and arrays (modelled as string-keyed maps). */
  datatype Value = Null | Bool(b: bool) | Int(i: int) | Str(s: string) | Arr(entries: map<string, Value>)

  /** The key/value state of a session: a PHP array with string keys. */
  type State = map<string, Value>

  /** The exceptions the adapters raise. */
  datatype SessionError =
    | UndefinedMethod(name: string)    // a call to a method the class does not declare
    | ObjectToString                   // an object used where PHP needs a string
    | FlashUnsupported(message: string)
    | ArgumentCount(name: string)      // a built-in method called with more arguments than it takes

  /** The result of an operation that returns nothing or raises. */
  datatype Outcome = Pass | Fail(error: SessionError)

  /** `array_merge($a, $b)` on string-keyed arrays: every key of `b` takes
      `b`'s value, every other key of `a` keeps its value. */
  function ArrayMerge(a: State, b: State): (r: State)
    ensures r.Keys == a.Keys + b.Keys
    ensures forall k :: k in b ==> r[k] == b[k]
    ensures forall k :: k in a && k !in b ==> r[k] == a[k]
  {
    a + b
  }
}
