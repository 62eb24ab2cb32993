/**
 The few pieces of the JavaScript runtime the command line tool leans on:
 optional values, `Error` objects, truthiness of an argument, and how
 `console.log` turns several arguments into one output line.
 */
module Runtime {
  import Text

  datatype Option<T> = None | Some(value: T)

  /** A JavaScript `Error` object, as far as the error handlers look at it. */
  datatype Error = Error(name: string, message: string)

  /** The outcome of a call that may throw. */
  datatype Result<T> = Ok(value: T) | Fail(error: Error)

  /** JavaScript truthiness of a string argument: `undefined` and `''` are falsy. */
  predicate Truthy(arg: Option<string>) {
    arg.Some? && arg.value != ""
  }

  /** `console.log(a0, a1, ...)` writes its arguments separated by one space. */
  function ConsoleLine(args: seq<string>): string {
    Text.Join(args, ' ')
  }

  /** Two arguments are written with one space between them. */
  lemma ConsoleLineTwo(a: string, b: string)
    ensures ConsoleLine([a, b]) == a + " " + b
  {
    assert [a, b][..1] == [a];
    assert Text.Join([a], ' ') == a;
    assert Text.Join([a, b], ' ') == Text.Join([a], ' ') + [' '] + b;
  }
}
