/**
 * The JavaScript values that the abort state machines pass around, in the
 * small form the model needs: opaque values, references to handles of an
 * arena, error objects, thrown exceptions, the numbers `_unabortedCount`
 * takes (including `undefined`/NaN), and the events the machines emit
 * towards the native Promise machinery and user callbacks.
 */
module Values {
  import opened Wrappers

  /** Position of a handle (an Abortable, or a dummy placeholder) in an arena. */
  type Id = nat

  /** Identity of a user-supplied function (abort handler, `.then()` handler). */
  type Fn = nat

  /** Error objects. `AbortError` is lib/error.js's class, reduced to its message. */
  datatype Error = AbortError(message: string) | UserError(id: nat)

  /** `new AbortError(msg)`: the message defaults to 'Aborted' when none is given. */
  function NewAbortError(msg: Option<string>): (e: Error)
    ensures e.AbortError?
    ensures msg.None? || msg == Some("") ==> e.message == "Aborted"
    ensures msg.Some? && msg.value != "" ==> e.message == msg.value
  {
    AbortError(if msg.Some? && msg.value != "" then msg.value else "Aborted")
  }

  /** A value a promise is resolved or rejected with. */
  datatype Value = Opaque(v: int) | HandleRef(id: Id) | ErrorRef(e: Error)

  /** An exception thrown synchronously by one of the operations. */
  datatype Exception = TypeError(message: string) | ErrorThrown(message: string)

  /**
   * The value of an `_unabortedCount` field. After `_clear()` the field is
   * `undefined`; `undefined++` and `undefined--` give NaN, and both compare
   * false with `> 0` and `== 0`, so the two are one case here.
   */
  datatype Count = Num(n: int) | NaN {
    /** `count++` */
    function Inc(): (r: Count)
      ensures r.Num? <==> Num?
      ensures Num? ==> r.n == n + 1
    {
      if Num? then Num(n + 1) else NaN
    }

    /** `count--` */
    function Dec(): (r: Count)
      ensures r.Num? <==> Num?
      ensures Num? ==> r.n == n - 1
    {
      if Num? then Num(n - 1) else NaN
    }

    /** `count > 0` */
    predicate IsPositive() {
      Num? && n > 0
    }

    /** `count == 0` */
    predicate IsZero() {
      Num? && n == 0
    }
  }

  /** An argument that JavaScript code checks with `typeof fn === 'function'`. */
  datatype FnArg = Function(f: Fn) | NotFunction

  /**
   * An argument of `.abort()`: left out (`undefined`), `null`, a boolean, an
   * `Error` instance, or anything else.
   */
  datatype AbortArg = Missing | NullArg | BoolArg(b: bool) | ErrorArg(e: Error) | OtherArg {
    /** `arg == null` (loose equality: true for `undefined` and `null`). */
    predicate IsNullish() {
      Missing? || NullArg?
    }
  }


  /**
   * What the machines do outside themselves. Calls to the native resolve or
   * reject functions, and calls of user abort handlers, are recorded here in
   * order; none of them re-enters the machine.
   */
  datatype Event =
    | NativeResolve(handle: Id, value: Value)
    | NativeReject(handle: Id, reason: Value)
    | HandlerCalled(handle: Id, handler: Fn, error: Option<Error>)
    | HandlerCalledWithDone(handle: Id, handler: Fn, error: Option<Error>)
    | CallbackCalled(c: nat)
}
