/**
 * lib/utils.js: duck-typing predicates (`isPromise`, `isAbortable`), the
 * `once` memoiser and `pushOrCreate`.
 */
module Utils {
  import opened Wrappers

  /** A JavaScript number, with NaN. */
  datatype JsNum = Finite(n: int) | NotANumber

  /**
   * A JavaScript value, reduced to what the duck-typing checks look at. For an
   * object: its identity, whether its `.then` and `.abort` are functions, and
   * whether its `_isAbortable` property is truthy.
   */
  datatype JsValue =
    | Undefined
    | Null
    | Bool(b: bool)
    | Number(num: JsNum)
    | Str(s: string)
    | Object(ref: nat, thenIsFunction: bool, abortIsFunction: bool, isAbortableFlag: bool)

  /** JavaScript truthiness (`!!value`). */
  predicate Truthy(v: JsValue) {
    match v
    case Undefined => false
    case Null => false
    case Bool(b) => b
    case Number(x) => x.Finite? && x.n != 0
    case Str(s) => s != ""
    case Object(_, _, _, _) => true
  }

  /**
   * `isPromise(value)`: false for a falsy value, otherwise whether
   * `value.then` is a function. Primitives have no `then` property.
   */
  function IsPromise(v: JsValue): (r: bool)
    ensures !Truthy(v) ==> !r
    ensures Truthy(v) ==> (r <==> v.Object? && v.thenIsFunction)
  {
    if !Truthy(v) then false else v.Object? && v.thenIsFunction
  }

  /** `isAbortable(value)`: a thenable whose `_isAbortable` property is truthy. */
  function IsAbortable(v: JsValue): (r: bool)
    ensures r ==> IsPromise(v)
    ensures r ==> v.Object? && v.isAbortableFlag
    ensures IsPromise(v) && v.isAbortableFlag ==> r
  {
    IsPromise(v) && v.Object? && v.isAbortableFlag
  }

  /**
   * The function `once(fn)` returns, with its closure state `called` and
   * `result`. What the wrapped `fn` returns is supplied by the caller of
   * `Call`; `runs` counts the times `fn` itself was entered.
   */
  class Once<R> {
    var called: bool
    var result: Option<R>
    var runs: nat

    ghost predicate Valid()
      reads this
    {
      (runs == 0) == !called && runs <= 1 && (called <==> result.Some?)
    }

    constructor ()
      ensures Valid() && !called && runs == 0
    {
      called := false;
      result := None;
      runs := 0;
    }

    /** One call of the wrapper; `fnResult` is what `fn` would return if entered now. */
    method Call(fnResult: R) returns (r: R)
      requires Valid()
      modifies this
      ensures Valid() && called
      ensures old(called) ==> runs == old(runs) && result == old(result) && r == old(result).value
      ensures !old(called) ==> runs == 1 && result == Some(fnResult) && r == fnResult
    {
      if called {
        return result.value;
      }
      called := true;
      result := Some(fnResult);
      runs := runs + 1;
      r := fnResult;
    }
  }

  /**
   * Calls a fresh `once` wrapper with each of `fnResults` in turn (entry i is
   * what `fn` would return on call i): `fn` runs at most once, and every call
   * returns the first call's result.
   */
  method CallOnceRepeatedly<R>(fnResults: seq<R>) returns (returned: seq<R>, runs: nat)
    ensures |returned| == |fnResults|
    ensures runs == if fnResults == [] then 0 else 1
    ensures forall i :: 0 <= i < |returned| ==> returned[i] == fnResults[0]
  {
    var w := new Once<R>();
    returned := [];
    var i := 0;
    while i < |fnResults|
      invariant 0 <= i <= |fnResults| && |returned| == i
      invariant w.Valid()
      invariant w.called <==> i > 0
      invariant i > 0 ==> w.result == Some(fnResults[0])
      invariant forall k :: 0 <= k < i ==> returned[k] == fnResults[0]
    {
      var r := w.Call(fnResults[i]);
      returned := returned + [r];
      i := i + 1;
    }
    runs := w.runs;
  }

  /** The elements held in an optional array property (none when absent). */
  function Elements<T>(arr: Option<seq<T>>): seq<T> {
    if arr.Some? then arr.value else []
  }

  /**
   * `pushOrCreate(obj, propName, value)` on the property `obj[propName]`:
   * the property afterwards. It always holds an array; the new value is its
   * last element and everything before it is the old array, in order.
   */
  function PushOrCreate<T>(arr: Option<seq<T>>, value: T): (r: Option<seq<T>>)
    ensures r.Some? && |r.value| == |Elements(arr)| + 1
    ensures r.value[|r.value| - 1] == value
    ensures r.value[..|r.value| - 1] == Elements(arr)
    ensures arr.None? ==> r == Some([value])
    ensures r == Some(Elements(arr) + [value])
  {
    match arr
    case None => assert [] + [value] == [value]; Some([value])
    case Some(a) => Some(a + [value])
  }

  /**
   * A call of `pushOrCreate`: the property afterwards and the value the call
   * returns. The function has no `return` statement, so it returns undefined,
   * never the new length its doc comment promises.
   */
  function PushOrCreateCall<T>(arr: Option<seq<T>>, value: T): (r: (Option<seq<T>>, JsValue))
    ensures r.0 == PushOrCreate(arr, value)
    ensures r.1 == Undefined
    ensures r.1 != Number(Finite(|Elements(r.0)|))
  {
    (PushOrCreate(arr, value), Undefined)
  }

  /** `v - 1` for undefined or a number: undefined converts to NaN, and NaN stays NaN. */
  function MinusOne(v: JsValue): (r: JsNum)
    requires v.Undefined? || v.Number?
    ensures v.Undefined? ==> r == NotANumber
    ensures v.Number? && v.num.NotANumber? ==> r == NotANumber
    ensures v.Number? && v.num.Finite? ==> r == Finite(v.num.n - 1)
  {
    match v
    case Undefined => NotANumber
    case Number(x) => if x.Finite? then Finite(x.n - 1) else NotANumber
  }

  /** The elements of a prefix of `s` are elements of `s`. */
  lemma PrefixIn<T>(s: seq<T>, k: nat)
    requires k <= |s|
    ensures forall x :: x in s[..k] ==> x in s
  {
    forall x | x in s[..k] ensures x in s {
      var j :| 0 <= j < k && s[..k][j] == x;
      assert s[j] == x;
    }
  }

  /** A prefix of a list of ids that are in range and rank below `bound` is one too. */
  lemma PrefixWithin(fs: seq<nat>, k: nat, n: nat, rank: seq<nat>, bound: nat)
    requires k <= |fs| && n <= |rank|
    requires forall f :: f in fs ==> f < n && rank[f] < bound
    ensures forall f :: f in fs[..k] ==> f < n && rank[f] < bound
  {
    PrefixIn(fs, k);
  }
}
