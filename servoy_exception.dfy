// ServoyException: an exception that carries a numeric error code and may
// wrap a cause. The code of a failure can be found along the chain of
// wrapped ServoyExceptions; the chain stops at the first cause that is not
// a ServoyException.
module ServoyException {
  import opened Wrappers

  /** A throwable as the error-code queries see it: a ServoyException with its code, or another exception. */
  datatype Throwable =
    | Servoy(errorCode: int, cause: Option<Throwable>)
    | Foreign(cause: Option<Throwable>)

  /** The no-argument constructor: error code 0 and no cause. */
  function NewServoyException(): (e: Throwable)
    ensures e.Servoy? && e.errorCode == 0 && e.cause.None?
  {
    Servoy(0, None)
  }

  /** The codes along the chain of ServoyExceptions starting at e, e's own first. */
  function Codes(e: Throwable): (r: seq<int>)
    requires e.Servoy?
    ensures |r| >= 1 && r[0] == e.errorCode
  {
    match e.cause
    case Some(c) => if c.Servoy? then [e.errorCode] + Codes(c) else [e.errorCode]
    case None => [e.errorCode]
  }

  /** findErrorCode: the own code if positive, else the cause's when it is a ServoyException, else 0. */
  function FindErrorCode(e: Throwable): (r: int)
    requires e.Servoy?
    ensures r >= 0
  {
    if e.errorCode > 0 then e.errorCode
    else match e.cause
      case Some(c) => if c.Servoy? then FindErrorCode(c) else 0
      case None => 0
  }

  /** The code found is the first positive code along the chain, 0 when there is none. */
  lemma {:induction false} FindErrorCodeFirstPositive(e: Throwable)
    requires e.Servoy?
    ensures var r := FindErrorCode(e);
      (r == 0 <==> forall i | 0 <= i < |Codes(e)| :: Codes(e)[i] <= 0) &&
      (r > 0 ==> exists k | 0 <= k < |Codes(e)| :: Codes(e)[k] == r && forall i | 0 <= i < k :: Codes(e)[i] <= 0)
  {
    if e.errorCode <= 0 && e.cause.Some? && e.cause.value.Servoy? {
      var c := e.cause.value;
      FindErrorCodeFirstPositive(c);
      var ce, cc := Codes(e), Codes(c);
      assert ce == [e.errorCode] + cc;
      assert forall i | 0 < i < |ce| :: ce[i] == cc[i - 1];
      var r := FindErrorCode(c);
      assert FindErrorCode(e) == r;
      if r > 0 {
        var k :| 0 <= k < |cc| && cc[k] == r && forall i | 0 <= i < k :: cc[i] <= 0;
        assert ce[k + 1] == r;
      } else {
        assert FindErrorCode(c) == 0;
        assert forall i | 0 <= i < |Codes(c)| :: Codes(c)[i] <= 0;
        assert forall i | 0 <= i < |ce| :: ce[i] <= 0;
      }
    } else if e.errorCode > 0 {
      assert Codes(e)[0] == FindErrorCode(e);
    } else {
      assert Codes(e) == [e.errorCode];
    }
  }

  /** hasErrorCode: the code is this exception's or, while the causes are ServoyExceptions, a cause's. */
  function HasErrorCode(e: Throwable, code: int): (r: bool)
    requires e.Servoy?
    ensures r <==> code in Codes(e)
  {
    if e.errorCode == code then true
    else match e.cause
      case Some(c) => if c.Servoy? then HasErrorCode(c, code) else false
      case None => false
  }

  /** A positive code that is found is a code the exception has. */
  lemma FoundCodeIsHeld(e: Throwable)
    requires e.Servoy? && FindErrorCode(e) > 0
    ensures HasErrorCode(e, FindErrorCode(e))
  {
    FindErrorCodeFirstPositive(e);
    var k :| 0 <= k < |Codes(e)| && Codes(e)[k] == FindErrorCode(e) && forall i | 0 <= i < k :: Codes(e)[i] <= 0;
  }

  /** Wrapping in an exception without a positive code of its own changes neither query on the cause's codes. */
  lemma WrappingKeepsCode(code: int, c: Throwable, x: int)
    requires c.Servoy? && code <= 0
    ensures FindErrorCode(Servoy(code, Some(c))) == FindErrorCode(c)
    ensures x != code ==> (HasErrorCode(Servoy(code, Some(c)), x) <==> HasErrorCode(c, x))
  {
  }

  /** A cause that is not a ServoyException ends the search, whatever it wraps. */
  lemma ForeignCauseStops(code: int, inner: Option<Throwable>)
    ensures FindErrorCode(Servoy(code, Some(Foreign(inner)))) == if code > 0 then code else 0
    ensures Codes(Servoy(code, Some(Foreign(inner)))) == [code]
  {
  }

  /**
   * toString: "ServoyException" for code 0; otherwise Throwable.toString,
   * the class name followed by ": " and the message when there is one.
   */
  function ToString(e: Throwable, className: string, message: Option<string>): (r: string)
    requires e.Servoy?
    ensures e.errorCode == 0 ==> r == "ServoyException"
    ensures e.errorCode != 0 && message.None? ==> r == className
    ensures e.errorCode != 0 && message.Some? ==> r == className + ": " + message.value
  {
    if e.errorCode == 0 then "ServoyException"
    else if message.Some? then className + ": " + message.value
    else className
  }

  /** A default-constructed exception prints as "ServoyException" and has no code to find. */
  lemma DefaultException(className: string, message: Option<string>)
    ensures ToString(NewServoyException(), className, message) == "ServoyException"
    ensures FindErrorCode(NewServoyException()) == 0
    ensures HasErrorCode(NewServoyException(), 0)
  {
  }
}
