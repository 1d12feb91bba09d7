/**
 * `attachEvent`: a list binding accepts handlers only for the events "change",
 * "dataReceived", "dataRequested" and "refresh".
 */
module Events {
  import opened Results

  /** The keys of `mSupportedEvents`. */
  const Supported: set<string> := {"change", "dataReceived", "dataRequested", "refresh"}

  /**
   * The names an object literal inherits from `Object.prototype`, for which the `in`
   * operator also answers true.
   */
  const PrototypeNames: set<string> := {
    "constructor", "hasOwnProperty", "isPrototypeOf", "propertyIsEnumerable",
    "toLocaleString", "toString", "valueOf", "__proto__", "__defineGetter__",
    "__defineSetter__", "__lookupGetter__", "__lookupSetter__"}

  /** The error `attachEvent` throws for an event it does not support. */
  function Unsupported(name: string): string {
    "Unsupported event '" + name + "': v4.ODataListBinding#attachEvent"
  }

  /** The whitelist test of `attachEvent`, on the own keys of `mSupportedEvents`. */
  function CheckEvent(name: string): (r: Outcome)
    ensures r.Pass? <==> name in Supported
    ensures r.Fail? ==> r.message == Unsupported(name)
  {
    if name in Supported then Pass else Fail(Unsupported(name))
  }

  /**
   * The test as written, `sEventId in mSupportedEvents`: `in` also finds the names the
   * object inherits from `Object.prototype`.
   */
  function CheckEventAsWritten(name: string): (r: Outcome)
    ensures r.Pass? <==> name in Supported || name in PrototypeNames
  {
    if name in Supported || name in PrototypeNames then Pass else Fail(Unsupported(name))
  }

  /** The two tests agree on every name but the inherited ones. */
  lemma CheckEventAgrees(name: string)
    requires name !in PrototypeNames
    ensures CheckEventAsWritten(name) == CheckEvent(name)
  {
  }

  /** As written, `attachEvent("toString")` passes the whitelist, which it is meant to reject. */
  lemma AttachToStringPasses()
    ensures CheckEventAsWritten("toString").Pass?
    ensures CheckEvent("toString") == Fail(Unsupported("toString"))
  {
    assert "toString" !in Supported;
  }
}
