/** What a plain JavaScript object (`{}`) answers for keys it does not
    own. */
module JsObjects {

  /** The keys every plain object has through `Object.prototype`. Looking
      one of them up (`obj[key]`) yields a function or, for `__proto__`,
      the prototype itself: truthy values that have no fields of their own. */
  const InheritedNames: set<string> := {
    "constructor", "hasOwnProperty", "isPrototypeOf", "propertyIsEnumerable",
    "toLocaleString", "toString", "valueOf", "__proto__",
    "__defineGetter__", "__defineSetter__", "__lookupGetter__", "__lookupSetter__"}
}
