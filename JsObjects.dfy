/**
  Property lookup on plain JavaScript objects. The server keeps its session
  tokens and its posts in objects created as `{}` (or by `JSON.parse`), and
  tests membership with `obj[key]`. Such a lookup also finds the members
  every object inherits from `Object.prototype`, all of which are truthy.
*/
module JsObjects {

  /** The names of the (truthy) members of `Object.prototype`. */
  const InheritedKeys: set<string> := {
    "constructor", "hasOwnProperty", "isPrototypeOf", "propertyIsEnumerable",
    "toLocaleString", "toString", "valueOf", "__proto__",
    "__defineGetter__", "__defineSetter__", "__lookupGetter__", "__lookupSetter__"
  }

  /** Whether `obj[key]` is truthy, when the own properties `own` all hold truthy values. */
  predicate Truthy(own: set<string>, key: string)
  {
    key in own || key in InheritedKeys
  }
}
