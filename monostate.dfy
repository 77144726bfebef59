/**
 * The monostate dictionary: every instance reads and writes one shared,
 * lazily created string dictionary. The shared static storage is an object
 * each instance is constructed over.
 *
 * The source keeps the dictionary in a plain JavaScript object, so the
 * object's prototype shows through keys that name inherited members, and a
 * string stored under "__proto__" is dropped. `RecordGet` and `RecordSet`
 * model that as written; the dictionary class below stores its entries in a
 * map, as a string dictionary is evidently meant to.
 */
module MonostateDictionaries {
  import opened Wrappers

  /** The class's static storage: `_state`, undefined until first use. */
  class DictionaryStatics {
    var state: Option<map<string, string>>

    constructor()
      ensures state == None
    {
      state := None;
    }
  }

  /** The shared dictionary after the lazy getter has run: empty when it did not exist yet. */
  function Initialized(state: Option<map<string, string>>): (d: map<string, string>)
    ensures state.Some? ==> d == state.value
    ensures state.None? ==> d == map[]
  {
    state.GetOr(map[])
  }

  class MonostateDictionary {
    const statics: DictionaryStatics

    constructor(statics: DictionaryStatics)
      ensures this.statics == statics
    {
      this.statics := statics;
    }

    /** The `state` getter: creates the dictionary on first use, and otherwise leaves it alone. */
    method State() returns (d: map<string, string>)
      modifies statics
      ensures d == Initialized(old(statics.state)) && statics.state == Some(d)
    {
      if statics.state.None? {
        statics.state := Some(map[]);
      }
      d := statics.state.value;
    }

    method Set(key: string, value: string)
      modifies statics
      ensures statics.state == Some(Initialized(old(statics.state))[key := value])
    {
      var d := State();
      statics.state := Some(d[key := value]);
    }

    /** `get`: the value stored under `key` by any instance, or nothing. */
    method Get(key: string) returns (r: Option<string>)
      modifies statics
      ensures statics.state == Some(Initialized(old(statics.state)))
      ensures r == Lookup(Initialized(old(statics.state)), key)
    {
      var d := State();
      r := if key in d then Some(d[key]) else None;
    }
  }

  /** A string dictionary's lookup: the value stored under the key, if any. */
  function Lookup(d: map<string, string>, key: string): (r: Option<string>)
    ensures r.Some? <==> key in d
    ensures r.Some? ==> r.value == d[key]
  {
    if key in d then Some(d[key]) else None
  }

  /** Reading a key gives what was last stored under it, and storing under one key leaves every other key alone. */
  lemma GetAfterSet(state: Option<map<string, string>>, key: string, value: string, other: string)
    ensures Lookup(Initialized(state)[key := value], key) == Some(value)
    ensures other != key ==> Lookup(Initialized(state)[key := value], other) == Lookup(Initialized(state), other)
  {
  }

  /** Two instances over the same statics see each other's writes. */
  method SharedBetweenInstances(statics: DictionaryStatics, key: string, value: string) returns (r: Option<string>)
    modifies statics
    ensures r == Some(value)
  {
    var writer := new MonostateDictionary(statics);
    var reader := new MonostateDictionary(statics);
    writer.Set(key, value);
    r := reader.Get(key);
  }

  // The source's plain-object dictionary, as written.

  /** The members every plain JavaScript object inherits from `Object.prototype`. */
  const ObjectPrototypeMembers: set<string> := {
    "constructor", "hasOwnProperty", "isPrototypeOf", "propertyIsEnumerable", "toString",
    "valueOf", "toLocaleString", "__proto__", "__defineGetter__", "__defineSetter__",
    "__lookupGetter__", "__lookupSetter__"
  }

  /** What reading a property of a plain object gives: an own string, an inherited member, or `undefined`. */
  datatype PropertyValue = OwnString(s: string) | InheritedMember(name: string) | Undefined

  /** `state[key]` on a plain object whose own properties are `own`. */
  function RecordGet(own: map<string, string>, key: string): (r: PropertyValue)
    ensures r.OwnString? <==> key in own
    ensures r.InheritedMember? <==> key !in own && key in ObjectPrototypeMembers
  {
    if key in own then OwnString(own[key])
    else if key in ObjectPrototypeMembers then InheritedMember(key)
    else Undefined
  }

  /** `state[key] = value` on a plain object: the `__proto__` setter ignores a string. */
  function RecordSet(own: map<string, string>, key: string, value: string): (r: map<string, string>)
    ensures key != "__proto__" ==> r == own[key := value]
    ensures key == "__proto__" ==> r == own
  {
    if key == "__proto__" then own else own[key := value]
  }

  /** As written, a fresh dictionary answers "toString" with an inherited function, not `undefined`. */
  lemma InheritedKeyShowsThrough()
    ensures RecordGet(map[], "toString") == InheritedMember("toString")
  {
  }

  /** As written, a value stored under "__proto__" cannot be read back. */
  lemma ProtoKeyIsDropped(value: string)
    ensures RecordGet(RecordSet(map[], "__proto__", value), "__proto__") != OwnString(value)
  {
  }

  /** For every other key the plain object behaves as the map-based dictionary. */
  lemma RecordAgreesElsewhere(own: map<string, string>, key: string, value: string, other: string)
    requires key != "__proto__" && other !in ObjectPrototypeMembers
    ensures RecordSet(own, key, value) == own[key := value]
    ensures RecordGet(own, other).OwnString? <==> Lookup(own, other).Some?
    ensures Lookup(own, other).Some? ==> RecordGet(own, other).s == Lookup(own, other).value
  {
  }
}
