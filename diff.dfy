/**
 * The shallow change detector `diff(oldObj, newObj)` of the network component.
 * An object is its key/value map; keys are visited in any order because the
 * outcome is a set of keys and a flag.
 */
module ShallowDiff {
  import opened Wrappers
  import opened Js

  const V: string := "Version"

  /** `o[k]`, which is `undefined` for a missing key. */
  function Get(o: map<string, Json>, k: string): Json {
    if k in o then o[k] else Undefined
  }

  /** The skip test `key.substr(key.length - V.length) === V`. */
  predicate Skipped(key: string) {
    Substr(key, |key| - |V|) == V
  }

  /**
   * Whether one key of `newObj` counts as changed: objects compare their
   * `<key>Version` token when it is truthy and their JSON image otherwise;
   * every other value compares with `!==`.
   */
  predicate KeyChanged(oldObj: map<string, Json>, newObj: map<string, Json>, key: string)
    requires key in newObj
  {
    if IsObject(newObj[key]) then
      if Truthy(Get(newObj, key + V)) then Get(newObj, key + V) != Get(oldObj, key + V)
      else Get(oldObj, key) != newObj[key]
    else Get(oldObj, key) != newObj[key]
  }

  /** The keys `diff` puts in its `out` object. */
  function ChangedKeys(oldObj: map<string, Json>, newObj: map<string, Json>): set<string> {
    set key | key in newObj && !Skipped(key) && KeyChanged(oldObj, newObj, key)
  }

  /** `hasChange && out`: `None` stands for the `false` returned when nothing changed. */
  function Outcome(changed: set<string>): Option<set<string>> {
    if changed == {} then None else Some(changed)
  }

  method Diff(oldObj: map<string, Json>, newObj: map<string, Json>) returns (r: Option<set<string>>)
    ensures r == Outcome(ChangedKeys(oldObj, newObj))
  {
    var out: set<string> := {};
    var hasChange := false;
    var todo := newObj.Keys;
    while todo != {}
      invariant todo <= newObj.Keys
      invariant out == set key | key in newObj.Keys - todo && !Skipped(key) && KeyChanged(oldObj, newObj, key)
      invariant hasChange == (out != {})
      decreases todo
    {
      var key :| key in todo;
      todo := todo - {key};
      if Skipped(key) {
        continue;
      }
      if IsObject(newObj[key]) {
        if Truthy(Get(newObj, key + V)) {
          if Get(newObj, key + V) != Get(oldObj, key + V) {
            out := out + {key};
            hasChange := true;
          }
        } else if Get(oldObj, key) != newObj[key] {
          out := out + {key};
          hasChange := true;
        }
      } else if Get(oldObj, key) != newObj[key] {
        out := out + {key};
        hasChange := true;
      }
    }
    assert newObj.Keys - todo == newObj.Keys;
    assert out == ChangedKeys(oldObj, newObj);
    r := if hasChange then Some(out) else None;
  }

  /** No key ending in "Version" is ever reported. */
  lemma VersionKeysNeverReported(oldObj: map<string, Json>, newObj: map<string, Json>, key: string)
    requires EndsWith(key, V)
    ensures key !in ChangedKeys(oldObj, newObj)
  {
    SubstrSuffixIsEndsWith(key, V);
  }

  /** Every other key of the new object is considered, and only those. */
  lemma OtherKeysConsidered(oldObj: map<string, Json>, newObj: map<string, Json>, key: string)
    requires !EndsWith(key, V)
    ensures key in ChangedKeys(oldObj, newObj) <==> key in newObj && KeyChanged(oldObj, newObj, key)
  {
    SubstrSuffixIsEndsWith(key, V);
  }

  /**
   * With a truthy version token, an object key is reported exactly when the
   * token differs from the old one, whatever the object's contents.
   */
  lemma TokenDecides(oldObj: map<string, Json>, newObj: map<string, Json>, key: string)
    requires key in newObj && IsObject(newObj[key]) && !EndsWith(key, V)
    requires Truthy(Get(newObj, key + V))
    ensures key in ChangedKeys(oldObj, newObj) <==> Get(newObj, key + V) != Get(oldObj, key + V)
  {
    SubstrSuffixIsEndsWith(key, V);
  }

  /** Without a truthy token, an object key is reported exactly when its JSON image differs. */
  lemma StructuralFallback(oldObj: map<string, Json>, newObj: map<string, Json>, key: string)
    requires key in newObj && IsObject(newObj[key]) && !EndsWith(key, V)
    requires !Truthy(Get(newObj, key + V))
    ensures key in ChangedKeys(oldObj, newObj) <==> Get(oldObj, key) != newObj[key]
  {
    SubstrSuffixIsEndsWith(key, V);
  }

  /** Comparing an object with itself reports nothing, so `diff` returns `false`. */
  lemma DiffOfSelfIsFalse(o: map<string, Json>)
    ensures ChangedKeys(o, o) == {}
    ensures Outcome(ChangedKeys(o, o)) == None
  {
  }

  /** A key present only in the old object is never reported (the flat-object assumption). */
  lemma DroppedKeyNotReported(oldObj: map<string, Json>, newObj: map<string, Json>, key: string)
    requires key !in newObj
    ensures key !in ChangedKeys(oldObj, newObj)
  {
  }
}
