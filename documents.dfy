/** Request bodies, update patches and stored records are all string
    dictionaries: a key that is absent is a field that is `undefined`. */
module Documents {
  import opened Wrappers

  type Doc = map<string, string>

  /** Reading a field, `undefined` when it is absent. */
  function Get(d: Doc, key: string): Option<string> {
    if key in d then Some(d[key]) else None
  }

  /** Reading every field determines the record: two records that read the
      same (value or `undefined`) at every key are the same record. */
  lemma GetExtensional(a: Doc, b: Doc)
    requires forall k :: Get(a, k) == Get(b, k)
    ensures a == b
  {
    forall k ensures k in a <==> k in b {
      assert Get(a, k) == Get(b, k);
    }
    assert a.Keys == b.Keys;
    forall k | k in a ensures a[k] == b[k] {
      assert Get(a, k) == Get(b, k);
    }
  }

  /** Assigning a field. Assigning `undefined` leaves the key out; a Mongoose
      constructor ignores such a key, and so does a `$set` as Mongoose 6 and
      later apply it. */
  function Put(d: Doc, key: string, v: Option<string>): (r: Doc)
    ensures Get(r, key) == v
    ensures forall k :: k != key ==> Get(r, k) == Get(d, k)
  {
    match v
    case Some(s) => d[key := s]
    case None => d - {key}
  }

  /** JavaScript truthiness of a string field: present and not empty. */
  predicate Truthy(v: Option<string>) {
    v.Some? && v.value != ""
  }

  /** `x || fallback` for a string field. */
  function OrElse(v: Option<string>, fallback: string): string {
    if Truthy(v) then v.value else fallback
  }

  /** MongoDB's `$set`: every key of the patch takes the patch's value, and
      every other key keeps the value (or the absence) it had. */
  function ApplySet(doc: Doc, patch: Doc): (r: Doc)
    ensures r.Keys == doc.Keys + patch.Keys
    ensures forall k :: k in patch ==> Get(r, k) == Some(patch[k])
    ensures forall k :: k !in patch ==> Get(r, k) == Get(doc, k)
  {
    doc + patch
  }

  /** Two short strings differ in length or in their first or last character:
      a cheap witness that they are different. */
  predicate ShortStringsDiffer(a: string, b: string) {
    |a| != |b| || (|a| > 0 && (a[0] != b[0] || a[|a| - 1] != b[|b| - 1]))
  }

  /** The object literal `{ k1: v1, k2: v2, ... }`, written left to right:
      a later entry overrides an earlier one with the same key, and an entry
      whose value is `undefined` leaves its key out. */
  function FromEntries(entries: seq<(string, Option<string>)>): Doc {
    if entries == [] then map[]
    else Put(FromEntries(entries[..|entries| - 1]), entries[|entries| - 1].0, entries[|entries| - 1].1)
  }

  /** The object holds no key that no entry names. */
  lemma {:induction false} FromEntriesKeys(entries: seq<(string, Option<string>)>, k: string)
    requires forall i :: 0 <= i < |entries| ==> entries[i].0 != k
    ensures k !in FromEntries(entries)
  {
    if entries != [] {
      var init := entries[..|entries| - 1];
      assert forall i :: 0 <= i < |init| ==> init[i] == entries[i];
      FromEntriesKeys(init, k);
    }
  }

  predicate EntryKeysDistinct(entries: seq<(string, Option<string>)>) {
    forall i, j :: 0 <= i < j < |entries| ==> entries[i].0 != entries[j].0
  }

  /** With distinct keys, every entry's value is what the object holds at its key. */
  lemma {:induction false} FromEntriesGet(entries: seq<(string, Option<string>)>, i: int)
    requires EntryKeysDistinct(entries)
    requires 0 <= i < |entries|
    ensures Get(FromEntries(entries), entries[i].0) == entries[i].1
  {
    var init := entries[..|entries| - 1];
    if i < |entries| - 1 {
      assert init[i] == entries[i];
      assert EntryKeysDistinct(init);
      FromEntriesGet(init, i);
    }
  }
}
