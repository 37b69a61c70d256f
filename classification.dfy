/** The classification resolver shared by the notice and complaint routes: a
    fixed taxonomy table per axis (category, department), a first-match label
    lookup, and the "other" rule for the reserved code "99". */
module Classification {
  import opened Wrappers
  import opened Documents

  /** A taxonomy table: `{ id, label }` entries in declaration order. */
  type Table = seq<(string, string)>

  /** The reserved code whose stored name is the user's free text. */
  const OTHER_CODE := "99"

  /** Entry `i` is the first one whose id is `code`. */
  predicate FirstMatch(table: Table, code: string, i: int) {
    0 <= i < |table| && table[i].0 == code &&
    forall j :: 0 <= j < i ==> table[j].0 != code
  }

  predicate NotListed(table: Table, code: string) {
    forall i :: 0 <= i < |table| ==> table[i].0 != code
  }

  predicate IdsDistinct(table: Table) {
    forall i, j :: 0 <= i < j < |table| ==> table[i].0 != table[j].0
  }

  predicate LabelsNonEmpty(table: Table) {
    forall i :: 0 <= i < |table| ==> table[i].1 != ""
  }

  /** `TABLE.find(e => e.id === code)?.label || ""`. */
  function Lookup(table: Table, code: string): (text: string)
    ensures NotListed(table, code) ==> text == ""
    ensures forall i :: FirstMatch(table, code, i) ==> text == table[i].1
  {
    if table == [] then ""
    else if table[0].0 == code then table[0].1
    else
      var rest := Lookup(table[1..], code);
      assert forall i :: FirstMatch(table, code, i) ==> FirstMatch(table[1..], code, i - 1);
      rest
  }

  /** A listed code has a first matching entry. */
  lemma {:induction false} FirstMatchExists(table: Table, code: string) returns (i: nat)
    requires !NotListed(table, code)
    ensures FirstMatch(table, code, i)
  {
    if table[0].0 == code {
      i := 0;
    } else {
      var k := FirstMatchExists(table[1..], code);
      i := k + 1;
    }
  }

  /** With distinct ids, any entry carrying the code gives the label. */
  lemma LookupDistinct(table: Table, code: string, i: int)
    requires IdsDistinct(table)
    requires 0 <= i < |table| && table[i].0 == code
    ensures Lookup(table, code) == table[i].1
  {
    assert FirstMatch(table, code, i);
  }

  /** When no label is empty, the lookup yields "" exactly for the codes that
      are not in the table. */
  lemma LookupEmptyIff(table: Table, code: string)
    requires LabelsNonEmpty(table)
    ensures Lookup(table, code) == "" <==> NotListed(table, code)
  {
    if !NotListed(table, code) {
      var i := FirstMatchExists(table, code);
    }
  }

  /** When only entries with id `OTHER_CODE` carry `reserved`, a lookup of any
      other code never yields it. */
  lemma LookupAvoidsLabel(table: Table, code: string, reserved: string)
    requires reserved != ""
    requires forall i :: 0 <= i < |table| && table[i].1 == reserved ==> table[i].0 == OTHER_CODE
    requires code != OTHER_CODE
    ensures Lookup(table, code) != reserved
  {
    if !NotListed(table, code) {
      var i := FirstMatchExists(table, code);
    }
  }

  /** The stored pair of one axis: the name (`categoryName`/`deptName`) and the
      free text (`otherCategory`/`otherDept`); `None` is `undefined`. */
  datatype Resolved = Resolved(name: Option<string>, freeText: Option<string>)

  /** `code === "99" ? freeText : getLabel(code)` for the name and
      `code === "99" ? freeText : ""` for the free text. An absent code matches
      no entry, since every id is a string. */
  function Resolve(table: Table, code: Option<string>, freeText: Option<string>): (r: Resolved)
    ensures code == Some(OTHER_CODE) ==> r.name == freeText && r.freeText == freeText
    ensures code != Some(OTHER_CODE) ==> r.freeText == Some("") && r.name.Some?
    ensures code.None? ==> r.name == Some("")
    ensures code.Some? && code != Some(OTHER_CODE) && NotListed(table, code.value) ==> r.name == Some("")
    ensures forall i :: code.Some? && code != Some(OTHER_CODE) && FirstMatch(table, code.value, i) ==>
              r.name == Some(table[i].1)
  {
    if code == Some(OTHER_CODE) then Resolved(freeText, freeText)
    else Resolved(Some(match code case None => "" case Some(c) => Lookup(table, c)), Some(""))
  }

  /** Resolving again from the stored code and stored free text gives back
      the same pair: resolution is idempotent. */
  lemma ResolveIdempotent(table: Table, code: Option<string>, freeText: Option<string>)
    ensures Resolve(table, code, Resolve(table, code, freeText).freeText) == Resolve(table, code, freeText)
  {
  }

  /** The table's own label for "99" never comes out of the lookup: a resolved
      name equal to it came from the user's free text. */
  lemma OtherLabelOnlyFromFreeText(table: Table, code: Option<string>, freeText: Option<string>, reserved: string)
    requires reserved != ""
    requires forall i :: 0 <= i < |table| && table[i].1 == reserved ==> table[i].0 == OTHER_CODE
    requires Resolve(table, code, freeText).name == Some(reserved)
    ensures code == Some(OTHER_CODE) && freeText == Some(reserved)
  {
    if code.Some? && code != Some(OTHER_CODE) {
      LookupAvoidsLabel(table, code.value, reserved);
    }
  }

  /** The three fields of one axis in a record. */
  datatype Axis = Axis(idKey: string, nameKey: string, otherKey: string) {
    predicate WellFormed() {
      idKey != nameKey && idKey != otherKey && nameKey != otherKey
    }

    predicate Has(key: string) {
      key == idKey || key == nameKey || key == otherKey
    }
  }

  const CATEGORY_AXIS := Axis("categoryId", "categoryName", "otherCategory")
  const DEPARTMENT_AXIS := Axis("deptId", "deptName", "otherDept")

  predicate Disjoint(a: Axis, b: Axis) {
    !b.Has(a.idKey) && !b.Has(a.nameKey) && !b.Has(a.otherKey)
  }

  /** The invariant a record keeps on one axis: with code "99" the name is the
      free text; otherwise the free text is "" and the name is the table's label
      for the code ("" for a code the table does not list, or no code). */
  predicate Consistent(table: Table, axis: Axis, doc: Doc) {
    var code := Get(doc, axis.idKey);
    if code == Some(OTHER_CODE) then Get(doc, axis.nameKey) == Get(doc, axis.otherKey)
    else
      Get(doc, axis.otherKey) == Some("") &&
      Get(doc, axis.nameKey) == Some(match code case None => "" case Some(c) => Lookup(table, c))
  }

  /** Consistency on an axis reads only that axis's three fields. */
  lemma ConsistentReadsOnlyAxis(table: Table, axis: Axis, d1: Doc, d2: Doc)
    requires Get(d1, axis.idKey) == Get(d2, axis.idKey)
    requires Get(d1, axis.nameKey) == Get(d2, axis.nameKey)
    requires Get(d1, axis.otherKey) == Get(d2, axis.otherKey)
    requires Consistent(table, axis, d1)
    ensures Consistent(table, axis, d2)
  {
  }

  /** A record whose axis fields are the code and its resolution is consistent. */
  lemma ResolvedIsConsistent(table: Table, axis: Axis, doc: Doc, freeText: Option<string>)
    requires axis.WellFormed()
    requires Get(doc, axis.nameKey) == Resolve(table, Get(doc, axis.idKey), freeText).name
    requires Get(doc, axis.otherKey) == Resolve(table, Get(doc, axis.idKey), freeText).freeText
    ensures Consistent(table, axis, doc)
  {
  }

  /** The update step of one axis (`if (updateData.categoryId) { ... }`): when
      the code in the patch is truthy, the name and free text are recomputed by
      the "99" rule; otherwise the patch is left as it is. Assigning `undefined`
      drops the key from the patch. */
  function ResolveOnUpdate(table: Table, axis: Axis, data: Doc): (r: Doc)
    requires axis.WellFormed()
    ensures forall k :: !axis.Has(k) || k == axis.idKey ==> Get(r, k) == Get(data, k)
    ensures !Truthy(Get(data, axis.idKey)) ==> r == data
    ensures Truthy(Get(data, axis.idKey)) ==>
              var res := Resolve(table, Get(data, axis.idKey), Get(data, axis.otherKey));
              Get(r, axis.nameKey) == res.name && Get(r, axis.otherKey) == res.freeText
  {
    var code := Get(data, axis.idKey);
    if Truthy(code) then
      var res := Resolve(table, code, Get(data, axis.otherKey));
      Put(Put(data, axis.nameKey, res.name), axis.otherKey, res.freeText)
    else data
  }

  /** Resolving one axis only reads that axis's fields: two patches that agree
      on them resolve to the same values there. */
  lemma ResolveOnUpdateReadsOnlyAxis(table: Table, axis: Axis, d1: Doc, d2: Doc)
    requires axis.WellFormed()
    requires Get(d1, axis.idKey) == Get(d2, axis.idKey)
    requires Get(d1, axis.nameKey) == Get(d2, axis.nameKey)
    requires Get(d1, axis.otherKey) == Get(d2, axis.otherKey)
    ensures Get(ResolveOnUpdate(table, axis, d1), axis.nameKey) == Get(ResolveOnUpdate(table, axis, d2), axis.nameKey)
    ensures Get(ResolveOnUpdate(table, axis, d1), axis.otherKey) == Get(ResolveOnUpdate(table, axis, d2), axis.otherKey)
  {
  }

  /** The two axes are resolved independently: the order does not matter. */
  lemma AxesCommute(t1: Table, a1: Axis, t2: Table, a2: Axis, data: Doc)
    requires a1.WellFormed() && a2.WellFormed() && Disjoint(a1, a2)
    ensures ResolveOnUpdate(t1, a1, ResolveOnUpdate(t2, a2, data)) ==
            ResolveOnUpdate(t2, a2, ResolveOnUpdate(t1, a1, data))
  {
    var d1 := ResolveOnUpdate(t1, a1, data);
    var d2 := ResolveOnUpdate(t2, a2, data);
    var x := ResolveOnUpdate(t1, a1, d2);
    var y := ResolveOnUpdate(t2, a2, d1);
    ResolveOnUpdateReadsOnlyAxis(t1, a1, d2, data);
    ResolveOnUpdateReadsOnlyAxis(t2, a2, d1, data);
    forall k ensures Get(x, k) == Get(y, k) {
      if k == a1.nameKey || k == a1.otherKey {
        assert Get(x, k) == Get(d1, k) == Get(y, k);
      } else if k == a2.nameKey || k == a2.otherKey {
        assert Get(y, k) == Get(d2, k) == Get(x, k);
      } else {
        assert Get(x, k) == Get(data, k) == Get(y, k);
      }
    }
    GetExtensional(x, y);
  }
}
