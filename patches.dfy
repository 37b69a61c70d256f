/** The `updateData` patch of the update handlers: a copy of the request body,
    with the category axis and then the department axis re-resolved when their
    codes are truthy, and the paths of uploaded files written over `image` and
    `pdf`. */
module Patches {
  import opened Wrappers
  import opened Documents
  import opened Classification

  const IMAGE_KEY := "image"
  const PDF_KEY := "pdf"

  /** The keys the handler may write beyond what the body itself carries. */
  const DERIVED_KEYS: set<string> :=
    {CATEGORY_AXIS.nameKey, CATEGORY_AXIS.otherKey, DEPARTMENT_AXIS.nameKey, DEPARTMENT_AXIS.otherKey,
     IMAGE_KEY, PDF_KEY}

  /** `if (req.files['image']) updateData.image = path`, and the same for `pdf`. */
  function WithUploads(data: Doc, image: Option<string>, pdf: Option<string>): (r: Doc)
    ensures forall k :: k != IMAGE_KEY && k != PDF_KEY ==> Get(r, k) == Get(data, k)
    ensures Get(r, IMAGE_KEY) == if image.Some? then image else Get(data, IMAGE_KEY)
    ensures Get(r, PDF_KEY) == if pdf.Some? then pdf else Get(data, PDF_KEY)
  {
    var withImage := if image.Some? then data[IMAGE_KEY := image.value] else data;
    if pdf.Some? then withImage[PDF_KEY := pdf.value] else withImage
  }

  /** The whole patch. Every key the handler does not derive is the body's;
      each axis is recomputed exactly when its own code is truthy. */
  function UpdateData(categories: Table, departments: Table, body: Doc,
                      image: Option<string>, pdf: Option<string>): (patch: Doc)
    ensures forall k :: k !in DERIVED_KEYS ==> Get(patch, k) == Get(body, k)
    ensures Truthy(Get(body, CATEGORY_AXIS.idKey)) ==>
              var res := Resolve(categories, Get(body, CATEGORY_AXIS.idKey), Get(body, CATEGORY_AXIS.otherKey));
              Get(patch, CATEGORY_AXIS.nameKey) == res.name && Get(patch, CATEGORY_AXIS.otherKey) == res.freeText
    ensures !Truthy(Get(body, CATEGORY_AXIS.idKey)) ==>
              Get(patch, CATEGORY_AXIS.nameKey) == Get(body, CATEGORY_AXIS.nameKey) &&
              Get(patch, CATEGORY_AXIS.otherKey) == Get(body, CATEGORY_AXIS.otherKey)
    ensures Truthy(Get(body, DEPARTMENT_AXIS.idKey)) ==>
              var res := Resolve(departments, Get(body, DEPARTMENT_AXIS.idKey), Get(body, DEPARTMENT_AXIS.otherKey));
              Get(patch, DEPARTMENT_AXIS.nameKey) == res.name && Get(patch, DEPARTMENT_AXIS.otherKey) == res.freeText
    ensures !Truthy(Get(body, DEPARTMENT_AXIS.idKey)) ==>
              Get(patch, DEPARTMENT_AXIS.nameKey) == Get(body, DEPARTMENT_AXIS.nameKey) &&
              Get(patch, DEPARTMENT_AXIS.otherKey) == Get(body, DEPARTMENT_AXIS.otherKey)
    ensures Get(patch, IMAGE_KEY) == if image.Some? then image else Get(body, IMAGE_KEY)
    ensures Get(patch, PDF_KEY) == if pdf.Some? then pdf else Get(body, PDF_KEY)
  {
    var withCategory := ResolveOnUpdate(categories, CATEGORY_AXIS, body);
    var withDepartment := ResolveOnUpdate(departments, DEPARTMENT_AXIS, withCategory);
    WithUploads(withDepartment, image, pdf)
  }

  /** Applying the patch changes no stored field that is neither in the body
      nor derived by the handler. */
  lemma UpdateKeepsOtherFields(stored: Doc, categories: Table, departments: Table, body: Doc,
                               image: Option<string>, pdf: Option<string>, k: string)
    requires k !in body && k !in DERIVED_KEYS
    ensures Get(ApplySet(stored, UpdateData(categories, departments, body, image, pdf)), k) == Get(stored, k)
  {
    var patch := UpdateData(categories, departments, body, image, pdf);
    assert Get(patch, k) == None;
  }

  /** The patch holds no key beyond the body's and the derived ones. */
  lemma PatchKeys(categories: Table, departments: Table, body: Doc, image: Option<string>, pdf: Option<string>)
    ensures UpdateData(categories, departments, body, image, pdf).Keys <= body.Keys + DERIVED_KEYS
  {
    var patch := UpdateData(categories, departments, body, image, pdf);
    forall k | k in patch ensures k in body.Keys + DERIVED_KEYS {
      if k !in DERIVED_KEYS {
        assert Get(patch, k) == Get(body, k);
      }
    }
  }

  /** The patch on either axis, stated once for both: the code is the body's,
      and the name and free text are recomputed exactly when the code is truthy. */
  lemma PatchOnAxis(categories: Table, departments: Table, body: Doc,
                    image: Option<string>, pdf: Option<string>, axis: Axis, table: Table)
    requires (axis == CATEGORY_AXIS && table == categories) || (axis == DEPARTMENT_AXIS && table == departments)
    ensures var patch := UpdateData(categories, departments, body, image, pdf);
            && Get(patch, axis.idKey) == Get(body, axis.idKey)
            && (Truthy(Get(body, axis.idKey)) ==>
                  var res := Resolve(table, Get(body, axis.idKey), Get(body, axis.otherKey));
                  Get(patch, axis.nameKey) == res.name && Get(patch, axis.otherKey) == res.freeText)
            && (!Truthy(Get(body, axis.idKey)) ==>
                  Get(patch, axis.nameKey) == Get(body, axis.nameKey) &&
                  Get(patch, axis.otherKey) == Get(body, axis.otherKey))
  {
    assert axis.idKey !in DERIVED_KEYS;
  }

  /** A record consistent on an axis stays consistent when the body either
      leaves the whole axis alone, or sends a truthy code together with its
      free text whenever that code is "99". */
  lemma UpdateKeepsConsistent(stored: Doc, categories: Table, departments: Table, body: Doc,
                              image: Option<string>, pdf: Option<string>, axis: Axis, table: Table)
    requires (axis == CATEGORY_AXIS && table == categories) || (axis == DEPARTMENT_AXIS && table == departments)
    requires Consistent(table, axis, stored)
    requires || (forall k :: axis.Has(k) ==> k !in body)
             || (Truthy(Get(body, axis.idKey)) && (Get(body, axis.idKey) == Some(OTHER_CODE) ==> axis.otherKey in body))
    ensures Consistent(table, axis, ApplySet(stored, UpdateData(categories, departments, body, image, pdf)))
  {
    var patch := UpdateData(categories, departments, body, image, pdf);
    var after := ApplySet(stored, patch);
    PatchOnAxis(categories, departments, body, image, pdf, axis, table);
    if forall k :: axis.Has(k) ==> k !in body {
      assert axis.Has(axis.idKey) && axis.Has(axis.nameKey) && axis.Has(axis.otherKey);
      ConsistentReadsOnlyAxis(table, axis, stored, after);
    } else {
      ResolvedIsConsistent(table, axis, after, Get(body, axis.otherKey));
    }
  }
}
