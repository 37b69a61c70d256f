/** The notice routes: their two taxonomy tables, the document the create
    handler assembles, and the create and update handlers over the counter
    store and the notice collection. */
module NoticeRoutes {
  import opened Wrappers
  import opened Documents
  import opened Identifiers
  import opened Counters
  import opened Classification
  import opened Collections
  import opened Patches

  const CATEGORIES: Table := [
    ("1", "Academic"), ("2", "Event"),
    ("3", "Emergency"), ("4", "Placement"),
    ("5", "Examination"), ("6", "Scholarship"),
    ("7", "Sports"), ("8", "Hostel"),
    ("9", "Library"), ("10", "Competition"),
    ("99", "Other")
  ]

  const DEPARTMENTS: Table := [
    ("1", "Computer Science & Engineering"),
    ("2", "Information Technology"),
    ("3", "Electronics & Communication"),
    ("4", "Electrical & Electronics"),
    ("5", "Mechanical Engineering"),
    ("6", "Civil Engineering"),
    ("7", "Artificial Intelligence"),
    ("8", "MBA"),
    ("9", "BBA"),
    ("10", "B.Com"),
    ("99", "Other")
  ]

  const ID_PREFIX := "NTC"
  const ID_KEY := "noticeId"

  /** Body fields the create handler stores as they came (or leaves out). */
  const COPIED_FIELDS: set<string> := {"title", "categoryId", "deptId", "content"}

  const FIELDS: set<string> :=
    COPIED_FIELDS + {ID_KEY, "categoryName", "deptName", "otherCategory", "otherDept", IMAGE_KEY, PDF_KEY}

  /** `getCategoryLabel`. */
  function CategoryLabel(code: string): (text: string)
    ensures NotListed(CATEGORIES, code) ==> text == ""
    ensures forall i :: FirstMatch(CATEGORIES, code, i) ==> text == CATEGORIES[i].1
  {
    Lookup(CATEGORIES, code)
  }

  /** `getDeptLabel`. */
  function DeptLabel(code: string): (text: string)
    ensures NotListed(DEPARTMENTS, code) ==> text == ""
    ensures forall i :: FirstMatch(DEPARTMENTS, code, i) ==> text == DEPARTMENTS[i].1
  {
    Lookup(DEPARTMENTS, code)
  }

  /** No two entries of either table share an id. */
  lemma IdsAreDistinct()
    ensures IdsDistinct(CATEGORIES) && IdsDistinct(DEPARTMENTS)
  {
    assert forall i, j :: 0 <= i < j < |CATEGORIES| ==> ShortStringsDiffer(CATEGORIES[i].0, CATEGORIES[j].0);
    assert forall i, j :: 0 <= i < j < |DEPARTMENTS| ==> ShortStringsDiffer(DEPARTMENTS[i].0, DEPARTMENTS[j].0);
  }

  /** Both tables have non-empty labels, list the reserved code "99" as
      "Other", and give "Other" to no other id. */
  lemma TableLabels()
    ensures LabelsNonEmpty(CATEGORIES) && LabelsNonEmpty(DEPARTMENTS)
    ensures CATEGORIES[|CATEGORIES| - 1] == (OTHER_CODE, "Other")
    ensures DEPARTMENTS[|DEPARTMENTS| - 1] == (OTHER_CODE, "Other")
    ensures forall i :: 0 <= i < |CATEGORIES| && CATEGORIES[i].1 == "Other" ==> CATEGORIES[i].0 == OTHER_CODE
    ensures forall i :: 0 <= i < |DEPARTMENTS| && DEPARTMENTS[i].1 == "Other" ==> DEPARTMENTS[i].0 == OTHER_CODE
  {
  }

  /** A listed code gets its entry's label, and the label is "" exactly for
      the codes the table does not list. */
  lemma LabelsByCode(code: string)
    ensures forall i :: 0 <= i < |CATEGORIES| && CATEGORIES[i].0 == code ==> CategoryLabel(code) == CATEGORIES[i].1
    ensures forall i :: 0 <= i < |DEPARTMENTS| && DEPARTMENTS[i].0 == code ==> DeptLabel(code) == DEPARTMENTS[i].1
    ensures CategoryLabel(code) == "" <==> NotListed(CATEGORIES, code)
    ensures DeptLabel(code) == "" <==> NotListed(DEPARTMENTS, code)
  {
    IdsAreDistinct();
    forall i | 0 <= i < |CATEGORIES| && CATEGORIES[i].0 == code ensures CategoryLabel(code) == CATEGORIES[i].1 {
      LookupDistinct(CATEGORIES, code, i);
    }
    forall i | 0 <= i < |DEPARTMENTS| && DEPARTMENTS[i].0 == code ensures DeptLabel(code) == DEPARTMENTS[i].1 {
      LookupDistinct(DEPARTMENTS, code, i);
    }
    TableLabels();
    LookupEmptyIff(CATEGORIES, code);
    LookupEmptyIff(DEPARTMENTS, code);
  }

  /** The name the resolver produces is the table's "Other" only when the code
      is "99" and the user typed "Other": the "99" branch never consults the
      table. (An update body that sends `categoryName` without a code bypasses
      the resolver altogether.) */
  lemma OtherNameOnlyTyped(code: Option<string>, freeText: Option<string>)
    ensures Resolve(CATEGORIES, code, freeText).name == Some("Other") ==>
              code == Some(OTHER_CODE) && freeText == Some("Other")
    ensures Resolve(DEPARTMENTS, code, freeText).name == Some("Other") ==>
              code == Some(OTHER_CODE) && freeText == Some("Other")
  {
    TableLabels();
    if Resolve(CATEGORIES, code, freeText).name == Some("Other") {
      OtherLabelOnlyFromFreeText(CATEGORIES, code, freeText, "Other");
    }
    if Resolve(DEPARTMENTS, code, freeText).name == Some("Other") {
      OtherLabelOnlyFromFreeText(DEPARTMENTS, code, freeText, "Other");
    }
  }

  /** The object literal given to `new Notice({...})` for sequence value
      `value`, entry by entry in the handler's order. */
  function NoticeEntries(body: Doc, value: nat, image: Option<string>, pdf: Option<string>)
    : seq<(string, Option<string>)>
  {
    var category := Resolve(CATEGORIES, Get(body, CATEGORY_AXIS.idKey), Get(body, CATEGORY_AXIS.otherKey));
    var department := Resolve(DEPARTMENTS, Get(body, DEPARTMENT_AXIS.idKey), Get(body, DEPARTMENT_AXIS.otherKey));
    [ (ID_KEY, Some(FormatId(ID_PREFIX, value))),
      ("title", Get(body, "title")),
      (CATEGORY_AXIS.idKey, Get(body, CATEGORY_AXIS.idKey)),
      (DEPARTMENT_AXIS.idKey, Get(body, DEPARTMENT_AXIS.idKey)),
      (CATEGORY_AXIS.nameKey, category.name),
      (DEPARTMENT_AXIS.nameKey, department.name),
      (CATEGORY_AXIS.otherKey, category.freeText),
      (DEPARTMENT_AXIS.otherKey, department.freeText),
      ("content", Get(body, "content")),
      (IMAGE_KEY, Some(image.GetOr(""))),
      (PDF_KEY, Some(pdf.GetOr(""))) ]
  }

  /** The document a create stores; undefined values are left out. */
  function NewNotice(body: Doc, value: nat, image: Option<string>, pdf: Option<string>): Doc {
    FromEntries(NoticeEntries(body, value, image, pdf))
  }

  lemma EntryKeysDiffer(body: Doc, value: nat, image: Option<string>, pdf: Option<string>)
    ensures EntryKeysDistinct(NoticeEntries(body, value, image, pdf))
  {
    var e := NoticeEntries(body, value, image, pdf);
    assert forall i, j :: 0 <= i < j < |e| ==> ShortStringsDiffer(e[i].0, e[j].0);
  }

  /** Only the schema's fields are written, whatever else the body holds. */
  lemma NewNoticeKeys(body: Doc, value: nat, image: Option<string>, pdf: Option<string>)
    ensures forall k :: k !in FIELDS ==> k !in NewNotice(body, value, image, pdf)
  {
    var e := NoticeEntries(body, value, image, pdf);
    forall k | k !in FIELDS ensures k !in FromEntries(e) {
      assert forall i :: 0 <= i < |e| ==> e[i].0 in FIELDS;
      FromEntriesKeys(e, k);
    }
  }

  /** The identifier is "NTC" and the zero-padded sequence value. */
  lemma NewNoticeId(body: Doc, value: nat, image: Option<string>, pdf: Option<string>)
    ensures Get(NewNotice(body, value, image, pdf), ID_KEY) == Some(FormatId(ID_PREFIX, value))
  {
    EntryKeysDiffer(body, value, image, pdf);
    FromEntriesGet(NoticeEntries(body, value, image, pdf), 0);
  }

  /** Title, codes and content are stored as they came, or left out. */
  lemma NewNoticeCopies(body: Doc, value: nat, image: Option<string>, pdf: Option<string>)
    ensures forall k :: k in COPIED_FIELDS ==> Get(NewNotice(body, value, image, pdf), k) == Get(body, k)
  {
    var e := NoticeEntries(body, value, image, pdf);
    EntryKeysDiffer(body, value, image, pdf);
    forall k | k in COPIED_FIELDS ensures Get(FromEntries(e), k) == Get(body, k) {
      var i := if k == "title" then 1 else if k == "categoryId" then 2 else if k == "deptId" then 3 else 8;
      assert e[i] == (k, Get(body, k));
      FromEntriesGet(e, i);
    }
  }

  /** Both axes go through the "99" rule, and a missing upload is stored as "". */
  lemma NewNoticeClassification(body: Doc, value: nat, image: Option<string>, pdf: Option<string>)
    ensures var doc := NewNotice(body, value, image, pdf);
            var category := Resolve(CATEGORIES, Get(body, CATEGORY_AXIS.idKey), Get(body, CATEGORY_AXIS.otherKey));
            var department := Resolve(DEPARTMENTS, Get(body, DEPARTMENT_AXIS.idKey), Get(body, DEPARTMENT_AXIS.otherKey));
            && Get(doc, CATEGORY_AXIS.nameKey) == category.name && Get(doc, CATEGORY_AXIS.otherKey) == category.freeText
            && Get(doc, DEPARTMENT_AXIS.nameKey) == department.name && Get(doc, DEPARTMENT_AXIS.otherKey) == department.freeText
            && Get(doc, IMAGE_KEY) == Some(image.GetOr("")) && Get(doc, PDF_KEY) == Some(pdf.GetOr(""))
  {
    var e := NoticeEntries(body, value, image, pdf);
    EntryKeysDiffer(body, value, image, pdf);
    FromEntriesGet(e, 4);
    FromEntriesGet(e, 5);
    FromEntriesGet(e, 6);
    FromEntriesGet(e, 7);
    FromEntriesGet(e, 9);
    FromEntriesGet(e, 10);
  }

  /** A new notice satisfies the classification invariant on both axes. */
  lemma NewNoticeConsistent(body: Doc, value: nat, image: Option<string>, pdf: Option<string>)
    ensures Consistent(CATEGORIES, CATEGORY_AXIS, NewNotice(body, value, image, pdf))
    ensures Consistent(DEPARTMENTS, DEPARTMENT_AXIS, NewNotice(body, value, image, pdf))
  {
    var doc := NewNotice(body, value, image, pdf);
    NewNoticeClassification(body, value, image, pdf);
    NewNoticeCopies(body, value, image, pdf);
    assert CATEGORY_AXIS.idKey in COPIED_FIELDS && DEPARTMENT_AXIS.idKey in COPIED_FIELDS;
    ResolvedIsConsistent(CATEGORIES, CATEGORY_AXIS, doc, Get(body, CATEGORY_AXIS.otherKey));
    ResolvedIsConsistent(DEPARTMENTS, DEPARTMENT_AXIS, doc, Get(body, DEPARTMENT_AXIS.otherKey));
  }

  /** No table lists the empty code. */
  lemma EmptyCodeUnlisted()
    ensures NotListed(CATEGORIES, "") && NotListed(DEPARTMENTS, "")
  {
  }

  /** An empty category code is resolved on create (the name becomes "") but
      skipped on update (the patch keeps whatever name the body sent). */
  lemma EmptyCodeAsymmetry(body: Doc, value: nat, image: Option<string>, pdf: Option<string>)
    requires Get(body, CATEGORY_AXIS.idKey) == Some("")
    ensures Get(NewNotice(body, value, image, pdf), CATEGORY_AXIS.nameKey) == Some("")
    ensures Get(NewNotice(body, value, image, pdf), CATEGORY_AXIS.otherKey) == Some("")
    ensures Get(UpdateData(CATEGORIES, DEPARTMENTS, body, image, pdf), CATEGORY_AXIS.nameKey) ==
            Get(body, CATEGORY_AXIS.nameKey)
  {
    NewNoticeClassification(body, value, image, pdf);
    EmptyCodeUnlisted();
  }

  /** A notice filed under "Academic" whose update body sends an empty
      category code: the code is stored as "" but the name is not recomputed. */
  lemma EmptyCodeLeavesStaleName()
    ensures var stored := map[ID_KEY := "NTC001", "categoryId" := "1", "categoryName" := "Academic", "otherCategory" := ""];
            var after := ApplySet(stored, UpdateData(CATEGORIES, DEPARTMENTS, map["categoryId" := ""], None, None));
            && Consistent(CATEGORIES, CATEGORY_AXIS, stored)
            && Get(after, "categoryId") == Some("")
            && Get(after, "categoryName") == Some("Academic")
            && !Consistent(CATEGORIES, CATEGORY_AXIS, after)
  {
    assert CATEGORIES[0] == ("1", "Academic");
    assert FirstMatch(CATEGORIES, "1", 0);
    assert NotListed(CATEGORIES, "");
  }

  /** The same notice updated to code "99" without any free text: the
      undefined name and free text are dropped from the patch, so the old
      name stays beside the new code. */
  lemma OtherCodeWithoutTextLeavesStaleName()
    ensures var stored := map[ID_KEY := "NTC001", "categoryId" := "1", "categoryName" := "Academic", "otherCategory" := ""];
            var after := ApplySet(stored, UpdateData(CATEGORIES, DEPARTMENTS, map["categoryId" := OTHER_CODE], None, None));
            && Get(after, "categoryId") == Some(OTHER_CODE)
            && Get(after, "categoryName") == Some("Academic")
            && Get(after, "otherCategory") == Some("")
            && !Consistent(CATEGORIES, CATEGORY_AXIS, after)
  {
  }

  /** A counter that did not exist reads 0 and hands out 1, so the first
      notice is NTC001. */
  lemma FirstId()
    ensures FormatId(ID_PREFIX, 1) == "NTC001"
  {
    assert NatToDecimal(1) == "1";
  }

  /** POST /create: allocate the next notice number, assemble the document and
      save it. */
  method Create(counters: CounterStore, notices: Collection, body: Doc, image: Option<string>, pdf: Option<string>)
      returns (doc: Doc)
    requires counters.Valid()
    modifies counters, notices
    ensures counters.Valid()
    ensures doc == NewNotice(body, old(counters.Seq(NOTICE_COUNTER)) + 1, image, pdf)
    ensures counters.seqs == old(counters.seqs)[NOTICE_COUNTER := old(counters.Seq(NOTICE_COUNTER)) + 1]
    ensures counters.issued == old(counters.issued)[NOTICE_COUNTER := old(counters.Issued(NOTICE_COUNTER)) + {old(counters.Seq(NOTICE_COUNTER)) + 1}]
    ensures counters.Seq(NOTICE_COUNTER) == old(counters.Seq(NOTICE_COUNTER)) + 1
    ensures counters.Seq(COMPLAINT_COUNTER) == old(counters.Seq(COMPLAINT_COUNTER))
    ensures Get(doc, ID_KEY) == Some(FormatId(ID_PREFIX, old(counters.Seq(NOTICE_COUNTER)) + 1))
    ensures forall n :: n in old(counters.Issued(NOTICE_COUNTER)) ==>
              FormatId(ID_PREFIX, n) != FormatId(ID_PREFIX, old(counters.Seq(NOTICE_COUNTER)) + 1)
    ensures notices.docs == old(notices.docs) + [doc]
  {
    ghost var before := counters.Issued(NOTICE_COUNTER);
    var value := counters.Allocate(NOTICE_COUNTER);
    doc := NewNotice(body, value, image, pdf);
    notices.Save(doc);
    NewNoticeId(body, value, image, pdf);
    FormatIdFresh(ID_PREFIX, before, value);
  }

  /** PATCH /update/:noticeId: apply the patch to the notice carrying the
      identifier, or report that none does. */
  method Update(notices: Collection, noticeId: string, body: Doc, image: Option<string>, pdf: Option<string>)
      returns (updated: Option<Doc>)
    requires notices.idKey == ID_KEY
    modifies notices
    ensures IndexOfId(old(notices.docs), ID_KEY, noticeId).None? ==>
              updated.None? && notices.docs == old(notices.docs)
    ensures IndexOfId(old(notices.docs), ID_KEY, noticeId).Some? ==>
              var i := IndexOfId(old(notices.docs), ID_KEY, noticeId).value;
              var after := ApplySet(old(notices.docs)[i], UpdateData(CATEGORIES, DEPARTMENTS, body, image, pdf));
              notices.docs == old(notices.docs)[i := after] && updated == Some(after)
  {
    var updateData := UpdateData(CATEGORIES, DEPARTMENTS, body, image, pdf);
    updated := notices.FindOneAndSet(noticeId, updateData);
  }
}
