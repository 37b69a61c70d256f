/** The complaint routes: their two taxonomy tables, the document the create
    handler assembles, and the create and update handlers over the counter
    store and the complaint collection. */
module ComplaintRoutes {
  import opened Wrappers
  import opened Documents
  import opened Identifiers
  import opened Counters
  import opened Classification
  import opened Collections
  import opened Patches

  const CATEGORIES: Table := [
    ("1", "Internal Marks Issue"),
    ("2", "Attendance Shortage Dispute"),
    ("3", "Exam Timetable Conflict"),
    ("4", "Result Correction Request"),
    ("5", "Faculty Behavior Complaint"),
    ("6", "Project Evaluation Issue"),
    ("7", "Ragging Complaint"),
    ("8", "Verbal Harassment"),
    ("9", "Physical Harassment"),
    ("10", "Cyber Bullying"),
    ("11", "Sexual Harassment"),
    ("12", "Gender Discrimination"),
    ("13", "Classroom Maintenance"),
    ("14", "Washroom Cleanliness"),
    ("15", "Drinking Water Problem"),
    ("16", "Electrical Issue"),
    ("17", "Hostel Room Allocation"),
    ("18", "Hostel Food Quality"),
    ("19", "Hostel WiFi Problem"),
    ("20", "Library Resources"),
    ("22", "Bus/Transport Issue"),
    ("24", "Certificate Delay"),
    ("25", "Scholarship Issue"),
    ("27", "Portal/IT Login Issue"),
    ("30", "Campus Security Concern"),
    ("99", "Other")
  ]

  const DEPARTMENTS: Table := [
    ("1", "Computer Science & Engineering"),
    ("2", "Information Technology"),
    ("3", "Electronics & Communication"),
    ("4", "Electrical & Electronics"),
    ("5", "Mechanical Engineering"),
    ("6", "Civil Engineering"),
    ("7", "Artificial Intelligence"),
    ("8", "MBA"),
    ("9", "BBA"),
    ("10", "B.Com"),
    ("99", "Other")
  ]

  const ID_PREFIX := "CMP"
  const ID_KEY := "complaintId"

  /** Body fields the create handler stores as they came (or leaves out). */
  const COPIED_FIELDS: set<string> := {"studentName", "subject", "description", "categoryId", "deptId"}

  const FIELDS: set<string> :=
    COPIED_FIELDS + {ID_KEY, "status", "resolution", "categoryName", "otherCategory", "deptName", "otherDept",
                     IMAGE_KEY, PDF_KEY}

  /** `getCategoryLabel`. */
  function CategoryLabel(code: string): (text: string)
    ensures NotListed(CATEGORIES, code) ==> text == ""
    ensures forall i :: FirstMatch(CATEGORIES, code, i) ==> text == CATEGORIES[i].1
  {
    Lookup(CATEGORIES, code)
  }

  /** `getDeptLabel`. */
  function DeptLabel(code: string): (text: string)
    ensures NotListed(DEPARTMENTS, code) ==> text == ""
    ensures forall i :: FirstMatch(DEPARTMENTS, code, i) ==> text == DEPARTMENTS[i].1
  {
    Lookup(DEPARTMENTS, code)
  }

  /** No two entries of either table share an id. */
  lemma CategoryIdsDistinct()
    ensures IdsDistinct(CATEGORIES)
  {
    assert forall i, j :: 0 <= i < j < |CATEGORIES| ==> ShortStringsDiffer(CATEGORIES[i].0, CATEGORIES[j].0);
  }

  lemma DepartmentIdsDistinct()
    ensures IdsDistinct(DEPARTMENTS)
  {
  }

  /** Both tables have non-empty labels, list the reserved code "99" as
      "Other", and give "Other" to no other id. */
  lemma TableLabels()
    ensures LabelsNonEmpty(CATEGORIES) && LabelsNonEmpty(DEPARTMENTS)
    ensures CATEGORIES[|CATEGORIES| - 1] == (OTHER_CODE, "Other")
    ensures DEPARTMENTS[|DEPARTMENTS| - 1] == (OTHER_CODE, "Other")
    ensures forall i :: 0 <= i < |CATEGORIES| && CATEGORIES[i].1 == "Other" ==> CATEGORIES[i].0 == OTHER_CODE
    ensures forall i :: 0 <= i < |DEPARTMENTS| && DEPARTMENTS[i].1 == "Other" ==> DEPARTMENTS[i].0 == OTHER_CODE
  {
  }

  /** A listed code gets its entry's label. */
  lemma ListedLabels(code: string)
    ensures forall i :: 0 <= i < |CATEGORIES| && CATEGORIES[i].0 == code ==> CategoryLabel(code) == CATEGORIES[i].1
    ensures forall i :: 0 <= i < |DEPARTMENTS| && DEPARTMENTS[i].0 == code ==> DeptLabel(code) == DEPARTMENTS[i].1
  {
    CategoryIdsDistinct();
    DepartmentIdsDistinct();
    forall i | 0 <= i < |CATEGORIES| && CATEGORIES[i].0 == code ensures CategoryLabel(code) == CATEGORIES[i].1 {
      LookupDistinct(CATEGORIES, code, i);
    }
    forall i | 0 <= i < |DEPARTMENTS| && DEPARTMENTS[i].0 == code ensures DeptLabel(code) == DEPARTMENTS[i].1 {
      LookupDistinct(DEPARTMENTS, code, i);
    }
  }

  /** The label is "" exactly for the codes the table does not list. */
  lemma EmptyLabelIffUnlisted(code: string)
    ensures CategoryLabel(code) == "" <==> NotListed(CATEGORIES, code)
    ensures DeptLabel(code) == "" <==> NotListed(DEPARTMENTS, code)
  {
    TableLabels();
    LookupEmptyIff(CATEGORIES, code);
    LookupEmptyIff(DEPARTMENTS, code);
  }

  /** A code the category table skips ("21"), a department code past the
      table ("11") and the empty code all get "". */
  lemma UnlistedExamples()
    ensures CategoryLabel("21") == "" && CategoryLabel("") == "" && DeptLabel("11") == ""
  {
    assert NotListed(CATEGORIES, "21") by {
      assert forall i :: 0 <= i < |CATEGORIES| ==> ShortStringsDiffer(CATEGORIES[i].0, "21");
    }
    assert NotListed(CATEGORIES, "");
    assert NotListed(DEPARTMENTS, "11") by {
      assert forall i :: 0 <= i < |DEPARTMENTS| ==> ShortStringsDiffer(DEPARTMENTS[i].0, "11");
    }
  }

  /** The object literal given to `new Complaint({...})` for sequence value
      `value`, entry by entry in the handler's order. */
  function ComplaintEntries(body: Doc, value: nat, image: Option<string>, pdf: Option<string>)
    : seq<(string, Option<string>)>
  {
    var category := Resolve(CATEGORIES, Get(body, CATEGORY_AXIS.idKey), Get(body, CATEGORY_AXIS.otherKey));
    var department := Resolve(DEPARTMENTS, Get(body, DEPARTMENT_AXIS.idKey), Get(body, DEPARTMENT_AXIS.otherKey));
    [ (ID_KEY, Some(FormatId(ID_PREFIX, value))),
      ("studentName", Get(body, "studentName")),
      ("status", Some(OrElse(Get(body, "status"), "pending"))),
      ("subject", Get(body, "subject")),
      ("description", Get(body, "description")),
      ("resolution", Some(OrElse(Get(body, "resolution"), ""))),
      (CATEGORY_AXIS.idKey, Get(body, CATEGORY_AXIS.idKey)),
      (CATEGORY_AXIS.otherKey, category.freeText),
      (DEPARTMENT_AXIS.idKey, Get(body, DEPARTMENT_AXIS.idKey)),
      (CATEGORY_AXIS.nameKey, category.name),
      (DEPARTMENT_AXIS.nameKey, department.name),
      (DEPARTMENT_AXIS.otherKey, department.freeText),
      (IMAGE_KEY, Some(image.GetOr(""))),
      (PDF_KEY, Some(pdf.GetOr(""))) ]
  }

  /** The document a create stores; undefined values are left out. */
  function NewComplaint(body: Doc, value: nat, image: Option<string>, pdf: Option<string>): Doc {
    FromEntries(ComplaintEntries(body, value, image, pdf))
  }

  lemma EntryKeysDiffer(body: Doc, value: nat, image: Option<string>, pdf: Option<string>)
    ensures EntryKeysDistinct(ComplaintEntries(body, value, image, pdf))
  {
    var e := ComplaintEntries(body, value, image, pdf);
    assert forall i, j :: 0 <= i < j < |e| ==> ShortStringsDiffer(e[i].0, e[j].0);
  }

  /** Only the schema's fields are written, whatever else the body holds. */
  lemma NewComplaintKeys(body: Doc, value: nat, image: Option<string>, pdf: Option<string>)
    ensures forall k :: k !in FIELDS ==> k !in NewComplaint(body, value, image, pdf)
  {
    var e := ComplaintEntries(body, value, image, pdf);
    forall k | k !in FIELDS ensures k !in FromEntries(e) {
      assert forall i :: 0 <= i < |e| ==> e[i].0 in FIELDS;
      FromEntriesKeys(e, k);
    }
  }

  /** The identifier is "CMP" and the zero-padded sequence value. */
  lemma NewComplaintId(body: Doc, value: nat, image: Option<string>, pdf: Option<string>)
    ensures Get(NewComplaint(body, value, image, pdf), ID_KEY) == Some(FormatId(ID_PREFIX, value))
  {
    EntryKeysDiffer(body, value, image, pdf);
    FromEntriesGet(ComplaintEntries(body, value, image, pdf), 0);
  }

  /** Status defaults to "pending" and resolution to "" when absent or empty. */
  lemma NewComplaintDefaults(body: Doc, value: nat, image: Option<string>, pdf: Option<string>)
    ensures var doc := NewComplaint(body, value, image, pdf);
            && (Truthy(Get(body, "status")) ==> Get(doc, "status") == Get(body, "status"))
            && (!Truthy(Get(body, "status")) ==> Get(doc, "status") == Some("pending"))
            && (Truthy(Get(body, "resolution")) ==> Get(doc, "resolution") == Get(body, "resolution"))
            && (!Truthy(Get(body, "resolution")) ==> Get(doc, "resolution") == Some(""))
  {
    var e := ComplaintEntries(body, value, image, pdf);
    EntryKeysDiffer(body, value, image, pdf);
    FromEntriesGet(e, 2);
    FromEntriesGet(e, 5);
  }

  /** The other plain body fields are stored as they came, or left out. */
  lemma NewComplaintCopies(body: Doc, value: nat, image: Option<string>, pdf: Option<string>)
    ensures forall k :: k in COPIED_FIELDS ==> Get(NewComplaint(body, value, image, pdf), k) == Get(body, k)
  {
    var e := ComplaintEntries(body, value, image, pdf);
    EntryKeysDiffer(body, value, image, pdf);
    forall k | k in COPIED_FIELDS ensures Get(FromEntries(e), k) == Get(body, k) {
      var i := if k == "studentName" then 1 else if k == "subject" then 3 else if k == "description" then 4
               else if k == "categoryId" then 6 else 8;
      assert e[i] == (k, Get(body, k));
      FromEntriesGet(e, i);
    }
  }

  /** Both axes go through the "99" rule, and a missing upload is stored as "". */
  lemma NewComplaintClassification(body: Doc, value: nat, image: Option<string>, pdf: Option<string>)
    ensures var doc := NewComplaint(body, value, image, pdf);
            var category := Resolve(CATEGORIES, Get(body, CATEGORY_AXIS.idKey), Get(body, CATEGORY_AXIS.otherKey));
            var department := Resolve(DEPARTMENTS, Get(body, DEPARTMENT_AXIS.idKey), Get(body, DEPARTMENT_AXIS.otherKey));
            && Get(doc, CATEGORY_AXIS.nameKey) == category.name && Get(doc, CATEGORY_AXIS.otherKey) == category.freeText
            && Get(doc, DEPARTMENT_AXIS.nameKey) == department.name && Get(doc, DEPARTMENT_AXIS.otherKey) == department.freeText
            && Get(doc, IMAGE_KEY) == Some(image.GetOr("")) && Get(doc, PDF_KEY) == Some(pdf.GetOr(""))
  {
    var e := ComplaintEntries(body, value, image, pdf);
    EntryKeysDiffer(body, value, image, pdf);
    FromEntriesGet(e, 7);
    FromEntriesGet(e, 9);
    FromEntriesGet(e, 10);
    FromEntriesGet(e, 11);
    FromEntriesGet(e, 12);
    FromEntriesGet(e, 13);
  }

  /** A new complaint satisfies the classification invariant on both axes. */
  lemma NewComplaintConsistent(body: Doc, value: nat, image: Option<string>, pdf: Option<string>)
    ensures Consistent(CATEGORIES, CATEGORY_AXIS, NewComplaint(body, value, image, pdf))
    ensures Consistent(DEPARTMENTS, DEPARTMENT_AXIS, NewComplaint(body, value, image, pdf))
  {
    var doc := NewComplaint(body, value, image, pdf);
    NewComplaintClassification(body, value, image, pdf);
    NewComplaintCopies(body, value, image, pdf);
    assert CATEGORY_AXIS.idKey in COPIED_FIELDS && DEPARTMENT_AXIS.idKey in COPIED_FIELDS;
    ResolvedIsConsistent(CATEGORIES, CATEGORY_AXIS, doc, Get(body, CATEGORY_AXIS.otherKey));
    ResolvedIsConsistent(DEPARTMENTS, DEPARTMENT_AXIS, doc, Get(body, DEPARTMENT_AXIS.otherKey));
  }

  /** A counter that did not exist reads 0 and hands out 1, so the first
      complaint is CMP001. */
  lemma FirstId()
    ensures FormatId(ID_PREFIX, 1) == "CMP001"
  {
    assert NatToDecimal(1) == "1";
  }

  /** POST /create: allocate the next complaint number, assemble the document
      and save it. */
  method Create(counters: CounterStore, complaints: Collection, body: Doc, image: Option<string>, pdf: Option<string>)
      returns (doc: Doc)
    requires counters.Valid()
    modifies counters, complaints
    ensures counters.Valid()
    ensures doc == NewComplaint(body, old(counters.Seq(COMPLAINT_COUNTER)) + 1, image, pdf)
    ensures counters.seqs == old(counters.seqs)[COMPLAINT_COUNTER := old(counters.Seq(COMPLAINT_COUNTER)) + 1]
    ensures counters.issued == old(counters.issued)[COMPLAINT_COUNTER := old(counters.Issued(COMPLAINT_COUNTER)) + {old(counters.Seq(COMPLAINT_COUNTER)) + 1}]
    ensures counters.Seq(COMPLAINT_COUNTER) == old(counters.Seq(COMPLAINT_COUNTER)) + 1
    ensures counters.Seq(NOTICE_COUNTER) == old(counters.Seq(NOTICE_COUNTER))
    ensures Get(doc, ID_KEY) == Some(FormatId(ID_PREFIX, old(counters.Seq(COMPLAINT_COUNTER)) + 1))
    ensures forall n :: n in old(counters.Issued(COMPLAINT_COUNTER)) ==>
              FormatId(ID_PREFIX, n) != FormatId(ID_PREFIX, old(counters.Seq(COMPLAINT_COUNTER)) + 1)
    ensures complaints.docs == old(complaints.docs) + [doc]
  {
    ghost var before := counters.Issued(COMPLAINT_COUNTER);
    var value := counters.Allocate(COMPLAINT_COUNTER);
    doc := NewComplaint(body, value, image, pdf);
    complaints.Save(doc);
    NewComplaintId(body, value, image, pdf);
    FormatIdFresh(ID_PREFIX, before, value);

  }

  /** PATCH /update/:complaintId: apply the patch to the complaint carrying the
      identifier, or report that none does. */
  method Update(complaints: Collection, complaintId: string, body: Doc, image: Option<string>, pdf: Option<string>)
      returns (updated: Option<Doc>)
    requires complaints.idKey == ID_KEY
    modifies complaints
    ensures IndexOfId(old(complaints.docs), ID_KEY, complaintId).None? ==>
              updated.None? && complaints.docs == old(complaints.docs)
    ensures IndexOfId(old(complaints.docs), ID_KEY, complaintId).Some? ==>
              var i := IndexOfId(old(complaints.docs), ID_KEY, complaintId).value;
              var after := ApplySet(old(complaints.docs)[i], UpdateData(CATEGORIES, DEPARTMENTS, body, image, pdf));
              complaints.docs == old(complaints.docs)[i := after] && updated == Some(after)
  {
    var updateData := UpdateData(CATEGORIES, DEPARTMENTS, body, image, pdf);
    updated := complaints.FindOneAndSet(complaintId, updateData);
  }
}
