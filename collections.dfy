/** A Mongoose collection as the route handlers use it: `save` appends a new
    record, and `findOneAndUpdate({<idKey>: id}, {$set: patch}, {new: true})`
    applies the patch to the first record carrying that identifier and returns
    the updated record, or nothing when no record carries it. */
module Collections {
  import opened Wrappers
  import opened Documents

  /** Position of the first record whose `key` field is `id`. */
  function IndexOfId(docs: seq<Doc>, key: string, id: string): (r: Option<nat>)
    ensures r.Some? ==> r.value < |docs| && Get(docs[r.value], key) == Some(id)
    ensures r.Some? ==> forall j :: 0 <= j < r.value ==> Get(docs[j], key) != Some(id)
    ensures r.None? ==> forall j :: 0 <= j < |docs| ==> Get(docs[j], key) != Some(id)
  {
    if docs == [] then None
    else if Get(docs[0], key) == Some(id) then Some(0)
    else
      match IndexOfId(docs[1..], key, id)
      case None => None
      case Some(i) => Some(i + 1)
  }

  class Collection {
    /** The identifier field the routes query by (`noticeId`, `complaintId`). */
    const idKey: string
    var docs: seq<Doc>

    constructor (idKey: string)
      ensures this.idKey == idKey && docs == []
    {
      this.idKey := idKey;
      docs := [];
    }

    method Save(doc: Doc)
      modifies this
      ensures docs == old(docs) + [doc]
    {
      docs := docs + [doc];
    }

    method FindOneAndSet(id: string, patch: Doc) returns (updated: Option<Doc>)
      modifies this
      ensures IndexOfId(old(docs), idKey, id).None? ==> updated.None? && docs == old(docs)
      ensures IndexOfId(old(docs), idKey, id).Some? ==>
                var i := IndexOfId(old(docs), idKey, id).value;
                docs == old(docs)[i := ApplySet(old(docs)[i], patch)] && updated == Some(docs[i])
    {
      match IndexOfId(docs, idKey, id)
      case None =>
        updated := None;
      case Some(i) =>
        docs := docs[i := ApplySet(docs[i], patch)];
        updated := Some(docs[i]);
    }
  }
}
