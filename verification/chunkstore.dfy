/** The `document_chunks` table as the ingestion function and the document list
    see it: an ordered collection of rows, filtered and deleted by document name. */
module ChunkStore {

  /** An embedding vector as the provider returns it; its values are never inspected. */
  datatype Embedding = Embedding(values: seq<real>)

  /** A row written by the ingestion function: the chunk text, its embedding, the
      document it belongs to, its position in that document and the `length` entry
      of its metadata. */
  datatype ChunkRow = ChunkRow(
    content: string,
    embedding: Embedding,
    documentName: string,
    chunkIndex: nat,
    contentLength: nat)

  type Table = seq<ChunkRow>

  /** The rows of one document, in table order. */
  function RowsOf(t: Table, name: string): (r: Table)
    ensures |r| <= |t|
    ensures forall k :: 0 <= k < |r| ==> r[k].documentName == name
    ensures forall row :: row in r <==> row in t && row.documentName == name
    decreases |t|
  {
    if |t| == 0 then []
    else (if t[0].documentName == name then [t[0]] else []) + RowsOf(t[1..], name)
  }

  /** `delete().eq('document_name', name)`: every row of the document goes, every
      other row stays, in order. Deleting a document that has no rows is a no-op. */
  function DeleteDocument(t: Table, name: string): (r: Table)
    ensures |r| <= |t|
    ensures forall row :: row in r <==> row in t && row.documentName != name
    ensures RowsOf(t, name) == [] ==> r == t
    decreases |t|
  {
    if |t| == 0 then []
    else (if t[0].documentName != name then [t[0]] else []) + DeleteDocument(t[1..], name)
  }

  lemma {:induction false} RowsOfAppend(a: Table, b: Table, name: string)
    ensures RowsOf(a + b, name) == RowsOf(a, name) + RowsOf(b, name)
    decreases |a|
  {
    if |a| > 0 {
      assert (a + b)[1..] == a[1..] + b;
      RowsOfAppend(a[1..], b, name);
    } else {
      assert a + b == b;
    }
  }

  /** After deleting a document none of its rows remain, and every other document
      keeps exactly the rows it had. */
  lemma {:induction false} DeleteTouchesOnlyThatDocument(t: Table, name: string, other: string)
    ensures RowsOf(DeleteDocument(t, name), name) == []
    ensures other != name ==> RowsOf(DeleteDocument(t, name), other) == RowsOf(t, other)
    decreases |t|
  {
    if |t| > 0 {
      DeleteTouchesOnlyThatDocument(t[1..], name, other);
      var head := if t[0].documentName != name then [t[0]] else [];
      RowsOfAppend(head, DeleteDocument(t[1..], name), name);
      RowsOfAppend(head, DeleteDocument(t[1..], name), other);
    }
  }

  /** Deleting a document empties its rows and keeps every other document's rows,
      with their multiplicity and order. */
  lemma DeleteKeepsOtherDocuments(t: Table, name: string)
    ensures RowsOf(DeleteDocument(t, name), name) == []
    ensures forall other :: other != name ==> RowsOf(DeleteDocument(t, name), other) == RowsOf(t, other)
  {
    DeleteTouchesOnlyThatDocument(t, name, name);
    forall other | other != name
      ensures RowsOf(DeleteDocument(t, name), other) == RowsOf(t, other)
    {
      DeleteTouchesOnlyThatDocument(t, name, other);
    }
  }

  /** Rows that all belong to one document are their own selection for it. */
  lemma {:induction false} RowsOfUniform(t: Table, name: string)
    requires forall k :: 0 <= k < |t| ==> t[k].documentName == name
    ensures RowsOf(t, name) == t
    ensures forall other :: other != name ==> RowsOf(t, other) == []
    decreases |t|
  {
    if |t| > 0 {
      RowsOfUniform(t[1..], name);
    }
  }
}
