/** The administrator's document list: the chunk rows grouped into one entry per
    document with its chunk count and latest timestamp, and the state of the list
    and its delete dialog. */
module DocumentsList {
  import opened Wrappers
  import ChunkStore

  /** A `created_at` value: the text the database returns and the instant
      `new Date(text)` denotes. */
  datatype Timestamp = Timestamp(text: string, instant: int)

  /** A row of `select('document_name, created_at')`. */
  datatype ListedChunk = ListedChunk(documentName: string, createdAt: Timestamp)

  /** One entry of the list. */
  datatype DocumentInfo = DocumentInfo(name: string, chunksCount: nat, lastUpdated: Timestamp)

  /** The position of the entry for `name`, if there is one. */
  function Find(docs: seq<DocumentInfo>, name: string): (r: Option<nat>)
    ensures r.Some? ==> r.value < |docs| && docs[r.value].name == name
    ensures r.None? ==> forall a :: 0 <= a < |docs| ==> docs[a].name != name
    decreases |docs|
  {
    if |docs| == 0 then None
    else if docs[|docs| - 1].name == name then Some(|docs| - 1)
    else Find(docs[..|docs| - 1], name)
  }

  /** The entry updated with one more row of its document: the count goes up, and
      the row's timestamp replaces the entry's only when it is strictly later. */
  function Bump(d: DocumentInfo, row: ListedChunk): DocumentInfo
  {
    DocumentInfo(d.name, d.chunksCount + 1,
      if row.createdAt.instant > d.lastUpdated.instant then row.createdAt else d.lastUpdated)
  }

  /** One step of the `forEach`: update the entry of the row's document, or append
      a new entry with count 1 and the row's timestamp. */
  function AddRow(docs: seq<DocumentInfo>, row: ListedChunk): seq<DocumentInfo>
  {
    match Find(docs, row.documentName)
    case None => docs + [DocumentInfo(row.documentName, 1, row.createdAt)]
    case Some(p) => docs[p := Bump(docs[p], row)]
  }

  /** The grouping in `loadDocuments`, entries listed in the `Map`'s insertion order. */
  function GroupRows(rows: seq<ListedChunk>): seq<DocumentInfo>
    decreases |rows|
  {
    if |rows| == 0 then []
    else AddRow(GroupRows(rows[..|rows| - 1]), rows[|rows| - 1])
  }

  // Reference definitions the grouping is checked against.

  /** Number of rows of document `name`. */
  function CountOf(rows: seq<ListedChunk>, name: string): nat
    decreases |rows|
  {
    if |rows| == 0 then 0
    else CountOf(rows[..|rows| - 1], name) + (if rows[|rows| - 1].documentName == name then 1 else 0)
  }

  function TotalCount(docs: seq<DocumentInfo>): nat
    decreases |docs|
  {
    if |docs| == 0 then 0 else TotalCount(docs[..|docs| - 1]) + docs[|docs| - 1].chunksCount
  }

  predicate NameOccurs(rows: seq<ListedChunk>, name: string)
  {
    exists i :: 0 <= i < |rows| && rows[i].documentName == name
  }

  predicate HasEntry(docs: seq<DocumentInfo>, name: string)
  {
    exists a :: 0 <= a < |docs| && docs[a].name == name
  }

  predicate UniqueNames(docs: seq<DocumentInfo>)
  {
    forall a, b :: 0 <= a < b < |docs| ==> docs[a].name != docs[b].name
  }

  /** Every entry names a document of the rows, and every row's document has an entry. */
  predicate Covers(docs: seq<DocumentInfo>, rows: seq<ListedChunk>)
  {
    && (forall a :: 0 <= a < |docs| ==> NameOccurs(rows, docs[a].name))
    && (forall i :: 0 <= i < |rows| ==> HasEntry(docs, rows[i].documentName))
  }

  predicate CountsMatch(docs: seq<DocumentInfo>, rows: seq<ListedChunk>)
  {
    forall a :: 0 <= a < |docs| ==> docs[a].chunksCount == CountOf(rows, docs[a].name)
  }

  /** `t` is the timestamp of row `j` of document `name`, the first row of that
      document with the greatest instant. */
  predicate IsLatestAt(rows: seq<ListedChunk>, name: string, t: Timestamp, j: int)
  {
    && 0 <= j < |rows|
    && rows[j].documentName == name
    && rows[j].createdAt == t
    && (forall k :: 0 <= k < |rows| && rows[k].documentName == name ==> rows[k].createdAt.instant <= t.instant)
    && (forall k :: 0 <= k < j && rows[k].documentName == name ==> rows[k].createdAt.instant < t.instant)
  }

  /** `t` is the latest timestamp among the rows of document `name`. */
  predicate HasLatest(rows: seq<ListedChunk>, name: string, t: Timestamp)
  {
    exists j :: 0 <= j < |rows| && IsLatestAt(rows, name, t, j)
  }

  predicate LatestMatch(docs: seq<DocumentInfo>, rows: seq<ListedChunk>)
  {
    forall a :: 0 <= a < |docs| ==> HasLatest(rows, docs[a].name, docs[a].lastUpdated)
  }

  /** An earlier entry's document appears in the rows before any row of a later
      entry's document. */
  predicate FirstSeenOrder(docs: seq<DocumentInfo>, rows: seq<ListedChunk>)
  {
    forall a, b, j :: 0 <= a < b < |docs| && 0 <= j < |rows| && rows[j].documentName == docs[b].name ==>
      SeenBefore(rows, docs[a].name, j)
  }

  /** Some row before position `j` belongs to document `name`. */
  predicate SeenBefore(rows: seq<ListedChunk>, name: string, j: int)
  {
    exists i :: 0 <= i < j && i < |rows| && rows[i].documentName == name
  }

  lemma SeenBeforeSnoc(rows: seq<ListedChunk>, row: ListedChunk, name: string, j: int)
    requires SeenBefore(rows, name, j)
    ensures SeenBefore(rows + [row], name, j)
  {
    var i :| 0 <= i < j && i < |rows| && rows[i].documentName == name;
    assert (rows + [row])[i] == rows[i];
  }

  lemma {:induction false} CountOfAbsent(rows: seq<ListedChunk>, name: string)
    requires !NameOccurs(rows, name)
    ensures CountOf(rows, name) == 0
    decreases |rows|
  {
    if |rows| > 0 {
      var init := rows[..|rows| - 1];
      assert forall i :: 0 <= i < |init| ==> init[i] == rows[i];
      CountOfAbsent(init, name);
    }
  }

  lemma CountOfSnoc(rows: seq<ListedChunk>, row: ListedChunk, name: string)
    ensures CountOf(rows + [row], name) == CountOf(rows, name) + (if row.documentName == name then 1 else 0)
  {
    assert (rows + [row])[..|rows|] == rows;
  }

  lemma {:induction false} TotalCountUpdate(docs: seq<DocumentInfo>, p: nat, d: DocumentInfo)
    requires p < |docs|
    ensures TotalCount(docs[p := d]) + docs[p].chunksCount == TotalCount(docs) + d.chunksCount
    decreases |docs|
  {
    var n := |docs| - 1;
    if p < n {
      TotalCountUpdate(docs[..n], p, d);
      assert docs[p := d][..n] == docs[..n][p := d];
    } else {
      assert docs[p := d][..n] == docs[..n];
    }
  }

  lemma AddRowUnique(docs: seq<DocumentInfo>, row: ListedChunk)
    requires UniqueNames(docs)
    ensures UniqueNames(AddRow(docs, row))
  {
  }

  /** Adding a row keeps every entry's name and position, and may append one. */
  lemma AddRowNames(docs: seq<DocumentInfo>, row: ListedChunk)
    ensures var docs' := AddRow(docs, row);
            && |docs| <= |docs'| <= |docs| + 1
            && (forall a :: 0 <= a < |docs| ==> docs'[a].name == docs[a].name)
            && (|docs'| == |docs| + 1 <==> Find(docs, row.documentName).None?)
            && (|docs'| == |docs| + 1 ==> docs'[|docs|] == DocumentInfo(row.documentName, 1, row.createdAt))
  {
  }

  lemma AddRowCovers(docs: seq<DocumentInfo>, rows: seq<ListedChunk>, row: ListedChunk)
    requires Covers(docs, rows)
    ensures Covers(AddRow(docs, row), rows + [row])
  {
    var docs' := AddRow(docs, row);
    var rows' := rows + [row];
    AddRowNames(docs, row);
    forall a | 0 <= a < |docs'|
      ensures NameOccurs(rows', docs'[a].name)
    {
      if a < |docs| {
        var i :| 0 <= i < |rows| && rows[i].documentName == docs[a].name;
        assert rows'[i] == rows[i];
      } else {
        assert rows'[|rows|] == row;
      }
    }
    forall i | 0 <= i < |rows'|
      ensures HasEntry(docs', rows'[i].documentName)
    {
      if i < |rows| {
        assert rows'[i] == rows[i];
        var a :| 0 <= a < |docs| && docs[a].name == rows[i].documentName;
        assert docs'[a].name == docs[a].name;
      } else {
        var p := Find(docs, row.documentName);
        if p.Some? {
          assert docs'[p.value].name == row.documentName;
        } else {
          assert docs'[|docs|].name == row.documentName;
        }
      }
    }
  }

  lemma AddRowCounts(docs: seq<DocumentInfo>, rows: seq<ListedChunk>, row: ListedChunk)
    requires UniqueNames(docs) && Covers(docs, rows) && CountsMatch(docs, rows)
    ensures CountsMatch(AddRow(docs, row), rows + [row])
    ensures TotalCount(AddRow(docs, row)) == TotalCount(docs) + 1
  {
    var docs' := AddRow(docs, row);
    var rows' := rows + [row];
    var p := Find(docs, row.documentName);
    AddRowNames(docs, row);
    forall a | 0 <= a < |docs'|
      ensures docs'[a].chunksCount == CountOf(rows', docs'[a].name)
    {
      CountOfSnoc(rows, row, docs'[a].name);
      if a == |docs| {
        assert !NameOccurs(rows, row.documentName);
        CountOfAbsent(rows, row.documentName);
      }
    }
    if p.None? {
      assert docs'[..|docs'| - 1] == docs;
    } else {
      TotalCountUpdate(docs, p.value, Bump(docs[p.value], row));
    }
  }

  /** A row that is not later than the latest one keeps it the latest. */
  lemma LatestKept(rows: seq<ListedChunk>, row: ListedChunk, name: string, t: Timestamp, j: int)
    requires IsLatestAt(rows, name, t, j)
    requires row.documentName == name ==> row.createdAt.instant <= t.instant
    ensures IsLatestAt(rows + [row], name, t, j)
  {
    var rows' := rows + [row];
    forall k | 0 <= k < |rows'| && rows'[k].documentName == name
      ensures rows'[k].createdAt.instant <= t.instant
    {
      if k < |rows| { assert rows'[k] == rows[k]; }
    }
    assert rows'[j] == rows[j];
  }

  /** A row strictly later than every earlier row of its document is the latest. */
  lemma LatestReplaced(rows: seq<ListedChunk>, row: ListedChunk)
    requires forall k :: 0 <= k < |rows| && rows[k].documentName == row.documentName ==>
               rows[k].createdAt.instant < row.createdAt.instant
    ensures IsLatestAt(rows + [row], row.documentName, row.createdAt, |rows|)
  {
    var rows' := rows + [row];
    forall k | 0 <= k < |rows'| && rows'[k].documentName == row.documentName
      ensures rows'[k].createdAt.instant <= row.createdAt.instant
    {
      if k < |rows| { assert rows'[k] == rows[k]; }
    }
  }

  lemma AddRowLatestAt(docs: seq<DocumentInfo>, rows: seq<ListedChunk>, row: ListedChunk, a: nat)
    requires UniqueNames(docs) && Covers(docs, rows) && LatestMatch(docs, rows)
    requires a < |AddRow(docs, row)|
    ensures HasLatest(rows + [row], AddRow(docs, row)[a].name, AddRow(docs, row)[a].lastUpdated)
  {
    var docs' := AddRow(docs, row);
    var p := Find(docs, row.documentName);
    AddRowNames(docs, row);
    if a < |docs| {
      var j :| 0 <= j < |rows| && IsLatestAt(rows, docs[a].name, docs[a].lastUpdated, j);
      var t := docs[a].lastUpdated;
      if p.Some? && a == p.value && row.createdAt.instant > t.instant {
        LatestReplaced(rows, row);
        assert docs'[a].lastUpdated == row.createdAt;
      } else {
        assert docs'[a].lastUpdated == t;
        LatestKept(rows, row, docs[a].name, t, j);
      }
    } else {
      assert !NameOccurs(rows, row.documentName);
      LatestReplaced(rows, row);
    }
  }

  lemma AddRowLatest(docs: seq<DocumentInfo>, rows: seq<ListedChunk>, row: ListedChunk)
    requires UniqueNames(docs) && Covers(docs, rows) && LatestMatch(docs, rows)
    ensures LatestMatch(AddRow(docs, row), rows + [row])
  {
    var docs' := AddRow(docs, row);
    var rows' := rows + [row];
    forall a | 0 <= a < |docs'|
      ensures HasLatest(rows', docs'[a].name, docs'[a].lastUpdated)
    {
      AddRowLatestAt(docs, rows, row, a);
    }
  }

  lemma AddRowOrderAt(docs: seq<DocumentInfo>, rows: seq<ListedChunk>, row: ListedChunk, a: nat, b: nat, j: nat)
    requires Covers(docs, rows) && FirstSeenOrder(docs, rows)
    requires a < b < |AddRow(docs, row)| && j < |rows| + 1
    requires (rows + [row])[j].documentName == AddRow(docs, row)[b].name
    ensures SeenBefore(rows + [row], AddRow(docs, row)[a].name, j)
  {
    var docs' := AddRow(docs, row);
    var rows' := rows + [row];
    AddRowNames(docs, row);
    var name := docs[a].name;
    if b < |docs| && j < |rows| {
      assert rows'[j] == rows[j];
      assert SeenBefore(rows, name, j);
    } else {
      assert j == |rows|;
      assert NameOccurs(rows, name);
      var i :| 0 <= i < |rows| && rows[i].documentName == name;
      assert SeenBefore(rows, name, j);
    }
    SeenBeforeSnoc(rows, row, name, j);
  }

  lemma AddRowOrder(docs: seq<DocumentInfo>, rows: seq<ListedChunk>, row: ListedChunk)
    requires Covers(docs, rows) && FirstSeenOrder(docs, rows)
    ensures FirstSeenOrder(AddRow(docs, row), rows + [row])
  {
    var docs' := AddRow(docs, row);
    var rows' := rows + [row];
    forall a, b, j | 0 <= a < b < |docs'| && 0 <= j < |rows'| && rows'[j].documentName == docs'[b].name
      ensures SeenBefore(rows', docs'[a].name, j)
    {
      AddRowOrderAt(docs, rows, row, a, b, j);
    }
  }

  /** Everything the grouping promises about its entries. */
  predicate Summarises(docs: seq<DocumentInfo>, rows: seq<ListedChunk>)
  {
    && UniqueNames(docs)
    && Covers(docs, rows)
    && CountsMatch(docs, rows)
    && TotalCount(docs) == |rows|
    && LatestMatch(docs, rows)
    && FirstSeenOrder(docs, rows)
  }

  /** The grouping gives one entry per distinct document of the rows; each entry's
      count is the number of that document's rows, so the counts add up to the
      number of rows; its timestamp is the latest of that document's rows, the
      first one seen on a tie; entries follow the order in which documents first
      appear in the rows. */
  lemma {:induction false} GroupRowsSummarises(rows: seq<ListedChunk>)
    ensures Summarises(GroupRows(rows), rows)
    decreases |rows|
  {
    if |rows| > 0 {
      var init := rows[..|rows| - 1];
      var row := rows[|rows| - 1];
      GroupRowsSummarises(init);
      assert rows == init + [row];
      assert GroupRows(rows) == AddRow(GroupRows(init), row);
      AddRowSummarises(GroupRows(init), init, row);
    }
  }

  /** One more row keeps the summary a summary. */
  lemma AddRowSummarises(docs: seq<DocumentInfo>, rows: seq<ListedChunk>, row: ListedChunk)
    requires Summarises(docs, rows)
    ensures Summarises(AddRow(docs, row), rows + [row])
  {
    AddRowUnique(docs, row);
    AddRowCovers(docs, rows, row);
    AddRowCounts(docs, rows, row);
    AddRowLatest(docs, rows, row);
    AddRowOrder(docs, rows, row);
  }

  /** The rows arrive ordered by `created_at`, newest first; an entry's timestamp is
      then that of its document's first row. */
  lemma NewestFirstGivesFirstRow(rows: seq<ListedChunk>, a: nat, j: nat)
    requires forall k, l :: 0 <= k < l < |rows| ==> rows[k].createdAt.instant >= rows[l].createdAt.instant
    requires a < |GroupRows(rows)|
    requires j < |rows| && rows[j].documentName == GroupRows(rows)[a].name
    requires forall k :: 0 <= k < j ==> rows[k].documentName != rows[j].documentName
    ensures GroupRows(rows)[a].lastUpdated == rows[j].createdAt
  {
    GroupRowsSummarises(rows);
    var docs := GroupRows(rows);
    var t := docs[a].lastUpdated;
    assert LatestMatch(docs, rows);
    var m :| 0 <= m < |rows| && IsLatestAt(rows, docs[a].name, t, m);
    assert rows[j].createdAt.instant <= t.instant;
  }

  /** The list's component state. */
  datatype ListState = ListState(
    documents: seq<DocumentInfo>,
    isLoading: bool,
    deleteDialogOpen: bool,
    documentToDelete: Option<string>)

  /** `loadDocuments` once the query answers: the rows (none for a null `data`) or
      an error. An error keeps the previous list; loading ends either way. */
  function LoadDocuments(s: ListState, fetched: Result<seq<ListedChunk>>): (r: ListState)
    ensures !r.isLoading
    ensures fetched.Failure? ==> r.documents == s.documents
    ensures fetched.Success? ==> Summarises(r.documents, fetched.value)
    ensures r.deleteDialogOpen == s.deleteDialogOpen && r.documentToDelete == s.documentToDelete
  {
    match fetched
    case Failure(_) => s.(isLoading := false)
    case Success(rows) =>
      GroupRowsSummarises(rows);
      s.(documents := GroupRows(rows), isLoading := false)
  }

  /** The delete button of an entry: remember the document and open the dialog. */
  function OpenDeleteDialog(s: ListState, name: string): (r: ListState)
    ensures r.deleteDialogOpen && r.documentToDelete == Some(name)
    ensures r.documents == s.documents && r.isLoading == s.isLoading
  {
    s.(documentToDelete := Some(name), deleteDialogOpen := true)
  }

  /** The table, the list state, and whether a reload of the list was started. */
  datatype DeleteOutcome = DeleteOutcome(table: ChunkStore.Table, state: ListState, reload: bool)

  /** `handleDelete(name)`: the rows of the document are deleted when the database
      accepts it, and then the list is reloaded, which shows it as loading again
      until the reload answers; success or failure, the dialog closes and no
      document stays selected. */
  function HandleDelete(s: ListState, table: ChunkStore.Table, name: string, deleteSucceeds: bool): (r: DeleteOutcome)
    ensures !r.state.deleteDialogOpen && r.state.documentToDelete.None?
    ensures r.state.documents == s.documents
    ensures r.reload <==> deleteSucceeds
    ensures r.state.isLoading <==> deleteSucceeds || s.isLoading
    ensures deleteSucceeds ==> forall row :: row in r.table <==> row in table && row.documentName != name
    ensures deleteSucceeds ==> ChunkStore.RowsOf(r.table, name) == []
    ensures deleteSucceeds ==> forall other :: other != name ==> ChunkStore.RowsOf(r.table, other) == ChunkStore.RowsOf(table, other)
    ensures !deleteSucceeds ==> r.table == table
  {
    var closed := s.(deleteDialogOpen := false, documentToDelete := None);
    ChunkStore.DeleteKeepsOtherDocuments(table, name);
    if deleteSucceeds then DeleteOutcome(ChunkStore.DeleteDocument(table, name), closed.(isLoading := true), true)
    else DeleteOutcome(table, closed, false)
  }

  /** The dialog's confirm button. The dialog closes on any press; the document is
      deleted only when a non-empty name is selected, and otherwise the selection is
      left as it was. */
  function ConfirmDelete(s: ListState, table: ChunkStore.Table, deleteSucceeds: bool): (r: DeleteOutcome)
    ensures !r.state.deleteDialogOpen
    ensures !Present(s.documentToDelete) ==>
      r == DeleteOutcome(table, s.(deleteDialogOpen := false), false)
    ensures Present(s.documentToDelete) ==>
      r.state.documentToDelete.None? && (r.reload <==> deleteSucceeds)
  {
    if Present(s.documentToDelete) then HandleDelete(s, table, s.documentToDelete.value, deleteSucceeds)
    else DeleteOutcome(table, s.(deleteDialogOpen := false), false)
  }

  /** The dialog's cancel button, or dismissing the dialog: it closes, and the
      selection and the list stay as they were. */
  function CancelDelete(s: ListState): (r: ListState)
    ensures !r.deleteDialogOpen
    ensures r.documentToDelete == s.documentToDelete && r.documents == s.documents && r.isLoading == s.isLoading
  {
    s.(deleteDialogOpen := false)
  }
}
