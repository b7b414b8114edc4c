/**
 * The client-side document store shared by the editor pages: the signed-in
 * user's document list, the open document, and the flags that keep requests
 * from being issued twice. Every network request is one atomic step whose
 * reply is a parameter; fetching a single document is split into the step that
 * issues the request and the step that handles its reply, so that the
 * in-flight marker between the two is part of the model.
 */
module DocumentStore {
  import opened Wrappers

  const DefaultTitle: string := "Untitled Document"

  datatype Document = Document(id: string, title: string, content: string, lastEdited: int)

  datatype Summary = Summary(id: string, title: string, lastEdited: int, createdAt: int)

  /** The fields an update sends; an absent field is left as it is. */
  datatype Patch = Patch(title: Option<string>, content: Option<string>)

  /** The reply to a request: the decoded payload, an error message, or an abort. */
  datatype Reply<T> = Done(value: T) | Failed(message: string) | Aborted

  /** What a caller of the store sees: the promise resolves (with a value) or rejects. */
  datatype Outcome = Resolved | Rejected(message: string)

  /** What `fetchDocuments` schedules after a successful list fetch. */
  datatype FollowUp = NoFollowUp | LoadDocument(id: string) | CreateInitialDocument

  /** What `fetchDocument` does before any request. */
  datatype FetchStart = ReturnedCurrent(doc: Document) | ReturnedNull | Requested

  /** The body of a create request. */
  datatype CreateBody = CreateBody(title: string, content: string)

  /* ---------------------------------------------------------------------------
   * The list transforms
   * ------------------------------------------------------------------------- */

  function Ids(docs: seq<Summary>): (r: seq<string>)
    ensures |r| == |docs| && forall k :: 0 <= k < |docs| ==> r[k] == docs[k].id
  {
    if docs == [] then [] else [docs[0].id] + Ids(docs[1..])
  }

  /** `docs.map(doc => doc.id === id ? {...doc, title?, lastEdited: now} : doc)`. */
  function UpdateSummaries(docs: seq<Summary>, id: string, title: Option<string>, now: int): (r: seq<Summary>)
    ensures |r| == |docs|
    ensures forall k :: 0 <= k < |docs| && docs[k].id != id ==> r[k] == docs[k]
    ensures forall k :: 0 <= k < |docs| && docs[k].id == id ==>
      r[k] == Summary(id, title.GetOr(docs[k].title), now, docs[k].createdAt)
  {
    if docs == [] then []
    else
      var d := docs[0];
      var head := if d.id == id then Summary(id, title.GetOr(d.title), now, d.createdAt) else d;
      [head] + UpdateSummaries(docs[1..], id, title, now)
  }

  /** An update keeps the list's length and the order of its ids, and repeating it
      changes nothing more. */
  lemma UpdateKeepsIds(docs: seq<Summary>, id: string, title: Option<string>, now: int)
    ensures Ids(UpdateSummaries(docs, id, title, now)) == Ids(docs)
    ensures UpdateSummaries(UpdateSummaries(docs, id, title, now), id, title, now)
      == UpdateSummaries(docs, id, title, now)
  {
    var once := UpdateSummaries(docs, id, title, now);
    var twice := UpdateSummaries(once, id, title, now);
    assert forall k :: 0 <= k < |docs| ==> twice[k] == once[k];
  }

  /** `docs.filter(doc => doc.id !== id)`. */
  function RemoveById(docs: seq<Summary>, id: string): (r: seq<Summary>)
    ensures |r| <= |docs|
    ensures forall k :: 0 <= k < |r| ==> r[k].id != id && r[k] in docs
    ensures forall d :: d in docs && d.id != id ==> d in r
  {
    if docs == [] then []
    else if docs[0].id == id then RemoveById(docs[1..], id)
    else [docs[0]] + RemoveById(docs[1..], id)
  }

  /** `sub` is `docs` with some entries left out and the rest in their order. */
  predicate IsSubsequence(sub: seq<Summary>, docs: seq<Summary>)
    decreases |docs|
  {
    if sub == [] then true
    else if docs == [] then false
    else if sub[0] == docs[0] then IsSubsequence(sub[1..], docs[1..])
    else IsSubsequence(sub, docs[1..])
  }

  lemma {:induction false} RemoveKeepsOrder(docs: seq<Summary>, id: string)
    ensures IsSubsequence(RemoveById(docs, id), docs)
  {
    if docs != [] {
      RemoveKeepsOrder(docs[1..], id);
      var rest := RemoveById(docs[1..], id);
      if docs[0].id != id {
        assert ([docs[0]] + rest)[1..] == rest;
      } else if rest != [] {
        // the removed head cannot be the first survivor, so the survivors are
        // matched inside the tail
        assert rest[0] != docs[0];
      }
    }
  }

  /** Deleting an id that is not in the list changes nothing; deleting twice is
      deleting once. */
  lemma {:induction false} RemoveAbsentOrRepeated(docs: seq<Summary>, id: string)
    ensures (forall k :: 0 <= k < |docs| ==> docs[k].id != id) ==> RemoveById(docs, id) == docs
    ensures RemoveById(RemoveById(docs, id), id) == RemoveById(docs, id)
  {
    if docs != [] {
      RemoveAbsentOrRepeated(docs[1..], id);
      if docs[0].id != id {
        var rest := RemoveById(docs[1..], id);
        assert ([docs[0]] + rest)[1..] == rest;
      }
    }
  }

  /** The position of the most recently edited document: the first entry of the
      list sorted by `lastEdited`, newest first (the sort is stable, so among
      equally recent entries the earliest one in the list). */
  function MostRecent(docs: seq<Summary>): (i: nat)
    requires docs != []
    ensures i < |docs|
    ensures forall k :: 0 <= k < |docs| ==> docs[k].lastEdited <= docs[i].lastEdited
    ensures forall k :: 0 <= k < i ==> docs[k].lastEdited < docs[i].lastEdited
  {
    if |docs| == 1 then 0
    else
      var j := 1 + MostRecent(docs[1..]);
      if docs[0].lastEdited >= docs[j].lastEdited then 0 else j
  }

  /** `createDocument(title = "Untitled Document", content = "")`: the body sent. */
  function CreateRequest(title: Option<string>, content: Option<string>): (b: CreateBody)
    ensures title.None? ==> b.title == DefaultTitle
    ensures content.None? ==> b.content == []
    ensures title.Some? ==> b.title == title.value
    ensures content.Some? ==> b.content == content.value
  {
    CreateBody(title.GetOr(DefaultTitle), content.GetOr([]))
  }

  /* ---------------------------------------------------------------------------
   * The store
   * ------------------------------------------------------------------------- */

  class Store {
    var documents: seq<Summary>
    var currentDocument: Option<Document>
    var loading: bool
    var error: Option<string>
    var documentsLoaded: bool
    var initialFetchDone: bool
    var isCreatingInitialDocument: bool
    /** The id of the document whose request is in flight. */
    var fetchingDocument: Option<string>
    var documentInitialized: Option<string>

    constructor ()
      ensures documents == [] && currentDocument == None && !loading && error == None
      ensures !documentsLoaded && !initialFetchDone && !isCreatingInitialDocument
      ensures fetchingDocument == None && documentInitialized == None
    {
      documents, currentDocument, loading, error := [], None, false, None;
      documentsLoaded, initialFetchDone, isCreatingInitialDocument := false, false, false;
      fetchingDocument, documentInitialized := None, None;
    }

    /** The effect on `[user]`: the first sign-in starts the list fetch once; a
        sign-out empties the list and closes the open document. */
    method UserChanged(signedIn: bool) returns (startFetch: bool)
      modifies this`initialFetchDone, this`documents, this`currentDocument
      ensures startFetch <==> signedIn && !old(initialFetchDone)
      ensures initialFetchDone == (old(initialFetchDone) || signedIn)
      ensures !signedIn ==> documents == [] && currentDocument == None
      ensures signedIn ==> documents == old(documents) && currentDocument == old(currentDocument)
    {
      startFetch := false;
      if signedIn && !initialFetchDone {
        initialFetchDone := true;
        startFetch := true;
      } else if !signedIn {
        documents := [];
        currentDocument := None;
      }
    }

    /** `fetchDocuments`: does nothing without a user or while loading; a loaded
        list replaces `documents` and, with no document open, schedules loading the
        most recent one, or creating a first document when the list is empty and
        no creation is under way. */
    method FetchDocuments(signedIn: bool, reply: Reply<seq<Summary>>) returns (next: FollowUp)
      modifies this`documents, this`documentsLoaded, this`isCreatingInitialDocument, this`error, this`loading
      ensures !signedIn || old(loading) ==>
        next == NoFollowUp && documents == old(documents) && error == old(error)
        && documentsLoaded == old(documentsLoaded) && loading == old(loading)
        && isCreatingInitialDocument == old(isCreatingInitialDocument)
      ensures signedIn && !old(loading) ==> !loading
      ensures signedIn && !old(loading) && reply.Done? ==>
        documents == reply.value && documentsLoaded && error == None
        && next == (if reply.value != [] && currentDocument.None? then LoadDocument(reply.value[MostRecent(reply.value)].id)
                    else if reply.value == [] && !old(isCreatingInitialDocument) then CreateInitialDocument
                    else NoFollowUp)
        && isCreatingInitialDocument == (old(isCreatingInitialDocument) || next == CreateInitialDocument)
      ensures signedIn && !old(loading) && reply.Failed? ==>
        documents == old(documents) && documentsLoaded && error == Some(reply.message) && next == NoFollowUp
        && isCreatingInitialDocument == old(isCreatingInitialDocument)
      ensures signedIn && !old(loading) && reply.Aborted? ==>
        documents == old(documents) && documentsLoaded == old(documentsLoaded) && error == None && next == NoFollowUp
        && isCreatingInitialDocument == old(isCreatingInitialDocument)
    {
      next := NoFollowUp;
      if !signedIn || loading {
        return;
      }
      loading := true;
      error := None;
      match reply {
        case Done(docs) =>
          documents := docs;
          documentsLoaded := true;
          if docs != [] && currentDocument.None? {
            next := LoadDocument(docs[MostRecent(docs)].id);
          } else if docs == [] && !isCreatingInitialDocument {
            isCreatingInitialDocument := true;
            next := CreateInitialDocument;
          }
        case Failed(message) =>
          error := Some(message);
          documentsLoaded := true;
        case Aborted =>
      }
      loading := false;
    }

    /** The part of `fetchDocument(id)` before the request: the open document is
        returned as it is when the ids match, `null` when the same id is already in
        flight; otherwise the id is marked in flight and the request is issued. */
    method BeginFetchDocument(signedIn: bool, id: string) returns (start: FetchStart)
      modifies this`fetchingDocument, this`loading, this`error
      ensures !signedIn ==> start == ReturnedNull
      ensures signedIn && currentDocument.Some? && currentDocument.value.id == id ==>
        start == ReturnedCurrent(currentDocument.value)
      ensures signedIn && !(currentDocument.Some? && currentDocument.value.id == id) && old(fetchingDocument) == Some(id) ==>
        start == ReturnedNull
      ensures start != Requested ==>
        fetchingDocument == old(fetchingDocument) && loading == old(loading) && error == old(error)
      ensures start == Requested <==>
        signedIn && !(currentDocument.Some? && currentDocument.value.id == id) && old(fetchingDocument) != Some(id)
      ensures start == Requested ==> fetchingDocument == Some(id) && loading && error == None
    {
      if !signedIn {
        return ReturnedNull;
      }
      if currentDocument.Some? && currentDocument.value.id == id {
        return ReturnedCurrent(currentDocument.value);
      }
      if fetchingDocument == Some(id) {
        return ReturnedNull;
      }
      fetchingDocument := Some(id);
      loading := true;
      error := None;
      start := Requested;
    }

    /** The part of `fetchDocument` after the reply: a fetched document becomes the
        open one; a failure records the error and rejects; an abort resolves with
        `null`. On every path the in-flight marker is cleared and loading ends. */
    method CompleteFetchDocument(reply: Reply<Document>) returns (result: Result<Option<Document>>)
      modifies this`currentDocument, this`documentInitialized, this`error, this`loading, this`fetchingDocument
      ensures fetchingDocument == None && !loading
      ensures reply.Done? ==>
        currentDocument == Some(reply.value) && documentInitialized == Some(reply.value.id)
        && result == Ok(Some(reply.value)) && error == old(error)
      ensures reply.Failed? ==>
        currentDocument == old(currentDocument) && documentInitialized == old(documentInitialized)
        && error == Some(reply.message) && result == Err(reply.message)
      ensures reply.Aborted? ==>
        currentDocument == old(currentDocument) && documentInitialized == old(documentInitialized)
        && error == old(error) && result == Ok(None)
    {
      match reply {
        case Done(doc) =>
          currentDocument := Some(doc);
          documentInitialized := Some(doc.id);
          result := Ok(Some(doc));
        case Failed(message) =>
          error := Some(message);
          result := Err(message);
        case Aborted =>
          result := Ok(None);
      }
      loading := false;
      fetchingDocument := None;
    }

    /** `createDocument(title?, content?)`: rejects without a user; otherwise sends
        the body and, on success, appends exactly one summary at the end of the list
        and opens the new document. */
    method CreateDocument(signedIn: bool, title: Option<string>, content: Option<string>, reply: Reply<Document>, now: int)
      returns (body: CreateBody, result: Result<Document>)
      modifies this`documents, this`currentDocument, this`isCreatingInitialDocument, this`error, this`loading
      ensures body == CreateRequest(title, content)
      ensures !signedIn ==>
        result == Err("User not authenticated") && documents == old(documents)
        && currentDocument == old(currentDocument) && error == old(error) && loading == old(loading)
        && isCreatingInitialDocument == old(isCreatingInitialDocument)
      ensures signedIn ==> !loading
      ensures signedIn && reply.Done? ==>
        documents == old(documents) + [Summary(reply.value.id, reply.value.title, reply.value.lastEdited, now)]
        && currentDocument == Some(reply.value) && !isCreatingInitialDocument && error == None
        && result == Ok(reply.value)
      ensures signedIn && reply.Failed? ==>
        documents == old(documents) && currentDocument == old(currentDocument) && !isCreatingInitialDocument
        && error == Some(reply.message) && result == Err(reply.message)
      ensures signedIn && reply.Aborted? ==>
        documents == old(documents) && currentDocument == old(currentDocument)
        && isCreatingInitialDocument == old(isCreatingInitialDocument)
        && error == None && result == Err("Request aborted")
    {
      body := CreateRequest(title, content);
      if !signedIn {
        return body, Err("User not authenticated");
      }
      loading := true;
      error := None;
      match reply {
        case Done(doc) =>
          documents := documents + [Summary(doc.id, doc.title, doc.lastEdited, now)];
          currentDocument := Some(doc);
          isCreatingInitialDocument := false;
          result := Ok(doc);
        case Failed(message) =>
          error := Some(message);
          isCreatingInitialDocument := false;
          result := Err(message);
        case Aborted =>
          result := Err("Request aborted");
      }
      loading := false;
    }

    /** `updateDocument(id, patch)`: on success the open document takes the patch
        only when it is the updated one, and the list entries with that id take the
        new title (if one was sent) and the new edit time. */
    method UpdateDocument(signedIn: bool, id: string, patch: Patch, reply: Reply<()>, now: int) returns (outcome: Outcome)
      modifies this`documents, this`currentDocument, this`error
      ensures !signedIn ==>
        outcome == Resolved && documents == old(documents)
        && currentDocument == old(currentDocument) && error == old(error)
      ensures signedIn && reply.Done? ==>
        outcome == Resolved && error == None
        && documents == UpdateSummaries(old(documents), id, patch.title, now)
        && currentDocument == (if old(currentDocument).Some? && old(currentDocument).value.id == id
                               then Some(Document(id, patch.title.GetOr(old(currentDocument).value.title),
                                                  patch.content.GetOr(old(currentDocument).value.content), now))
                               else old(currentDocument))
      ensures signedIn && reply.Failed? ==>
        outcome == Rejected(reply.message) && error == Some(reply.message)
        && documents == old(documents) && currentDocument == old(currentDocument)
      ensures signedIn && reply.Aborted? ==>
        outcome == Resolved && error == None && documents == old(documents) && currentDocument == old(currentDocument)
    {
      if !signedIn {
        return Resolved;
      }
      error := None;
      match reply {
        case Done(_) =>
          if currentDocument.Some? && currentDocument.value.id == id {
            var cur := currentDocument.value;
            currentDocument := Some(Document(id, patch.title.GetOr(cur.title), patch.content.GetOr(cur.content), now));
          }
          documents := UpdateSummaries(documents, id, patch.title, now);
          outcome := Resolved;
        case Failed(message) =>
          error := Some(message);
          outcome := Rejected(message);
        case Aborted =>
          outcome := Resolved;
      }
    }

    /** `deleteDocument(id)`: on success the entries with that id leave the list,
        the others keep their order, and the open document is closed exactly when it
        was the deleted one. */
    method DeleteDocument(signedIn: bool, id: string, reply: Reply<()>) returns (outcome: Outcome)
      modifies this`documents, this`currentDocument, this`error, this`loading
      ensures !signedIn ==>
        outcome == Resolved && documents == old(documents)
        && currentDocument == old(currentDocument) && error == old(error) && loading == old(loading)
      ensures signedIn ==> !loading
      ensures signedIn && reply.Done? ==>
        outcome == Resolved && error == None && documents == RemoveById(old(documents), id)
        && (currentDocument == None <==> old(currentDocument).None? || old(currentDocument).value.id == id)
        && (currentDocument.Some? ==> currentDocument == old(currentDocument))
      ensures signedIn && reply.Failed? ==>
        outcome == Rejected(reply.message) && error == Some(reply.message)
        && documents == old(documents) && currentDocument == old(currentDocument)
      ensures signedIn && reply.Aborted? ==>
        outcome == Resolved && error == None && documents == old(documents) && currentDocument == old(currentDocument)
    {
      if !signedIn {
        return Resolved;
      }
      loading := true;
      error := None;
      match reply {
        case Done(_) =>
          documents := RemoveById(documents, id);
          if currentDocument.Some? && currentDocument.value.id == id {
            currentDocument := None;
          }
          outcome := Resolved;
        case Failed(message) =>
          error := Some(message);
          outcome := Rejected(message);
        case Aborted =>
          outcome := Resolved;
      }
      loading := false;
    }

    /** The creation the empty-list follow-up runs: `createDocument("Untitled
        Document", "")`, whose `catch` clears the creation mark on every rejection,
        including the two (no user, an aborted request) where `createDocument`
        itself leaves the mark as it was. */
    method CreateFirstDocument(signedIn: bool, reply: Reply<Document>, now: int)
      returns (body: CreateBody, result: Result<Document>)
      modifies this`documents, this`currentDocument, this`isCreatingInitialDocument, this`error, this`loading
      ensures body == CreateBody(DefaultTitle, [])
      ensures result.Ok? <==> signedIn && reply.Done?
      ensures !isCreatingInitialDocument
      ensures result.Ok? ==>
        documents == old(documents) + [Summary(reply.value.id, reply.value.title, reply.value.lastEdited, now)]
        && currentDocument == Some(reply.value) && result.value == reply.value
      ensures result.Err? ==> documents == old(documents) && currentDocument == old(currentDocument)
      ensures signedIn ==> !loading
    {
      body, result := CreateDocument(signedIn, Some(DefaultTitle), Some([]), reply, now);
      if result.Err? {
        isCreatingInitialDocument := false;
      }
    }

    method SetCurrentDocument(doc: Option<Document>)
      modifies this`currentDocument
      ensures currentDocument == doc
    {
      currentDocument := doc;
    }
  }

  /** An empty list schedules the first document; when that creation is aborted the
      mark is cleared again, so the next empty list schedules it once more. */
  method AbortedFirstCreationIsRetried(s: Store, now: int) returns (first: FollowUp, second: FollowUp)
    requires !s.loading && !s.isCreatingInitialDocument
    modifies s
    ensures first == CreateInitialDocument && second == CreateInitialDocument
    ensures s.documents == [] && s.isCreatingInitialDocument
  {
    first := s.FetchDocuments(true, Done([]));
    var body, created := s.CreateFirstDocument(true, Aborted, now);
    second := s.FetchDocuments(true, Done([]));
  }
}
