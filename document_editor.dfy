/**
 * The editor page's own state: the title and markup being edited, the
 * whole-markup undo and redo stacks, the tracked selection, and the handlers
 * that format, undo, redo and rewrite text through the language model.
 *
 * The markup of the editable element and the `content` state are identified, so
 * a live DOM range is a pair of offsets into `content`. The handlers receive the
 * settled outcome of the server action as a parameter; `RewriteSelection`
 * composes the selection handler with `GeminiActions.TransformText`. Everything
 * the browser computes (the markup after a formatting command, `innerText`, the
 * selection) is a parameter.
 */
module DocumentEditor {
  import opened Wrappers
  import opened Strings
  import GeminiActions
  import EditorMetrics
  import DocumentStore
  import RichTextEditor

  const EmptyReplyText: string := "Failed to transform text. Please try again."
  const EmptyReplyDocument: string := "Failed to transform document. Please try again."

  function TextFailure(kind: string): string {
    "Error " + kind + "ing text. Please try again."
  }

  function DocumentFailure(kind: string): string {
    "Error " + kind + "ing document. Please try again."
  }

  /** The failure of a request and an empty reply never show the same message. */
  lemma FailureIsNotEmptyReply(kind: string)
    ensures TextFailure(kind) != EmptyReplyText
    ensures DocumentFailure(kind) != EmptyReplyDocument
  {
    assert TextFailure(kind)[0] == 'E' && EmptyReplyText[0] == 'F';
    assert DocumentFailure(kind)[0] == 'E' && EmptyReplyDocument[0] == 'F';
  }

  /* ---------------------------------------------------------------------------
   * History
   * ------------------------------------------------------------------------- */

  /** The markup and the two stacks of earlier and undone markups; the top of a
      stack is its last element. */
  datatype History = History(content: string, undo: seq<string>, redo: seq<string>)

  /** An edit that is recorded: the markup before it is pushed for undo and the
      redo stack is emptied. */
  function Record(h: History, next: string): (r: History) {
    History(next, h.undo + [h.content], [])
  }

  function Undo(h: History): (r: History) {
    if h.undo == [] then h
    else History(h.undo[|h.undo| - 1], h.undo[..|h.undo| - 1], h.redo + [h.content])
  }

  function Redo(h: History): (r: History) {
    if h.redo == [] then h
    else History(h.redo[|h.redo| - 1], h.undo + [h.content], h.redo[..|h.redo| - 1])
  }

  /** Every markup the history holds, counted with multiplicity. */
  function Snapshots(h: History): multiset<string> {
    multiset(h.undo) + multiset(h.redo) + multiset{h.content}
  }

  /** Undo and redo on an empty stack change nothing. */
  lemma EmptyStackIsNoOp(h: History)
    ensures h.undo == [] ==> Undo(h) == h
    ensures h.redo == [] ==> Redo(h) == h
  {
  }

  /** Redo cancels an undo and undo cancels a redo. */
  lemma UndoRedoInverse(h: History)
    ensures h.undo != [] ==> Redo(Undo(h)) == h
    ensures h.redo != [] ==> Undo(Redo(h)) == h
  {
    if h.undo != [] {
      assert h.undo[..|h.undo| - 1] + [h.undo[|h.undo| - 1]] == h.undo;
    }
    if h.redo != [] {
      assert h.redo[..|h.redo| - 1] + [h.redo[|h.redo| - 1]] == h.redo;
    }
  }

  /** Undo moves a markup from the undo stack to the redo stack and never loses
      or invents one. */
  lemma UndoConserves(h: History)
    ensures Snapshots(Undo(h)) == Snapshots(h)
    ensures |Undo(h).undo| + |Undo(h).redo| == |h.undo| + |h.redo|
  {
    if h.undo != [] {
      var n := |h.undo|;
      assert h.undo == h.undo[..n - 1] + [h.undo[n - 1]];
      assert multiset(h.undo) == multiset(h.undo[..n - 1]) + multiset{h.undo[n - 1]};
      assert multiset(h.redo + [h.content]) == multiset(h.redo) + multiset{h.content};
    }
  }

  /** So does redo, in the other direction. */
  lemma RedoConserves(h: History)
    ensures Snapshots(Redo(h)) == Snapshots(h)
    ensures |Redo(h).undo| + |Redo(h).redo| == |h.undo| + |h.redo|
  {
    if h.redo != [] {
      var n := |h.redo|;
      assert h.redo == h.redo[..n - 1] + [h.redo[n - 1]];
      assert multiset(h.redo) == multiset(h.redo[..n - 1]) + multiset{h.redo[n - 1]};
      assert multiset(h.undo + [h.content]) == multiset(h.undo) + multiset{h.content};
    }
  }

  /** Undoing a recorded edit brings back the markup from before it, with the
      earlier undo stack, and leaves exactly the edit to redo. */
  lemma UndoOfRecord(h: History, next: string)
    ensures Undo(Record(h, next)) == History(h.content, h.undo, [next])
    ensures Redo(Undo(Record(h, next))) == Record(h, next)
  {
    assert (h.undo + [h.content])[..|h.undo|] == h.undo;
  }

  function UndoTimes(h: History, n: nat): History
    decreases n
  {
    if n == 0 then h else UndoTimes(Undo(h), n - 1)
  }

  function RedoTimes(h: History, n: nat): History
    decreases n
  {
    if n == 0 then h else Redo(RedoTimes(h, n - 1))
  }

  /** Any number of undos, up to the depth of the undo stack, is cancelled by as
      many redos. */
  lemma {:induction false} RedoCancelsUndos(h: History, n: nat)
    requires n <= |h.undo|
    ensures RedoTimes(UndoTimes(h, n), n) == h
    decreases n
  {
    if n > 0 {
      RedoCancelsUndos(Undo(h), n - 1);
      UndoRedoInverse(h);
    }
  }

  /* ---------------------------------------------------------------------------
   * Inserting a reply into the markup
   * ------------------------------------------------------------------------- */

  /** A live range as offsets into the markup. */
  datatype LiveRange = LiveRange(start: nat, end: nat)

  /** Where the page's first selection range lies when a reply arrives: there is
      none, it lies inside the editable element (as offsets into the markup), or it
      lies elsewhere on the page, in the title input or the side panel. */
  datatype Live = NoRange | InEditor(range: LiveRange) | Elsewhere

  predicate Within(r: LiveRange, content: string) {
    r.start <= r.end <= |content|
  }

  /** `range.deleteContents(); range.insertNode(node)`: the range is replaced by
      `inserted`. */
  function Splice(content: string, r: LiveRange, inserted: string): (out: string)
    requires Within(r, content)
    ensures |out| == |content| - (r.end - r.start) + |inserted|
    ensures out[..r.start] == content[..r.start]
    ensures out[r.start..r.start + |inserted|] == inserted
    ensures out[r.start + |inserted|..] == content[r.end..]
  {
    var out := content[..r.start] + inserted + content[r.end..];
    assert out[..r.start] == content[..r.start];
    assert out[r.start..r.start + |inserted|] == inserted;
    assert out[r.start + |inserted|..] == content[r.end..];
    out
  }

  /** Splicing the removed text back over the inserted one restores the markup. */
  lemma SpliceBack(content: string, r: LiveRange, inserted: string)
    requires Within(r, content)
    ensures Within(LiveRange(r.start, r.start + |inserted|), Splice(content, r, inserted))
    ensures Splice(Splice(content, r, inserted), LiveRange(r.start, r.start + |inserted|), content[r.start..r.end])
      == content
  {
    var once := Splice(content, r, inserted);
    var back := Splice(once, LiveRange(r.start, r.start + |inserted|), content[r.start..r.end]);
    assert back == content[..r.start] + content[r.start..r.end] + content[r.end..];
    assert content == content[..r.start] + content[r.start..r.end] + content[r.end..];
  }

  /** How a text node's data appears in `innerHTML`. */
  function EscapeChar(c: char): string {
    if c == '&' then "&amp;"
    else if c == '<' then "&lt;"
    else if c == '>' then "&gt;"
    else if c == '\U{00A0}' then "&nbsp;"
    else [c]
  }

  /** The serialized form of inserted plain text: it never opens or closes a tag. */
  function EscapeText(t: string): (r: string)
    ensures |r| >= |t|
    ensures forall i :: 0 <= i < |r| ==> r[i] != '<' && r[i] != '>'
  {
    if t == [] then [] else EscapeChar(t[0]) + EscapeText(t[1..])
  }

  /** Reading the serialized text back: the four entity references are decoded. */
  function Unescape(s: string): string
    decreases |s|
  {
    if s == [] then []
    else if s[0] != '&' then [s[0]] + Unescape(s[1..])
    else if StartsWith(s, "&amp;") then "&" + Unescape(s[5..])
    else if StartsWith(s, "&lt;") then "<" + Unescape(s[4..])
    else if StartsWith(s, "&gt;") then ">" + Unescape(s[4..])
    else if StartsWith(s, "&nbsp;") then "\U{00A0}" + Unescape(s[6..])
    else [s[0]] + Unescape(s[1..])
  }

  lemma UnescapeChar(c: char, rest: string)
    ensures Unescape(EscapeChar(c) + rest) == [c] + Unescape(rest)
  {
    var e := EscapeChar(c);
    var s := e + rest;
    assert s[|e|..] == rest;
    assert s[..|e|] == e;
    if c == '&' {
      assert StartsWith(s, "&amp;");
    } else if c == '<' {
      assert s[1] == 'l';
      assert StartsWith(s, "&lt;");
    } else if c == '>' {
      assert s[1] == 'g' && s[2] == 't';
      assert StartsWith(s, "&gt;");
    } else if c == '\U{00A0}' {
      assert s[1] == 'n';
      assert StartsWith(s, "&nbsp;");
    } else {
      assert s[0] == c;
    }
  }

  /** The text a reply inserts is exactly the reply once the markup is read back. */
  lemma {:induction false} UnescapeEscape(t: string)
    ensures Unescape(EscapeText(t)) == t
  {
    if t != [] {
      UnescapeEscape(t[1..]);
      UnescapeChar(t[0], EscapeText(t[1..]));
      assert [t[0]] + t[1..] == t;
    }
  }

  /** After a reply is spliced into the markup, the markup before and after the
      range is as it was, and the spliced part reads back as the reply. */
  lemma InsertedReplyReadsBack(content: string, r: LiveRange, reply: string)
    requires Within(r, content)
    ensures var out := Splice(content, r, EscapeText(reply));
      Unescape(out[r.start..r.start + |EscapeText(reply)|]) == reply
      && out[..r.start] == content[..r.start]
      && out[r.start + |EscapeText(reply)|..] == content[r.end..]
  {
    UnescapeEscape(reply);
  }

  /* ---------------------------------------------------------------------------
   * The editor
   * ------------------------------------------------------------------------- */

  /** The tracked selection; its offsets are always recorded as 0. */
  datatype Tracked = Tracked(text: string, start: int, end: int)

  class Editor {
    var title: string
    var content: string
    var undoStack: seq<string>
    var redoStack: seq<string>
    var selection: Option<Tracked>
    var isLoading: bool
    var activeTransformation: Option<string>
    var error: Option<string>
    /** Milliseconds since the epoch. */
    var lastSaved: int
    var wordCount: nat
    var estimatedDuration: string
    /** The id of the document loaded into the editor, if any. */
    var documentInitialized: Option<string>
    var contentInitialized: bool

    function Snapshot(): History
      reads this`content, this`undoStack, this`redoStack
    {
      History(content, undoStack, redoStack)
    }

    /** A tracked selection always holds some non-whitespace text. */
    ghost predicate Valid()
      reads this`selection
    {
      selection.Some? ==> !AllWhitespace(selection.value.text) && selection.value.start == 0 && selection.value.end == 0
    }

    constructor (now: int)
      ensures title == DocumentStore.DefaultTitle && content == [] && undoStack == [] && redoStack == []
      ensures selection == None && !isLoading && activeTransformation == None && error == None
      ensures lastSaved == now && wordCount == 0 && estimatedDuration == "0:00"
      ensures documentInitialized == None && !contentInitialized
      ensures Valid()
    {
      title, content, undoStack, redoStack := DocumentStore.DefaultTitle, [], [], [];
      selection, isLoading, activeTransformation, error := None, false, None, None;
      lastSaved, wordCount, estimatedDuration := now, 0, "0:00";
      documentInitialized, contentInitialized := None, false;
    }

    /** The effect on `[currentDocument]`: a document is loaded into the editor
        once per id; an empty title shows as the default title. */
    method LoadDocument(current: Option<DocumentStore.Document>)
      modifies this`title, this`content, this`lastSaved, this`documentInitialized, this`contentInitialized
      ensures current.None? || old(documentInitialized) == Some(current.value.id) ==>
        title == old(title) && content == old(content) && lastSaved == old(lastSaved)
        && documentInitialized == old(documentInitialized) && contentInitialized == old(contentInitialized)
      ensures current.Some? && old(documentInitialized) != Some(current.value.id) ==>
        documentInitialized == Some(current.value.id)
        && title == (if current.value.title == [] then DocumentStore.DefaultTitle else current.value.title)
        && content == current.value.content && lastSaved == current.value.lastEdited
        && !contentInitialized
    {
      if current.None? {
        return;
      }
      var doc := current.value;
      if documentInitialized == Some(doc.id) {
        return;
      }
      documentInitialized := Some(doc.id);
      title := if doc.title == [] then DocumentStore.DefaultTitle else doc.title;
      content := doc.content;
      lastSaved := doc.lastEdited;
      contentInitialized := false;
    }

    /** `handleContentChange`: the debounced markup replaces `content`; typing is
        not recorded in the history. */
    method HandleContentChange(newContent: string)
      modifies this`content
      ensures content == newContent
    {
      content := newContent;
    }

    method HandleTitleChange(newTitle: string)
      modifies this`title
      ensures title == newTitle
    {
      title := newTitle;
    }

    /** `handleFormatText`: `formatted` is the markup after the browser applied the
        command. The edit is recorded only when there was markup before it. */
    method HandleFormatText(formatted: string)
      modifies this`content, this`undoStack, this`redoStack
      ensures old(content) != [] ==> Snapshot() == Record(old(Snapshot()), formatted)
      ensures old(content) == [] ==> Snapshot() == History(formatted, old(undoStack), old(redoStack))
    {
      if content != [] {
        undoStack := undoStack + [content];
        redoStack := [];
      }
      content := formatted;
    }

    method HandleUndo()
      modifies this`content, this`undoStack, this`redoStack
      ensures Snapshot() == Undo(old(Snapshot()))
    {
      if |undoStack| > 0 {
        var previous := undoStack[|undoStack| - 1];
        redoStack := redoStack + [content];
        undoStack := undoStack[..|undoStack| - 1];
        content := previous;
      }
    }

    method HandleRedo()
      modifies this`content, this`undoStack, this`redoStack
      ensures Snapshot() == Redo(old(Snapshot()))
    {
      if |redoStack| > 0 {
        var next := redoStack[|redoStack| - 1];
        undoStack := undoStack + [content];
        redoStack := redoStack[..|redoStack| - 1];
        content := next;
      }
    }

    /** `handleEditorSelectionChange`: a selection with at least one range and some
        non-whitespace text is tracked when its anchor lies in the editor and
        ignored otherwise; any other selection clears the tracked one. */
    method HandleSelectionChange(rangeCount: nat, selectedText: string, anchorInEditor: bool)
      requires Valid()
      modifies this`selection
      ensures Valid()
      ensures rangeCount == 0 || AllWhitespace(selectedText) ==> selection == None
      ensures rangeCount > 0 && !AllWhitespace(selectedText) && anchorInEditor ==>
        selection == Some(Tracked(selectedText, 0, 0))
      ensures rangeCount > 0 && !AllWhitespace(selectedText) && !anchorInEditor ==>
        selection == old(selection)
    {
      TrimEmptyIff(selectedText);
      if rangeCount > 0 && |Trim(selectedText)| > 0 {
        if anchorInEditor {
          selection := Some(Tracked(selectedText, 0, 0));
        }
      } else {
        selection := None;
      }
    }

    /** `handleTransform(kind)`, with `reply` the settled outcome of
        `transformTextWithGemini` on the selected text. Without a tracked selection
        nothing happens. Otherwise a non-empty reply replaces a live range inside
        the element as an escaped text node, recording the edit. The page's range is
        not checked to lie in the element: when it lies elsewhere the old markup is
        still pushed on the undo stack and the redo stack emptied, the reply lands
        outside the element and `content` is read back unchanged from it. An empty
        reply or a failure sets the matching message. The tracked selection is
        cleared and loading ends whatever the reply. */
    method HandleTransform(kind: string, reply: Result<string>, live: Live)
      requires Valid()
      requires live.InEditor? ==> Within(live.range, content)
      modifies this`content, this`undoStack, this`redoStack, this`selection
      modifies this`isLoading, this`activeTransformation, this`error
      ensures Valid()
      ensures old(selection).None? ==>
        Snapshot() == old(Snapshot()) && selection == None && isLoading == old(isLoading)
        && activeTransformation == old(activeTransformation) && error == old(error)
      ensures old(selection).Some? ==> selection == None && !isLoading && activeTransformation == None
      ensures old(selection).Some? && reply.Ok? && reply.value != [] && live.InEditor? ==>
        Snapshot() == Record(old(Snapshot()), Splice(old(content), live.range, EscapeText(reply.value)))
        && error == None
      ensures old(selection).Some? && reply.Ok? && reply.value != [] && live.Elsewhere? ==>
        Snapshot() == Record(old(Snapshot()), old(content)) && error == None
      ensures old(selection).Some? && reply.Ok? && reply.value != [] && live.NoRange? ==>
        Snapshot() == old(Snapshot()) && error == None
      ensures old(selection).Some? && reply.Ok? && reply.value == [] ==>
        Snapshot() == old(Snapshot()) && error == Some(EmptyReplyText)
      ensures old(selection).Some? && reply.Err? ==>
        Snapshot() == old(Snapshot()) && error == Some(TextFailure(kind))
    {
      if selection.None? {
        return;
      }
      isLoading := true;
      activeTransformation := Some(kind);
      error := None;
      match reply {
        case Ok(transformed) =>
          if transformed != [] {
            match live
            case NoRange =>
            case InEditor(r) =>
              undoStack := undoStack + [content];
              redoStack := [];
              content := Splice(content, r, EscapeText(transformed));
            case Elsewhere =>
              undoStack := undoStack + [content];
              redoStack := [];
          } else {
            error := Some(EmptyReplyText);
          }
        case Err(_) =>
          error := Some(TextFailure(kind));
      }
      isLoading := false;
      selection := None;
      activeTransformation := None;
    }

    /** `handleTransformEntireDocument(kind)`, with `reply` the settled outcome of
        `transformTextWithGemini` on the editor's `innerText`; `editorPresent` is
        whether the element is mounted. A non-empty reply becomes the whole markup,
        unescaped, recording the edit; an empty reply or a failure sets the matching
        message. The tracked selection is left as it is. */
    method HandleTransformEntireDocument(kind: string, reply: Result<string>, editorPresent: bool)
      modifies this`content, this`undoStack, this`redoStack
      modifies this`isLoading, this`activeTransformation, this`error
      ensures !editorPresent ==>
        Snapshot() == old(Snapshot()) && isLoading == old(isLoading)
        && activeTransformation == old(activeTransformation) && error == old(error)
      ensures editorPresent ==> !isLoading && activeTransformation == None
      ensures editorPresent && reply.Ok? && reply.value != [] ==>
        Snapshot() == Record(old(Snapshot()), reply.value) && error == None
      ensures editorPresent && reply.Ok? && reply.value == [] ==>
        Snapshot() == old(Snapshot()) && error == Some(EmptyReplyDocument)
      ensures editorPresent && reply.Err? ==>
        Snapshot() == old(Snapshot()) && error == Some(DocumentFailure(kind))
    {
      if !editorPresent {
        return;
      }
      isLoading := true;
      activeTransformation := Some(kind);
      error := None;
      match reply {
        case Ok(transformed) =>
          if transformed != [] {
            undoStack := undoStack + [content];
            redoStack := [];
            content := transformed;
          } else {
            error := Some(EmptyReplyDocument);
          }
        case Err(_) =>
          error := Some(DocumentFailure(kind));
      }
      isLoading := false;
      activeTransformation := None;
    }

    /** The effect on `[content]`: the word count and the spoken-duration label of
        the editor's `innerText`. */
    method UpdateMetrics(innerText: string)
      modifies this`wordCount, this`estimatedDuration
      ensures wordCount == EditorMetrics.WordCount(innerText)
      ensures estimatedDuration == EditorMetrics.DurationLabel(EditorMetrics.EstimateDuration(wordCount))
    {
      wordCount := EditorMetrics.WordCount(innerText);
      estimatedDuration := EditorMetrics.DurationLabel(EditorMetrics.EstimateDuration(wordCount));
    }
  }

  /** A later render with the same open document does not reload it: markup typed
      since the first load survives. */
  method ReloadKeepsEdits(e: Editor, doc: DocumentStore.Document, typed: string)
    modifies e
    ensures e.content == typed
    ensures e.documentInitialized == Some(doc.id)
    ensures old(e.documentInitialized) != Some(doc.id) ==>
      e.title == (if doc.title == [] then DocumentStore.DefaultTitle else doc.title)
  {
    e.LoadDocument(Some(doc));
    e.HandleContentChange(typed);
    e.LoadDocument(Some(doc));
  }

  /** Rewriting the tracked selection end to end: the selected text goes through
      the server action with the provider `ask`. Because a tracked selection is never
      blank, the failure message appears exactly when the provider rejects the
      prompt; when it answers with non-whitespace text, the live range is replaced
      by that answer trimmed and escaped. */
  method RewriteSelection(e: Editor, kind: string, ask: string -> Result<string>, live: Live)
    requires e.Valid() && e.selection.Some?
    requires live.InEditor? ==> Within(live.range, e.content)
    modifies e
    ensures e.Valid() && e.selection == None
    ensures var prompt := GeminiActions.Prompt(old(e.selection).value.text, kind);
      e.error == Some(TextFailure(kind)) <==> ask(prompt).Err?
    ensures var prompt := GeminiActions.Prompt(old(e.selection).value.text, kind);
      ask(prompt).Ok? && !AllWhitespace(ask(prompt).value) && live.InEditor? ==>
        e.content == Splice(old(e.content), live.range, EscapeText(Trim(ask(prompt).value)))
        && e.undoStack == old(e.undoStack) + [old(e.content)]
    ensures var prompt := GeminiActions.Prompt(old(e.selection).value.text, kind);
      ask(prompt).Ok? && !AllWhitespace(ask(prompt).value) && live.Elsewhere? ==>
        e.content == old(e.content) && e.undoStack == old(e.undoStack) + [old(e.content)]
        && e.redoStack == []
  {
    var text := e.selection.value.text;
    var prompt := GeminiActions.Prompt(text, kind);
    var reply := GeminiActions.TransformText(text, kind, ask);
    assert reply.Err? <==> ask(prompt).Err?;
    assert reply.Ok? ==> reply.value == Trim(ask(prompt).value);
    if ask(prompt).Ok? {
      TrimEmptyIff(ask(prompt).value);
    }
    FailureIsNotEmptyReply(kind);
    e.HandleTransform(kind, reply, live);
  }

  /** Rewriting the whole document end to end: the editor's text goes through the
      server action with the provider `ask`. Blank text fails without consulting the
      provider; otherwise the failure message appears exactly when the provider
      rejects the prompt, and an answer with non-whitespace text, trimmed, becomes
      the whole markup. */
  method RewriteDocument(e: Editor, kind: string, ask: string -> Result<string>, innerText: string)
    modifies e
    ensures var prompt := GeminiActions.Prompt(innerText, kind);
      e.error == Some(DocumentFailure(kind)) <==> AllWhitespace(innerText) || ask(prompt).Err?
    ensures var prompt := GeminiActions.Prompt(innerText, kind);
      !AllWhitespace(innerText) && ask(prompt).Ok? && !AllWhitespace(ask(prompt).value) ==>
        e.content == Trim(ask(prompt).value) && e.undoStack == old(e.undoStack) + [old(e.content)]
        && e.redoStack == []
  {
    var prompt := GeminiActions.Prompt(innerText, kind);
    var reply := GeminiActions.TransformText(innerText, kind, ask);
    assert reply.Err? <==> AllWhitespace(innerText) || ask(prompt).Err?;
    if reply.Ok? {
      TrimEmptyIff(ask(prompt).value);
    }
    FailureIsNotEmptyReply(kind);
    e.HandleTransformEntireDocument(kind, reply, true);
  }

  /** A recorded rewrite of the selection is undone by one undo, which leaves it
      as the one edit to redo. */
  method TransformThenUndo(e: Editor, kind: string, reply: Result<string>, live: LiveRange)
    requires e.Valid() && e.selection.Some? && Within(live, e.content)
    requires reply.Ok? && reply.value != []
    modifies e
    ensures e.content == old(e.content) && e.undoStack == old(e.undoStack)
    ensures e.redoStack == [Splice(old(e.content), live, EscapeText(reply.value))]
  {
    e.HandleTransform(kind, reply, InEditor(live));
    ghost var after := e.content;
    e.HandleUndo();
    UndoOfRecord(old(e.Snapshot()), after);
  }

  /** The undo handler changes `content` only: once the surface's latch is set,
      the new value does not reach the editable element, which keeps showing the
      markup from before the undo. */
  method UndoIsNotRedrawn(e: Editor, s: RichTextEditor.Surface)
    requires s.initialContentSet && e.undoStack != []
    modifies e, s
    ensures e.content == old(e.undoStack[|e.undoStack| - 1])
    ensures s.dom == old(s.dom)
  {
    e.HandleUndo();
    s.ValueChanged(e.content);
  }
}
