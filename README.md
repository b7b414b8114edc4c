# Document editor with language-model rewriting — a Dafny model

This project models the client-side core of a collaborative-style document
editor written in TypeScript with Next.js and React. A signed-in user edits
rich text in a content-editable surface, formats it, undoes and redoes whole
markup snapshots, and asks a language model (Gemini) to enhance, expand,
simplify, summarize, rewrite or follow a command on either the selected text or
the whole document. A document store keeps the user's list of documents and the
open document in step with a REST API, and a request middleware decides which
pages need a session.

The model has one module per source file:

- `GeminiActions` (`app/actions/gemini-actions.ts`): the prompt built for each
  transformation kind, the embedded text recoverable from every prompt, and the
  server action's outcome given the model's reply, passed in as a function `ask`.
- `Middleware` (`middleware.ts`): the redirect decision from the environment, the
  path and the token's verdict.
- `KeyboardShortcuts` (`components/keyboard-shortcuts.tsx`): the keydown dispatch,
  and the listener's lifetime as a class holding the component's `isMountedRef`
  and whether a listener is registered.
- `StatusIndicator` (`components/status-indicator.tsx`): the save badge's status
  machine (a class with the one state field) and its rendering.
- `RichTextEditor` (`components/rich-text-editor.tsx`): the surface as a class
  whose fields are the element's markup, the initial-content latch, the input
  guard, the mounted flag and the pending debounced delivery.
- `EditorMetrics` (`components/document-editor.tsx`, word count, duration and
  relative-date helpers): word splitting by JavaScript's `\s`, the 150-words-per-
  minute estimate and the "Edited ... ago" buckets.
- `DocumentEditor` (`components/document-editor.tsx`): the editor page as a class
  holding title, markup, undo and redo stacks, the tracked selection and the
  status fields; the history as a value with `Undo`, `Redo` and `Record`; the
  splice of an escaped reply into the markup.
- `DocumentStore` (`app/context/document-context.tsx`): the store as a class with
  the list, the open document and the request flags, and the pure list transforms
  its handlers apply.
- `Strings` and `Wrappers`: JavaScript string semantics used by the above
  (`trim` and its whitespace set, `startsWith`, `includes`, `substring`,
  ASCII `toLowerCase`, decimal printing) and `Option`/`Result`.

Network replies, the browser's computations (`innerText`, the markup after
`document.execCommand`, the selection and its live range) and the clock are
parameters. Each request is one atomic step whose reply is a parameter: the
editor's transformation handlers take the settled outcome of the server action,
and `RewriteSelection` and `RewriteDocument` compose them with
`GeminiActions.TransformText` to state the end-to-end behaviour; fetching
one document is split into the step that issues it and the step that handles its
reply, so that the in-flight marker between the two is part of the model. The
editable element's markup is identified with the `content` state in
`DocumentEditor`, and a live range is a pair of offsets into it.

Three consequences of the code as written are proved. First, the middleware's
public-path test treats every path as public (see Findings). Second, the
keyboard shortcuts stop working after the editor page's first re-render, because
the listener effect's cleanup clears a ref that nothing sets again (see
Findings). Third, undo and
redo only change `content`: once the surface has taken its initial value, a new
`value` does not reach the element, so the element keeps showing the markup
from before the undo (`DocumentEditor.UndoIsNotRedrawn`).

## Model

| member | source | states |
|---|---|---|
| GeminiActions.PromptRoundTrip | app/actions/gemini-actions.ts:26-80 | the text embedded in every prompt, of every kind, is recovered exactly from the prompt |
| GeminiActions.QuotedPromptShape | app/actions/gemini-actions.ts:27-65 | each of the five quoting kinds yields instruction, blank line, the text in double quotes, blank line, and a closing line starting "Provide only " |
| GeminiActions.CommandPromptShape | app/actions/gemini-actions.ts:67-72 | a command prompt starts with the text itself and continues with the fixed "Respond directly" trailer |
| GeminiActions.UnknownKindFallsBack | app/actions/gemini-actions.ts:74-79 | any other kind gets the "Improve the following text:" prompt with the improved-text closing line |
| GeminiActions.TransformText | app/actions/gemini-actions.ts:11-95 | succeeds exactly when the text is not blank and the model replies; the result is the trimmed reply with no whitespace at either end; blank text fails with the wrapped "No text provided for transformation"; every failure message starts with "Failed to <kind> text with Gemini: " |
| GeminiActions.BlankTextNeverAsks | app/actions/gemini-actions.ts:13-16 | for blank text the outcome does not depend on the model at all and is a failure |
| GeminiActions.OnlyThePromptMatters | app/actions/gemini-actions.ts:85-90 | the outcome depends on the model only through its reply to this one prompt |
| Strings.TrimShape | app/actions/gemini-actions.ts:90 | the trimmed reply is a contiguous slice of the reply with only whitespace cut from both ends, and it neither starts nor ends with whitespace |
| Strings.TrimEmptyIff | app/actions/gemini-actions.ts:13 | `text.trim() === ""` holds exactly when every character is JavaScript whitespace |
| Middleware.PublicIffRooted | middleware.ts:18-21 | a path counts as public exactly when it starts with "/" |
| Middleware.DecisionTable | middleware.ts:5-35 | the whole decision: development passes everything; in production only a path not starting with "/" without a session goes to "/login", only an authenticated request for exactly "/login" or "/register" goes to "/editor", all else passes |
| Middleware.RootedPathsNeverRedirectToLogin | middleware.ts:24-27 | no path starting with "/" is ever redirected to "/login" |
| Middleware.EditorRedirectExactly | middleware.ts:29-32 | a production request is sent to "/editor" exactly when it is authenticated and its path is "/login" or "/register" |
| Middleware.EditorReachableWithoutLogin | middleware.ts:18-27 | an unauthenticated production request for "/editor" passes through |
| Middleware.IntendedPublicIff | middleware.ts:18-21 | with "/" matched only exactly, a path is public exactly when it is "/" or starts with "/login" or "/register" |
| Middleware.IntendedProtectsOtherPaths | middleware.ts:18-27 | with that test an unauthenticated request is redirected to "/login" exactly for the other paths, "/editor" among them |
| KeyboardShortcuts.HandleKeyDown | components/keyboard-shortcuts.tsx:17-47 | the default action is prevented exactly when a callback runs; a callback runs only while `isMountedRef` is set and Ctrl or Meta is held, and only for its own key in either case; under those conditions the bound command of the key always runs |
| KeyboardShortcuts.DispatchIsDetermined | components/keyboard-shortcuts.tsx:17-47 | those three properties determine the dispatch: any dispatch satisfying them is the one the handler makes |
| KeyboardShortcuts.ShortcutRunsItsCommand | components/keyboard-shortcuts.tsx:21-45 | b, i, u, z, y in either case with a modifier run bold, italic, underline, undo, redo |
| KeyboardShortcuts.OnlyItsKeyRunsACommand | components/keyboard-shortcuts.tsx:24-45 | a command runs only for its own single-character key, lower or upper case |
| KeyboardShortcuts.NoModifierNoEffect | components/keyboard-shortcuts.tsx:18-23 | without Ctrl or Meta, or once `isMountedRef` is cleared, a key does nothing |
| KeyboardShortcuts.SaveKeyIgnored | components/keyboard-shortcuts.tsx:24-45 | Ctrl+S is neither handled nor prevented |
| KeyboardShortcuts.Registration.constructor | components/keyboard-shortcuts.tsx:14 | the ref starts set, with no listener registered |
| KeyboardShortcuts.Registration.Register | components/keyboard-shortcuts.tsx:16-49 | the effect body registers a listener and leaves the ref as it is |
| KeyboardShortcuts.Registration.Cleanup | components/keyboard-shortcuts.tsx:51-55 | the cleanup, run on unmount and before every re-run of the effect, clears the ref and removes the listener |
| KeyboardShortcuts.Registration.KeyDown | components/keyboard-shortcuts.tsx:17-49 | a command runs, with the default prevented, exactly when a listener is registered, the ref is set, Ctrl or Meta is held and the key is that command's own in either case; otherwise the event is left alone |
| KeyboardShortcuts.ReRenderSilencesShortcuts | components/keyboard-shortcuts.tsx:14-55 | Ctrl+B runs bold after the first effect run, and after one cleanup and re-registration it is ignored and not prevented |
| KeyboardShortcuts.Registration.RegisterIntended | components/keyboard-shortcuts.tsx:16-49 | the corrected effect body sets the ref as well as registering the listener |
| KeyboardShortcuts.ReRenderKeepsShortcuts | components/keyboard-shortcuts.tsx:14-55 | with the corrected body, every key dispatches the same before and after a re-run of the effect, and nothing is dispatched after the final cleanup |
| StatusIndicator.NextStatusCases | components/status-indicator.tsx:26-32 | saving wins; a known last-saved time with nothing saving gives "saved"; otherwise the status stays |
| StatusIndicator.UnsavedUnreachable | components/status-indicator.tsx:11-32 | from any status other than "unsaved", no sequence of prop changes reaches "unsaved" |
| StatusIndicator.Render | components/status-indicator.tsx:34-51 | nothing is rendered exactly when there is no last-saved time |
| StatusIndicator.NeverShowsUnsaved | components/status-indicator.tsx:11-51 | starting from "saved", the badge never reads "Unsaved changes" |
| StatusIndicator.Indicator.Update | components/status-indicator.tsx:26-32 | one run of the effect moves the status by the transition above and keeps it away from "unsaved" |
| RichTextEditor.IdenticalNeverUnrelated | components/rich-text-editor.tsx:43-57 | a value equal to the markup never clears the latch |
| RichTextEditor.ExtensionNeverUnrelated | components/rich-text-editor.tsx:43-57 | neither does a value that extends the markup or that the markup extends |
| RichTextEditor.Surface.InitialContentEffect | components/rich-text-editor.tsx:31-40 | a non-empty value is written into the element only while the latch is clear, and the write sets the latch |
| RichTextEditor.Surface.ResetEffect | components/rich-text-editor.tsx:43-57 | the latch is cleared exactly when value and markup are both non-empty and neither contains the other's first 50 characters |
| RichTextEditor.Surface.ValueChanged | components/rich-text-editor.tsx:31-57 | the two effects in order: the markup changes only by a write, and a write is never undone by the reset check |
| RichTextEditor.Surface.HandleInput | components/rich-text-editor.tsx:82-105 | input is dropped after teardown or while a delivery is pending; otherwise the markup at that moment is scheduled and the guard held, or released again on an exception |
| RichTextEditor.Surface.DebounceFires | components/rich-text-editor.tsx:90-95 | while mounted the snapshot taken at input time is delivered and the guard released; after teardown nothing is delivered |
| RichTextEditor.Surface.UserEdits | components/rich-text-editor.tsx:108-115 | the user's edit becomes the element's markup |
| RichTextEditor.Surface.SelectionChanged | components/rich-text-editor.tsx:59-79 | the selection callback fires exactly when one is given, the surface is mounted, the element is present, there is a selection range and the first range's common ancestor is inside the element |
| RichTextEditor.Surface.Unmount | components/rich-text-editor.tsx:24-28 | the mount effect's cleanup clears the mounted flag, keeping the guard invariant |
| RichTextEditor.NothingReportedAfterUnmount | components/rich-text-editor.tsx:24-28 | after unmount no selection change is reported and a pending delivery is dropped |
| RichTextEditor.TypingDuringDebounce | components/rich-text-editor.tsx:82-105 | typing while a delivery is pending is not reported: the first snapshot is what reaches `onChange` |
| EditorMetrics.SplitWhitespace | components/document-editor.tsx:454 | `split(/\s+/)` gives at least one part and no part holds whitespace |
| EditorMetrics.WordsCoverText | components/document-editor.tsx:453-455 | the counted words, concatenated, are the text with its whitespace removed |
| EditorMetrics.NoWordsIffBlank | components/document-editor.tsx:453-455 | the word count is 0 exactly when the text is all whitespace |
| EditorMetrics.WordsOfJoinedWords | components/document-editor.tsx:453-455 | words joined by single spaces split back into the same words |
| EditorMetrics.WordCountIsWordStarts | components/document-editor.tsx:453-455 | the word count equals the number of positions where a non-whitespace character follows whitespace or starts the text, however the words are spaced |
| EditorMetrics.DoubleSpaceSeparatesTwoWords | components/document-editor.tsx:453-455 | "ab  c" counts two words |
| EditorMetrics.EstimateDuration | components/document-editor.tsx:457-459 | seconds stay below 60 and the duration in seconds is the floor of words at 150 per minute |
| EditorMetrics.DurationLabelReadsBack | components/document-editor.tsx:460 | the label is the minutes, a colon and exactly two digits that read back as the seconds |
| EditorMetrics.AgeOf | components/document-editor.tsx:704-729 | the bucket for each range of the time difference, and a count that is the floor of the difference in the bucket's unit |
| EditorMetrics.PluralExactlyWhenCountIsNotOne | components/document-editor.tsx:714-729 | a relative age ends in "s ago" exactly when its count is not 1 |
| DocumentEditor.EmptyStackIsNoOp | components/document-editor.tsx:422-447 | undo with an empty undo stack and redo with an empty redo stack change nothing |
| DocumentEditor.UndoRedoInverse | components/document-editor.tsx:422-447 | redo cancels an undo and undo cancels a redo |
| DocumentEditor.UndoConserves | components/document-editor.tsx:422-433 | undo neither loses nor invents a markup snapshot and keeps the total depth of the two stacks |
| DocumentEditor.RedoConserves | components/document-editor.tsx:436-447 | the same for redo |
| DocumentEditor.UndoOfRecord | components/document-editor.tsx:401-433 | undoing a recorded edit restores the markup and undo stack from before it and leaves just that edit to redo |
| DocumentEditor.RedoCancelsUndos | components/document-editor.tsx:422-447 | any number of undos up to the undo depth is cancelled by as many redos |
| DocumentEditor.Splice | components/document-editor.tsx:615-621 | the inserted text sits where the range began and the markup before and after the range is unchanged |
| DocumentEditor.SpliceBack | components/document-editor.tsx:615-621 | splicing the removed text back over the inserted text restores the markup |
| DocumentEditor.EscapeText | components/document-editor.tsx:619-628 | a reply inserted as a text node never contributes a `<` or `>` to the markup |
| DocumentEditor.UnescapeEscape | components/document-editor.tsx:619-628 | the serialized text node reads back as the reply exactly |
| DocumentEditor.InsertedReplyReadsBack | components/document-editor.tsx:607-629 | after a rewrite the spliced part of the markup reads back as the reply and the rest is unchanged |
| DocumentEditor.Editor.constructor | components/document-editor.tsx:137-169 | the initial title, empty markup and stacks, no selection, error or running transformation |
| DocumentEditor.Editor.LoadDocument | components/document-editor.tsx:203-221 | a document is loaded once per id, with an empty title shown as "Untitled Document" |
| DocumentEditor.Editor.HandleContentChange | components/document-editor.tsx:242-247 | a delivered markup replaces `content` without touching the history |
| DocumentEditor.Editor.HandleTitleChange | components/document-editor.tsx:267-270 | the typed title replaces the title |
| DocumentEditor.Editor.HandleFormatText | components/document-editor.tsx:401-419 | formatting is recorded in the history exactly when there was markup before it |
| DocumentEditor.Editor.HandleUndo | components/document-editor.tsx:422-433 | the history after the handler is `Undo` of the history before |
| DocumentEditor.Editor.HandleRedo | components/document-editor.tsx:436-447 | the history after the handler is `Redo` of the history before |
| DocumentEditor.Editor.HandleSelectionChange | components/document-editor.tsx:380-398 | a non-blank selection anchored in the editor is tracked with offsets 0, one anchored elsewhere is ignored, and any other selection clears the tracked one; a tracked selection is never blank |
| DocumentEditor.Editor.HandleTransform | components/document-editor.tsx:584-649 | given the settled reply: without a selection nothing happens; otherwise a non-empty reply replaces a live range inside the element as escaped text and is recorded in the history; a live range elsewhere on the page, which is not checked against the element, still records the unchanged markup in the history and empties the redo stack; an empty reply sets "Failed to transform text. Please try again.", a rejection sets "Error <kind>ing text. Please try again." and leaves the markup; selection, loading and the running kind are cleared |
| DocumentEditor.FailureIsNotEmptyReply | components/document-editor.tsx:631-639 | the rejection message and the empty-reply message are never the same, for the selection and for the whole document |
| DocumentEditor.RewriteSelection | components/document-editor.tsx:584-649 | end to end through the server action: since a tracked selection is never blank, the rejection message appears exactly when the provider rejects the prompt, and an answer with non-whitespace text replaces a live range inside the element trimmed and escaped, pushing the old markup on the undo stack, while with the range outside the element it leaves the markup, pushes it on the undo stack and empties the redo stack |
| DocumentEditor.Editor.HandleTransformEntireDocument | components/document-editor.tsx:652-701 | given the settled reply: nothing happens without the element; a non-empty reply becomes the whole markup and is recorded in the history; an empty reply or a rejection sets its document message and leaves the markup; loading and the running kind are cleared |
| DocumentEditor.RewriteDocument | components/document-editor.tsx:652-701 | end to end through the server action: the rejection message appears exactly when the editor's text is blank or the provider rejects the prompt, and an answer with non-whitespace text, trimmed, becomes the whole markup with the old one on the undo stack and the redo stack emptied |
| DocumentEditor.Editor.UpdateMetrics | components/document-editor.tsx:450-461 | word count and duration label follow the editor's text |
| DocumentEditor.ReloadKeepsEdits | components/document-editor.tsx:203-221 | rendering again with the same open document keeps the markup typed since it was loaded |
| DocumentEditor.TransformThenUndo | components/document-editor.tsx:584-649 | one undo after a recorded rewrite restores the markup and undo stack from before it, with one redo available |
| DocumentEditor.UndoIsNotRedrawn | components/document-editor.tsx:422-433 | after an undo the state holds the previous markup while the editable element keeps the old one |
| DocumentStore.UpdateSummaries | app/context/document-context.tsx:339-349 | entries with the id take the sent title (if any) and the new edit time, every other entry is unchanged, and the length is kept |
| DocumentStore.UpdateKeepsIds | app/context/document-context.tsx:339-349 | an update keeps the ids in order, and repeating it changes nothing |
| DocumentStore.RemoveById | app/context/document-context.tsx:395 | no survivor has the id, every other entry survives, and nothing is added |
| DocumentStore.RemoveKeepsOrder | app/context/document-context.tsx:395 | the survivors keep their relative order |
| DocumentStore.RemoveAbsentOrRepeated | app/context/document-context.tsx:395 | deleting an absent id changes nothing, and deleting twice is deleting once |
| DocumentStore.MostRecent | app/context/document-context.tsx:107-116 | the document picked after sorting newest first has the greatest edit time and every earlier entry is strictly older |
| DocumentStore.CreateRequest | app/context/document-context.tsx:216-236 | an omitted title is sent as "Untitled Document" and omitted content as empty |
| DocumentStore.Store.constructor | app/context/document-context.tsx:39-49 | an empty list, no open document, no error, and every flag clear |
| DocumentStore.Store.UserChanged | app/context/document-context.tsx:62-70 | the first sign-in starts the list fetch exactly once; a sign-out empties the list and closes the open document |
| DocumentStore.Store.FetchDocuments | app/context/document-context.tsx:72-151 | nothing without a user or while loading; a loaded list replaces the old one and schedules loading the most recent document when none is open, or creating a first one when the list is empty and none is being created; a failure records its message; loading always ends |
| DocumentStore.Store.BeginFetchDocument | app/context/document-context.tsx:153-164 | the open document is returned as it is for its own id, a second request for an id in flight returns null, and otherwise the id is marked in flight |
| DocumentStore.Store.CompleteFetchDocument | app/context/document-context.tsx:166-213 | a fetched document becomes the open one, a failure records and rethrows its message, an abort resolves with null; the in-flight mark and loading are always cleared |
| DocumentStore.Store.CreateDocument | app/context/document-context.tsx:216-289 | without a user it rejects with "User not authenticated" and changes nothing; on success exactly one summary is appended and the new document opened; an abort rejects with "Request aborted" without recording an error |
| DocumentStore.Store.UpdateDocument | app/context/document-context.tsx:291-365 | on success the open document takes the patch only when it is the updated one and the list is updated as above; a failure records and rethrows; an abort resolves |
| DocumentStore.Store.CreateFirstDocument | app/context/document-context.tsx:119-129 | the empty-list follow-up sends "Untitled Document" with empty content; on success it appends and opens the new document; every rejection, an abort or a missing user included, leaves the creation mark cleared |
| DocumentStore.AbortedFirstCreationIsRetried | app/context/document-context.tsx:119-129 | after an aborted first creation the next empty list schedules the creation again |
| DocumentStore.Store.SetCurrentDocument | app/context/document-context.tsx:40 | the exposed setter replaces the open document |
| DocumentStore.Store.DeleteDocument | app/context/document-context.tsx:367-420 | on success the id leaves the list and the open document is closed exactly when it was the deleted one; a failure records and rethrows; an abort resolves |

## Left out

- The unmount guards (`isMountedRef`) of the editor page and the store are not modelled: every handler runs as if mounted. The surface keeps its guard as `mounted`, and the keyboard handler keeps its ref as `Registration.isMounted`.
- RichTextEditor.Unrelated: JavaScript's `substring(0, 50)` and `length` count UTF-16 code units, while a Dafny string holds Unicode scalar values; for text with characters outside the Basic Multilingual Plane the compared 50-character prefixes differ, and JavaScript can split a surrogate pair. `Strings.Take` counts scalar values.
- `AbortController` cancellation between concurrent requests and every interleaving of asynchronous steps: each request is one atomic step and an abort is one of its possible replies.
- The delays (`setTimeout`) before a follow-up fetch or creation and of the surface's debounce: the follow-up is returned as `FollowUp`, the debounce is the separate step `DebounceFires`.
- `document.execCommand`, `innerText`, `window.getSelection` and the DOM tree: their results are parameters; deleting a live range is a splice of the markup string, not an edit of a node tree.
- DocumentEditor.Editor.HandleTransformEntireDocument: whether the editable element exists is the parameter `editorPresent`; `RewriteDocument` takes it as present.
- DocumentEditor.Editor.HandleTransform: the live range is offsets into `content`, which the source reads from the element and which can differ from `content` until the debounced change arrives; a range is either wholly inside the element or wholly elsewhere, so a range straddling the element's boundary is not modelled.
- Gemini's client, model choice and API key: the reply is the function `ask`; the `String(error)` form of a non-`Error` rejection is folded into the message.
- `toLocaleDateString` for ages of a week or more: `FormatDate` returns `None` there.
- KeyboardShortcuts.HandleKeyDown: `toLowerCase` is modelled for ASCII letters only; the bound keys are ASCII.
- The cleanup function that `handleInput` returns is discarded by React's event system and is not modelled.
- The `onClick` and `onKeyUp` handlers of the surface call the selection callback without the container filter; `Surface.SelectionChanged` models only the document listener.
- Dates are integers in milliseconds; invalid dates (`NaN`) are not modelled, and the separate `new Date()` calls of one handler are one `now`.
- The editor page's document-id fetch effect, `handleSave`, `handleCreateDocument`, `handleDeleteDocument`, `handleLogout`, the PDF download and the rendering are not modelled; neither is `testCreateDocument`.
- Server routes, database models, authentication and JWT verification are not part of this model; the middleware receives the token's verdict as `authenticated`.

## Findings

| source | as written | input that shows it | evidently intended | confidence | as-written member | corrected member |
|---|---|---|---|---|---|---|
| middleware.ts:18-21 | "/" is in the public list and paths are matched by `startsWith`, so every path starting with "/" is public and the redirect to "/login" never fires | an unauthenticated production request for "/editor" | "/" public only as itself, so protected pages send unauthenticated users to "/login" | high, not executed | Middleware.EditorReachableWithoutLogin | Middleware.IntendedProtectsOtherPaths |
| components/keyboard-shortcuts.tsx:51-55 | the effect's cleanup sets `isMountedRef.current = false` and runs before every re-run of the effect on the five callbacks, while nothing sets the ref back; the editor page passes fresh arrow functions on every render (components/document-editor.tsx:1227-1229), so after its first re-render every shortcut is ignored | the editor page re-renders after a keystroke, then the user presses Ctrl+B | the shortcuts keep working for as long as the component is mounted: the effect body sets the ref, or the ref is cleared only on unmount | high, not executed | KeyboardShortcuts.ReRenderSilencesShortcuts | KeyboardShortcuts.ReRenderKeepsShortcuts |
