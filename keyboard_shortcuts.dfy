/**
 * The document-wide keydown handler: with Ctrl or Meta held, the keys b, i, u, z
 * and y (in either case) run the bold, italic, underline, undo and redo callbacks
 * and suppress the browser's default action; every other key is left alone.
 * `HandleKeyDown` is the dispatch given the value of the component's
 * `isMountedRef`; `Registration` models how the effect registering the listener
 * sets and clears that ref. Despite its name the ref is cleared by every run of
 * the effect's cleanup, which React performs whenever one of the five callbacks
 * changes identity, not only on unmount.
 */
module KeyboardShortcuts {
  import opened Wrappers
  import opened Strings

  datatype Command = Bold | Italic | Underline | Undo | Redo

  /** What one keydown event does: the callback it runs, if any, and whether it
      calls `preventDefault`. Running at most one callback is built into the type. */
  datatype Dispatch = Dispatch(callback: Option<Command>, preventDefault: bool)

  const Ignored: Dispatch := Dispatch(None, false)

  /** The lower-case key each command is bound to. */
  function KeyOf(c: Command): string {
    match c
    case Bold => "b"
    case Italic => "i"
    case Underline => "u"
    case Undo => "z"
    case Redo => "y"
  }

  /** One keydown event, with `isMounted` the ref's value when it arrives. */
  function HandleKeyDown(isMounted: bool, ctrlKey: bool, metaKey: bool, key: string): (d: Dispatch)
    ensures d.preventDefault <==> d.callback.Some?
    ensures d.callback.Some? ==> isMounted && (ctrlKey || metaKey)
    ensures d.callback.Some? ==> ToLower(key) == KeyOf(d.callback.value)
    ensures forall c :: isMounted && (ctrlKey || metaKey) && ToLower(key) == KeyOf(c) ==>
      d.callback == Some(c)
  {
    if !isMounted || !(ctrlKey || metaKey) then Ignored
    else
      match ToLower(key)
      case "b" => Dispatch(Some(Bold), true)
      case "i" => Dispatch(Some(Italic), true)
      case "u" => Dispatch(Some(Underline), true)
      case "z" => Dispatch(Some(Undo), true)
      case "y" => Dispatch(Some(Redo), true)
      case _ => Ignored
  }

  /** Each command's key, in lower or upper case, runs that command when a modifier is held. */
  lemma ShortcutRunsItsCommand(c: Command, ctrlKey: bool, metaKey: bool, upper: bool)
    requires ctrlKey || metaKey
    ensures var key := if upper then [(KeyOf(c)[0] as int - 32) as char] else KeyOf(c);
      HandleKeyDown(true, ctrlKey, metaKey, key) == Dispatch(Some(c), true)
  {
    var key := if upper then [(KeyOf(c)[0] as int - 32) as char] else KeyOf(c);
    assert ToLower(key) == KeyOf(c);
  }

  /** A callback runs only for its own key, in lower or upper case: the mapping from
      keys to commands is one-to-one. */
  lemma OnlyItsKeyRunsACommand(isMounted: bool, ctrlKey: bool, metaKey: bool, key: string, c: Command)
    requires HandleKeyDown(isMounted, ctrlKey, metaKey, key).callback == Some(c)
    ensures |key| == 1
    ensures key[0] == KeyOf(c)[0] || key[0] as int == KeyOf(c)[0] as int - 32
  {
    assert ToLower(key) == KeyOf(c);
    assert LowerChar(key[0]) == KeyOf(c)[0];
  }

  /** Without Ctrl or Meta, or once the ref is cleared, a key does nothing. */
  lemma NoModifierNoEffect(isMounted: bool, ctrlKey: bool, metaKey: bool, key: string)
    requires !isMounted || (!ctrlKey && !metaKey)
    ensures HandleKeyDown(isMounted, ctrlKey, metaKey, key) == Ignored
  {
  }

  /** The three properties of `HandleKeyDown` leave no freedom: any dispatch that
      prevents the default exactly when it runs a callback, runs one only for its
      own key with a modifier held while mounted, and runs the bound command
      whenever one is bound, is the one `HandleKeyDown` makes. */
  lemma {:induction false} DispatchIsDetermined(isMounted: bool, ctrlKey: bool, metaKey: bool, key: string, d: Dispatch)
    requires d.preventDefault <==> d.callback.Some?
    requires d.callback.Some? ==> isMounted && (ctrlKey || metaKey) && ToLower(key) == KeyOf(d.callback.value)
    requires forall c :: isMounted && (ctrlKey || metaKey) && ToLower(key) == KeyOf(c) ==> d.callback == Some(c)
    ensures d == HandleKeyDown(isMounted, ctrlKey, metaKey, key)
  {
    var h := HandleKeyDown(isMounted, ctrlKey, metaKey, key);
    if h.callback.Some? {
      assert d.callback == h.callback;
    }
  }

  /** Ctrl+S is not a shortcut: it is neither handled nor prevented. */
  lemma SaveKeyIgnored(ctrlKey: bool, metaKey: bool)
    ensures HandleKeyDown(true, ctrlKey, metaKey, "s") == Ignored
    ensures HandleKeyDown(true, ctrlKey, metaKey, "S") == Ignored
  {
    assert ToLower("s") == "s";
    assert ToLower("S") == "s";
  }

  /* ---------------------------------------------------------------------------
   * The listener's lifetime
   * ------------------------------------------------------------------------- */

  /** The component's `isMountedRef` and whether a keydown listener is registered.
      The ref lives as long as the component; listeners come and go with the runs
      of the effect on `[onBold, onItalic, onUnderline, onUndo, onRedo]`. */
  class Registration {
    var isMounted: bool
    var listening: bool

    /** The first render: `useRef(true)`, no listener yet. */
    constructor ()
      ensures isMounted && !listening
    {
      isMounted, listening := true, false;
    }

    /** The effect body as written: it adds a listener and leaves the ref as it is. */
    method Register()
      modifies this`listening
      ensures listening
    {
      listening := true;
    }

    /** The effect's cleanup, run on unmount and before every re-run of the effect:
        it clears the ref and removes the listener. */
    method Cleanup()
      modifies this`isMounted, this`listening
      ensures !isMounted && !listening
    {
      isMounted := false;
      listening := false;
    }

    /** The effect body as evidently intended: it also marks the ref as set, so a
        listener registered after a cleanup works again. */
    method RegisterIntended()
      modifies this`isMounted, this`listening
      ensures isMounted && listening
    {
      isMounted := true;
      listening := true;
    }

    /** A keydown event on the document: a command runs, with the default action
        prevented, exactly when a listener is registered, the ref is set, Ctrl or
        Meta is held and the key is that command's, in either case. */
    method KeyDown(ctrlKey: bool, metaKey: bool, key: string) returns (d: Dispatch)
      ensures d.preventDefault <==> d.callback.Some?
      ensures d.callback.Some? ==>
        listening && isMounted && (ctrlKey || metaKey) && ToLower(key) == KeyOf(d.callback.value)
      ensures forall c :: listening && isMounted && (ctrlKey || metaKey) && ToLower(key) == KeyOf(c) ==>
        d.callback == Some(c)
    {
      d := if listening then HandleKeyDown(isMounted, ctrlKey, metaKey, key) else Ignored;
    }
  }

  /** As written: Ctrl+B works after the first effect run, but once the parent
      passes new callbacks (the editor page passes fresh arrow functions on every
      render) the cleanup clears the ref for good and Ctrl+B is ignored, its
      default action not prevented. */
  method ReRenderSilencesShortcuts() returns (before: Dispatch, after: Dispatch)
    ensures before == Dispatch(Some(Bold), true)
    ensures after == Ignored
  {
    var r := new Registration();
    r.Register();
    ShortcutRunsItsCommand(Bold, true, false, false);
    before := r.KeyDown(true, false, "b");
    assert ToLower("b") == KeyOf(Bold);
    r.Cleanup();
    r.Register();
    after := r.KeyDown(true, false, "B");
  }

  /** As intended: with the ref set by the effect body, a re-run of the effect
      leaves every key dispatching exactly as on the first run, and only after the
      final cleanup does the component ignore keys. */
  method ReRenderKeepsShortcuts(ctrlKey: bool, metaKey: bool, key: string)
    returns (before: Dispatch, after: Dispatch, unmounted: Dispatch)
    ensures before == after == HandleKeyDown(true, ctrlKey, metaKey, key)
    ensures unmounted == Ignored
  {
    var r := new Registration();
    r.RegisterIntended();
    before := r.KeyDown(ctrlKey, metaKey, key);
    DispatchIsDetermined(true, ctrlKey, metaKey, key, before);
    r.Cleanup();
    r.RegisterIntended();
    after := r.KeyDown(ctrlKey, metaKey, key);
    DispatchIsDetermined(true, ctrlKey, metaKey, key, after);
    r.Cleanup();
    unmounted := r.KeyDown(ctrlKey, metaKey, key);
  }
}
