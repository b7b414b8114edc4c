/**
 * The editable surface: a content-editable element whose markup (`dom`) is
 * written from the `value` prop at most once per "document", guarded by the
 * `initialContentSet` latch, and whose input events are reported back through a
 * debounced `onChange`, guarded against re-entry by `isUpdating`.
 */
module RichTextEditor {
  import opened Wrappers
  import opened Strings

  /** How many leading characters the reset heuristic compares. */
  const PrefixLength: nat := 50

  /** The reset heuristic: both strings are non-empty and neither contains the
      other's first 50 characters, which the source takes to mean "a different
      document was loaded". */
  predicate Unrelated(dom: string, value: string) {
    |dom| > 0 && |value| > 0
    && !Contains(dom, Take(value, PrefixLength))
    && !Contains(value, Take(dom, PrefixLength))
  }

  /** A value identical to the markup never counts as a different document. */
  lemma IdenticalNeverUnrelated(s: string)
    ensures !Unrelated(s, s)
  {
    ContainsOwnPrefix(s, |Take(s, PrefixLength)|);
  }

  /** Neither does a value that extends the markup (or that the markup extends):
      typing at the end of the document never resets the latch. */
  lemma ExtensionNeverUnrelated(s: string, more: string)
    ensures !Unrelated(s, s + more) && !Unrelated(s + more, s)
  {
    var n := |Take(s, PrefixLength)|;
    assert Take(s, PrefixLength) == (s + more)[..n];
    ContainsOwnPrefix(s + more, n);
  }

  class Surface {
    /** `editorRef.current.innerHTML`. */
    var dom: string
    var initialContentSet: bool
    var isUpdating: bool
    var mounted: bool
    /** The markup snapshot a pending debounce timer will hand to `onChange`. */
    var pending: Option<string>

    /** The input guard is held exactly while a delivery is pending, except that a
        timer firing after teardown consumes the delivery and leaves the guard set. */
    ghost predicate Valid()
      reads this
    {
      (pending.Some? ==> isUpdating) && (isUpdating && mounted ==> pending.Some?)
    }

    constructor ()
      ensures dom == [] && !initialContentSet && !isUpdating && mounted && pending == None
      ensures Valid()
    {
      dom, initialContentSet, isUpdating, mounted, pending := [], false, false, true, None;
    }

    /** The first effect on `[value]`: write a non-empty value into the markup
        unless the latch is already set, and set the latch. */
    method InitialContentEffect(value: string)
      modifies this`dom, this`initialContentSet
      ensures value != [] && !old(initialContentSet) ==> dom == value && initialContentSet
      ensures !(value != [] && !old(initialContentSet)) ==>
        dom == old(dom) && initialContentSet == old(initialContentSet)
    {
      if value != [] && !initialContentSet {
        dom := value;
        initialContentSet := true;
      }
    }

    /** The second effect on `[value]`: clear the latch when value and markup look
        like different documents. */
    method ResetEffect(value: string)
      modifies this`initialContentSet
      ensures initialContentSet == (old(initialContentSet) && !Unrelated(dom, value))
    {
      if value != [] && initialContentSet {
        var current := dom;
        if |current| > 0 && |value| > 0
           && !Contains(current, Take(value, PrefixLength))
           && !Contains(value, Take(current, PrefixLength))
        {
          initialContentSet := false;
        }
      }
    }

    /** A change of the `value` prop runs both effects in declaration order. The
        markup is rewritten only for a non-empty value while the latch is clear; a
        write sets the latch, and the reset check right after it never clears it
        again because the markup then equals the value. */
    method ValueChanged(value: string)
      modifies this`dom, this`initialContentSet
      ensures var writes := value != [] && !old(initialContentSet);
        dom == (if writes then value else old(dom))
        && initialContentSet == (writes || (old(initialContentSet) && !Unrelated(old(dom), value)))
    {
      InitialContentEffect(value);
      if dom == value {
        IdenticalNeverUnrelated(value);
      }
      ResetEffect(value);
    }

    /** The user edits the element: the browser changes the markup in place. */
    method UserEdits(newDom: string)
      modifies this`dom
      ensures dom == newDom
    {
      dom := newDom;
    }

    /** `handleInput`: ignored after teardown or while a delivery is pending;
        otherwise takes the guard and schedules delivery of the markup as it is now.
        `throws` stands for an exception inside the `try`, after which the guard is
        released again and nothing is scheduled. */
    method HandleInput(throws: bool)
      requires Valid()
      modifies this`isUpdating, this`pending
      ensures Valid()
      ensures old(!mounted || isUpdating) ==> isUpdating == old(isUpdating) && pending == old(pending)
      ensures old(mounted && !isUpdating) && throws ==> !isUpdating && pending == None
      ensures old(mounted && !isUpdating) && !throws ==> isUpdating && pending == Some(dom)
    {
      if !mounted || isUpdating {
        return;
      }
      isUpdating := true;
      if throws {
        isUpdating := false;
      } else {
        pending := Some(dom);
      }
    }

    /** The debounce timer fires: while mounted it delivers the snapshot taken at
        input time (not the markup as it is now) and releases the guard; after
        teardown it delivers nothing. */
    method DebounceFires() returns (delivered: Option<string>)
      requires Valid()
      modifies this`isUpdating, this`pending
      ensures Valid()
      ensures delivered == (if mounted then old(pending) else None)
      ensures pending == None
      ensures isUpdating == (old(isUpdating) && !(mounted && old(pending).Some?))
    {
      delivered := None;
      if pending.Some? && mounted {
        delivered := pending;
        isUpdating := false;
      }
      pending := None;
    }

    /** The document's `selectionchange` listener, registered while a selection
        callback is given: the callback fires only while mounted, with the element
        present, when there is a selection range and the first range's common
        ancestor lies inside the element. `rangeCount` is 0 when the browser
        reports no selection at all. */
    method SelectionChanged(callbackGiven: bool, editorPresent: bool, rangeCount: nat, ancestorInEditor: bool)
      returns (fires: bool)
      ensures fires <==> callbackGiven && mounted && editorPresent && rangeCount > 0 && ancestorInEditor
    {
      fires := false;
      if !callbackGiven || !mounted || !editorPresent {
        return;
      }
      if rangeCount > 0 && ancestorInEditor {
        fires := true;
      }
    }

    /** The cleanup of the mount effect, which runs only on unmount. */
    method Unmount()
      requires Valid()
      modifies this`mounted
      ensures !mounted && Valid()
    {
      mounted := false;
    }
  }

  /** Once the surface is unmounted no selection change is reported, whatever the
      selection, and a pending delivery is dropped. */
  method NothingReportedAfterUnmount(s: Surface, callbackGiven: bool, editorPresent: bool, rangeCount: nat, ancestorInEditor: bool)
    returns (fires: bool, delivered: Option<string>)
    requires s.Valid()
    modifies s
    ensures !fires && delivered == None
  {
    s.Unmount();
    fires := s.SelectionChanged(callbackGiven, editorPresent, rangeCount, ancestorInEditor);
    delivered := s.DebounceFires();
  }

  /** An input while the guard is held is dropped: the snapshot taken at the first
      input is what reaches `onChange`, even though the markup changed since. */
  method TypingDuringDebounce(s: Surface, typed: string) returns (delivered: Option<string>)
    requires s.Valid() && s.mounted && !s.isUpdating
    modifies s
    ensures s.Valid() && !s.isUpdating && s.dom == typed
    ensures delivered == Some(old(s.dom))
  {
    s.HandleInput(false);
    s.UserEdits(typed);
    s.HandleInput(false);
    delivered := s.DebounceFires();
  }
}
