/**
 * The save-status badge: a three-valued `status` kept by an effect that runs
 * whenever `isSaving` or `lastSaved` changes, rendered only when a last-saved
 * time is known.
 */
module StatusIndicator {
  import opened Wrappers

  datatype Status = Saved | Saving | Unsaved

  /** The status after the effect runs once. */
  function NextStatus(status: Status, isSaving: bool, hasLastSaved: bool): (next: Status) {
    if isSaving then Saving
    else if hasLastSaved then Saved
    else status
  }

  /** One run of the effect: the props it sees. */
  datatype Props = Props(isSaving: bool, hasLastSaved: bool)

  /** The status after the effect has run for each of `history`, in order. */
  function Run(status: Status, history: seq<Props>): Status
    decreases |history|
  {
    if history == [] then status
    else Run(NextStatus(status, history[0].isSaving, history[0].hasLastSaved), history[1..])
  }

  /** `isSaving` decides the status whatever `lastSaved` is; a known `lastSaved`
      with nothing saving gives "saved"; with neither the status stays. */
  lemma NextStatusCases(status: Status, isSaving: bool, hasLastSaved: bool)
    ensures isSaving ==> NextStatus(status, isSaving, hasLastSaved) == Saving
    ensures !isSaving && hasLastSaved ==> NextStatus(status, isSaving, hasLastSaved) == Saved
    ensures !isSaving && !hasLastSaved ==> NextStatus(status, isSaving, hasLastSaved) == status
  {
  }

  /** No transition assigns "unsaved": from any other status it is never reached,
      whatever sequence of props the effect sees. */
  lemma {:induction false} UnsavedUnreachable(status: Status, history: seq<Props>)
    requires status != Unsaved
    ensures Run(status, history) != Unsaved
    decreases |history|
  {
    if history != [] {
      UnsavedUnreachable(NextStatus(status, history[0].isSaving, history[0].hasLastSaved), history[1..]);
    }
  }

  /** The text the badge shows; nothing at all while no last-saved time is known. */
  function Render(hasLastSaved: bool, status: Status): (r: Option<string>)
    ensures r.None? <==> !hasLastSaved
  {
    if !hasLastSaved then None
    else
      match status
      case Saving => Some("Saving...")
      case Saved => Some("All changes saved")
      case Unsaved => Some("Unsaved changes")
  }

  /** Starting from the initial "saved", the badge never says "Unsaved changes". */
  lemma NeverShowsUnsaved(history: seq<Props>, hasLastSaved: bool)
    ensures Render(hasLastSaved, Run(Saved, history)) != Some("Unsaved changes")
  {
    UnsavedUnreachable(Saved, history);
  }

  class Indicator {
    var status: Status

    ghost predicate Valid()
      reads this
    {
      status != Unsaved
    }

    /** `useState("saved")`. */
    constructor ()
      ensures status == Saved && Valid()
    {
      status := Saved;
    }

    /** The effect over `[isSaving, lastSaved]`. */
    method Update(isSaving: bool, lastSaved: Option<int>)
      requires Valid()
      modifies this
      ensures status == NextStatus(old(status), isSaving, lastSaved.Some?)
      ensures Valid()
    {
      if isSaving {
        status := Saving;
      } else if lastSaved.Some? {
        status := Saved;
      }
    }
  }
}
