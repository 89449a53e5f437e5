/**
 * The shared edit-mode slot that carries an activity from the timeline to the
 * add-activity screens.
 */
module EditStorage {
  import opened Wrappers
  import opened Entities

  datatype EditState = EditState(editActivity: Option<Activity>, pieceName: Option<string>, itemType: Option<ItemType>)

  const INITIAL: EditState := EditState(None, None, None)

  /** The three slots are filled and emptied together. */
  predicate Coherent(s: EditState)
  {
    s.editActivity.Some? == s.pieceName.Some? && s.pieceName.Some? == s.itemType.Some?
  }

  function SetEditActivity(s: EditState, activity: Activity, pieceName: string, itemType: ItemType): (t: EditState)
    ensures t.editActivity == Some(activity) && t.pieceName == Some(pieceName) && t.itemType == Some(itemType)
  {
    EditState(Some(activity), Some(pieceName), Some(itemType))
  }

  /** setEditActivity called with the activity alone: the name defaults to "" and the type to PIECE. */
  function SetEditActivityDefaults(s: EditState, activity: Activity): (t: EditState)
    ensures t.editActivity == Some(activity) && t.pieceName == Some("") && t.itemType == Some(PIECE)
  {
    SetEditActivity(s, activity, "", PIECE)
  }

  function ClearEditActivity(s: EditState): (t: EditState)
    ensures t.editActivity.None? && t.pieceName.None? && t.itemType.None?
  {
    INITIAL
  }

  function IsEditMode(s: EditState): bool
  {
    s.editActivity.Some?
  }

  /**
   * Coherence holds initially and after every set or clear, so edit mode
   * means the piece name and type are there too; the last write wins.
   */
  lemma EditStateCoherent(s: EditState, a: Activity, name: string, t: ItemType)
    ensures Coherent(INITIAL) && !IsEditMode(INITIAL)
    ensures Coherent(SetEditActivity(s, a, name, t)) && IsEditMode(SetEditActivity(s, a, name, t))
    ensures Coherent(ClearEditActivity(s)) && !IsEditMode(ClearEditActivity(s))
    ensures Coherent(s) && IsEditMode(s) ==> s.pieceName.Some? && s.itemType.Some?
    ensures SetEditActivity(SetEditActivity(s, a, name, t), a, name, t) == SetEditActivity(s, a, name, t)
  {
  }
}

/**
 * A value delivered once: the first read returns it and marks it handled,
 * later reads return nothing.
 */
module OneShotEvent {
  import opened Wrappers

  datatype Event<T> = Event(content: T, hasBeenHandled: bool)

  function NewEvent<T>(content: T): (e: Event<T>)
    ensures !e.hasBeenHandled
  {
    Event(content, false)
  }

  /** getContentIfNotHandled: the content the first time, null afterwards; the event ends up handled. */
  function GetContentIfNotHandled<T>(e: Event<T>): (r: (Event<T>, Option<T>))
    ensures r.0.hasBeenHandled && r.0.content == e.content
    ensures r.1.Some? <==> !e.hasBeenHandled
    ensures r.1.Some? ==> r.1.value == e.content
  {
    if e.hasBeenHandled then (e, None) else (e.(hasBeenHandled := true), Some(e.content))
  }

  /** A new event yields its content exactly once over two reads. */
  lemma DeliveredOnce<T>(content: T)
    ensures var first := GetContentIfNotHandled(NewEvent(content));
            var second := GetContentIfNotHandled(first.0);
            first.1 == Some(content) && second.1 == None
  {
  }
}
