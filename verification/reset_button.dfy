/**
 * The reset confirmation of src/components/client/ResetButton.tsx. The
 * button flips `showModal`; the modal, rendered exactly while `showModal`
 * holds, offers "Reset", which emits one `reset` event on the compiler
 * socket scope with the current exercise's slug and then flips
 * `showModal` back, and "Cancel", which only flips it back.
 */
module ResetConfirmation {
  import opened Store

  /** An event sent on the compiler socket scope: its name and `exerciseSlug` payload. */
  datatype Emitted = Emitted(name: string, exerciseSlug: string)

  class ResetButton {
    var showModal: bool
    /** Every event this component has sent on the socket, oldest first. */
    var emitted: seq<Emitted>

    /** Every event this component sends is a `reset`. */
    ghost predicate Valid()
      reads this
    {
      forall i :: 0 <= i < |emitted| ==> emitted[i].name == "reset"
    }

    /** The modal with the Reset and Cancel buttons is on screen. */
    predicate ModalRendered()
      reads this
    {
      showModal
    }

    constructor ()
      ensures Valid()
      ensures !showModal && emitted == []
    {
      showModal := false;
      emitted := [];
    }

    /** The reset button: show or hide the modal. */
    method ToggleModal()
      requires Valid()
      modifies this
      ensures Valid()
      ensures showModal == !old(showModal)
      ensures emitted == old(emitted)
    {
      showModal := !showModal;
    }

    /**
     * The modal's Reset button. When the store's current exercise exists it
     * emits `reset` with that exercise's slug and closes the modal; when it
     * does not, reading its slug throws and nothing happens.
     */
    method HandleReset(store: Store)
      requires Valid() && ModalRendered()
      modifies this
      ensures Valid()
      ensures if 0 <= store.currentExercisePosition < |store.exercises| then
                emitted == old(emitted) + [Emitted("reset", store.exercises[store.currentExercisePosition].slug)]
                && !ModalRendered()
              else
                emitted == old(emitted) && ModalRendered()
    {
      if 0 <= store.currentExercisePosition < |store.exercises| {
        var slug := store.exercises[store.currentExercisePosition].slug;
        emitted := emitted + [Emitted("reset", slug)];
        ToggleModal();
      }
    }

    /** The modal's Cancel button: close the modal, emit nothing. */
    method Cancel()
      requires Valid() && ModalRendered()
      modifies this
      ensures Valid()
      ensures !ModalRendered()
      ensures emitted == old(emitted)
    {
      ToggleModal();
    }
  }

  /**
   * Open, cancel, open, confirm: exactly one event is sent, carrying the
   * slug of the exercise current at confirmation, and the modal ends closed.
   */
  method ConfirmAfterCancel(store: Store) returns (events: seq<Emitted>, open: bool)
    requires 0 <= store.currentExercisePosition < |store.exercises|
    ensures events == [Emitted("reset", store.exercises[store.currentExercisePosition].slug)]
    ensures !open
  {
    var button := new ResetButton();
    button.ToggleModal();
    button.Cancel();
    button.ToggleModal();
    button.HandleReset(store);
    events := button.emitted;
    open := button.showModal;
  }

  /**
   * Confirm, open and cancel, then confirm again: exactly two events, one
   * per `HandleReset` call, both for the current exercise; the cancel sends
   * nothing.
   */
  method ConfirmTwice(store: Store) returns (events: seq<Emitted>)
    requires 0 <= store.currentExercisePosition < |store.exercises|
    ensures |events| == 2
    ensures events[0] == events[1] == Emitted("reset", store.exercises[store.currentExercisePosition].slug)
  {
    var button := new ResetButton();
    button.ToggleModal();
    button.HandleReset(store);
    button.ToggleModal();
    button.Cancel();
    button.ToggleModal();
    button.HandleReset(store);
    events := button.emitted;
  }
}
