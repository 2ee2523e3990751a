/**
  The confirmation-dialog store of src/stores/confirmation.ts: a single
  dialog that `show` replaces, `accept`/`reject` answer and `reset` clears.
  The callbacks are opaque tokens; invoking one appends it to a log.
 */
module Confirmation {
  import opened Wrappers

  /** An `onAccept`/`onReject` function, identified by a token. */
  datatype Callback = Callback(token: nat)

  datatype ConfirmDialog = ConfirmDialog(
    visible: bool,
    header: string,
    message: string,
    acceptLabel: string,
    rejectLabel: string,
    acceptClass: string,
    onAccept: Option<Callback>,
    onReject: Option<Callback>)

  /** `Partial<ConfirmDialog>`: every field may be absent. */
  datatype DialogOptions = DialogOptions(
    visible: Option<bool>,
    header: Option<string>,
    message: Option<string>,
    acceptLabel: Option<string>,
    rejectLabel: Option<string>,
    acceptClass: Option<string>,
    onAccept: Option<Callback>,
    onReject: Option<Callback>)

  const DefaultDialog := ConfirmDialog(
    false,
    "Confirm",
    "Are you sure?",
    "Yes",
    "No",
    "px-4 py-2 bg-blue-500 text-white rounded hover:bg-blue-600",
    None,
    None)

  const NoOptions := DialogOptions(None, None, None, None, None, None, None, None)

  /**
    `{ ...defaultDialog, ...options, visible: true }`: every field present in
    `options` wins, every absent one comes from the defaults (never from a
    previous dialog), and the dialog is visible whatever `options.visible` says.
   */
  function Shown(options: DialogOptions): (d: ConfirmDialog)
    ensures d.visible
    ensures d.header == (if options.header.Some? then options.header.value else DefaultDialog.header)
    ensures d.message == (if options.message.Some? then options.message.value else DefaultDialog.message)
    ensures d.acceptLabel == (if options.acceptLabel.Some? then options.acceptLabel.value else DefaultDialog.acceptLabel)
    ensures d.rejectLabel == (if options.rejectLabel.Some? then options.rejectLabel.value else DefaultDialog.rejectLabel)
    ensures d.acceptClass == (if options.acceptClass.Some? then options.acceptClass.value else DefaultDialog.acceptClass)
    ensures d.onAccept == options.onAccept && d.onReject == options.onReject
  {
    ConfirmDialog(
      true,
      options.header.GetOr(DefaultDialog.header),
      options.message.GetOr(DefaultDialog.message),
      options.acceptLabel.GetOr(DefaultDialog.acceptLabel),
      options.rejectLabel.GetOr(DefaultDialog.rejectLabel),
      options.acceptClass.GetOr(DefaultDialog.acceptClass),
      options.onAccept,
      options.onReject)
  }

  /** Every field of a dialog, as a complete set of options. */
  function OptionsOf(d: ConfirmDialog): DialogOptions {
    DialogOptions(Some(d.visible), Some(d.header), Some(d.message), Some(d.acceptLabel),
                  Some(d.rejectLabel), Some(d.acceptClass), d.onAccept, d.onReject)
  }

  /** Showing a dialog's own fields reproduces it, except that it is now visible. */
  lemma ShownOptionsOf(d: ConfirmDialog)
    ensures Shown(OptionsOf(d)) == d.(visible := true)
  {
  }

  /** `show({})` is the default dialog made visible. */
  lemma ShownNoOptions()
    ensures Shown(NoOptions) == DefaultDialog.(visible := true)
  {
  }

  /** What answering a dialog does to it: only `visible` changes. */
  function Hidden(d: ConfirmDialog): (h: ConfirmDialog)
    ensures !h.visible
    ensures h.(visible := d.visible) == d
  {
    d.(visible := false)
  }

  /** The callbacks an answer invokes: the one present, or none. */
  function Fire(cb: Option<Callback>): (r: seq<Callback>)
    ensures |r| <= 1
    ensures r == [] <==> cb.None?
    ensures forall c :: c in r ==> cb == Some(c)
  {
    if cb.Some? then [cb.value] else []
  }

  class ConfirmationStore {
    var dialog: ConfirmDialog
    /** The callbacks invoked so far, oldest first. */
    var fired: seq<Callback>

    constructor ()
      ensures dialog == DefaultDialog && !dialog.visible
      ensures dialog.onAccept.None? && dialog.onReject.None?
      ensures fired == []
    {
      dialog := DefaultDialog;
      fired := [];
    }

    /** `show(options)`: replaces the dialog; the old callbacks are dropped uninvoked. */
    method Show(options: DialogOptions)
      modifies this
      ensures dialog == Shown(options) && dialog.visible
      ensures fired == old(fired)
    {
      dialog := Shown(options);
    }

    /** `accept()`: invokes `onAccept` once if present, then hides; visibility is not checked. */
    method Accept()
      modifies this
      ensures fired == old(fired) + Fire(old(dialog).onAccept)
      ensures dialog == Hidden(old(dialog))
    {
      if dialog.onAccept.Some? {
        fired := fired + [dialog.onAccept.value];
      }
      dialog := dialog.(visible := false);
    }

    /** `reject()`: invokes `onReject` once if present, then hides; visibility is not checked. */
    method Reject()
      modifies this
      ensures fired == old(fired) + Fire(old(dialog).onReject)
      ensures dialog == Hidden(old(dialog))
    {
      if dialog.onReject.Some? {
        fired := fired + [dialog.onReject.value];
      }
      dialog := dialog.(visible := false);
    }

    /** `reset()`: the defaults again, without callbacks. */
    method Reset()
      modifies this
      ensures dialog == DefaultDialog
      ensures fired == old(fired)
    {
      dialog := DefaultDialog;
    }
  }

  /**
    A dialog shown with an accept callback and answered twice fires that
    callback twice: the second `accept` finds the dialog hidden and does
    not check.
   */
  method AcceptTwice(store: ConfirmationStore, options: DialogOptions)
    requires options.onAccept.Some?
    modifies store
    ensures store.fired == old(store.fired) + [options.onAccept.value, options.onAccept.value]
    ensures !store.dialog.visible
  {
    store.Show(options);
    store.Accept();
    store.Accept();
  }
}
