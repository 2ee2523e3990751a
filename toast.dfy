/**
  The toast store of src/composables/useToast.ts: a counter that numbers
  toasts 1, 2, 3, ..., a list of visible toasts, and for each toast a timer
  that removes it when its lifetime has elapsed. `setTimeout` is modelled by
  a clock and a list of pending timers; `AdvanceTime` lets time pass and
  runs every timer that has come due.
 */
module Toasts {
  import opened Wrappers

  datatype Severity = Success | Info | Error | Secondary | Warn | Contrast

  /** `Omit<Toast, "id">`, the argument of `addToast`. */
  datatype ToastInput = ToastInput(severity: Severity, summary: string, detail: Option<string>, life: Option<int>)

  datatype Toast = Toast(id: nat, severity: Severity, summary: string, detail: Option<string>, life: Option<int>)

  /** `{ id, ...toast }`: the input's own fields plus the id; no default life is filled in. */
  function WithId(id: nat, t: ToastInput): Toast {
    Toast(id, t.severity, t.summary, t.detail, t.life)
  }

  function InputOf(t: Toast): ToastInput {
    ToastInput(t.severity, t.summary, t.detail, t.life)
  }

  /** The stored toast is the input plus the id, and gives the input back. */
  lemma WithIdRoundTrip(id: nat, t: ToastInput)
    ensures WithId(id, t).id == id && InputOf(WithId(id, t)) == t
    ensures WithId(id, t).life == t.life
  {
  }

  const DefaultLife := 3000

  /** `toast?.life || 3000`: an absent or zero life means the default. */
  function Lifetime(life: Option<int>): int {
    if life.Some? && life.value != 0 then life.value else DefaultLife
  }

  /** The lifetime is never 0, a given non-zero life is kept, and applying the default twice changes nothing. */
  lemma LifetimeSpec(life: Option<int>)
    ensures Lifetime(life) != 0
    ensures life.Some? && life.value != 0 ==> Lifetime(life) == life.value
    ensures life.None? || life == Some(0) ==> Lifetime(life) == 3000
    ensures Lifetime(Some(Lifetime(life))) == Lifetime(life)
  {
  }

  /** A pending `setTimeout(() => removeToast(id), delay)`. */
  datatype Timer = Timer(id: nat, scheduledAt: int, deadline: int)

  /**
    A timer has run once time has moved past the moment it was scheduled and
    reached its deadline (a negative delay behaves as zero).
   */
  predicate Fired(tm: Timer, clock: int) {
    tm.scheduledAt < clock && tm.deadline <= clock
  }

  /** With a positive delay, a timer has run exactly when its deadline has been reached. */
  lemma FiredIffDeadline(tm: Timer, clock: int)
    requires tm.deadline > tm.scheduledAt
    ensures Fired(tm, clock) <==> tm.deadline <= clock
  {
  }

  // Removing toasts

  /** `toasts.filter(toast => toast.id !== id)`. */
  function RemoveById(ts: seq<Toast>, id: nat): seq<Toast> {
    if ts == [] then []
    else RemoveById(ts[..|ts| - 1], id) + (if ts[|ts| - 1].id != id then [ts[|ts| - 1]] else [])
  }

  /** The toasts whose ids are not in `gone`, in order. */
  function Keep(ts: seq<Toast>, gone: set<nat>): seq<Toast> {
    if ts == [] then []
    else Keep(ts[..|ts| - 1], gone) + (if ts[|ts| - 1].id !in gone then [ts[|ts| - 1]] else [])
  }

  lemma {:induction false} KeepAppend(a: seq<Toast>, b: seq<Toast>, gone: set<nat>)
    ensures Keep(a + b, gone) == Keep(a, gone) + Keep(b, gone)
  {
    if b == [] {
      assert a + b == a;
    } else {
      assert (a + b)[..|a + b| - 1] == a + b[..|b| - 1];
      KeepAppend(a, b[..|b| - 1], gone);
    }
  }

  /** Removing one id is keeping everything else. */
  lemma {:induction false} RemoveByIdIsKeep(ts: seq<Toast>, id: nat)
    ensures RemoveById(ts, id) == Keep(ts, {id})
  {
    if ts != [] {
      RemoveByIdIsKeep(ts[..|ts| - 1], id);
    }
  }

  /** Removals commute and accumulate: what survives two rounds is what avoids both sets. */
  lemma {:induction false} KeepKeep(ts: seq<Toast>, a: set<nat>, b: set<nat>)
    ensures Keep(Keep(ts, a), b) == Keep(ts, a + b)
  {
    if ts != [] {
      var init, last := ts[..|ts| - 1], ts[|ts| - 1];
      KeepKeep(init, a, b);
      KeepAppend(Keep(init, a), if last.id !in a then [last] else [], b);
      assert Keep([last], b) == if last.id !in b then [last] else [] by {
        assert [last][..0] == [];
      }
    }
  }

  /** Keeping toasts none of whose ids is gone changes nothing. */
  lemma {:induction false} KeepNone(ts: seq<Toast>, gone: set<nat>)
    requires forall i :: 0 <= i < |ts| ==> ts[i].id !in gone
    ensures Keep(ts, gone) == ts
  {
    if ts != [] {
      KeepNone(ts[..|ts| - 1], gone);
    }
  }

  /**
    `removeToast(id)` drops every toast with that id and keeps the others in
    order; an id no toast carries leaves the list as it was.
   */
  lemma RemoveByIdSpec(ts: seq<Toast>, id: nat)
    ensures forall i :: 0 <= i < |RemoveById(ts, id)| ==> RemoveById(ts, id)[i].id != id
    ensures forall t :: t in RemoveById(ts, id) <==> t in ts && t.id != id
    ensures (forall i :: 0 <= i < |ts| ==> ts[i].id != id) ==> RemoveById(ts, id) == ts
  {
    RemoveByIdIsKeep(ts, id);
    KeepMembers(ts, {id});
    if forall i :: 0 <= i < |ts| ==> ts[i].id != id {
      KeepNone(ts, {id});
    }
  }

  /** A timer running for a toast already removed by hand changes nothing. */
  lemma RemoveByIdTwice(ts: seq<Toast>, id: nat)
    ensures RemoveById(RemoveById(ts, id), id) == RemoveById(ts, id)
  {
    RemoveByIdIsKeep(ts, id);
    RemoveByIdIsKeep(RemoveById(ts, id), id);
    KeepKeep(ts, {id}, {id});
    assert {id} + {id} == {id};
  }

  /** The toasts kept are those of `ts` whose ids are not gone. */
  lemma {:induction false} KeepMembers(ts: seq<Toast>, gone: set<nat>)
    ensures forall t :: t in Keep(ts, gone) <==> t in ts && t.id !in gone
  {
    if ts != [] {
      var init, last := ts[..|ts| - 1], ts[|ts| - 1];
      KeepMembers(init, gone);
      assert ts == init + [last];
    }
  }

  // The history of a store

  /** A toast ever added, with the timer `addToast` scheduled for it. */
  datatype Entry = Entry(toast: Toast, timer: Timer)

  /** The n-th toast added (from 1) carries id n, and so does its timer. */
  predicate Numbered(h: seq<Entry>) {
    forall i :: 0 <= i < |h| ==> h[i].toast.id == i + 1 && h[i].timer.id == i + 1
  }

  /** The timers of the history that have not run by `clock`, in order. */
  function Pending(h: seq<Entry>, clock: int): seq<Timer> {
    if h == [] then []
    else Pending(h[..|h| - 1], clock) + (if Fired(h[|h| - 1].timer, clock) then [] else [h[|h| - 1].timer])
  }

  /** The toasts of the history whose timers have not run by `clock`, in order. */
  function Visible(h: seq<Entry>, clock: int): seq<Toast> {
    if h == [] then []
    else Visible(h[..|h| - 1], clock) + (if Fired(h[|h| - 1].timer, clock) then [] else [h[|h| - 1].toast])
  }

  /** A toast is visible exactly when it was added and its timer has not run. */
  lemma {:induction false} VisibleMembers(h: seq<Entry>, clock: int, t: Toast)
    ensures t in Visible(h, clock) <==> exists i :: 0 <= i < |h| && h[i].toast == t && !Fired(h[i].timer, clock)
  {
    if h != [] {
      var init, last := h[..|h| - 1], h[|h| - 1];
      var extra := if Fired(last.timer, clock) then [] else [last.toast];
      assert Visible(h, clock) == Visible(init, clock) + extra;
      VisibleMembers(init, clock, t);
      if t in Visible(init, clock) {
        var i :| 0 <= i < |init| && init[i].toast == t && !Fired(init[i].timer, clock);
        assert h[i] == init[i];
      } else if t in extra {
        assert h[|h| - 1].toast == t && !Fired(h[|h| - 1].timer, clock);
      }
      if exists i :: 0 <= i < |h| && h[i].toast == t && !Fired(h[i].timer, clock) {
        var i :| 0 <= i < |h| && h[i].toast == t && !Fired(h[i].timer, clock);
        if i < |init| {
          assert init[i] == h[i];
        }
      }
    }
  }

  /** Pending timers come from the history and have not run. */
  lemma {:induction false} PendingMembers(h: seq<Entry>, clock: int, tm: Timer)
    requires tm in Pending(h, clock)
    ensures !Fired(tm, clock)
    ensures exists i :: 0 <= i < |h| && h[i].timer == tm
  {
    var init := h[..|h| - 1];
    if tm in Pending(init, clock) {
      PendingMembers(init, clock, tm);
      var i :| 0 <= i < |init| && init[i].timer == tm;
      assert h[i] == init[i];
    }
  }

  /** The ids of the timers in `ts` that have run by `clock`. */
  function FiredIds(ts: seq<Timer>, clock: int): set<nat> {
    set tm | tm in ts && Fired(tm, clock) :: tm.id
  }

  lemma FiredIdsSnoc(ts: seq<Timer>, tm: Timer, clock: int)
    ensures FiredIds(ts + [tm], clock) == FiredIds(ts, clock) + (if Fired(tm, clock) then {tm.id} else {})
  {
    var l, r := FiredIds(ts + [tm], clock), FiredIds(ts, clock) + (if Fired(tm, clock) then {tm.id} else {});
    forall x | x in l ensures x in r {
      var u :| u in ts + [tm] && Fired(u, clock) && u.id == x;
      if u != tm {
        assert u in ts;
      }
    }
  }

  /** The timers of `ts` that have not run by `clock`, in order. */
  function Unfired(ts: seq<Timer>, clock: int): seq<Timer> {
    if ts == [] then []
    else Unfired(ts[..|ts| - 1], clock) + (if Fired(ts[|ts| - 1], clock) then [] else [ts[|ts| - 1]])
  }

  /** Every timer in the history was scheduled at or before `clock`. */
  predicate ScheduledBy(h: seq<Entry>, clock: int) {
    forall i :: 0 <= i < |h| ==> h[i].timer.scheduledAt <= clock
  }

  /** Letting time pass from `c` to `c2` runs exactly the pending timers that are now due. */
  lemma {:induction false} PendingAdvance(h: seq<Entry>, c: int, c2: int)
    requires c <= c2
    ensures Unfired(Pending(h, c), c2) == Pending(h, c2)
  {
    if h != [] {
      var init, e := h[..|h| - 1], h[|h| - 1];
      PendingAdvance(init, c, c2);
      var extra := if Fired(e.timer, c) then [] else [e.timer];
      UnfiredAppend(Pending(init, c), extra, c2);
    }
  }

  lemma {:induction false} UnfiredAppend(a: seq<Timer>, b: seq<Timer>, clock: int)
    ensures Unfired(a + b, clock) == Unfired(a, clock) + Unfired(b, clock)
  {
    if b == [] {
      assert a + b == a;
    } else {
      assert (a + b)[..|a + b| - 1] == a + b[..|b| - 1];
      UnfiredAppend(a, b[..|b| - 1], clock);
    }
  }

  lemma {:induction false} VisibleAdvanceBy(h: seq<Entry>, c: int, c2: int, gone: set<nat>)
    requires c <= c2
    requires forall i :: 0 <= i < |h| ==> h[i].toast.id == h[i].timer.id
    requires forall i :: 0 <= i < |h| ==>
      (h[i].timer.id in gone <==> !Fired(h[i].timer, c) && Fired(h[i].timer, c2))
    ensures Keep(Visible(h, c), gone) == Visible(h, c2)
  {
    if h != [] {
      var init, e := h[..|h| - 1], h[|h| - 1];
      VisibleAdvanceBy(init, c, c2, gone);
      var extra := if Fired(e.timer, c) then [] else [e.toast];
      KeepAppend(Visible(init, c), extra, gone);
      assert Keep([e.toast], gone) == if e.toast.id !in gone then [e.toast] else [] by {
        assert [e.toast][..0] == [];
      }
    }
  }

  /**
    Letting time pass from `c` to `c2` and removing the toast of every
    timer that comes due leaves exactly the toasts whose timers have not
    run by `c2`.
   */
  lemma VisibleAdvance(h: seq<Entry>, c: int, c2: int)
    requires Numbered(h)
    requires c <= c2
    ensures Keep(Visible(h, c), FiredIds(Pending(h, c), c2)) == Visible(h, c2)
  {
    var gone := FiredIds(Pending(h, c), c2);
    forall i | 0 <= i < |h|
      ensures h[i].timer.id in gone <==> !Fired(h[i].timer, c) && Fired(h[i].timer, c2)
    {
      if h[i].timer.id in gone {
        var tm :| tm in Pending(h, c) && Fired(tm, c2) && tm.id == h[i].timer.id;
        PendingMembers(h, c, tm);
        var j :| 0 <= j < |h| && h[j].timer == tm;
        assert j == i;
      }
      if !Fired(h[i].timer, c) && Fired(h[i].timer, c2) {
        PendingHas(h, c, i);
      }
    }
    VisibleAdvanceBy(h, c, c2, gone);
  }

  lemma {:induction false} PendingHas(h: seq<Entry>, c: int, i: nat)
    requires i < |h| && !Fired(h[i].timer, c)
    ensures h[i].timer in Pending(h, c)
  {
    if i < |h| - 1 {
      PendingHas(h[..|h| - 1], c, i);
    }
  }

  /** Toasts drawn from a numbered history appear in increasing id order, each at most its length. */
  lemma {:induction false} KeptVisibleIncreasing(h: seq<Entry>, c: int, gone: set<nat>)
    requires Numbered(h)
    ensures forall i, j :: 0 <= i < j < |Keep(Visible(h, c), gone)| ==>
      Keep(Visible(h, c), gone)[i].id < Keep(Visible(h, c), gone)[j].id
    ensures forall i :: 0 <= i < |Keep(Visible(h, c), gone)| ==> 1 <= Keep(Visible(h, c), gone)[i].id <= |h|
  {
    if h != [] {
      var init, e := h[..|h| - 1], h[|h| - 1];
      KeptVisibleIncreasing(init, c, gone);
      var extra := if Fired(e.timer, c) then [] else [e.toast];
      KeepAppend(Visible(init, c), extra, gone);
    }
  }

  /** Each timer was scheduled when its toast was added and is due its toast's lifetime later. */
  predicate Timed(h: seq<Entry>) {
    forall i :: 0 <= i < |h| ==> h[i].timer.deadline == h[i].timer.scheduledAt + Lifetime(h[i].toast.life)
  }

  predicate IdsIncreasing(ts: seq<Toast>) {
    forall i, j :: 0 <= i < j < |ts| ==> ts[i].id < ts[j].id
  }

  predicate IdsUpTo(ts: seq<Toast>, n: nat) {
    forall i :: 0 <= i < |ts| ==> 1 <= ts[i].id <= n
  }

  /**
    The store's invariant, over its values: the counter counts the history,
    the pending timers are those of the history that have not run, and the
    visible toasts are the history's toasts whose timers have not run, less
    those removed by hand. Hence the visible ids increase and never exceed
    the counter.
   */
  ghost predicate Consistent(toasts: seq<Toast>, toastId: nat, clock: int, timers: seq<Timer>,
                             history: seq<Entry>, removed: set<nat>)
  {
    && |history| == toastId
    && Numbered(history)
    && Timed(history)
    && ScheduledBy(history, clock)
    && (forall id :: id in removed ==> 1 <= id <= toastId)
    && timers == Pending(history, clock)
    && toasts == Keep(Visible(history, clock), removed)
    && IdsIncreasing(toasts)
    && IdsUpTo(toasts, toastId)
  }

  /** Adding an entry whose timer is due its toast's lifetime later keeps the history timed. */
  lemma TimedSnoc(h: seq<Entry>, e: Entry)
    requires Timed(h)
    requires e.timer.deadline == e.timer.scheduledAt + Lifetime(e.toast.life)
    ensures Timed(h + [e])
  {
    forall i | 0 <= i < |h + [e]|
      ensures (h + [e])[i].timer.deadline == (h + [e])[i].timer.scheduledAt + Lifetime((h + [e])[i].toast.life)
    {
      if i < |h| {
        assert (h + [e])[i] == h[i];
      }
    }
  }

  /** Adding an entry numbered after the history keeps it numbered. */
  lemma NumberedSnoc(h: seq<Entry>, e: Entry)
    requires Numbered(h)
    requires e.toast.id == |h| + 1 && e.timer.id == |h| + 1
    ensures Numbered(h + [e])
  {
    forall i | 0 <= i < |h + [e]|
      ensures (h + [e])[i].toast.id == i + 1 && (h + [e])[i].timer.id == i + 1
    {
      if i < |h| {
        assert (h + [e])[i] == h[i];
      }
    }
  }

  /** `addToast` keeps the invariant. */
  lemma AddKeepsConsistent(toasts: seq<Toast>, toastId: nat, clock: int, timers: seq<Timer>,
                           history: seq<Entry>, removed: set<nat>, t: ToastInput)
    requires Consistent(toasts, toastId, clock, timers, history, removed)
    ensures var toast := WithId(toastId + 1, t);
            var tm := Timer(toastId + 1, clock, clock + Lifetime(t.life));
            Consistent(toasts + [toast], toastId + 1, clock, timers + [tm], history + [Entry(toast, tm)], removed)
  {
    var toast := WithId(toastId + 1, t);
    var tm := Timer(toastId + 1, clock, clock + Lifetime(t.life));
    var h := history + [Entry(toast, tm)];
    TimedSnoc(history, Entry(toast, tm));
    NumberedSnoc(history, Entry(toast, tm));
    assert ScheduledBy(h, clock) by {
      assert forall i :: 0 <= i < |history| ==> h[i] == history[i];
    }
    assert Pending(h, clock) == Pending(history, clock) + [tm] by {
      assert h[..|h| - 1] == history;
    }
    assert Keep(Visible(h, clock), removed) == toasts + [toast] by {
      assert h[..|h| - 1] == history;
      assert Visible(h, clock) == Visible(history, clock) + [toast];
      KeepAppend(Visible(history, clock), [toast], removed);
      assert Keep([toast], removed) == [toast] by {
        assert [toast][..0] == [];
      }
    }
    KeptVisibleIncreasing(h, clock, removed);
  }

  /** `removeToast` keeps the invariant, recording the id when such a toast was ever added. */
  lemma RemoveKeepsConsistent(toasts: seq<Toast>, toastId: nat, clock: int, timers: seq<Timer>,
                              history: seq<Entry>, removed: set<nat>, id: nat)
    requires Consistent(toasts, toastId, clock, timers, history, removed)
    ensures Consistent(RemoveById(toasts, id), toastId, clock, timers, history,
                       if 1 <= id <= toastId then removed + {id} else removed)
  {
    if 1 <= id <= toastId {
      var r := removed + {id};
      assert RemoveById(toasts, id) == Keep(Visible(history, clock), r) by {
        RemoveByIdIsKeep(toasts, id);
        KeepKeep(Visible(history, clock), removed, {id});
      }
      KeptVisibleIncreasing(history, clock, r);
    } else {
      assert RemoveById(toasts, id) == toasts by {
        RemoveByIdIsKeep(toasts, id);
        assert forall i :: 0 <= i < |toasts| ==> toasts[i].id != id;
        KeepNone(toasts, {id});
      }
    }
  }

  /** Letting time pass and running the due timers keeps the invariant. */
  lemma AdvanceKeepsConsistent(toasts: seq<Toast>, toastId: nat, clock: int, timers: seq<Timer>,
                               history: seq<Entry>, removed: set<nat>, clock2: int)
    requires Consistent(toasts, toastId, clock, timers, history, removed)
    requires clock < clock2
    ensures Consistent(Keep(toasts, FiredIds(timers, clock2)), toastId, clock2, Unfired(timers, clock2),
                       history, removed)
  {
    var gone := FiredIds(timers, clock2);
    PendingAdvance(history, clock, clock2);
    VisibleAdvance(history, clock, clock2);
    KeepKeep(Visible(history, clock), removed, gone);
    KeepKeep(Visible(history, clock), gone, removed);
    assert removed + gone == gone + removed;
    KeptVisibleIncreasing(history, clock2, removed);
  }

  /**
    With no removal by hand, the visible toasts are exactly the added toasts
    whose lifetime has not run out: a toast added at time `a` is gone once
    the clock has moved past `a` and reached `a + Lifetime(life)`. When
    every lifetime is positive, that is when `a + Lifetime(life)` has been
    reached.
   */
  lemma NoRemovalsVisible(toasts: seq<Toast>, toastId: nat, clock: int, timers: seq<Timer>,
                          history: seq<Entry>, t: Toast)
    requires Consistent(toasts, toastId, clock, timers, history, {})
    ensures t in toasts <==> exists i :: (0 <= i < |history| && history[i].toast == t &&
                                         !(history[i].timer.scheduledAt < clock &&
                                           history[i].timer.scheduledAt + Lifetime(t.life) <= clock))
    ensures (forall i :: 0 <= i < |history| ==> Lifetime(history[i].toast.life) > 0) ==>
      (t in toasts <==> exists i :: (0 <= i < |history| && history[i].toast == t &&
                                     clock < history[i].timer.scheduledAt + Lifetime(t.life)))
  {
    KeepNone(Visible(history, clock), {});
    VisibleMembers(history, clock, t);
  }

  class ToastStore {
    var toasts: seq<Toast>
    /** The last id handed out. */
    var toastId: nat
    /** Milliseconds elapsed. */
    var clock: int
    /** Timers scheduled and not yet run, oldest first. */
    var timers: seq<Timer>
    /** Every toast ever added, with its timer. */
    ghost var history: seq<Entry>
    /** The ids `removeToast` was called with while such a toast existed. */
    ghost var removed: set<nat>

    ghost predicate Valid()
      reads this
    {
      Consistent(toasts, toastId, clock, timers, history, removed)
    }

    /** A fresh store: no toasts, counter 0. */
    constructor ()
      ensures Valid()
      ensures toasts == [] && toastId == 0 && timers == [] && clock == 0
      ensures history == [] && removed == {}
    {
      toasts := [];
      toastId := 0;
      clock := 0;
      timers := [];
      history := [];
      removed := {};
    }

    /**
      `addToast(t)`: bumps the counter first and uses it as the new id,
      appends the toast, and schedules its removal after its lifetime.
     */
    method AddToast(t: ToastInput)
      requires Valid()
      modifies this
      ensures Valid()
      ensures toastId == old(toastId) + 1
      ensures toasts == old(toasts) + [WithId(toastId, t)]
      ensures timers == old(timers) + [Timer(toastId, clock, clock + Lifetime(t.life))]
      ensures clock == old(clock) && removed == old(removed)
      ensures history == old(history) + [Entry(WithId(toastId, t), Timer(toastId, clock, clock + Lifetime(t.life)))]
      ensures forall i :: 0 <= i < |old(history)| ==> old(history)[i].toast.id < toastId
    {
      AddKeepsConsistent(toasts, toastId, clock, timers, history, removed, t);
      toastId := toastId + 1;
      var toast := WithId(toastId, t);
      toasts := toasts + [toast];
      var timer := RemoveToastAfterDelay(toastId, Lifetime(t.life));
      history := history + [Entry(toast, timer)];
    }

    /** `removeToastAfterDelay(id, life)`: schedules the timer. */
    method RemoveToastAfterDelay(id: nat, life: int) returns (timer: Timer)
      modifies this`timers
      ensures timer == Timer(id, clock, clock + life)
      ensures timers == old(timers) + [timer]
    {
      timer := Timer(id, clock, clock + life);
      timers := timers + [timer];
    }

    /** `removeToast(id)`: drops the toasts with that id. */
    method RemoveToast(id: nat)
      requires Valid()
      modifies this
      ensures Valid()
      ensures toasts == RemoveById(old(toasts), id)
      ensures toastId == old(toastId) && clock == old(clock) && timers == old(timers)
      ensures history == old(history)
    {
      RemoveKeepsConsistent(toasts, toastId, clock, timers, history, removed, id);
      toasts := RemoveById(toasts, id);
      if 1 <= id <= toastId {
        removed := removed + {id};
      }
    }

    /**
      Lets `ms` milliseconds pass and runs every timer that comes due; each
      run is `removeToast(id)` for the timer's id.
     */
    method AdvanceTime(ms: int)
      requires Valid()
      requires ms > 0
      modifies this
      ensures Valid()
      ensures clock == old(clock) + ms
      ensures timers == Unfired(old(timers), clock)
      ensures toasts == Keep(old(toasts), FiredIds(old(timers), clock))
      ensures toastId == old(toastId) && history == old(history) && removed == old(removed)
    {
      var now := clock + ms;
      var kept, pending := RunDue(toasts, timers, now);
      assert Consistent(kept, toastId, now, pending, history, removed) by {
        AdvanceKeepsConsistent(toasts, toastId, clock, timers, history, removed, now);
      }
      clock := now;
      toasts := kept;
      timers := pending;
    }
  }

  /** Running the `i`-th timer: its id joins the fired ids, or it joins the pending timers. */
  lemma RunOne(toasts: seq<Toast>, due: seq<Timer>, i: nat, clock: int, kept: seq<Toast>, pending: seq<Timer>)
    requires i < |due|
    requires kept == Keep(toasts, FiredIds(due[..i], clock))
    requires pending == Unfired(due[..i], clock)
    ensures Fired(due[i], clock) ==> RemoveById(kept, due[i].id) == Keep(toasts, FiredIds(due[..i + 1], clock))
    ensures Fired(due[i], clock) ==> pending == Unfired(due[..i + 1], clock)
    ensures !Fired(due[i], clock) ==> kept == Keep(toasts, FiredIds(due[..i + 1], clock))
    ensures !Fired(due[i], clock) ==> pending + [due[i]] == Unfired(due[..i + 1], clock)
  {
    var done, tm := due[..i], due[i];
    var next := due[..i + 1];
    assert next == done + [tm];
    assert next[..|next| - 1] == done && next[|next| - 1] == tm;
    FiredIdsSnoc(done, tm, clock);
    if Fired(tm, clock) {
      RemoveByIdIsKeep(kept, tm.id);
      KeepKeep(toasts, FiredIds(done, clock), {tm.id});
    } else {
      assert FiredIds(next, clock) == FiredIds(done, clock);
    }
  }

  /**
    Runs, in scheduling order, every timer in `due` that has fired by `clock`:
    each run drops the toasts carrying its id. Returns the toasts left and
    the timers still pending.
   */
  method RunDue(toasts: seq<Toast>, due: seq<Timer>, clock: int) returns (kept: seq<Toast>, pending: seq<Timer>)
    ensures kept == Keep(toasts, FiredIds(due, clock))
    ensures pending == Unfired(due, clock)
  {
    kept := toasts;
    pending := [];
    var i := 0;
    assert kept == Keep(toasts, FiredIds(due[..0], clock)) by {
      assert FiredIds(due[..0], clock) == {};
      KeepNone(kept, {});
    }
    while i < |due|
      invariant 0 <= i <= |due|
      invariant pending == Unfired(due[..i], clock)
      invariant kept == Keep(toasts, FiredIds(due[..i], clock))
    {
      RunOne(toasts, due, i, clock, kept, pending);
      if Fired(due[i], clock) {
        kept := RemoveById(kept, due[i].id);
      } else {
        pending := pending + [due[i]];
      }
      i := i + 1;
    }
    assert due[..|due|] == due;
  }

  /** The timers of two toasts added at time 0 with lives 2000 and 5000: at 2000 only the first has run. */
  lemma FirstOfTwoRuns(short: Toast, long: Toast)
    requires short.id == 1 && long.id == 2
    ensures FiredIds([Timer(1, 0, 2000), Timer(2, 0, 5000)], 2000) == {1}
    ensures Unfired([Timer(1, 0, 2000), Timer(2, 0, 5000)], 2000) == [Timer(2, 0, 5000)]
    ensures Keep([short, long], {1}) == [long]
  {
    var t1, t2 := Timer(1, 0, 2000), Timer(2, 0, 5000);
    assert t1 in [t1, t2];
    forall x | x in FiredIds([t1, t2], 2000) ensures x == 1 {}
    assert [t1, t2][..1] == [t1];
    assert [t1][..0] == [];
    assert [short, long][..1] == [short];
    assert [short][..0] == [];
    assert Keep([short], {1}) == Keep([], {1}) + [];
    assert Keep([short, long], {1}) == Keep([short], {1}) + [long];
  }

  /** At 5000 the second timer runs too. */
  lemma SecondOfTwoRuns(long: Toast)
    requires long.id == 2
    ensures FiredIds([Timer(2, 0, 5000)], 5000) == {2}
    ensures Keep([long], {2}) == []
  {
    assert Timer(2, 0, 5000) in [Timer(2, 0, 5000)];
    forall x | x in FiredIds([Timer(2, 0, 5000)], 5000) ensures x == 2 {}
    assert [long][..0] == [];
  }

  /** A fresh store after adding a toast living 2000 ms and then one living 5000 ms. */
  method AddTwo() returns (store: ToastStore)
    ensures fresh(store) && store.Valid()
    ensures store.clock == 0 && |store.toasts| == 2
    ensures store.toasts[0].id == 1 && store.toasts[1].id == 2
    ensures store.toasts[1].summary == "Long Life"
    ensures store.timers == [Timer(1, 0, 2000), Timer(2, 0, 5000)]
  {
    store := new ToastStore();
    store.AddToast(ToastInput(Info, "Short Life", None, Some(2000)));
    store.AddToast(ToastInput(Warn, "Long Life", None, Some(5000)));
  }

  /** 2000 ms after `AddTwo`, the first timer has run and only the second toast is left. */
  method ExpireShort(store: ToastStore)
    requires store.Valid() && store.clock == 0 && |store.toasts| == 2
    requires store.toasts[0].id == 1 && store.toasts[1].id == 2
    requires store.timers == [Timer(1, 0, 2000), Timer(2, 0, 5000)]
    modifies store
    ensures store.Valid() && store.clock == 2000
    ensures store.toasts == [old(store.toasts[1])]
    ensures store.timers == [Timer(2, 0, 5000)]
  {
    FirstOfTwoRuns(store.toasts[0], store.toasts[1]);
    assert store.toasts == [store.toasts[0], store.toasts[1]];
    store.AdvanceTime(2000);
  }

  /** 3000 ms later the second timer has run too and no toast is left. */
  method ExpireLong(store: ToastStore)
    requires store.Valid() && store.clock == 2000 && |store.toasts| == 1 && store.toasts[0].id == 2
    requires store.timers == [Timer(2, 0, 5000)]
    modifies store
    ensures store.Valid() && store.clock == 5000
    ensures store.toasts == [] && store.timers == []
  {
    SecondOfTwoRuns(store.toasts[0]);
    assert store.toasts == [store.toasts[0]];
    store.AdvanceTime(3000);
    assert [Timer(2, 0, 5000)][..0] == [];
  }
}
