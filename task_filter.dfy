/**
  The pure parts of the task store of src/stores/task.ts: locating a task by
  id, the list edits of `updateTask` and `removeTask`, the filter predicate
  of `applyFilters` and its due-date sort.
 */
module TaskFilter {
  import opened Wrappers
  import opened TaskTypes

  // Locating a task

  /** `findIndex(task => task.id.toString() === id?.toString())`; -1 when absent. */
  function FindByString(s: seq<Task>, id: Option<TaskId>): (r: int)
    ensures -1 <= r < |s|
    ensures r >= 0 ==> id.Some? && IdString(s[r].id) == IdString(id.value)
    ensures r >= 0 ==> forall j :: 0 <= j < r ==> IdString(s[j].id) != IdString(id.value)
    ensures r == -1 ==> id.None? || forall j :: 0 <= j < |s| ==> IdString(s[j].id) != IdString(id.value)
  {
    if id.None? || s == [] then -1
    else if IdString(s[0].id) == IdString(id.value) then 0
    else var k := FindByString(s[1..], id); if k == -1 then -1 else k + 1
  }

  /** `findIndex(task => task.id === id)`; -1 when absent. */
  function FindStrict(s: seq<Task>, id: TaskId): (r: int)
    ensures -1 <= r < |s|
    ensures r >= 0 ==> s[r].id == id && forall j :: 0 <= j < r ==> s[j].id != id
    ensures r == -1 ==> forall j :: 0 <= j < |s| ==> s[j].id != id
  {
    if s == [] then -1
    else if s[0].id == id then 0
    else var k := FindStrict(s[1..], id); if k == -1 then -1 else k + 1
  }

  // The list edits

  /** The list after `updateTask(p)`. */
  function Updated(s: seq<Task>, p: PartialTask): seq<Task> {
    var i := FindByString(s, p.id);
    if i == -1 then s else s[i := Merge(s[i], p)]
  }

  /** The list after `removeTask(id)`. */
  function Removed(s: seq<Task>, id: TaskId): seq<Task> {
    var i := FindStrict(s, id);
    if i == -1 then s else s[..i] + s[i + 1..]
  }

  /**
    `updateTask` keeps the length and every position but the first whose id
    prints like the partial's; that one becomes the merge. With no id, or no
    such task, the list is unchanged.
   */
  lemma UpdatedSpec(s: seq<Task>, p: PartialTask)
    ensures |Updated(s, p)| == |s|
    ensures forall j :: 0 <= j < |s| ==>
      Updated(s, p)[j] ==
        if p.id.Some? && IdString(s[j].id) == IdString(p.id.value)
           && forall k :: 0 <= k < j ==> IdString(s[k].id) != IdString(p.id.value)
        then Merge(s[j], p) else s[j]
    ensures (p.id.None? || forall j :: 0 <= j < |s| ==> IdString(s[j].id) != IdString(p.id.value))
      ==> Updated(s, p) == s
  {
    var i := FindByString(s, p.id);
    forall j | 0 <= j < |s|
      ensures Updated(s, p)[j] ==
        if p.id.Some? && IdString(s[j].id) == IdString(p.id.value)
           && forall k :: 0 <= k < j ==> IdString(s[k].id) != IdString(p.id.value)
        then Merge(s[j], p) else s[j]
    {
      if i >= 0 && j > i {
        assert !(forall k :: 0 <= k < j ==> IdString(s[k].id) != IdString(p.id.value)) by {
          assert IdString(s[i].id) == IdString(p.id.value);
        }
      }
    }
  }

  /** How many tasks carry exactly this id. */
  function CountId(s: seq<Task>, id: TaskId): nat {
    if s == [] then 0 else (if s[0].id == id then 1 else 0) + CountId(s[1..], id)
  }

  lemma {:induction false} CountIdAppend(a: seq<Task>, b: seq<Task>, id: TaskId)
    ensures CountId(a + b, id) == CountId(a, id) + CountId(b, id)
  {
    if a == [] {
      assert a + b == b;
    } else {
      assert (a + b)[1..] == a[1..] + b;
      CountIdAppend(a[1..], b, id);
    }
  }

  lemma CountIdSingle(t: Task, id: TaskId)
    ensures CountId([t], id) == if t.id == id then 1 else 0
  {
    assert [t][1..] == [];
  }

  lemma {:induction false} CountIdZero(s: seq<Task>, id: TaskId)
    requires forall j :: 0 <= j < |s| ==> s[j].id != id
    ensures CountId(s, id) == 0
  {
    if s != [] {
      CountIdZero(s[1..], id);
    }
  }

  /**
    `removeTask` deletes exactly one task, the first strictly equal one:
    the tasks with that id drop by one, every other id keeps its count, the
    rest keep their order (re-inserting the deleted task restores the list),
    and an absent id leaves the list identical.
   */
  lemma RemovedSpec(s: seq<Task>, id: TaskId)
    ensures CountId(s, id) == 0 ==> Removed(s, id) == s
    ensures CountId(s, id) > 0 ==> |Removed(s, id)| == |s| - 1
    ensures CountId(Removed(s, id), id) == if CountId(s, id) > 0 then CountId(s, id) - 1 else 0
    ensures forall other :: other != id ==> CountId(Removed(s, id), other) == CountId(s, other)
    ensures multiset(Removed(s, id)) <= multiset(s)
    ensures forall i :: 0 <= i < |s| && s[i].id == id && (forall j :: 0 <= j < i ==> s[j].id != id) ==>
      s == Removed(s, id)[..i] + [s[i]] + Removed(s, id)[i..]
  {
    var i := FindStrict(s, id);
    if i == -1 {
      CountIdZero(s, id);
    } else {
      var r := Removed(s, id);
      assert s == s[..i] + [s[i]] + s[i + 1..];
      assert r[..i] == s[..i] && r[i..] == s[i + 1..];
      forall other ensures CountId(s, other) == CountId(s[..i], other) + (if s[i].id == other then 1 else 0) + CountId(s[i + 1..], other) {
        CountIdAppend(s[..i] + [s[i]], s[i + 1..], other);
        CountIdAppend(s[..i], [s[i]], other);
        CountIdSingle(s[i], other);
      }
      forall other ensures CountId(r, other) == CountId(s[..i], other) + CountId(s[i + 1..], other) {
        CountIdAppend(s[..i], s[i + 1..], other);
      }
      assert forall j :: 0 <= j < i ==> s[..i][j].id != id;
      CountIdZero(s[..i], id);
      assert CountId(s, id) > 0;
      forall i' | 0 <= i' < |s| && s[i'].id == id && (forall j :: 0 <= j < i' ==> s[j].id != id)
        ensures s == r[..i'] + [s[i']] + r[i'..]
      {
        assert i' == i;
      }
    }
  }

  /** The number 1 never removes the string "1", and the reverse. */
  lemma RemoveIsStrict(s: seq<Task>, n: int)
    requires forall j :: 0 <= j < |s| ==> s[j].id.Str?
    ensures Removed(s, Num(n)) == s
  {
  }

  // The filter of applyFilters

  /** ASCII `toLowerCase`. */
  function LowerChar(c: char): char {
    if 'A' <= c <= 'Z' then (c as int + 32) as char else c
  }

  function Lower(s: string): string {
    if s == [] then [] else [LowerChar(s[0])] + Lower(s[1..])
  }

  /** `toLowerCase` maps each character on its own. */
  lemma {:induction false} LowerSpec(s: string)
    ensures |Lower(s)| == |s|
    ensures forall i :: 0 <= i < |s| ==> Lower(s)[i] == LowerChar(s[i])
  {
    if s != [] {
      LowerSpec(s[1..]);
    }
  }

  /** The white space and line terminators `String.prototype.trim` strips (section 22.1.3.32 of ECMA-262). */
  predicate IsTrimmed(c: char) {
    var u := c as int;
    (0x09 <= u <= 0x0D) || u == 0x20 || u == 0xA0 || u == 0x1680
    || (0x2000 <= u <= 0x200A) || u == 0x2028 || u == 0x2029 || u == 0x202F
    || u == 0x205F || u == 0x3000 || u == 0xFEFF
  }

  function TrimStart(s: string): string {
    if s != [] && IsTrimmed(s[0]) then TrimStart(s[1..]) else s
  }

  function TrimEnd(s: string): string {
    if s != [] && IsTrimmed(s[|s| - 1]) then TrimEnd(s[..|s| - 1]) else s
  }

  /** Trimming the front drops a prefix of stripped characters and stops at the first other one. */
  lemma {:induction false} TrimStartSpec(s: string)
    ensures |TrimStart(s)| <= |s| && TrimStart(s) == s[|s| - |TrimStart(s)|..]
    ensures forall i :: 0 <= i < |s| - |TrimStart(s)| ==> IsTrimmed(s[i])
    ensures TrimStart(s) != [] ==> !IsTrimmed(TrimStart(s)[0])
  {
    if s != [] && IsTrimmed(s[0]) {
      TrimStartSpec(s[1..]);
      forall i | 1 <= i < |s| - |TrimStart(s)| ensures IsTrimmed(s[i]) {
        assert s[i] == s[1..][i - 1];
      }
    }
  }

  /** Trimming the back drops a suffix of stripped characters and stops at the last other one. */
  lemma {:induction false} TrimEndSpec(s: string)
    ensures |TrimEnd(s)| <= |s| && TrimEnd(s) == s[..|TrimEnd(s)|]
    ensures forall i :: |TrimEnd(s)| <= i < |s| ==> IsTrimmed(s[i])
    ensures TrimEnd(s) != [] ==> !IsTrimmed(TrimEnd(s)[|TrimEnd(s)| - 1])
  {
    if s != [] && IsTrimmed(s[|s| - 1]) {
      TrimEndSpec(s[..|s| - 1]);
    }
  }

  /** `s.toLowerCase().trim()`. */
  function Normalize(s: string): string {
    TrimEnd(TrimStart(Lower(s)))
  }

  /** A filter argument constrains only when it is truthy (present and non-empty). */
  predicate Given(arg: Option<string>) {
    arg.Some? && arg.value != ""
  }

  /** The callback of `initialTasks.value.filter(...)`. */
  predicate Matches(t: Task, status: Option<string>, priority: Option<string>) {
    (!Given(status) || t.status == status.value)
    && (!Given(priority) || Normalize(t.priority) == Normalize(priority.value))
  }

  /** `Array.prototype.filter`: the elements the callback accepts, in order. */
  function Filter<T>(s: seq<T>, keep: T -> bool): (r: seq<T>)
    ensures |r| <= |s|
  {
    if s == [] then []
    else Filter(s[..|s| - 1], keep) + (if keep(s[|s| - 1]) then [s[|s| - 1]] else [])
  }

  /** Every element the filter keeps is accepted by the callback. */
  lemma {:induction false} FilterKeeps<T>(s: seq<T>, keep: T -> bool)
    ensures forall i :: 0 <= i < |Filter(s, keep)| ==> keep(Filter(s, keep)[i])
  {
    if s != [] {
      FilterKeeps(s[..|s| - 1], keep);
    }
  }

  /** The filter keeps an element exactly when it is accepted, as many times as it occurs. */
  lemma {:induction false} FilterMultiset<T>(s: seq<T>, keep: T -> bool)
    ensures forall t :: (multiset(Filter(s, keep))[t] == if keep(t) then multiset(s)[t] else 0)
  {
    if s != [] {
      var init, last := s[..|s| - 1], s[|s| - 1];
      FilterMultiset(init, keep);
      assert s == init + [last];
    }
  }

  /** The filter keeps order: filtering a concatenation filters each part. */
  lemma {:induction false} FilterAppend<T>(a: seq<T>, b: seq<T>, keep: T -> bool)
    ensures Filter(a + b, keep) == Filter(a, keep) + Filter(b, keep)
  {
    if b == [] {
      assert a + b == a;
    } else {
      var init, last := b[..|b| - 1], b[|b| - 1];
      assert (a + b)[..|a + b| - 1] == a + init && (a + b)[|a + b| - 1] == last;
      FilterAppend(a, init, keep);
    }
  }

  /** A sequence whose every element is accepted passes the filter unchanged. */
  lemma {:induction false} FilterAllKept<T>(s: seq<T>, keep: T -> bool)
    requires forall i :: 0 <= i < |s| ==> keep(s[i])
    ensures Filter(s, keep) == s
  {
    if s != [] {
      FilterAllKept(s[..|s| - 1], keep);
    }
  }

  /** The filter step of `applyFilters`. */
  function FilterTasks(s: seq<Task>, status: Option<string>, priority: Option<string>): seq<Task> {
    Filter(s, t => Matches(t, status, priority))
  }

  /** A task survives the filter exactly when it matches, as many times as it occurs; the order is kept. */
  lemma FilterTasksSpec(s: seq<Task>, status: Option<string>, priority: Option<string>)
    ensures forall i :: 0 <= i < |FilterTasks(s, status, priority)| ==> Matches(FilterTasks(s, status, priority)[i], status, priority)
    ensures forall t :: (multiset(FilterTasks(s, status, priority))[t] ==
                          if Matches(t, status, priority) then multiset(s)[t] else 0)
  {
    FilterKeeps(s, t => Matches(t, status, priority));
    FilterMultiset(s, t => Matches(t, status, priority));
  }

  /** With no truthy argument the filter is the identity. */
  lemma FilterIdentity(s: seq<Task>, status: Option<string>, priority: Option<string>)
    requires !Given(status) && !Given(priority)
    ensures FilterTasks(s, status, priority) == s
  {
    FilterAllKept(s, t => Matches(t, status, priority));
  }

  /** Filtering twice with the same arguments is filtering once. */
  lemma FilterIdempotent(s: seq<Task>, status: Option<string>, priority: Option<string>)
    ensures FilterTasks(FilterTasks(s, status, priority), status, priority) == FilterTasks(s, status, priority)
  {
    FilterTasksSpec(s, status, priority);
    FilterAllKept(FilterTasks(s, status, priority), t => Matches(t, status, priority));
  }

  predicate AllTrimmed(w: string) {
    forall i :: 0 <= i < |w| ==> IsTrimmed(w[i])
  }

  lemma {:induction false} LowerAppend(a: string, b: string)
    ensures Lower(a + b) == Lower(a) + Lower(b)
  {
    if a == [] {
      assert a + b == b;
    } else {
      assert (a + b)[1..] == a[1..] + b;
      LowerAppend(a[1..], b);
    }
  }

  lemma {:induction false} TrimStartAll(w: string)
    requires AllTrimmed(w)
    ensures TrimStart(w) == []
  {
    if w != [] {
      TrimStartAll(w[1..]);
    }
  }

  lemma {:induction false} TrimStartAppend(y: string, w: string)
    ensures TrimStart(y + w) == if TrimStart(y) == [] then TrimStart(w) else TrimStart(y) + w
  {
    if y == [] {
      assert y + w == w;
    } else if IsTrimmed(y[0]) {
      assert (y + w)[1..] == y[1..] + w;
      TrimStartAppend(y[1..], w);
    }
  }

  lemma {:induction false} TrimEndAppend(y: string, w: string)
    requires AllTrimmed(w)
    ensures TrimEnd(y + w) == TrimEnd(y)
  {
    if w == [] {
      assert y + w == y;
    } else {
      assert (y + w)[..|y + w| - 1] == y + w[..|w| - 1];
      TrimEndAppend(y, w[..|w| - 1]);
    }
  }

  /**
    The priority comparison ignores ASCII case and white space around either
    side: lower-casing an argument, or padding it with characters that `trim`
    strips, changes nothing.
   */
  lemma NormalizeIgnoresCase(s: string)
    ensures Normalize(Lower(s)) == Normalize(s)
  {
    LowerTwice(s);
  }

  lemma LowerTwice(s: string)
    ensures Lower(Lower(s)) == Lower(s)
  {
    var l := Lower(s);
    LowerSpec(s);
    LowerSpec(l);
    forall i | 0 <= i < |s| ensures Lower(l)[i] == l[i] {
      assert l[i] == LowerChar(s[i]);
    }
  }

  lemma LowerAllTrimmed(w: string)
    requires AllTrimmed(w)
    ensures Lower(w) == w
  {
    LowerSpec(w);
    forall i | 0 <= i < |w| ensures Lower(w)[i] == w[i] {
      assert IsTrimmed(w[i]);
    }
  }

  lemma NormalizeIgnoresPadding(w1: string, s: string, w2: string)
    requires AllTrimmed(w1) && AllTrimmed(w2)
    ensures Normalize(w1 + s + w2) == Normalize(s)
  {
    LowerPadded(w1, s, w2);
    TrimPadded(w1, Lower(s), w2);
  }

  lemma LowerPadded(w1: string, s: string, w2: string)
    requires AllTrimmed(w1) && AllTrimmed(w2)
    ensures Lower(w1 + s + w2) == w1 + Lower(s) + w2
  {
    LowerAppend(w1 + s, w2);
    LowerAppend(w1, s);
    LowerAllTrimmed(w1);
    LowerAllTrimmed(w2);
  }

  lemma TrimPadded(w1: string, l: string, w2: string)
    requires AllTrimmed(w1) && AllTrimmed(w2)
    ensures TrimEnd(TrimStart(w1 + l + w2)) == TrimEnd(TrimStart(l))
  {
    assert w1 + l + w2 == w1 + (l + w2);
    TrimStartAll(w1);
    TrimStartAppend(w1, l + w2);
    TrimStartAppend(l, w2);
    if TrimStart(l) == [] {
      TrimStartAll(w2);
    } else {
      TrimEndAppend(TrimStart(l), w2);
    }
  }

  // The due-date sort

  /** Ascending order compares `dueDate`; descending compares its negation. */
  function Key(t: Task, descending: bool): int {
    if descending then -t.dueDate else t.dueDate
  }

  predicate SortedBy(s: seq<Task>, descending: bool) {
    forall i, j :: 0 <= i < j < |s| ==> Key(s[i], descending) <= Key(s[j], descending)
  }

  /** Places `x` after every element whose key is at most its own. */
  function Insert(s: seq<Task>, x: Task, descending: bool): seq<Task> {
    if s == [] || Key(s[|s| - 1], descending) <= Key(x, descending) then s + [x]
    else Insert(s[..|s| - 1], x, descending) + [s[|s| - 1]]
  }

  /** A stable sort of `s` by due date (the behaviour `Array.prototype.sort` guarantees). */
  function SortByDue(s: seq<Task>, descending: bool): seq<Task> {
    if s == [] then [] else Insert(SortByDue(s[..|s| - 1], descending), s[|s| - 1], descending)
  }

  /** The tasks of `s` due at exactly `d`, in order. */
  function DueAt(s: seq<Task>, d: int): seq<Task> {
    if s == [] then [] else DueAt(s[..|s| - 1], d) + (if s[|s| - 1].dueDate == d then [s[|s| - 1]] else [])
  }

  lemma {:induction false} InsertMultiset(s: seq<Task>, x: Task, descending: bool)
    ensures multiset(Insert(s, x, descending)) == multiset(s) + multiset{x}
  {
    if !(s == [] || Key(s[|s| - 1], descending) <= Key(x, descending)) {
      InsertMultiset(s[..|s| - 1], x, descending);
      assert s == s[..|s| - 1] + [s[|s| - 1]];
    }
  }

  lemma {:induction false} InsertSorted(s: seq<Task>, x: Task, descending: bool)
    requires SortedBy(s, descending)
    ensures SortedBy(Insert(s, x, descending), descending)
  {
    if !(s == [] || Key(s[|s| - 1], descending) <= Key(x, descending)) {
      var init, last := s[..|s| - 1], s[|s| - 1];
      InsertSorted(init, x, descending);
      var r := Insert(init, x, descending);
      InsertMultiset(init, x, descending);
      forall i | 0 <= i < |r| ensures Key(r[i], descending) <= Key(last, descending) {
        assert r[i] in multiset(r);
        if r[i] != x {
          assert r[i] in multiset(init);
          var k :| 0 <= k < |init| && init[k] == r[i];
          assert s[k] == r[i];
        }
      }
    }
  }

  /** Appending one task adds it to the tasks due at its own date only. */
  lemma DueAtSnoc(s: seq<Task>, x: Task, d: int)
    ensures DueAt(s + [x], d) == DueAt(s, d) + (if x.dueDate == d then [x] else [])
  {
    var all := s + [x];
    assert all[..|all| - 1] == s && all[|all| - 1] == x;
  }

  lemma {:induction false} InsertStable(s: seq<Task>, x: Task, descending: bool, d: int)
    ensures DueAt(Insert(s, x, descending), d) == DueAt(s, d) + (if x.dueDate == d then [x] else [])
  {
    if s == [] || Key(s[|s| - 1], descending) <= Key(x, descending) {
      DueAtSnoc(s, x, d);
    } else {
      var init, last := s[..|s| - 1], s[|s| - 1];
      InsertStable(init, x, descending, d);
      DueAtSnoc(Insert(init, x, descending), last, d);
      assert !(x.dueDate == d && last.dueDate == d);
    }
  }

  /** A non-empty sequence holds its prefix and its last element. */
  lemma MultisetSnoc(s: seq<Task>)
    requires s != []
    ensures multiset(s) == multiset(s[..|s| - 1]) + multiset{s[|s| - 1]}
  {
    assert s == s[..|s| - 1] + [s[|s| - 1]];
  }

  lemma {:induction false} SortMultiset(s: seq<Task>, descending: bool)
    ensures multiset(SortByDue(s, descending)) == multiset(s)
  {
    if s != [] {
      var init, last := s[..|s| - 1], s[|s| - 1];
      var r := SortByDue(init, descending);
      assert SortByDue(s, descending) == Insert(r, last, descending);
      SortMultiset(init, descending);
      InsertMultiset(r, last, descending);
      MultisetSnoc(s);
    }
  }

  lemma {:induction false} SortSorted(s: seq<Task>, descending: bool)
    ensures SortedBy(SortByDue(s, descending), descending)
  {
    if s != [] {
      SortSorted(s[..|s| - 1], descending);
      InsertSorted(SortByDue(s[..|s| - 1], descending), s[|s| - 1], descending);
    }
  }

  lemma {:induction false} SortStable(s: seq<Task>, descending: bool, d: int)
    ensures DueAt(SortByDue(s, descending), d) == DueAt(s, d)
  {
    if s != [] {
      SortStable(s[..|s| - 1], descending, d);
      InsertStable(SortByDue(s[..|s| - 1], descending), s[|s| - 1], descending, d);
    }
  }

  /**
    Sorting by due date yields a permutation of its input with non-decreasing
    timestamps (non-increasing when descending) in which tasks due at the same
    time keep their original relative order.
   */
  lemma SortByDueSpec(s: seq<Task>, descending: bool)
    ensures multiset(SortByDue(s, descending)) == multiset(s)
    ensures !descending ==> forall i, j :: 0 <= i < j < |SortByDue(s, descending)| ==>
      SortByDue(s, descending)[i].dueDate <= SortByDue(s, descending)[j].dueDate
    ensures descending ==> forall i, j :: 0 <= i < j < |SortByDue(s, descending)| ==>
      SortByDue(s, descending)[i].dueDate >= SortByDue(s, descending)[j].dueDate
    ensures forall d :: DueAt(SortByDue(s, descending), d) == DueAt(s, d)
  {
    SortMultiset(s, descending);
    SortSorted(s, descending);
    forall d ensures DueAt(SortByDue(s, descending), d) == DueAt(s, d) {
      SortStable(s, descending, d);
    }
  }

  // The whole of applyFilters

  /** The list `applyFilters(status, priority, sortBy)` installs, given the snapshot. */
  function View(snapshot: seq<Task>, status: Option<string>, priority: Option<string>, sortBy: Option<string>): seq<Task> {
    var filtered := FilterTasks(snapshot, status, priority);
    if sortBy == Some("dueDate") then SortByDue(filtered, false)
    else if sortBy == Some("dueDateDesc") then SortByDue(filtered, true)
    else filtered
  }

  /**
    Without a recognised `sortBy` the view is the filtered snapshot in its
    own order; with one it is a permutation of it.
   */
  lemma ViewSpec(snapshot: seq<Task>, status: Option<string>, priority: Option<string>, sortBy: Option<string>)
    ensures sortBy != Some("dueDate") && sortBy != Some("dueDateDesc") ==>
      View(snapshot, status, priority, sortBy) == FilterTasks(snapshot, status, priority)
    ensures forall t :: (multiset(View(snapshot, status, priority, sortBy))[t] ==
                          if Matches(t, status, priority) then multiset(snapshot)[t] else 0)
    ensures sortBy == Some("dueDate") ==> forall i, j :: 0 <= i < j < |View(snapshot, status, priority, sortBy)| ==>
      View(snapshot, status, priority, sortBy)[i].dueDate <= View(snapshot, status, priority, sortBy)[j].dueDate
    ensures sortBy == Some("dueDateDesc") ==> forall i, j :: 0 <= i < j < |View(snapshot, status, priority, sortBy)| ==>
      View(snapshot, status, priority, sortBy)[i].dueDate >= View(snapshot, status, priority, sortBy)[j].dueDate
  {
    var filtered := FilterTasks(snapshot, status, priority);
    FilterTasksSpec(snapshot, status, priority);
    SortByDueSpec(filtered, false);
    SortByDueSpec(filtered, true);
  }
}
