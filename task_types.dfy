/**
  The task record of src/types/task.d.ts, the two kinds of id the schema
  allows (number or string), the `toString` the store compares ids by, and
  the spread `{ ...task, ...partial }` that `updateTask` applies.
 */
module TaskTypes {
  import opened Wrappers

  /** `id: number | string`. */
  datatype TaskId = Num(n: int) | Str(s: string)

  datatype Assignee = Assignee(name: string, avatar: string)
  datatype Subtask = Subtask(id: string, title: string, completed: bool)
  datatype Comment = Comment(id: string, content: string, authorName: string, authorAvatar: string, createdAt: string)
  datatype Attachment = Attachment(name: string, url: string, mimeType: string)

  /** A task; `dueDate` is the timestamp its date string denotes. */
  datatype Task = Task(
    id: TaskId,
    title: string,
    description: Option<string>,
    status: string,
    priority: string,
    dueDate: int,
    assignee: Option<Assignee>,
    subTasks: Option<seq<Subtask>>,
    comments: Option<seq<Comment>>,
    labels: Option<seq<string>>,
    attachments: Option<seq<Attachment>>)

  /** `Partial<Task>`: a field is either present with a value or absent. */
  datatype PartialTask = PartialTask(
    id: Option<TaskId>,
    title: Option<string>,
    description: Option<string>,
    status: Option<string>,
    priority: Option<string>,
    dueDate: Option<int>,
    assignee: Option<Assignee>,
    subTasks: Option<seq<Subtask>>,
    comments: Option<seq<Comment>>,
    labels: Option<seq<string>>,
    attachments: Option<seq<Attachment>>)

  const NoChanges := PartialTask(None, None, None, None, None, None, None, None, None, None, None)

  /** Overwrites an optional field only when the partial carries it. */
  function Over<T>(field: Option<T>, update: Option<T>): Option<T> {
    if update.Some? then update else field
  }

  /** `{ ...t, ...p }`: every field present in `p` wins, including `id`. */
  function Merge(t: Task, p: PartialTask): Task {
    Task(
      p.id.GetOr(t.id),
      p.title.GetOr(t.title),
      Over(t.description, p.description),
      p.status.GetOr(t.status),
      p.priority.GetOr(t.priority),
      p.dueDate.GetOr(t.dueDate),
      Over(t.assignee, p.assignee),
      Over(t.subTasks, p.subTasks),
      Over(t.comments, p.comments),
      Over(t.labels, p.labels),
      Over(t.attachments, p.attachments))
  }

  /** A task's own fields as a partial record. */
  function PartialOf(t: Task): PartialTask {
    PartialTask(Some(t.id), Some(t.title), t.description, Some(t.status), Some(t.priority),
                Some(t.dueDate), t.assignee, t.subTasks, t.comments, t.labels, t.attachments)
  }

  /** Merging an empty partial changes nothing. */
  lemma MergeNoChanges(t: Task)
    ensures Merge(t, NoChanges) == t
  {
  }

  /** Merging a task's complete record over any task yields that task (optional fields it lacks aside). */
  lemma MergePartialOf(t: Task, u: Task)
    requires u.description.Some? && u.assignee.Some? && u.subTasks.Some?
    requires u.comments.Some? && u.labels.Some? && u.attachments.Some?
    ensures Merge(t, PartialOf(u)) == u
  {
  }

  /** Merging the same partial twice is merging it once. */
  lemma MergeIdempotent(t: Task, p: PartialTask)
    ensures Merge(Merge(t, p), p) == Merge(t, p)
  {
  }

  // Number.prototype.toString for integers

  function DigitChar(d: nat): (c: char)
    requires d < 10
    ensures '0' <= c <= '9'
  {
    ('0' as int + d) as char
  }

  function DigitValue(c: char): nat {
    if '0' <= c <= '9' then (c as int - '0' as int) else 0
  }

  /** Decimal digits of a natural number, most significant first, no leading zeros. */
  function NatToString(n: nat): (s: string)
    ensures |s| >= 1
    ensures forall i :: 0 <= i < |s| ==> '0' <= s[i] <= '9'
  {
    if n < 10 then [DigitChar(n)] else NatToString(n / 10) + [DigitChar(n % 10)]
  }

  function IntToString(n: int): string {
    if n < 0 then "-" + NatToString(-n) else NatToString(n)
  }

  /** `id.toString()`. */
  function IdString(id: TaskId): string {
    match id
    case Num(n) => IntToString(n)
    case Str(s) => s
  }

  /** Reads decimal digits back (the partner of NatToString). */
  function ParseNat(s: string): nat {
    if s == [] then 0 else 10 * ParseNat(s[..|s| - 1]) + DigitValue(s[|s| - 1])
  }

  lemma {:induction false} ParseNatToString(n: nat)
    ensures ParseNat(NatToString(n)) == n
  {
    var s := NatToString(n);
    if n >= 10 {
      assert s[..|s| - 1] == NatToString(n / 10);
      ParseNatToString(n / 10);
    }
  }

  /** A negative number prints as a minus sign followed by the digits of its magnitude. */
  lemma NegativeToString(n: int)
    requires n < 0
    ensures IntToString(n)[0] == '-' && IntToString(n)[1..] == NatToString(-n)
  {
    assert IntToString(n) == "-" + NatToString(-n);
  }

  /** A non-negative number prints as its digits, with no sign. */
  lemma NonNegativeToString(n: int)
    requires n >= 0
    ensures IntToString(n) == NatToString(n) && IntToString(n)[0] != '-'
  {
  }

  /** Distinct natural numbers print differently. */
  lemma NatToStringInjective(a: nat, b: nat)
    requires NatToString(a) == NatToString(b)
    ensures a == b
  {
    ParseNatToString(a);
    ParseNatToString(b);
  }

  /** Distinct integers print differently. */
  lemma IntToStringInjective(a: int, b: int)
    requires IntToString(a) == IntToString(b)
    ensures a == b
  {
    if a < 0 && b < 0 {
      NegativeToString(a);
      NegativeToString(b);
      NatToStringInjective(-a, -b);
    } else if a < 0 {
      NegativeToString(a);
      NonNegativeToString(b);
    } else if b < 0 {
      NonNegativeToString(a);
      NegativeToString(b);
    } else {
      NatToStringInjective(a, b);
    }
  }

  /**
    Between two ids of the same kind, comparing `toString()` is strict
    equality; the two differ only across kinds.
   */
  lemma IdStringSameKind(a: TaskId, b: TaskId)
    requires a.Num? == b.Num?
    ensures IdString(a) == IdString(b) <==> a == b
  {
    if a.Num? && IdString(a) == IdString(b) {
      IntToStringInjective(a.n, b.n);
    }
  }

  /** The number `n` and the string of its digits match by `toString` but are not strictly equal. */
  lemma IdStringAcrossKinds(n: int)
    ensures IdString(Num(n)) == IdString(Str(IntToString(n)))
    ensures Num(n) != Str(IntToString(n))
  {
  }
}
