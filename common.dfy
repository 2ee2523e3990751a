/**
  The class-name helper `cn` of src/util/common.ts: keep the truthy
  arguments and join them with a single space.
 */
module Common {

  /** One argument of `cn`: `string | undefined | null | boolean`. */
  datatype ClassValue = Str(s: string) | Undef | Null | Bool(b: bool)

  /** JavaScript's `Boolean(v)`: the empty string, `false`, `undefined` and `null` are falsy. */
  predicate Truthy(v: ClassValue) {
    match v
    case Str(s) => s != ""
    case Bool(b) => b
    case _ => false
  }

  /** How `Array.prototype.join` renders an element that survived the filter. */
  function Render(v: ClassValue): string {
    match v
    case Str(s) => s
    case Bool(b) => if b then "true" else "false"
    case _ => ""
  }

  /** `classes.filter(Boolean)`: the truthy arguments, in their order. */
  function Kept(args: seq<ClassValue>): (r: seq<ClassValue>)
    ensures |r| <= |args|
    ensures forall i :: 0 <= i < |r| ==> Truthy(r[i])
  {
    if args == [] then []
    else (if Truthy(args[0]) then [args[0]] else []) + Kept(args[1..])
  }

  function Rendered(vs: seq<ClassValue>): (r: seq<string>)
    ensures |r| == |vs|
    ensures forall i :: 0 <= i < |vs| ==> r[i] == Render(vs[i])
  {
    if vs == [] then [] else [Render(vs[0])] + Rendered(vs[1..])
  }

  /** `parts.join(' ')`. */
  function Join(parts: seq<string>): string {
    if |parts| == 0 then ""
    else if |parts| == 1 then parts[0]
    else parts[0] + " " + Join(parts[1..])
  }

  /** `cn(...classes)`. */
  function Cn(args: seq<ClassValue>): string {
    Join(Rendered(Kept(args)))
  }

  /** A truthy argument never renders as the empty string. */
  lemma TruthyRendersNonEmpty(v: ClassValue)
    requires Truthy(v)
    ensures Render(v) != ""
  {
  }

  lemma {:induction false} KeptAppend(a: seq<ClassValue>, b: seq<ClassValue>)
    ensures Kept(a + b) == Kept(a) + Kept(b)
  {
    if a == [] {
      assert a + b == b;
    } else {
      assert (a + b)[1..] == a[1..] + b;
      KeptAppend(a[1..], b);
    }
  }

  /** An argument survives the filter exactly when it is truthy. */
  lemma {:induction false} KeptMembers(args: seq<ClassValue>, v: ClassValue)
    ensures v in Kept(args) <==> v in args && Truthy(v)
  {
    if args != [] {
      KeptMembers(args[1..], v);
      assert args == [args[0]] + args[1..];
    }
  }

  lemma {:induction false} RenderedAppend(a: seq<ClassValue>, b: seq<ClassValue>)
    ensures Rendered(a + b) == Rendered(a) + Rendered(b)
  {
    if a == [] {
      assert a + b == b;
    } else {
      assert (a + b)[1..] == a[1..] + b;
      RenderedAppend(a[1..], b);
    }
  }

  lemma {:induction false} JoinAppend(p: seq<string>, q: seq<string>)
    requires p != [] && q != []
    ensures Join(p + q) == Join(p) + " " + Join(q)
  {
    if |p| == 1 {
      assert (p + q)[1..] == q;
    } else {
      assert (p + q)[1..] == p[1..] + q;
      JoinAppend(p[1..], q);
    }
  }

  /** Joining only non-empty parts gives "" exactly when there are no parts. */
  lemma {:induction false} JoinEmpty(p: seq<string>)
    requires forall i :: 0 <= i < |p| ==> p[i] != ""
    ensures Join(p) == "" <==> p == []
  {
    if |p| > 1 {
      assert |Join(p)| >= |p[0]| + 1;
    }
  }

  /** With no truthy argument, `cn` returns the empty string, and only then. */
  lemma {:induction false} CnEmptyIffNoTruthy(args: seq<ClassValue>)
    ensures Cn(args) == "" <==> forall i :: 0 <= i < |args| ==> !Truthy(args[i])
  {
    var k := Kept(args);
    forall i | 0 <= i < |k| ensures Rendered(k)[i] != "" {
      TruthyRendersNonEmpty(k[i]);
    }
    JoinEmpty(Rendered(k));
    if k == [] {
      forall i | 0 <= i < |args| ensures !Truthy(args[i]) {
        KeptMembers(args, args[i]);
      }
    } else {
      KeptMembers(args, k[0]);
    }
  }

  /**
    `cn(...a, ...b)`: the two halves' outputs, separated by one space when both
    are non-empty and by nothing otherwise.
   */
  lemma CnAppend(a: seq<ClassValue>, b: seq<ClassValue>)
    ensures Cn(a + b) ==
      if Cn(a) == "" then Cn(b)
      else if Cn(b) == "" then Cn(a)
      else Cn(a) + " " + Cn(b)
  {
    KeptAppend(a, b);
    RenderedAppend(Kept(a), Kept(b));
    CnEmptyIffNoTruthy(a);
    CnEmptyIffNoTruthy(b);
    if Kept(a) == [] {
      assert Kept(a) + Kept(b) == Kept(b);
    } else if Kept(b) == [] {
      assert Kept(a) + Kept(b) == Kept(a);
    } else {
      KeptMembers(a, Kept(a)[0]);
      KeptMembers(b, Kept(b)[0]);
      JoinAppend(Rendered(Kept(a)), Rendered(Kept(b)));
    }
  }

  /** Dropping a falsy argument anywhere adds no space to the output. */
  lemma CnDropsFalsy(a: seq<ClassValue>, f: ClassValue, b: seq<ClassValue>)
    requires !Truthy(f)
    ensures Cn(a + [f] + b) == Cn(a + b)
  {
    KeptAppend(a + [f], b);
    KeptAppend(a, [f]);
    KeptAppend(a, b);
    assert Kept([f]) == [];
    assert Kept(a) + [] == Kept(a);
  }

  /** `cn(base, undefined)` with a non-empty base is the base itself. */
  lemma CnWithUndefined(base: string)
    requires base != ""
    ensures Cn([Str(base), Undef]) == base
  {
    assert [Str(base), Undef][1..] == [Undef];
    assert Kept([Str(base), Undef]) == [Str(base)];
  }

  /** `cn(base, c)` with both non-empty is `base + " " + c`. */
  lemma CnTwoClasses(base: string, c: string)
    requires base != "" && c != ""
    ensures Cn([Str(base), Str(c)]) == base + " " + c
  {
    assert [Str(base), Str(c)][1..] == [Str(c)];
    assert Kept([Str(base), Str(c)]) == [Str(base), Str(c)];
    assert Rendered([Str(base), Str(c)]) == [base, c];
    assert [base, c][1..] == [c];
    assert Join([base, c]) == base + " " + Join([c]);
  }

  /** A `true` argument is kept and rendered as the text "true". */
  lemma CnTrue(a: seq<ClassValue>)
    requires forall i :: 0 <= i < |a| ==> !Truthy(a[i])
    ensures Cn(a + [Bool(true)]) == "true"
  {
    CnAppend(a, [Bool(true)]);
    CnEmptyIffNoTruthy(a);
  }

  // Splitting the output back into class names

  function FirstSpace(s: string): (i: nat)
    ensures i <= |s|
    ensures forall j :: 0 <= j < i ==> s[j] != ' '
    ensures i < |s| ==> s[i] == ' '
  {
    if s == [] then 0 else if s[0] == ' ' then 0 else 1 + FirstSpace(s[1..])
  }

  /** `s.split(' ')`. */
  function Split(s: string): (r: seq<string>)
    ensures r != []
    decreases |s|
  {
    var i := FirstSpace(s);
    if i == |s| then [s] else [s[..i]] + Split(s[i + 1..])
  }

  lemma FirstSpaceAfter(p: string, rest: string)
    requires ' ' !in p
    ensures FirstSpace(p + " " + rest) == |p|
  {
    var s := p + " " + rest;
    var i := FirstSpace(s);
    assert s[|p|] == ' ';
  }

  lemma {:induction false} SplitJoin(parts: seq<string>)
    requires parts != []
    requires forall i :: 0 <= i < |parts| ==> ' ' !in parts[i]
    ensures Split(Join(parts)) == parts
  {
    if |parts| == 1 {
      assert FirstSpace(parts[0]) == |parts[0]|;
    } else {
      var s := Join(parts);
      FirstSpaceAfter(parts[0], Join(parts[1..]));
      assert s[..|parts[0]|] == parts[0];
      assert s[|parts[0]| + 1..] == Join(parts[1..]);
      SplitJoin(parts[1..]);
    }
  }

  /**
    When no class name contains a space, splitting the output of `cn` on
    spaces gives back exactly the truthy arguments, rendered, in order.
   */
  lemma CnSplitRoundTrip(args: seq<ClassValue>)
    requires exists i :: 0 <= i < |args| && Truthy(args[i])
    requires forall i :: 0 <= i < |args| ==> ' ' !in Render(args[i])
    ensures Split(Cn(args)) == Rendered(Kept(args))
  {
    var i :| 0 <= i < |args| && Truthy(args[i]);
    KeptMembers(args, args[i]);
    var k := Kept(args);
    forall j | 0 <= j < |k| ensures ' ' !in Rendered(k)[j] {
      KeptMembers(args, k[j]);
    }
    SplitJoin(Rendered(k));
  }
}
