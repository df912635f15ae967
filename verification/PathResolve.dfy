/** The path normaliser: a path's components folded over a stack. */
module PathResolve {
  import Radix

  // ----- Components -----

  /** The first slash at or after i, or the end. */
  function Next(s: string, i: nat): (e: nat)
    requires i <= |s|
    ensures i <= e <= |s| && '/' !in s[i..e] && (e < |s| ==> s[e] == '/')
    decreases |s| - i
  {
    if i == |s| || s[i] == '/' then i
    else
      var e := Next(s, i + 1);
      assert s[i..e] == [s[i]] + s[i + 1..e];
      e
  }

  /** The components of s from i on: the strings between its slashes. */
  function Components(s: string, i: nat): seq<string>
    requires i <= |s|
    decreases |s| - i
  {
    var e := Next(s, i);
    [s[i..e]] + if e == |s| then [] else Components(s, e + 1)
  }

  /** Empty components and "." are dropped, ".." pops and stays at the root. */
  function Step(stack: seq<string>, c: string): seq<string>
  {
    if c == "" || c == "." then stack
    else if c == ".." then if stack == [] then [] else stack[..|stack| - 1]
    else stack + [c]
  }

  function Fold(stack: seq<string>, cs: seq<string>): seq<string>
    decreases |cs|
  {
    if cs == [] then stack else Fold(Step(stack, cs[0]), cs[1..])
  }

  /** The fold over the components from i on, as the loop makes it. */
  function FoldFrom(s: string, i: nat, stack: seq<string>): seq<string>
    requires i <= |s|
    decreases |s| - i
  {
    var e := Next(s, i);
    var top := Step(stack, s[i..e]);
    if e == |s| then top else FoldFrom(s, e + 1, top)
  }

  lemma {:induction false} FoldIsFold(s: string, i: nat, stack: seq<string>)
    requires i <= |s|
    ensures FoldFrom(s, i, stack) == Fold(stack, Components(s, i))
    decreases |s| - i
  {
    hide Step;
    var e := Next(s, i);
    var cs, top := Components(s, i), Step(stack, s[i..e]);
    if e == |s| {
      assert Fold(top, cs[1..]) == top;
    } else {
      FoldIsFold(s, e + 1, top);
      assert cs[1..] == Components(s, e + 1);
    }
  }

  // ----- Strings of stacks -----

  predicate Proper(c: string)
  {
    c != "" && c != "." && c != ".." && '/' !in c
  }

  predicate AllProper(stack: seq<string>)
  {
    forall k :: 0 <= k < |stack| ==> Proper(stack[k])
  }

  /** Each component behind a slash. */
  function Body(stack: seq<string>): string
  {
    if stack == [] then "" else Body(stack[..|stack| - 1]) + "/" + stack[|stack| - 1]
  }

  /** The string the loop works on, with a slash at its end. */
  function Work(stack: seq<string>): string
  {
    Body(stack) + "/"
  }

  /** The normalised path. */
  function Render(stack: seq<string>): string
  {
    if stack == [] then "/" else Body(stack)
  }

  lemma BodyStep(stack: seq<string>, c: string)
    ensures Body(stack + [c]) == Body(stack) + "/" + c
  {
    assert (stack + [c])[..|stack|] == stack;
  }

  lemma StepProper(stack: seq<string>, c: string)
    requires AllProper(stack) && '/' !in c
    ensures AllProper(Step(stack, c))
  {
  }

  lemma {:induction false} FoldProper(s: string, i: nat, stack: seq<string>)
    requires i <= |s| && AllProper(stack)
    ensures AllProper(FoldFrom(s, i, stack))
    decreases |s| - i
  {
    hide Step, AllProper;
    var e := Next(s, i);
    StepProper(stack, s[i..e]);
    if e < |s| {
      FoldProper(s, e + 1, Step(stack, s[i..e]));
    }
  }

  lemma {:induction false} BodyPrefix(stack: seq<string>, k: nat)
    requires k <= |stack|
    ensures Body(stack[..k]) <= Body(stack)
    decreases |stack| - k
  {
    if k == |stack| {
      assert stack[..k] == stack;
    } else {
      BodyPrefix(stack, k + 1);
      assert stack[..k + 1][..k] == stack[..k];
    }
  }

  lemma {:induction false} NextIs(s: string, i: nat, e: nat)
    requires i <= e <= |s| && '/' !in s[i..e] && (e < |s| ==> s[e] == '/')
    ensures Next(s, i) == e
    decreases e - i
  {
    if i < e {
      assert s[i] in s[i..e];
      assert s[i + 1..e] <= s[i + 1..e];
      forall j | i + 1 <= j < e
        ensures s[j] != '/'
      {
        assert s[j] in s[i..e];
      }
      NextIs(s, i + 1, e);
    }
  }

  /** Component k of the string of a stack. */
  lemma BodyAt(stack: seq<string>, k: nat)
    requires k < |stack| && AllProper(stack)
    ensures var s := Body(stack);
            var i, e := |Body(stack[..k])| + 1, |Body(stack[..k + 1])|;
            i <= e <= |s| && s[i - 1] == '/' && s[i..e] == stack[k] && Next(s, i) == e
  {
    var s := Body(stack);
    var i, e := |Body(stack[..k])| + 1, |Body(stack[..k + 1])|;
    BodyPrefix(stack, k + 1);
    assert stack[..k + 1][..k] == stack[..k];
    assert Body(stack[..k + 1]) == Body(stack[..k]) + "/" + stack[k];
    assert s[..e] == Body(stack[..k + 1]);
    assert s[i..e] == stack[k] by { assert s[i..e] == s[..e][i..e]; }
    assert s[i - 1] == s[..e][i - 1];
    if k + 1 < |stack| {
      BodyPrefix(stack, k + 2);
      assert stack[..k + 2][..k + 1] == stack[..k + 1];
      assert s[e] == Body(stack[..k + 2])[e];
    } else {
      assert stack[..k + 1] == stack;
    }
    NextIs(s, i, e);
  }

  lemma FoldUnfold(s: string, i: nat, stack: seq<string>, e: nat, c: string)
    requires i <= |s| && e == Next(s, i) && c == s[i..e]
    ensures FoldFrom(s, i, stack) == if e == |s| then Step(stack, c) else FoldFrom(s, e + 1, Step(stack, c))
  {
  }

  lemma StepNext(stack: seq<string>, k: nat)
    requires k < |stack| && AllProper(stack)
    ensures Step(stack[..k], stack[k]) == stack[..k + 1]
    ensures k + 1 == |stack| ==> stack[..k + 1] == stack
  {
    assert Proper(stack[k]);
  }

  lemma {:induction false} FoldBody(stack: seq<string>, k: nat)
    requires k < |stack| && AllProper(stack)
    ensures |Body(stack[..k])| + 1 <= |Body(stack)|
    ensures FoldFrom(Body(stack), |Body(stack[..k])| + 1, stack[..k]) == stack
    decreases |stack| - k
  {
    hide *;
    BodyAt(stack, k);
    FoldUnfold(Body(stack), |Body(stack[..k])| + 1, stack[..k], |Body(stack[..k + 1])|, stack[k]);
    StepNext(stack, k);
    if k + 1 < |stack| {
      FoldBody(stack, k + 1);
    }
  }

  /** The string of a stack of proper names folds to that stack. */
  lemma FoldRender(stack: seq<string>)
    requires AllProper(stack)
    ensures FoldFrom(Render(stack), 0, []) == stack
  {
    if stack == [] {
      assert Next("/", 0) == 0 && Next("/", 1) == 1;
      assert FoldFrom("/", 1, []) == [];
    } else {
      BodyAt(stack, 0);
      FoldBody(stack, 0);
      assert stack[..0] == [];
      assert Next(Body(stack), 0) == 0;
    }
  }

  // ----- The normalised path -----

  function Resolved(s: string): string
  {
    Render(FoldFrom(s, 0, []))
  }

  /** Absolute, made of proper names only, and without a slash at its end unless it is the root. */
  predicate Normal(r: string)
  {
    && |r| > 0 && r[0] == '/'
    && (r == "/" || (r[|r| - 1] != '/' && AllProper(Components(r, 1))))
  }

  lemma ComponentsUnfold(s: string, i: nat, e: nat, c: string)
    requires i <= |s| && e == Next(s, i) && c == s[i..e]
    ensures Components(s, i) == [c] + if e == |s| then [] else Components(s, e + 1)
  {
  }

  /** The components of a stack's string are the names on the stack. */
  lemma {:induction false} ComponentsBody(stack: seq<string>, k: nat, cs: seq<string>)
    requires k < |stack| && AllProper(stack) && cs == stack[k..]
    ensures |Body(stack[..k])| + 1 <= |Body(stack)|
    ensures Components(Body(stack), |Body(stack[..k])| + 1) == cs
    decreases |stack| - k
  {
    hide *;
    BodyAt(stack, k);
    ComponentsUnfold(Body(stack), |Body(stack[..k])| + 1, |Body(stack[..k + 1])|, stack[k]);
    if k + 1 < |stack| {
      var rest := stack[k + 1..];
      ComponentsBody(stack, k + 1, rest);
      BodyAt(stack, k + 1);
      assert cs == [stack[k]] + rest;
    } else {
      StepNext(stack, k);
      assert cs == [stack[k]];
    }
  }

  lemma RenderNormal(stack: seq<string>)
    requires AllProper(stack)
    ensures Normal(Render(stack))
  {
    hide Components;
    if stack != [] {
      ComponentsBody(stack, 0, stack);
      BodyAt(stack, 0);
      assert stack[..0] == [];
      var last := stack[|stack| - 1];
      assert Proper(last) && last[|last| - 1] in last;
      assert Body(stack)[|Body(stack)| - 1] == last[|last| - 1];
    }
  }

  /** The result is normal, for every input. */
  lemma ResolvedNormal(s: string)
    ensures Normal(Resolved(s))
  {
    hide FoldFrom, Normal, Render;
    FoldProper(s, 0, []);
    RenderNormal(FoldFrom(s, 0, []));
  }

  /** Resolving twice is resolving once. */
  lemma ResolvedTwice(s: string)
    ensures Resolved(Resolved(s)) == Resolved(s)
  {
    hide FoldFrom, Render;
    FoldProper(s, 0, []);
    FoldRender(FoldFrom(s, 0, []));
  }

  // ----- What each component does -----

  lemma PartBehind(s: string, t: string, i: nat, e: nat, u: string)
    requires u == s + "/" + t && i <= e <= |t|
    ensures |u| == |s| + 1 + |t| && u[|s| + 1 + i..|s| + 1 + e] == t[i..e]
    ensures e < |t| ==> u[|s| + 1 + e] == t[e]
  {
  }

  lemma PartBefore(s: string, t: string, i: nat, e: nat, u: string)
    requires u == s + "/" + t && i <= e <= |s|
    ensures |u| == |s| + 1 + |t| && u[i..e] == s[i..e] && u[e] == if e < |s| then s[e] else '/'
  {
  }

  /** The components of u from |s| + 1 + i on are those of t from i on, when t ends u. */
  lemma {:induction false} ComponentsShift(s: string, t: string, i: nat, u: string)
    requires |u| == |s| + 1 + |t| && i <= |t| && u == s + "/" + t
    ensures Components(u, |s| + 1 + i) == Components(t, i)
    decreases |t| - i
  {
    hide *;
    var e, n := Next(t, i), |s| + 1;
    PartBehind(s, t, i, e, u);
    NextIs(u, n + i, n + e);
    ComponentsUnfold(t, i, e, t[i..e]);
    ComponentsUnfold(u, n + i, n + e, t[i..e]);
    if e < |t| {
      ComponentsShift(s, t, e + 1, u);
    }
  }

  lemma {:induction false} ComponentsJoin(s: string, t: string, i: nat, u: string)
    requires |u| == |s| + 1 + |t| && i <= |s| && u == s + "/" + t
    ensures Components(u, i) == Components(s, i) + Components(t, 0)
    decreases |s| - i
  {
    hide *;
    var e := Next(s, i);
    PartBefore(s, t, i, e, u);
    NextIs(u, i, e);
    ComponentsUnfold(s, i, e, s[i..e]);
    ComponentsUnfold(u, i, e, s[i..e]);
    if e == |s| {
      ComponentsShift(s, t, 0, u);
    } else {
      ComponentsJoin(s, t, e + 1, u);
    }
  }

  lemma {:induction false} FoldConcat(stack: seq<string>, cs: seq<string>, ds: seq<string>)
    ensures Fold(stack, cs + ds) == Fold(Fold(stack, cs), ds)
    decreases |cs|
  {
    hide Step;
    if cs == [] {
      assert cs + ds == ds;
    } else {
      assert (cs + ds)[1..] == cs[1..] + ds;
      FoldConcat(Step(stack, cs[0]), cs[1..], ds);
    }
  }

  /** One more component behind a slash is one more step of the fold. */
  lemma FoldMore(s: string, c: string)
    requires '/' !in c
    ensures FoldFrom(s + "/" + c, 0, []) == Step(FoldFrom(s, 0, []), c)
  {
    hide Step, Next;
    var u := s + "/" + c;
    assert c[0..|c|] == c;
    NextIs(c, 0, |c|);
    assert Components(c, 0) == [c];
    ComponentsJoin(s, c, 0, u);
    FoldIsFold(u, 0, []);
    FoldIsFold(s, 0, []);
    FoldConcat([], Components(s, 0), [c]);
    assert Fold(Fold([], Components(s, 0)), [c]) == Step(Fold([], Components(s, 0)), c);
  }

  /** A proper name extends the resolved path. */
  lemma NameExtends(s: string, c: string)
    requires Proper(c)
    ensures Resolved(s + "/" + c) == (if Resolved(s) == "/" then "" else Resolved(s)) + "/" + c
  {
    hide FoldFrom, Body;
    var f := FoldFrom(s, 0, []);
    FoldMore(s, c);
    BodyStep(f, c);
    FoldProper(s, 0, []);
    RootOnly(f);
    assert Body([]) == "" by { BodyNone(); }
  }

  lemma BodyNone()
    ensures Body([]) == ""
  {
  }

  lemma RootOnly(f: seq<string>)
    requires AllProper(f)
    ensures Render(f) == "/" <==> f == []
  {
    if f != [] {
      assert Proper(f[|f| - 1]);
    }
  }

  /** An empty component and "." change nothing. */
  lemma DotStays(s: string)
    ensures Resolved(s + "/") == Resolved(s) && Resolved(s + "/.") == Resolved(s)
  {
    hide FoldFrom, Render;
    FoldMore(s, "");
    FoldMore(s, ".");
    assert s + "/" + "" == s + "/";
    assert s + "/" + "." == s + "/.";
  }

  /** ".." takes the last name back. */
  lemma UpUndoes(s: string, c: string)
    requires Proper(c)
    ensures Resolved(s + "/" + c + "/..") == Resolved(s)
  {
    hide FoldFrom, Render;
    var f := FoldFrom(s, 0, []);
    FoldMore(s, c);
    FoldMore(s + "/" + c, "..");
    assert s + "/" + c + "/" + ".." == s + "/" + c + "/..";
    assert (f + [c])[..|f|] == f;
  }

  /** ".." at the root stays there. */
  lemma UpAtRoot(s: string)
    requires Resolved(s) == "/"
    ensures Resolved(s + "/..") == "/"
  {
    hide FoldFrom, Render;
    FoldMore(s, "..");
    assert s + "/" + ".." == s + "/..";
    FoldProper(s, 0, []);
    RootOnly(FoldFrom(s, 0, []));
  }

  // ----- The length of the working string -----

  /** The length of the longest working string from component i on. */
  function Peak(s: string, i: nat, stack: seq<string>): nat
    requires i <= |s|
    decreases |s| - i
  {
    var e := Next(s, i);
    var top := Step(stack, s[i..e]);
    Radix.Max(|Work(stack)|, if e == |s| then |Work(top)| else Peak(s, e + 1, top))
  }

  lemma PeakUnfold(s: string, i: nat, stack: seq<string>, e: nat, c: string)
    requires i <= |s| && e == Next(s, i) && c == s[i..e]
    ensures Peak(s, i, stack) ==
            Radix.Max(|Work(stack)|, if e == |s| then |Work(Step(stack, c))| else Peak(s, e + 1, Step(stack, c)))
  {
    hide Work, Step, Next, FoldFrom;
  }

  /** A step that keeps pace with the input appended its component. */
  lemma StepLength(stack: seq<string>, c: string)
    ensures |Work(Step(stack, c))| <= |Work(stack)| + |c| + 1
    ensures |Work(Step(stack, c))| > |Work(stack)| ==> Work(Step(stack, c)) == Work(stack) + c + "/"
  {
    BodyStep(stack, c);
  }

  lemma {:induction false} WorkLength(s: string, i: nat, stack: seq<string>)
    requires 0 < i <= |s| && s[i - 1] == '/' && |Work(stack)| <= i && (|Work(stack)| == i ==> Work(stack) == s[..i])
    ensures |Work(FoldFrom(s, i, stack))| <= |s| + 1 && Peak(s, i, stack) <= |s| + 1
    ensures Peak(s, i, stack) == |s| + 1 ==> Work(FoldFrom(s, i, stack)) == s + "/"
    ensures |Work(FoldFrom(s, i, stack))| <= Peak(s, i, stack)
    decreases |s| - i
  {
    hide *;
    var e := Next(s, i);
    var c := s[i..e];
    var top := Step(stack, c);
    StepLength(stack, c);
    FoldUnfold(s, i, stack, e, c);
    PeakUnfold(s, i, stack, e, c);
    MaxIs(|Work(stack)|, if e == |s| then |Work(top)| else Peak(s, e + 1, top));
    assert |Work(top)| == e + 1 ==> Work(top) == s[..e] + "/" by {
      assert s[..e] == s[..i] + c;
    }
    if e < |s| {
      assert s[..e + 1] == s[..e] + "/";
      WorkLength(s, e + 1, top);
    } else {
      assert s[..e] == s;
    }
  }

  lemma WorkOfRender(stack: seq<string>, s: string)
    ensures Work(stack) == s + "/" && s != "" ==> stack != [] && Render(stack) == s
    ensures Render(stack) == s && s != "/" ==> |Work(stack)| == |s| + 1
  {
    if Work(stack) == s + "/" {
      assert Work(stack)[..|s|] == Body(stack) && (s + "/")[..|s|] == s;
    }
  }

  lemma StepAppends(stack: seq<string>, c: string)
    requires Proper(c)
    ensures Step(stack, c) == stack + [c] && Body(Step(stack, c)) == Body(stack) + "/" + c
  {
    BodyStep(stack, c);
  }

  lemma FirstProper(c: string, cs: seq<string>)
    requires AllProper([c] + cs)
    ensures Proper(c) && AllProper(cs)
  {
    assert ([c] + cs)[0] == c;
    forall k | 0 <= k < |cs|
      ensures Proper(cs[k])
    {
      assert ([c] + cs)[k + 1] == cs[k];
    }
  }

  /** Proper components are all kept, in their places. */
  lemma {:induction false} FoldKeeps(s: string, i: nat, stack: seq<string>)
    requires 0 < i <= |s| && Body(stack) + "/" == s[..i] && AllProper(Components(s, i))
    ensures FoldFrom(s, i, stack) != [] && Body(FoldFrom(s, i, stack)) == s
    decreases |s| - i
  {
    hide *;
    var e := Next(s, i);
    var c := s[i..e];
    ComponentsUnfold(s, i, e, c);
    FoldUnfold(s, i, stack, e, c);
    FirstProper(c, if e == |s| then [] else Components(s, e + 1));
    StepAppends(stack, c);
    assert s[..e] == s[..i] + c;
    assert Body(stack) + "/" + c == s[..e];
    if e < |s| {
      assert s[..e + 1] == s[..e] + "/";
      FoldKeeps(s, e + 1, Step(stack, c));
    } else {
      assert s[..e] == s;
    }
  }

  lemma NormalMeans(s: string)
    requires Normal(s)
    ensures |s| > 0 && s[0] == '/' && (s == "/" || AllProper(Components(s, 1)))
  {
    hide Components;
  }

  lemma FoldFirst(s: string)
    requires |s| > 0 && s[0] == '/'
    ensures FoldFrom(s, 0, []) == FoldFrom(s, 1, [])
  {
    hide *;
    NextIs(s, 0, 0);
    FoldUnfold(s, 0, [], 0, "");
    DropsEmpty([]);
  }

  lemma FoldRoot()
    ensures FoldFrom("/", 1, []) == []
  {
    assert Next("/", 1) == 1 && "/"[1..1] == "";
  }

  lemma RenderBody(stack: seq<string>)
    ensures Render(stack) == if stack == [] then "/" else Body(stack)
    ensures stack == [] ==> Body(stack) == ""
  {
  }

  /** A normal path is its own result. */
  lemma NormalFixed(s: string)
    requires Normal(s)
    ensures Resolved(s) == s
  {
    hide *;
    ResolvedIs(s);
    NormalMeans(s);
    FoldFirst(s);
    RenderBody([]);
    RenderBody(FoldFrom(s, 1, []));
    if s == "/" {
      FoldRoot();
    } else {
      assert s[..1] == "/";
      FoldKeeps(s, 1, []);
    }
  }

  lemma ResolvedIs(s: string)
    ensures Resolved(s) == Render(FoldFrom(s, 0, []))
  {
  }

  lemma PeakFirst(s: string)
    requires |s| > 0 && s[0] == '/'
    ensures Peak(s, 0, []) == Radix.Max(1, Peak(s, 1, []))
  {
    hide *;
    NextIs(s, 0, 0);
    PeakUnfold(s, 0, [], 0, "");
    DropsEmpty([]);
    WorkEmpty();
  }

  lemma DropsEmpty(stack: seq<string>)
    ensures Step(stack, "") == stack
  {
  }

  lemma PeakIsResolved(s: string)
    requires |s| > 0 && s[0] == '/'
    ensures Peak(s, 0, []) <= |s| + 1
    ensures Peak(s, 0, []) == |s| + 1 <==> Resolved(s) == s && s != "/"
  {
    hide *;
    PeakFirst(s);
    FoldFirst(s);
    ResolvedIs(s);
    WorkEmpty();
    assert s[..1] == "/";
    WorkLength(s, 1, []);
    var f := FoldFrom(s, 1, []);
    WorkOfRender(f, s);
    FoldProper(s, 1, []);
    RootBody(f);
    MaxIs(1, Peak(s, 1, []));
  }

  lemma MaxIs(x: nat, y: nat)
    ensures Radix.Max(x, y) == if x < y then y else x
  {
  }

  /**
   The working string is never more than one character longer than the input;
   it gets that long exactly when the input is a normal path other than the
   root, and then its terminator no longer fits into the copy of the input.
   */
  lemma PeakLength(s: string)
    requires |s| > 0 && s[0] == '/'
    ensures Peak(s, 0, []) <= |s| + 1
    ensures Peak(s, 0, []) == |s| + 1 <==> Normal(s) && s != "/"
  {
    hide *;
    PeakIsResolved(s);
    ResolvedNormal(s);
    if Normal(s) {
      NormalFixed(s);
    }
  }

  /** At "/a" the working string has three characters, so it needs four bytes; the copy of the input has three. */
  lemma PeakAtName()
    ensures Peak("/a", 0, []) == 3 == |"/a"| + 1
  {
    hide Peak, FoldFrom;
    var s := "/a";
    assert Next(s, 1) == 2 by { NextIs(s, 1, 2); }
    assert s[1..2] == "a";
    ComponentsUnfold(s, 1, 2, "a");
    PeakLength(s);
  }

  lemma RootBody(f: seq<string>)
    requires AllProper(f)
    ensures Render(f) == "/" <==> f == []
  {
    if f != [] {
      assert Proper(f[|f| - 1]);
      assert |Body(f)| >= 1 + |f[|f| - 1]|;
    }
  }

  // ----- The code -----

  /** An absolute path as it is, any other behind the working directory. */
  function Joined(cwd: string, path: string): string
  {
    if |path| > 0 && path[0] == '/' then path else cwd + "/" + path
  }

  /** strchr */
  method FindSlash(s: string, i: nat) returns (e: nat)
    requires i <= |s|
    ensures e == Next(s, i)
  {
    e := i;
    while e < |s| && s[e] != '/'
      invariant i <= e <= |s| && Next(s, e) == Next(s, i)
    {
      e := e + 1;
    }
  }

  /** strrchr, for a string with a slash at its end. */
  method LastSlash(work: string) returns (start: nat)
    requires |work| > 0 && work[|work| - 1] == '/'
    ensures start == |work| - 1
  {
    start := 0;
    for i := 0 to |work|
      invariant start < |work| && (i == |work| ==> start == |work| - 1)
    {
      if work[i] == '/' {
        start := i;
      }
    }
  }

  lemma WorkPop(stack: seq<string>)
    requires stack != [] && AllProper(stack)
    ensures var b, top := Body(stack[..|stack| - 1]), stack[|stack| - 1];
            Work(stack) == b + "/" + top + "/" && '/' !in top && Work(stack[..|stack| - 1]) == b + "/"
  {
    assert Proper(stack[|stack| - 1]);
  }

  /** The last component leaves the working string; the root stays. */
  method PopLast(work: string, ghost stack: seq<string>) returns (r: string)
    requires AllProper(stack) && work == Work(stack)
    ensures r == Work(Step(stack, ".."))
  {
    hide Work, AllProper;
    assert |work| > 0 && work[|work| - 1] == '/' && (|work| == 1 <==> stack == []) by { WorkEnds(stack); }
    var start := LastSlash(work);
    r := work;
    if start != 0 {
      WorkPop(stack);
      ghost var b, top := Body(stack[..|stack| - 1]), stack[|stack| - 1];
      var ptr := start - 1;
      while work[ptr] != '/'
        invariant |b| <= ptr < start
        invariant |b| < ptr ==> work[ptr] == top[ptr - |b| - 1]
        decreases ptr
      {
        ptr := ptr - 1;
      }
      assert ptr == |b|;
      r := work[..ptr + 1];
      assert r == b + "/";
    }
  }

  lemma WorkEnds(stack: seq<string>)
    requires AllProper(stack)
    ensures var w := Work(stack); |w| > 0 && w[|w| - 1] == '/' && (|w| == 1 <==> stack == [])
  {
    if stack != [] {
      WorkPop(stack);
    }
  }

  /** vfs_path_resolve */
  method Resolve(cwd: string, path: string) returns (result: string)
    ensures result == Resolved(Joined(cwd, path))
  {
    hide Work, Render, AllProper, Next, Step, Resolved, FoldFrom, Proper;
    var buffer := Joined(cwd, path);
    var i := 0;
    ghost var stack: seq<string> := [];
    result := "/";
    assert result == Work(stack) && AllProper(stack) by { WorkEmpty(); }
    while true
      invariant i <= |buffer| && AllProper(stack) && result == Work(stack)
      invariant FoldFrom(buffer, i, stack) == FoldFrom(buffer, 0, [])
      decreases |buffer| - i
    {
      var end := FindSlash(buffer, i);
      var c := buffer[i..end];
      FoldUnfold(buffer, i, stack, end, c);
      StepIs(stack, c);
      if c != "" && c != "." {
        if c == ".." {
          result := PopLast(result, stack);
        } else {
          WorkAppend(stack, c);
          result := result + c + "/";
        }
      }
      StepProper(stack, c);
      stack := Step(stack, c);
      if end == |buffer| {
        break;
      }
      i := end + 1;
    }
    WorkEnds(stack);
    WorkRender(stack);
    ResolvedIs(buffer);
    if |result| != 1 && result[|result| - 1] == '/' {
      result := result[..|result| - 1];
    }
  }

  lemma StepIs(stack: seq<string>, c: string)
    ensures c == "" || c == "." ==> Step(stack, c) == stack
    ensures c != "" && c != "." && c != ".." ==> Step(stack, c) == stack + [c]
  {
  }

  lemma WorkEmpty()
    ensures Work([]) == "/" && AllProper([])
  {
  }

  lemma WorkAppend(stack: seq<string>, c: string)
    ensures Work(stack + [c]) == Work(stack) + c + "/"
  {
    BodyStep(stack, c);
  }

  lemma WorkRender(stack: seq<string>)
    ensures var w := Work(stack); |w| > 0 && Render(stack) == if stack == [] then w else w[..|w| - 1]
  {
  }
}
