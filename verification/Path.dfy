/** Path resolution (os/src/fs/inode.rs, os/src/syscall/fs.rs). */
module Path {

  /** `s.split("/")`. */
  function Split(s: string): (cs: seq<string>)
    ensures |cs| >= 1 && forall i :: 0 <= i < |cs| ==> '/' !in cs[i]
  {
    if s == "" then [""]
    else
      var rest := Split(s[1..]);
      if s[0] == '/' then [""] + rest else [[s[0]] + rest[0]] + rest[1..]
  }

  /** `cs.join("/")`. */
  function Join(cs: seq<string>): string
  {
    if cs == [] then "" else if |cs| == 1 then cs[0] else cs[0] + "/" + Join(cs[1..])
  }

  /** One component against the stack. */
  function Apply(stack: seq<string>, c: string): seq<string>
  {
    if c == "" || c == "." then stack
    else if c == ".." then if stack == [] then [] else stack[..|stack| - 1]
    else stack + [c]
  }

  function Walk(stack: seq<string>, cs: seq<string>): seq<string>
    decreases |cs|
  {
    if cs == [] then stack else Walk(Apply(stack, cs[0]), cs[1..])
  }

  predicate IsAbsolute(p: string) { p != "" && p[0] == '/' }

  /** The stack that a path leads to. */
  function Target(relative: string, base: string): seq<string>
  {
    Walk(if IsAbsolute(relative) then [] else Walk([], Split(base)), Split(relative))
  }

  function Resolve(relative: string, base: string): string
  {
    "/" + Join(Target(relative, base))
  }

  /** One of the two loops of `resolve_path`. */
  method WalkComponents(stack0: seq<string>, path: string) returns (stack: seq<string>)
    ensures stack == Walk(stack0, Split(path))
  {
    var cs := Split(path);
    stack := stack0;
    for i := 0 to |cs|
      invariant Walk(stack0, cs) == Walk(stack, cs[i..])
    {
      var c := cs[i];
      assert cs[i..][0] == c && cs[i..][1..] == cs[i + 1..];
      if c == "" || c == "." {
        continue;
      }
      if c == ".." {
        if stack != [] {
          stack := stack[..|stack| - 1];
        }
      } else {
        stack := stack + [c];
      }
    }
  }

  /** `resolve_path`. */
  method ResolvePath(relative: string, base: string) returns (result: string)
    ensures result == Resolve(relative, base)
    ensures Canonical(result)
  {
    var stack: seq<string> := [];
    if !IsAbsolute(relative) {
      stack := WalkComponents(stack, base);
    }
    stack := WalkComponents(stack, relative);
    result := "/" + Join(stack);
    ResolveIsCanonical(relative, base);
  }

  // ---- canonical paths -----------------------------------------------------------------

  predicate Proper(c: string) { c != "" && c != "." && c != ".." && '/' !in c }

  predicate AllProper(cs: seq<string>) { forall i :: 0 <= i < |cs| ==> Proper(cs[i]) }

  /** Absolute, without an empty, "." or ".." component. */
  predicate Canonical(p: string)
  {
    IsAbsolute(p) && (p == "/" || AllProper(Split(p[1..])))
  }

  lemma {:induction false} WalkProper(stack: seq<string>, cs: seq<string>)
    requires AllProper(stack) && forall i :: 0 <= i < |cs| ==> '/' !in cs[i]
    ensures AllProper(Walk(stack, cs))
    decreases |cs|
  {
    if cs != [] {
      WalkProper(Apply(stack, cs[0]), cs[1..]);
    }
  }

  lemma {:induction false} WalkAppend(stack: seq<string>, a: seq<string>, b: seq<string>)
    ensures Walk(stack, a + b) == Walk(Walk(stack, a), b)
    decreases |a|
  {
    if a == [] {
      assert a + b == b;
    } else {
      assert (a + b)[1..] == a[1..] + b;
      WalkAppend(Apply(stack, a[0]), a[1..], b);
    }
  }

  /** Proper components are just pushed. */
  lemma {:induction false} WalkPushes(stack: seq<string>, cs: seq<string>)
    requires AllProper(cs)
    ensures Walk(stack, cs) == stack + cs
    decreases |cs|
  {
    if cs != [] {
      WalkPushes(stack + [cs[0]], cs[1..]);
      assert stack + [cs[0]] + cs[1..] == stack + cs;
    }
  }

  /** Splitting at a slash splits in two. */
  lemma {:induction false} SplitAt(a: string, b: string)
    ensures Split(a + "/" + b) == Split(a) + Split(b)
    decreases |a|
  {
    var s := a + "/" + b;
    if a == "" {
      assert s[1..] == b;
    } else {
      assert s[1..] == a[1..] + "/" + b;
      SplitAt(a[1..], b);
    }
  }

  lemma {:induction false} SplitOne(c: string)
    requires '/' !in c
    ensures Split(c) == [c]
    decreases |c|
  {
    if c != "" {
      assert c == [c[0]] + c[1..];
      SplitOne(c[1..]);
    }
  }

  /** Splitting undoes joining. */
  lemma {:induction false} SplitJoin(cs: seq<string>)
    requires cs != [] && forall i :: 0 <= i < |cs| ==> '/' !in cs[i]
    ensures Split(Join(cs)) == cs
    decreases |cs|
  {
    SplitOne(cs[0]);
    if |cs| > 1 {
      SplitJoin(cs[1..]);
      SplitAt(cs[0], Join(cs[1..]));
    }
  }

  /** And joining undoes splitting. */
  lemma {:induction false} JoinSplit(s: string)
    ensures Join(Split(s)) == s
    decreases |s|
  {
    if s != "" {
      JoinSplit(s[1..]);
      var rest := Split(s[1..]);
      if s[0] == '/' {
        assert ([""] + rest)[1..] == rest;
      } else if |rest| > 1 {
        assert Split(s)[1..] == rest[1..];
        assert [s[0]] + rest[0] + "/" + Join(rest[1..]) == [s[0]] + (rest[0] + "/" + Join(rest[1..]));
      }
    }
  }

  lemma {:induction false} TargetProper(relative: string, base: string)
    ensures AllProper(Target(relative, base))
  {
    WalkProper([], Split(base));
    WalkProper(if IsAbsolute(relative) then [] else Walk([], Split(base)), Split(relative));
  }

  lemma {:induction false} JoinedIsCanonical(cs: seq<string>)
    requires AllProper(cs)
    ensures Canonical("/" + Join(cs))
  {
    var p := "/" + Join(cs);
    assert p[1..] == Join(cs);
    if cs != [] {
      SplitJoin(cs);
    }
  }

  /** Whatever the arguments, the result is canonical. */
  lemma {:induction false} ResolveIsCanonical(relative: string, base: string)
    ensures Canonical(Resolve(relative, base))
  {
    TargetProper(relative, base);
    JoinedIsCanonical(Target(relative, base));
  }

  /** Walking a resolved path gives back the stack it was made from. */
  lemma {:induction false} WalkOfJoined(cs: seq<string>)
    requires AllProper(cs)
    ensures Walk([], Split("/" + Join(cs))) == cs
  {
    var p := "/" + Join(cs);
    assert p == "" + "/" + Join(cs);
    SplitAt("", Join(cs));
    assert Split("") == [""];
    WalkAppend([], [""], Split(Join(cs)));
    assert Walk([], [""]) == [];
    if cs == [] {
      assert Split(Join(cs)) == [""];
    } else {
      SplitJoin(cs);
      WalkPushes([], cs);
    }
  }

  /** Canonical paths are fixed points, whatever the base. */
  lemma {:induction false} CanonicalIsFixed(p: string, base: string)
    requires Canonical(p)
    ensures Resolve(p, base) == p
  {
    if p == "/" {
      WalkOfJoined([]);
      assert "/" + Join([]) == "/";
    } else {
      var cs := Split(p[1..]);
      JoinSplit(p[1..]);
      assert p == "/" + Join(cs);
      WalkOfJoined(cs);
    }
  }

  /** The fixed points are exactly the canonical paths. */
  lemma {:induction false} FixedIsCanonical(p: string, base: string)
    ensures Resolve(p, base) == p <==> Canonical(p)
  {
    ResolveIsCanonical(p, base);
    if Canonical(p) {
      CanonicalIsFixed(p, base);
    }
  }

  /** Resolving in two steps is resolving the joined path. */
  lemma {:induction false} ResolveComposes(r: string, q: string, base: string)
    requires !IsAbsolute(r) && q != ""
    ensures Resolve(r, Resolve(q, base)) == Resolve(q + "/" + r, base)
  {
    var stack := Target(q, base);
    TargetProper(q, base);
    WalkOfJoined(stack);
    SplitAt(q, r);
    var start := if IsAbsolute(q) then [] else Walk([], Split(base));
    WalkAppend(start, Split(q), Split(r));
    assert IsAbsolute(q + "/" + r) <==> IsAbsolute(q);
  }

  /** How often `cs`, walked with `h` components of its own on the stack, pops what was there
      before. */
  function Climb(h: nat, cs: seq<string>): nat
    decreases |cs|
  {
    if cs == [] then 0
    else if cs[0] == "" || cs[0] == "." then Climb(h, cs[1..])
    else if cs[0] != ".." then Climb(h + 1, cs[1..])
    else if h > 0 then Climb(h - 1, cs[1..])
    else 1 + Climb(0, cs[1..])
  }

  function Keep(base: seq<string>, n: nat): seq<string> { if n <= |base| then base[..|base| - n] else [] }

  /** A walk from `base + own` is the walk from `own` on top of what it leaves of `base`. */
  lemma {:induction false} WalkOverBase(base: seq<string>, own: seq<string>, cs: seq<string>)
    ensures Walk(base + own, cs) == Keep(base, Climb(|own|, cs)) + Walk(own, cs)
    decreases |cs|
  {
    if cs != [] {
      var c := cs[0];
      if c == "" || c == "." {
        WalkOverBase(base, own, cs[1..]);
      } else if c != ".." {
        assert base + own + [c] == base + (own + [c]);
        WalkOverBase(base, own + [c], cs[1..]);
      } else if own != [] {
        assert Apply(base + own, c) == base + Apply(own, c);
        WalkOverBase(base, Apply(own, c), cs[1..]);
      } else {
        assert base + own == base && Apply(base, c) + [] == Apply(base, c);
        WalkOverBase(Apply(base, c), [], cs[1..]);
      }
    }
  }

  /** For an empty `q` the joined path becomes absolute: the law holds exactly when `r` climbs
      out of the whole base. */
  lemma {:induction false} EmptyComposesExactly(r: string, base: string)
    requires !IsAbsolute(r)
    ensures Resolve(r, Resolve("", base)) == Resolve("" + "/" + r, base) <==> |Target("", base)| <= Climb(0, Split(r))
  {
    var b, cs := Target("", base), Split(r);
    TargetProper("", base);
    WalkOfJoined(b);
    WalkOverBase(b, [], cs);
    assert b + [] == b;
    SplitAt("", r);
    WalkAppend([], [""], cs);
    assert Target("" + "/" + r, base) == Walk([], cs) by {
      assert Split("") == [""] && Walk([], [""]) == [];
    }
    SameStacks(Walk(b, cs), Walk([], cs), r, b);
  }

  /** Different stacks are different paths. */
  lemma {:induction false} SameStacks(a: seq<string>, b: seq<string>, r: string, base: seq<string>)
    requires AllProper(base) && a == Walk(base, Split(r)) && b == Walk([], Split(r))
    ensures "/" + Join(a) == "/" + Join(b) <==> a == b
  {
    WalkProper(base, Split(r));
    WalkProper([], Split(r));
    WalkOfJoined(a);
    WalkOfJoined(b);
  }

  lemma {:induction false} EmptyDoesNotCompose()
    ensures Resolve("x", Resolve("", "/a")) == "/a/x" && Resolve("" + "/" + "x", "/a") == "/x"
  {
    SplitOne("a");
    SplitOne("x");
    SplitAt("", "a");
    SplitAt("", "x");
    assert "" + "/" + "a" == "/a" && "" + "/" + "x" == "/x";
    assert Split("/a") == ["", "a"] && Split("/x") == ["", "x"];
    assert Walk([], ["", "a"]) == ["a"] && Walk(["a"], [""]) == ["a"];
    assert Target("", "/a") == ["a"];
    assert Resolve("", "/a") == "/a";
    assert Walk(["a"], ["x"]) == ["a", "x"];
    assert Walk([], ["", "x"]) == ["x"];
    assert Join(["a", "x"]) == "a" + "/" + "x";
  }

  // ---- chdir ---------------------------------------------------------------------------

  /** One `chdir`; whether the directory opens is up to the file system. */
  datatype Chdir = Chdir(path: string, opens: bool)

  class Process {
    var cwd: string

    constructor ()
      ensures cwd == "/" && Canonical(cwd)
    {
      cwd := "/";
    }

    /** `sys_chdir`. */
    method SysChdir(call: Chdir) returns (r: int)
      modifies this
      ensures cwd == After(old(cwd), [call]) && (r == 0 <==> call.opens)
      ensures old(Canonical(cwd)) ==> Canonical(cwd)
    {
      var next := ResolvePath(call.path, cwd);
      if !call.opens {
        return -1;
      }
      cwd := next;
      return 0;
    }
  }

  /** The working directory after some calls. */
  function After(cwd: string, calls: seq<Chdir>): string
    decreases |calls|
  {
    if calls == [] then cwd
    else After(if calls[0].opens then Resolve(calls[0].path, cwd) else cwd, calls[1..])
  }

  /** The working directory stays canonical in every run. */
  lemma {:induction false} CwdStaysCanonical(cwd: string, calls: seq<Chdir>)
    requires Canonical(cwd)
    ensures Canonical(After(cwd, calls))
    decreases |calls|
  {
    if calls != [] {
      ResolveIsCanonical(calls[0].path, cwd);
      CwdStaysCanonical(if calls[0].opens then Resolve(calls[0].path, cwd) else cwd, calls[1..]);
    }
  }

  function Paths(calls: seq<Chdir>): (ps: seq<string>)
    ensures |ps| == |calls| && forall i :: 0 <= i < |ps| ==> ps[i] == calls[i].path
  {
    seq(|calls|, i requires 0 <= i < |calls| => calls[i].path)
  }

  /** A run of successful relative moves ends where one move along the joined path ends. */
  lemma {:induction false} MovesCompose(cwd: string, calls: seq<Chdir>)
    requires Canonical(cwd) && calls != []
    requires forall i :: 0 <= i < |calls| ==> calls[i].opens && calls[i].path != "" && !IsAbsolute(calls[i].path)
    ensures After(cwd, calls) == Resolve(Join(Paths(calls)), cwd)
    decreases |calls|
  {
    var n := |calls| - 1;
    AfterSnoc(cwd, calls[..n], calls[n]);
    assert calls == calls[..n] + [calls[n]];
    if n == 0 {
      assert calls[..0] == [];
    } else {
      MovesCompose(cwd, calls[..n]);
      var q := Join(Paths(calls[..n]));
      JoinSnoc(Paths(calls[..n]), calls[n].path);
      assert Paths(calls) == Paths(calls[..n]) + [calls[n].path];
      assert q != "" by {
        assert Paths(calls[..n])[0] == calls[0].path != "";
      }
      ResolveComposes(calls[n].path, q, cwd);
    }
  }

  lemma {:induction false} AfterSnoc(cwd: string, calls: seq<Chdir>, call: Chdir)
    ensures var mid := After(cwd, calls);
            After(cwd, calls + [call]) == if call.opens then Resolve(call.path, mid) else mid
    decreases |calls|
  {
    if calls == [] {
      assert calls + [call] == [call];
      assert After(cwd, [call]) == After(if call.opens then Resolve(call.path, cwd) else cwd, []);
    } else {
      assert (calls + [call])[1..] == calls[1..] + [call];
      AfterSnoc(if calls[0].opens then Resolve(calls[0].path, cwd) else cwd, calls[1..], call);
    }
  }

  lemma {:induction false} JoinSnoc(cs: seq<string>, c: string)
    requires cs != []
    ensures Join(cs + [c]) == Join(cs) + "/" + c
    decreases |cs|
  {
    assert (cs + [c])[1..] == cs[1..] + [c];
    if |cs| > 1 {
      JoinSnoc(cs[1..], c);
      assert cs[0] + "/" + (Join(cs[1..]) + "/" + c) == cs[0] + "/" + Join(cs[1..]) + "/" + c;
    } else {
      assert cs[1..] + [c] == [c];
    }
  }
}
