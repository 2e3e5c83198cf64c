/**
 * POSIX path handling as Python's `posixpath` does it: `join`, `normpath`
 * and `abspath`, with the working directory passed in as a value. The
 * %LOAD% handler compares the strings these produce.
 */
module Paths {
  import opened Strings

  /** Python's `os.path.isabs` on POSIX. */
  predicate IsAbs(p: string)
  {
    StartsWith(p, "/")
  }

  /** A path component that `normpath` keeps as it is. */
  predicate Plain(c: string)
  {
    c != "" && c != "." && c != ".." && '/' !in c
  }

  predicate AllPlain(cs: seq<string>)
  {
    forall k :: 0 <= k < |cs| ==> Plain(cs[k])
  }

  /** The absolute path naming the directory reached through `cs` from the root. */
  function Render(cs: seq<string>): string
  {
    "/" + JoinWith(cs, '/')
  }

  /** Python's `os.path.join(a, b)` on POSIX. */
  function JoinPath(a: string, b: string): string
  {
    if StartsWith(b, "/") then b
    else if a == [] || a[|a| - 1] == '/' then a + b
    else a + "/" + b
  }

  /**
   * How many slashes `normpath` keeps at the front: two when the path begins
   * with exactly two (POSIX leaves `//` to the implementation), otherwise one
   * for an absolute path and none for a relative one.
   */
  function LeadingSlashes(p: string): nat
  {
    if StartsWith(p, "//") && !StartsWith(p, "///") then 2
    else if StartsWith(p, "/") then 1
    else 0
  }

  /** One turn of `normpath`'s loop over the components. */
  function NormStep(acc: seq<string>, comp: string, absolute: bool): seq<string>
  {
    if comp == "" || comp == "." then acc
    else if comp != ".." || (!absolute && acc == []) || (acc != [] && acc[|acc| - 1] == "..") then acc + [comp]
    else if acc != [] then acc[..|acc| - 1]
    else acc
  }

  /** `normpath`'s loop: the components kept after reading `comps` with `acc` already kept. */
  function NormComps(acc: seq<string>, comps: seq<string>, absolute: bool): seq<string>
    decreases |comps|
  {
    if comps == [] then acc else NormComps(NormStep(acc, comps[0], absolute), comps[1..], absolute)
  }

  /** Python's `os.path.normpath` on POSIX. */
  function NormPath(p: string): string
  {
    var lead := LeadingSlashes(p);
    var r := Repeat('/', lead) + JoinWith(NormComps([], SplitOn(p, '/'), lead > 0), '/');
    if r == [] then "." else r
  }

  /** Python's `os.path.abspath(p)` when `os.getcwd()` is `cwd`. */
  function AbsPath(cwd: string, p: string): string
  {
    NormPath(if IsAbs(p) then p else JoinPath(cwd, p))
  }

  /**
   * The expression the %LOAD% handler uses to resolve a name:
   * `os.path.abspath(os.path.join(os.getcwd(), name))`.
   */
  function Resolve(cwd: string, name: string): string
  {
    AbsPath(cwd, JoinPath(cwd, name))
  }

  // ---------------------------------------------------------------------
  // Lemmas

  /** `os.path.join` of two relative parts puts one slash between them. */
  lemma JoinPathPlain(a: string, b: string)
    requires a != [] && a[|a| - 1] != '/'
    requires b == [] || b[0] != '/'
    ensures JoinPath(a, b) == a + "/" + b
  {
  }

  lemma {:induction false} NormCompsAppend(acc: seq<string>, a: seq<string>, b: seq<string>, absolute: bool)
    ensures NormComps(acc, a + b, absolute) == NormComps(NormComps(acc, a, absolute), b, absolute)
    decreases |a|
  {
    if a != [] {
      assert (a + b)[1..] == a[1..] + b;
      NormCompsAppend(NormStep(acc, a[0], absolute), a[1..], b, absolute);
    } else {
      assert a + b == b;
    }
  }

  /** Reading plain components only appends them. */
  lemma {:induction false} NormCompsOfPlain(acc: seq<string>, comps: seq<string>, absolute: bool)
    requires AllPlain(comps)
    ensures NormComps(acc, comps, absolute) == acc + comps
    decreases |comps|
  {
    if comps != [] {
      NormCompsOfPlain(acc + [comps[0]], comps[1..], absolute);
      assert acc + [comps[0]] + comps[1..] == acc + comps;
    }
  }

  /** For an absolute path every kept component is plain: no `.`, `..` or empty one survives. */
  lemma {:induction false} NormCompsPlain(acc: seq<string>, comps: seq<string>)
    requires AllPlain(acc)
    requires forall k :: 0 <= k < |comps| ==> '/' !in comps[k]
    ensures AllPlain(NormComps(acc, comps, true))
    decreases |comps|
  {
    if comps != [] {
      NormCompsPlain(NormStep(acc, comps[0], true), comps[1..]);
    }
  }

  lemma {:induction false} JoinWithFirst(cs: seq<string>, sep: char)
    requires |cs| >= 1 && cs[0] != []
    ensures JoinWith(cs, sep) != [] && JoinWith(cs, sep)[0] == cs[0][0]
  {
  }

  lemma {:induction false} JoinWithLast(cs: seq<string>, sep: char)
    requires |cs| >= 1 && cs[|cs| - 1] != []
    ensures JoinWith(cs, sep) != []
    ensures JoinWith(cs, sep)[|JoinWith(cs, sep)| - 1] == cs[|cs| - 1][|cs[|cs| - 1]| - 1]
  {
    if |cs| > 1 {
      JoinWithLast(cs[1..], sep);
    }
  }

  lemma {:induction false} SplitOnJoinAppend(parts: seq<string>, sep: char, rest: string)
    requires |parts| >= 1
    requires forall k :: 0 <= k < |parts| ==> sep !in parts[k]
    ensures SplitOn(JoinWith(parts, sep) + [sep] + rest, sep) == parts + SplitOn(rest, sep)
    decreases |parts|
  {
    if |parts| == 1 {
      SplitOnField(parts[0], sep, rest);
    } else {
      var tail := JoinWith(parts[1..], sep);
      var later := tail + [sep] + rest;
      assert JoinWith(parts, sep) + [sep] + rest == parts[0] + [sep] + later by {
        assert JoinWith(parts, sep) == parts[0] + [sep] + tail;
      }
      calc {
        SplitOn(JoinWith(parts, sep) + [sep] + rest, sep);
        == { SplitOnField(parts[0], sep, later); }
        [parts[0]] + SplitOn(later, sep);
        == { SplitOnJoinAppend(parts[1..], sep, rest); }
        [parts[0]] + (parts[1..] + SplitOn(rest, sep));
        == { assert [parts[0]] + parts[1..] == parts; }
        parts + SplitOn(rest, sep);
      }
    }
  }

  /**
   * A relative name resolved under a canonical working directory `Render(cwd)`
   * is that directory's components followed by the name's components, with
   * `.`, empty ones and `..` applied from the working directory on.
   */
  lemma ResolveRelative(cwd: seq<string>, name: string)
    requires AllPlain(cwd)
    requires !StartsWith(name, "/")
    ensures Resolve(Render(cwd), name) == Render(NormComps(cwd, SplitOn(name, '/'), true))
    ensures AllPlain(NormComps(cwd, SplitOn(name, '/'), true))
  {
    var names := SplitOn(name, '/');
    SplitOnFieldsClean(name, '/');
    NormCompsPlain(cwd, names);
    var joined := JoinPath(Render(cwd), name);
    SplitJoinedName(cwd, name);
    NormCompsAppend([], [[]] + cwd, names, true);
    NormCompsOfPlain([], cwd, true);
    assert NormComps([], [[]] + cwd, true) == cwd;
    NormPathSingleSlash(joined);
  }

  /** The components of a relative name joined under a canonical directory. */
  lemma SplitJoinedName(cwd: seq<string>, name: string)
    requires AllPlain(cwd)
    requires !StartsWith(name, "/")
    ensures SplitOn(JoinPath(Render(cwd), name), '/') == [[]] + cwd + SplitOn(name, '/')
    ensures StartsWith(JoinPath(Render(cwd), name), "/")
    ensures LeadingSlashes(JoinPath(Render(cwd), name)) == 1
  {
    var joined := JoinPath(Render(cwd), name);
    if cwd == [] {
      assert joined == [] + "/" + name;
      SplitOnField([], '/', name);
    } else {
      JoinWithFirst(cwd, '/');
      JoinWithLast(cwd, '/');
      var rest := JoinWith(cwd, '/') + "/" + name;
      assert joined == [] + "/" + rest;
      SplitOnJoinAppend(cwd, '/', name);
      SplitOnField([], '/', rest);
    }
  }

  /** `normpath` of a path that starts with exactly one slash. */
  lemma NormPathSingleSlash(p: string)
    requires LeadingSlashes(p) == 1
    ensures NormPath(p) == Render(NormComps([], SplitOn(p, '/'), true))
  {
    assert Repeat('/', 1) == "/";
  }

  /** `normpath` leaves a canonical absolute path as it is. */
  lemma NormPathOfRender(cs: seq<string>)
    requires AllPlain(cs)
    ensures NormPath(Render(cs)) == Render(cs)
  {
    var p := Render(cs);
    if cs == [] {
      assert p == "/";
      assert SplitOn(p, '/') == [[], []];
    } else {
      JoinWithFirst(cs, '/');
      SplitOnField([], '/', JoinWith(cs, '/'));
      assert [] + "/" + JoinWith(cs, '/') == p;
      SplitOnJoinWith(cs, '/');
      assert SplitOn(p, '/') == [[]] + cs;
      NormCompsOfPlain([], cs, true);
      assert NormComps([], [[]] + cs, true) == NormComps([], cs, true);
      assert LeadingSlashes(p) == 1;
      assert Repeat('/', 1) == "/";
      assert NormPath(p) == "/" + JoinWith(NormComps([], SplitOn(p, '/'), true), '/');
      assert NormComps([], SplitOn(p, '/'), true) == cs;
    }
  }

  /** `normpath` also leaves a canonical path under the two-slash root as it is. */
  lemma NormPathOfDoubleSlash(cs: seq<string>)
    requires AllPlain(cs)
    ensures NormPath("//" + JoinWith(cs, '/')) == "//" + JoinWith(cs, '/')
  {
    var j := JoinWith(cs, '/');
    var q := "//" + j;
    NormCompsOfDoubleSlash(cs);
    if cs != [] {
      JoinWithFirst(cs, '/');
      assert q[2] == j[0] != '/';
    }
    assert LeadingSlashes(q) == 2;
    assert Repeat('/', 2) == "//";
  }

  /** The components of `//a/b/…` normalise to `a`, `b`, …: the empty ones are dropped. */
  lemma NormCompsOfDoubleSlash(cs: seq<string>)
    requires AllPlain(cs)
    ensures NormComps([], SplitOn("//" + JoinWith(cs, '/'), '/'), true) == cs
  {
    var j := JoinWith(cs, '/');
    SplitDoubleSlash(j);
    NormCompsDropsEmpty(SplitOn(j, '/'));
    if cs == [] {
      SplitOnNoSeparator(j, '/');
      assert NormComps([], [[]], true) == [];
    } else {
      SplitOnJoinWith(cs, '/');
      NormCompsOfPlain([], cs, true);
    }
  }

  /** A path opening with `//` splits into two empty components, then the rest. */
  lemma SplitDoubleSlash(j: string)
    ensures SplitOn("//" + j, '/') == [[], []] + SplitOn(j, '/')
  {
    SplitOnField([], '/', "/" + j);
    assert [] + "/" + ("/" + j) == "//" + j;
    SplitOnField([], '/', j);
    assert [] + "/" + j == "/" + j;
  }

  /** `normpath` drops empty components. */
  lemma NormCompsDropsEmpty(rest: seq<string>)
    ensures NormComps([], [[], []] + rest, true) == NormComps([], rest, true)
  {
    NormCompsAppend([], [[], []], rest, true);
    assert NormComps([], [[], []], true) == [];
  }

  /** `normpath` is idempotent on absolute paths. */
  lemma NormPathIdempotent(p: string)
    requires IsAbs(p)
    ensures NormPath(NormPath(p)) == NormPath(p)
  {
    var lead := LeadingSlashes(p);
    var cs := NormComps([], SplitOn(p, '/'), true);
    SplitOnFieldsClean(p, '/');
    NormCompsPlain([], SplitOn(p, '/'));
    if lead == 1 {
      assert Repeat('/', 1) == "/";
      assert NormPath(p) == Render(cs);
      NormPathOfRender(cs);
    } else {
      assert Repeat('/', 2) == "//";
      assert NormPath(p) == "//" + JoinWith(cs, '/');
      NormPathOfDoubleSlash(cs);
    }
  }

  lemma JoinPathAbsolute(cwd: string, name: string)
    requires IsAbs(cwd) && !IsAbs(name)
    ensures IsAbs(JoinPath(cwd, name))
    ensures AbsPath(cwd, name) == Resolve(cwd, name)
  {
    assert JoinPath(cwd, name)[..1] == cwd[..1];
  }

  lemma {:induction false} RenderInjective(a: seq<string>, b: seq<string>)
    requires AllPlain(a) && AllPlain(b) && Render(a) == Render(b)
    ensures a == b
  {
    var ja, jb := JoinWith(a, '/'), JoinWith(b, '/');
    assert ja == Render(a)[1..] == Render(b)[1..] == jb;
    if a == [] || b == [] {
      if a != [] {
        JoinWithFirst(a, '/');
      }
      if b != [] {
        JoinWithFirst(b, '/');
      }
    } else {
      SplitOnJoinWith(a, '/');
      SplitOnJoinWith(b, '/');
    }
  }

  /**
   * The resolved name and the resolved `memory` share the working directory,
   * so one starts with the other exactly when the names do.
   */
  lemma RenderPrefix(cwd: seq<string>, names: seq<string>, base: string)
    requires AllPlain(cwd) && AllPlain(names) && |names| >= 1 && Plain(base)
    ensures StartsWith(Render(cwd + names), Render(cwd + [base]))
        <==> StartsWith(JoinWith(names, '/'), base)
  {
    var lead := if cwd == [] then "/" else Render(cwd) + "/";
    RenderAppend(cwd, names);
    RenderAppend(cwd, [base]);
    assert JoinWith([base], '/') == base;
    StartsWithShared(lead, JoinWith(names, '/'), base);
  }

  /** The path of a directory below a canonical one: the parent, a slash, the rest. */
  lemma RenderAppend(cwd: seq<string>, names: seq<string>)
    requires |names| >= 1
    ensures Render(cwd + names) == (if cwd == [] then "/" else Render(cwd) + "/") + JoinWith(names, '/')
  {
    if cwd == [] {
      assert cwd + names == names;
    } else {
      JoinWithAppend(cwd, names, '/');
      Regroup("/", JoinWith(cwd, '/'), "/", JoinWith(names, '/'));
    }
  }

  lemma StartsWithShared(lead: string, x: string, y: string)
    ensures StartsWith(lead + x, lead + y) <==> StartsWith(x, y)
  {
    if StartsWith(lead + x, lead + y) {
      assert x[..|y|] == (lead + x)[|lead|..|lead| + |y|];
    }
    if StartsWith(x, y) {
      assert (lead + x)[..|lead + y|] == lead + x[..|y|];
    }
  }
}
