/** Slash-separated paths: splitting, joining and lexical cleaning, as the
    standard library's path package defines them. */
module SlashPath {
  import opened Basics

  function SplitBy(s: string, isSep: char -> bool): (parts: seq<string>)
    ensures |parts| >= 1
  {
    if s == "" then [""]
    else
      var rest := SplitBy(s[1..], isSep);
      if isSep(s[0]) then [""] + rest else [[s[0]] + rest[0]] + rest[1..]
  }

  const IS_SLASH: char -> bool := (c: char) => c == '/'

  function Segments(s: string): (parts: seq<string>)
    ensures |parts| >= 1
  {
    SplitBy(s, IS_SLASH)
  }

  function Joined(parts: seq<string>): string {
    if parts == [] then "" else if |parts| == 1 then parts[0] else parts[0] + "/" + Joined(parts[1..])
  }

  /** The components left after dropping empty and "." ones and resolving "..". */
  function Reduce(rooted: bool, parts: seq<string>, stack: seq<string>): seq<string> {
    if parts == [] then stack
    else
      var p := parts[0];
      var next :=
        if p == "" || p == "." then stack
        else if p != ".." then stack + [p]
        else if stack != [] && stack[|stack| - 1] != ".." then stack[..|stack| - 1]
        else if rooted then stack
        else stack + [".."];
      Reduce(rooted, parts[1..], next)
  }

  function Rendered(rooted: bool, stack: seq<string>): string {
    if rooted then "/" + Joined(stack) else if stack == [] then "." else Joined(stack)
  }

  function Clean(p: string): string {
    if p == "" then "."
    else Rendered(p[0] == '/', Reduce(p[0] == '/', Segments(p), []))
  }

  /** One past the last `c`, or 0. */
  function AfterLast(s: string, c: char): (i: nat)
    ensures i <= |s|
    ensures i > 0 ==> s[i - 1] == c
    ensures forall j :: i <= j < |s| ==> s[j] != c
  {
    if s == "" then 0 else if s[|s| - 1] == c then |s| else AfterLast(s[..|s| - 1], c)
  }

  /** The directory with its final slash, and the last component. */
  function Split(p: string): (string, string) {
    var i := AfterLast(p, '/'); (p[..i], p[i..])
  }

  function Join(a: string, b: string): string {
    if a == "" then (if b == "" then "" else Clean(b)) else Clean(a + "/" + b)
  }

  function Dir(p: string): string {
    Clean(Split(p).0)
  }

  // ---- Splitting and joining ----

  predicate Plain(part: string) {
    '/' !in part
  }

  lemma {:induction false} SplitConcat(a: string, c: char, b: string, isSep: char -> bool)
    requires isSep(c)
    ensures SplitBy(a + [c] + b, isSep) == SplitBy(a, isSep) + SplitBy(b, isSep)
  {
    var s := a + [c] + b;
    if a == "" {
      assert s[1..] == b;
    } else {
      assert s[1..] == a[1..] + [c] + b;
      SplitConcat(a[1..], c, b, isSep);
    }
  }

  lemma {:induction false} SplitPlain(s: string, isSep: char -> bool)
    requires forall i :: 0 <= i < |s| ==> !isSep(s[i])
    ensures SplitBy(s, isSep) == [s]
  {
    if s != "" {
      SplitPlain(s[1..], isSep);
      assert [s[0]] + s[1..] == s;
    }
  }

  lemma {:induction false} SegmentsOfJoined(parts: seq<string>)
    requires |parts| >= 1 && forall i :: 0 <= i < |parts| ==> Plain(parts[i])
    ensures Segments(Joined(parts)) == parts
  {
    SplitPlain(parts[0], IS_SLASH);
    if |parts| > 1 {
      SegmentsOfJoined(parts[1..]);
      SplitConcat(parts[0], '/', Joined(parts[1..]), IS_SLASH);
      assert [parts[0]] + parts[1..] == parts;
    }
  }

  lemma {:induction false} PartsComeFrom(s: string, isSep: char -> bool)
    ensures forall part, c :: part in SplitBy(s, isSep) && c in part ==> c in s && !isSep(c)
  {
    if s != "" {
      PartsComeFrom(s[1..], isSep);
      var rest := SplitBy(s[1..], isSep);
      forall part, c | part in SplitBy(s, isSep) && c in part ensures c in s && !isSep(c) {
        if part !in rest {
          assert part == [s[0]] + rest[0];
          assert rest[0] in rest;
        }
      }
    }
  }

  lemma {:induction false} JoinedComesFrom(parts: seq<string>, c: char)
    requires c in Joined(parts) && c != '/'
    ensures exists i :: 0 <= i < |parts| && c in parts[i]
  {
    if |parts| > 1 && c !in parts[0] {
      assert c in Joined(parts[1..]);
      JoinedComesFrom(parts[1..], c);
      var i :| 0 <= i < |parts| - 1 && c in parts[1..][i];
      assert c in parts[i + 1];
    } else {
      assert c in parts[0];
    }
  }

  // ---- Cleaning is idempotent ----

  /** A reduced component list: nothing to drop, and ".." only where it cannot be resolved. */
  ghost predicate Normal(rooted: bool, stack: seq<string>) {
    && (forall i :: 0 <= i < |stack| ==> Plain(stack[i]) && stack[i] != "" && stack[i] != ".")
    && (forall i :: 0 <= i < |stack| && stack[i] == ".." ==> !rooted && forall j :: 0 <= j < i ==> stack[j] == "..")
  }

  lemma {:induction false} ReduceIsNormal(rooted: bool, parts: seq<string>, stack: seq<string>)
    requires Normal(rooted, stack) && forall i :: 0 <= i < |parts| ==> Plain(parts[i])
    ensures Normal(rooted, Reduce(rooted, parts, stack))
    ensures forall x :: x in Reduce(rooted, parts, stack) ==> x in parts || x in stack
  {
    if parts != [] {
      var p := parts[0];
      var next :=
        if p == "" || p == "." then stack
        else if p != ".." then stack + [p]
        else if stack != [] && stack[|stack| - 1] != ".." then stack[..|stack| - 1]
        else if rooted then stack
        else stack + [".."];
      assert Normal(rooted, next);
      ReduceIsNormal(rooted, parts[1..], next);
    }
  }

  lemma {:induction false} ReduceKeepsNormal(rooted: bool, stack: seq<string>, parts: seq<string>)
    requires Normal(rooted, stack + parts)
    ensures Reduce(rooted, parts, stack) == stack + parts
    decreases |parts|
  {
    if parts == [] {
      assert stack + parts == stack;
    } else {
      var all := stack + parts;
      assert all[|stack|] == parts[0];
      assert parts[0] == ".." && stack != [] ==> all[|stack| - 1] == "..";
      assert (stack + [parts[0]]) + parts[1..] == all;
      ReduceKeepsNormal(rooted, stack + [parts[0]], parts[1..]);
    }
  }

  lemma RenderedSegments(rooted: bool, stack: seq<string>)
    requires Normal(rooted, stack)
    ensures Rendered(rooted, stack) != "" && (Rendered(rooted, stack)[0] == '/') == rooted
    ensures Reduce(rooted, Segments(Rendered(rooted, stack)), []) == stack
  {
    if rooted {
      SplitConcat("", '/', Joined(stack), IS_SLASH);
      assert Rendered(rooted, stack) == "" + ['/'] + Joined(stack);
      assert Segments(Rendered(rooted, stack)) == [""] + Segments(Joined(stack));
      assert ([""] + Segments(Joined(stack)))[1..] == Segments(Joined(stack));
      if stack == [] {
        assert Segments(Joined(stack)) == [""];
        assert Reduce(rooted, [""], []) == [];
      } else {
        SegmentsOfJoined(stack);
        ReduceKeepsNormal(rooted, [], stack);
        assert [] + stack == stack;
      }
    } else if stack == [] {
      SplitPlain(".", IS_SLASH);
      assert Reduce(rooted, ["."], []) == [];
    } else {
      SegmentsOfJoined(stack);
      ReduceKeepsNormal(rooted, [], stack);
      assert [] + stack == stack;
      assert stack[0] != "" && Plain(stack[0]);
      assert Joined(stack)[0] == stack[0][0];
    }
  }

  /** A cleaned path is already clean. */
  lemma CleanIdempotent(p: string)
    ensures Clean(p) != "" && Clean(Clean(p)) == Clean(p)
  {
    if p == "" {
      RenderedSegments(false, []);
    } else {
      var rooted := p[0] == '/';
      PartsComeFrom(p, IS_SLASH);
      ReduceIsNormal(rooted, Segments(p), []);
      RenderedSegments(rooted, Reduce(rooted, Segments(p), []));
    }
  }

  /** Cleaning brings in no character of its own but '/' and '.'. */
  lemma CleanCharacters(p: string, c: char)
    requires c in Clean(p)
    ensures c in p || c == '/' || c == '.'
  {
    if p != "" {
      var rooted := p[0] == '/';
      var stack := Reduce(rooted, Segments(p), []);
      PartsComeFrom(p, IS_SLASH);
      ReduceIsNormal(rooted, Segments(p), []);
      if c in Joined(stack) && c != '/' {
        JoinedComesFrom(stack, c);
        var i :| 0 <= i < |stack| && c in stack[i];
        assert stack[i] in Segments(p);
      }
    }
  }

  // ---- What cleaning does ----

  lemma {:induction false} ReduceConcat(rooted: bool, a: seq<string>, b: seq<string>, stack: seq<string>)
    ensures Reduce(rooted, a + b, stack) == Reduce(rooted, b, Reduce(rooted, a, stack))
    decreases |a|
  {
    if a == [] {
      assert a + b == b;
    } else {
      var p := a[0];
      assert (a + b)[0] == p && (a + b)[1..] == a[1..] + b;
      var next :=
        if p == "" || p == "." then stack
        else if p != ".." then stack + [p]
        else if stack != [] && stack[|stack| - 1] != ".." then stack[..|stack| - 1]
        else if rooted then stack
        else stack + [".."];
      ReduceConcat(rooted, a[1..], b, next);
    }
  }

  /** A component that names something: neither empty nor ".". */
  const IS_NAME: string -> bool := (part: string) => part != "" && part != "."

  lemma {:induction false} ReducePlain(rooted: bool, parts: seq<string>, stack: seq<string>)
    requires ".." !in parts
    ensures Reduce(rooted, parts, stack) == stack + Filter(parts, IS_NAME)
    decreases |parts|
  {
    if parts == [] {
      assert stack + [] == stack;
    } else {
      var next := if IS_NAME(parts[0]) then stack + [parts[0]] else stack;
      ReducePlain(rooted, parts[1..], next);
      FilterConcat([parts[0]], parts[1..], IS_NAME);
      assert [parts[0]] + parts[1..] == parts;
      assert next + Filter(parts[1..], IS_NAME) == stack + Filter(parts, IS_NAME);
    }
  }

  /** Without "..", cleaning keeps exactly the components that name something. */
  lemma CleanPlain(p: string)
    requires p != "" && ".." !in Segments(p)
    ensures var names := Filter(Segments(p), IS_NAME);
            Clean(p) == if p[0] == '/' then "/" + Joined(names) else if names == [] then "." else Joined(names)
  {
    ReducePlain(p[0] == '/', Segments(p), []);
    assert [] + Filter(Segments(p), IS_NAME) == Filter(Segments(p), IS_NAME);
  }

  lemma SlashBetween(a: string, b: string)
    ensures Segments(a + "/" + b) == Segments(a) + Segments(b)
  {
    SplitConcat(a, '/', b, IS_SLASH);
    assert a + "/" + b == a + ['/'] + b;
  }

  lemma UpSegments(q: string)
    ensures Segments(".." + "/" + q) == [".."] + Segments(q)
  {
    SplitPlain("..", IS_SLASH);
    SlashBetween("..", q);
  }

  lemma RootSegments(q: string)
    ensures Segments("/" + q) == [""] + Segments(q)
  {
    SlashBetween("", q);
    assert "" + "/" == "/";
  }

  /** A component and the ".." after it cancel out. */
  lemma CleanBack(p: string, x: string, q: string)
    requires p != "" && Plain(x) && x != "" && x != "." && x != ".."
    ensures Clean(p + "/" + (x + "/" + (".." + "/" + q))) == Clean(p + "/" + q)
  {
    SlashBetween(p, x + "/" + (".." + "/" + q));
    SlashBetween(x, ".." + "/" + q);
    UpSegments(q);
    SplitPlain(x, IS_SLASH);
    SlashBetween(p, q);
    BackReduces(p[0] == '/', Segments(p), x, Segments(q));
  }

  lemma BackReduces(rooted: bool, parts: seq<string>, x: string, rest: seq<string>)
    requires x != "" && x != "." && x != ".."
    ensures Reduce(rooted, parts + ([x] + ([".."] + rest)), []) == Reduce(rooted, parts + rest, [])
  {
    var before := Reduce(rooted, parts, []);
    ReduceConcat(rooted, parts, rest, []);
    ReduceConcat(rooted, parts, [x] + ([".."] + rest), []);
    ReduceConcat(rooted, [x], [".."] + rest, before);
    ReduceConcat(rooted, [".."], rest, before + [x]);
    assert Reduce(rooted, [x], before) == Reduce(rooted, [], before + [x]);
    assert (before + [x])[..|before|] == before;
    assert Reduce(rooted, [".."], before + [x]) == Reduce(rooted, [], before);
  }

  /** Above the root there is only the root. */
  lemma CleanAboveRoot(q: string)
    ensures Clean("/" + (".." + "/" + q)) == Clean("/" + q)
  {
    RootSegments(".." + "/" + q);
    RootSegments(q);
    UpSegments(q);
    UpOfRoot(Segments(q));
  }

  lemma UpOfRoot(rest: seq<string>)
    ensures Reduce(true, [""] + ([".."] + rest), []) == Reduce(true, [""] + rest, [])
  {
    ReduceConcat(true, [""], [".."] + rest, []);
    ReduceConcat(true, [""], rest, []);
    ReduceConcat(true, [".."], rest, []);
    assert Reduce(true, [""], []) == Reduce(true, [], []);
    assert Reduce(true, [".."], []) == Reduce(true, [], []);
  }

  /** Leading ".." of a relative path stay. */
  lemma CleanAbove(q: string)
    requires q != "" && q[0] != '/'
    ensures Clean(".." + "/" + q) == if Clean(q) == "." then ".." else ".." + "/" + Clean(q)
  {
    var stack := Reduce(false, Segments(q), []);
    UpSegments(q);
    UnderReduces(Segments(q));
    assert ([".."] + stack)[1..] == stack;
    PartsComeFrom(q, IS_SLASH);
    ReduceIsNormal(false, Segments(q), []);
    if stack != [] && Clean(q) == "." { RenderedSegments(false, stack); }
  }

  lemma UnderReduces(rest: seq<string>)
    ensures Reduce(false, [".."] + rest, []) == [".."] + Reduce(false, rest, [])
  {
    ReduceConcat(false, [".."], rest, []);
    assert Reduce(false, [".."], []) == Reduce(false, [], [".."]);
    ReduceUnder(rest, []);
    assert [".."] + [] == [".."];
  }

  lemma {:induction false} ReduceUnder(parts: seq<string>, stack: seq<string>)
    ensures Reduce(false, parts, [".."] + stack) == [".."] + Reduce(false, parts, stack)
    decreases |parts|
  {
    if parts != [] {
      var p := parts[0];
      var under := [".."] + stack;
      if p == "" || p == "." {
        ReduceUnder(parts[1..], stack);
      } else if p == ".." && stack != [] && stack[|stack| - 1] != ".." {
        assert under[..|under| - 1] == [".."] + stack[..|stack| - 1];
        ReduceUnder(parts[1..], stack[..|stack| - 1]);
      } else {
        assert under + [p] == [".."] + (stack + [p]);
        ReduceUnder(parts[1..], stack + [p]);
      }
    }
  }

  // ---- Traversal ----

  const IS_EITHER_SLASH: char -> bool := (c: char) => c == '/' || c == '\\'

  /** Some component is "..", counting a backslash as a separator too. */
  predicate HasTraversal(p: string) {
    ".." in SplitBy(p, IS_EITHER_SLASH)
  }

  /** Two dots at `i`, with a separator or an end on either side. */
  predicate DotsAt(p: string, i: nat) {
    && i + 2 <= |p| && p[i] == '.' && p[i + 1] == '.'
    && (i == 0 || IS_EITHER_SLASH(p[i - 1])) && (i + 2 == |p| || IS_EITHER_SLASH(p[i + 2]))
  }

  lemma TraversalMeans(p: string)
    ensures HasTraversal(p) <==> exists i: nat :: DotsAt(p, i)
  {
    FirstPart(p);
    LaterParts(p);
    assert SplitBy(p, IS_EITHER_SLASH) == [SplitBy(p, IS_EITHER_SLASH)[0]] + SplitBy(p, IS_EITHER_SLASH)[1..];
    if i: nat :| DotsAt(p, i) {
      assert i > 0 ==> i >= 1 && DotsAt(p, i);
    }
  }

  lemma {:induction false} FirstPart(p: string)
    ensures var part := SplitBy(p, IS_EITHER_SLASH)[0];
            && part <= p && (|part| == |p| || IS_EITHER_SLASH(p[|part|]))
            && forall k :: 0 <= k < |part| ==> !IS_EITHER_SLASH(p[k])
    ensures SplitBy(p, IS_EITHER_SLASH)[0] == ".." <==> DotsAt(p, 0)
  {
    if p != "" && !IS_EITHER_SLASH(p[0]) { FirstPart(p[1..]); }
  }

  lemma {:induction false} LaterParts(p: string)
    ensures ".." in SplitBy(p, IS_EITHER_SLASH)[1..] <==> exists i: nat :: i >= 1 && DotsAt(p, i)
  {
    if p != "" {
      var t := p[1..];
      FirstPart(t);
      LaterParts(t);
      assert SplitBy(t, IS_EITHER_SLASH) == [SplitBy(t, IS_EITHER_SLASH)[0]] + SplitBy(t, IS_EITHER_SLASH)[1..];
      assert forall i: nat :: i >= 1 && DotsAt(t, i) ==> DotsAt(p, i + 1);
      assert forall i: nat :: i >= 2 && DotsAt(p, i) ==> DotsAt(t, i - 1);
      assert DotsAt(p, 1) <==> IS_EITHER_SLASH(p[0]) && DotsAt(t, 0);
    }
  }

  lemma {:induction false} TraversalInJoined(parts: seq<string>)
    requires |parts| >= 1
    ensures HasTraversal(Joined(parts)) <==> exists i :: 0 <= i < |parts| && HasTraversal(parts[i])
  {
    if |parts| > 1 {
      var rest := parts[1..];
      TraversalInJoined(rest);
      SplitConcat(parts[0], '/', Joined(rest), IS_EITHER_SLASH);
      if HasTraversal(Joined(parts)) && !HasTraversal(parts[0]) {
        var i :| 0 <= i < |rest| && HasTraversal(rest[i]);
        assert HasTraversal(parts[i + 1]);
      }
      if i :| 0 <= i < |parts| && HasTraversal(parts[i]) {
        if i > 0 { assert HasTraversal(rest[i - 1]); }
      }
    }
  }

  lemma {:induction false} JoinedOfSegments(s: string)
    ensures Joined(Segments(s)) == s
  {
    if s != "" {
      JoinedOfSegments(s[1..]);
      var rest := Segments(s[1..]);
      if s[0] == '/' {
        assert ([""] + rest)[1..] == rest;
        assert Joined([""] + rest) == "" + "/" + Joined(rest);
      } else if |rest| > 1 {
        var parts := [[s[0]] + rest[0]] + rest[1..];
        assert parts[1..] == rest[1..];
        assert Joined(parts) == [s[0]] + rest[0] + "/" + Joined(rest[1..]);
      }
    }
  }

  lemma CleanKeepsOutTraversal(p: string)
    requires p != "" && !HasTraversal(p)
    ensures !HasTraversal(Clean(p))
  {
    var rooted := p[0] == '/';
    var parts := Segments(p);
    var stack := Reduce(rooted, parts, []);
    JoinedOfSegments(p);
    TraversalInJoined(parts);
    PartsComeFrom(p, IS_SLASH);
    ReduceIsNormal(rooted, parts, []);
    forall i | 0 <= i < |stack| ensures !HasTraversal(stack[i]) {
      assert stack[i] in parts;
    }
    RenderedTraversal(rooted, stack);
  }

  lemma RenderedTraversal(rooted: bool, stack: seq<string>)
    requires forall i :: 0 <= i < |stack| ==> !HasTraversal(stack[i])
    ensures !HasTraversal(Rendered(rooted, stack))
  {
    if stack == [] {
      SplitPlain(".", IS_EITHER_SLASH);
      assert SplitBy("/", IS_EITHER_SLASH) == ["", ""];
      assert "/" + "" == "/";
    } else {
      TraversalInJoined(stack);
      SplitConcat("", '/', Joined(stack), IS_EITHER_SLASH);
      assert "" + ['/'] + Joined(stack) == "/" + Joined(stack);
    }
  }
}
