/** Logical paths: slash-separated strings, their order, and what an event at one path covers. */
module Paths {

  /** The order `compareStrings` sorts by: first differing character decides, a prefix comes first. */
  predicate Before(a: string, b: string) {
    if b == "" then false
    else if a == "" then true
    else a[0] < b[0] || (a[0] == b[0] && Before(a[1..], b[1..]))
  }

  lemma {:induction false} BeforeIsTotal(a: string, b: string)
    ensures a == b || Before(a, b) || Before(b, a)
    ensures !(Before(a, b) && Before(b, a))
    ensures !Before(a, a)
  {
    if a != "" {
      BeforeIsTotal(a[1..], a[1..]);
      if b != "" {
        BeforeIsTotal(a[1..], b[1..]);
        assert a == [a[0]] + a[1..] && b == [b[0]] + b[1..];
      }
    }
  }

  lemma {:induction false} BeforeIsTransitive(a: string, b: string, c: string)
    requires Before(a, b) && Before(b, c)
    ensures Before(a, c)
  {
    if a != "" && a[0] == b[0] == c[0] {
      BeforeIsTransitive(a[1..], b[1..], c[1..]);
    }
  }

  ghost predicate Ascending(xs: seq<string>) {
    forall i, j :: 0 <= i < j < |xs| ==> Before(xs[i], xs[j])
  }

  method Least(s: set<string>) returns (least: string)
    requires s != {}
    ensures least in s && forall x :: x in s && x != least ==> Before(least, x)
  {
    least :| least in s;
    var rest := s - {least};
    while rest != {}
      invariant rest <= s && least in s
      invariant forall x :: x in s && x !in rest && x != least ==> Before(least, x)
      decreases |rest|
    {
      var x :| x in rest;
      BeforeIsTotal(least, x);
      if Before(x, least) {
        forall y | y in s && y !in rest && y != least
          ensures Before(x, y)
        {
          BeforeIsTransitive(x, least, y);
        }
        least := x;
      }
      rest := rest - {x};
    }
  }

  /** `[...set].sort(compareStrings)`. */
  method SortSet(s: set<string>) returns (xs: seq<string>)
    ensures Ascending(xs)
    ensures forall x :: x in xs <==> x in s
  {
    xs := [];
    var rest := s;
    while rest != {}
      invariant rest <= s
      invariant forall x :: x in xs <==> x in s && x !in rest
      invariant Ascending(xs)
      invariant forall x, y :: x in xs && y in rest ==> Before(x, y)
      decreases |rest|
    {
      var x := Least(rest);
      xs, rest := xs + [x], rest - {x};
    }
  }

  // ---- Containment ----

  /** `p` is `q` or lies below it: `path === logicalPath || path.startsWith(logicalPath + "/")`. */
  predicate Under(q: string, p: string) {
    p == q || q + "/" <= p
  }

  lemma UnderIsTransitive(q: string, c: string, p: string)
    requires Under(q, c) && Under(c, p)
    ensures Under(q, p)
  {
    if c != q && p != c {
      assert (q + "/") <= c <= p;
    }
  }

  /** `path.split("/")`. */
  function Segments(path: string): (segments: seq<string>)
    ensures |segments| > 0
  {
    if path == "" then [""]
    else
      var rest := Segments(path[1..]);
      if path[0] == '/' then [""] + rest else [[path[0]] + rest[0]] + rest[1..]
  }

  lemma SegmentsStep(c: char, rest: string)
    ensures Segments([c] + rest)
            == if c == '/' then [""] + Segments(rest) else [[c] + Segments(rest)[0]] + Segments(rest)[1..]
  {
    assert ([c] + rest)[0] == c && ([c] + rest)[1..] == rest;
  }

  lemma {:induction false} SegmentsOfJoin(q: string, r: string)
    ensures Segments(q + "/" + r) == Segments(q) + Segments(r)
  {
    hide Segments;
    if q == "" {
      SegmentsStep('/', r);
      assert Segments("") == [""] by { EmptySegments(); }
      assert q + "/" + r == ['/'] + r;
    } else {
      var c, tail := q[0], q[1..];
      SegmentsOfJoin(tail, r);
      SegmentsStep(c, tail);
      SegmentsStep(c, tail + "/" + r);
      assert q == [c] + tail && q + "/" + r == [c] + (tail + "/" + r);
      var left, right := Segments(tail), Segments(r);
      assert (left + right)[0] == left[0] && (left + right)[1..] == left[1..] + right;
    }
  }

  lemma EmptySegments()
    ensures Segments("") == [""]
  {
  }

  lemma {:induction false} OneSegment(s: string)
    requires '/' !in s
    ensures Segments(s) == [s]
  {
    if s != "" {
      OneSegment(s[1..]);
      assert s == [s[0]] + s[1..];
    }
  }

  /** `isIgnoredObservationPath` on a logical path. */
  predicate Ignored(path: string) {
    || Under(".evidence/runtime", path)
    || ".git" in Segments(path)
    || "node_modules" in Segments(path)
  }

  /** The name stands in the path between slashes or the path's ends, after `q` and before `r`. */
  ghost predicate Named(path: string, q: string, name: string, r: string) {
    path == name || path == q + "/" + name || path == name + "/" + r || path == q + "/" + name + "/" + r
  }

  lemma NamedIsSegment(path: string, q: string, name: string, r: string)
    requires '/' !in name && Named(path, q, name, r)
    ensures name in Segments(path)
  {
    OneSegment(name);
    SegmentsOfJoin(q, name);
    SegmentsOfJoin(name, r);
    SegmentsOfJoin(q + "/" + name, r);
    hide Segments;
  }

  lemma FirstSlash(path: string) returns (head: string, tail: string)
    requires '/' in path
    ensures '/' !in head && path == head + "/" + tail
  {
    if path[0] == '/' {
      head, tail := "", path[1..];
    } else {
      head, tail := FirstSlash(path[1..]);
      head := [path[0]] + head;
    }
  }

  lemma {:induction false} SegmentIsNamed(path: string, name: string) returns (q: string, r: string)
    requires name in Segments(path)
    ensures Named(path, q, name, r)
    decreases |path|
  {
    q, r := "", "";
    if '/' !in path {
      OneSegment(path);
    } else {
      var head, tail := FirstSlash(path);
      SegmentsOfJoin(head, tail);
      OneSegment(head);
      hide Segments;
      if name == head {
        r := tail;
      } else {
        q, r := SegmentIsNamed(tail, name);
        if tail == name || tail == name + "/" + r {
          q := head;
        } else {
          q := head + "/" + q;
        }
        NamedBelow(path, head, tail, name, r);
      }
    }
  }

  lemma NamedBelow(path: string, head: string, tail: string, name: string, r: string)
    requires path == head + "/" + tail
    ensures tail == name ==> path == head + "/" + name
    ensures tail == name + "/" + r ==> path == head + "/" + name + "/" + r
    ensures forall q :: tail == q + "/" + name ==> path == (head + "/" + q) + "/" + name
    ensures forall q :: tail == q + "/" + name + "/" + r ==> path == (head + "/" + q) + "/" + name + "/" + r
  {
  }

  lemma UnderIff(q: string, p: string)
    ensures Under(q, p) <==> p == q || exists r :: p == q + "/" + r
  {
    if Under(q, p) && p != q { assert p == q + "/" + p[|q| + 1..]; }
  }

  lemma SegmentIff(path: string, name: string)
    requires '/' !in name
    ensures name in Segments(path) <==> exists q, r :: Named(path, q, name, r)
  {
    hide Segments, Named;
    if name in Segments(path) { var q, r := SegmentIsNamed(path, name); }
    if q, r :| Named(path, q, name, r) { NamedIsSegment(path, q, name, r); }
  }

  /** A path is ignored exactly if it is or lies below the runtime evidence, or one of its parts is `.git` or `node_modules`. */
  lemma IgnoredIff(path: string)
    ensures Ignored(path) <==>
              || path == ".evidence/runtime" || (exists r :: path == ".evidence/runtime" + "/" + r)
              || (exists q, r :: Named(path, q, ".git", r)) || (exists q, r :: Named(path, q, "node_modules", r))
  {
    hide Segments, Named, Under;
    UnderIff(".evidence/runtime", path);
    SegmentIff(path, ".git");
    SegmentIff(path, "node_modules");
  }

  /** Everything below an ignored path is ignored. */
  lemma IgnoredBelow(q: string, p: string)
    requires Ignored(q) && Under(q, p)
    ensures Ignored(p)
  {
    if p != q {
      var r := p[|q| + 1..];
      assert p == q + "/" + r;
      SegmentsOfJoin(q, r);
      if Under(".evidence/runtime", q) {
        UnderIsTransitive(".evidence/runtime", q, p);
      }
    }
  }

  /** `isIgnoreRulePath`: files whose change alters what Git considers visible. */
  predicate IsIgnoreRule(path: string) {
    || path == ".gitignore"
    || path == ".git/info/exclude"
    || (|path| >= |"/.gitignore"| && path[|path| - |"/.gitignore"|..] == "/.gitignore")
  }
}
