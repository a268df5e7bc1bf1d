/** `os.path.join`, `os.path.dirname` and `os.path.basename` with their POSIX
    meaning (separator `/`), which is what the layout paths are built with. */
module PosixPath {

  /** `os.path.join(a, b)`: an absolute `b` replaces `a`; otherwise one `/` is
      inserted unless `a` is empty or already ends with `/`. A join of three
      parts, `os.path.join(a, b, c)`, is `Join(Join(a, b), c)`. */
  function Join(a: string, b: string): string
  {
    if |b| > 0 && b[0] == '/' then b
    else if a == [] || a[|a| - 1] == '/' then a + b
    else a + "/" + b
  }

  /** What a join keeps: `b` always ends the result, an absolute `b` is the
      whole result, and a relative `b` is appended to all of `a`. */
  lemma JoinShape(a: string, b: string)
    ensures |Join(a, b)| >= |b| && Join(a, b)[|Join(a, b)| - |b|..] == b
    ensures b != [] && b[0] == '/' ==> Join(a, b) == b
    ensures (b == [] || b[0] != '/') ==> |Join(a, b)| >= |a| && Join(a, b)[..|a|] == a
  {
  }

  /** Index just after the last `/` of `p` (0 when there is none). */
  function SplitPoint(p: string): (i: nat)
    ensures i <= |p|
    ensures i > 0 ==> p[i - 1] == '/'
    ensures forall k :: i <= k < |p| ==> p[k] != '/'
  {
    if p == [] then 0
    else if p[|p| - 1] == '/' then |p|
    else SplitPoint(p[..|p| - 1])
  }

  /** `os.path.basename(p)`: the text after the last `/`. */
  function Basename(p: string): (r: string)
    ensures |r| <= |p| && '/' !in r && r == p[|p| - |r|..]
  {
    p[SplitPoint(p)..]
  }

  /** The base name starts just after the last `/`: unless it is the whole
      path, a `/` stands right before it. */
  lemma BasenameAfterSlash(p: string)
    ensures var r := Basename(p); |r| < |p| ==> p[|p| - |r| - 1] == '/'
  {
    var i := SplitPoint(p);
    assert |Basename(p)| == |p| - i;
  }

  predicate AllSlashes(s: string)
  {
    forall i :: 0 <= i < |s| ==> s[i] == '/'
  }

  function StripTrailingSlashes(s: string): (r: string)
    ensures |r| <= |s| && r == s[..|r|]
    ensures r == [] || r[|r| - 1] != '/'
  {
    if s != [] && s[|s| - 1] == '/' then StripTrailingSlashes(s[..|s| - 1]) else s
  }

  /** `os.path.dirname(p)`: the text up to the last `/`, without the trailing
      slashes unless it consists of slashes only. */
  function Dirname(p: string): (r: string)
    ensures |r| <= |p| && r == p[..|r|]
  {
    var head := p[..SplitPoint(p)];
    if head != [] && !AllSlashes(head) then StripTrailingSlashes(head) else head
  }

  /** Joining is associative: joining three parts one way or the other names
      the same path. */
  lemma JoinAssoc(a: string, b: string, c: string)
    ensures Join(Join(a, b), c) == Join(a, Join(b, c))
  {
    if c != [] && c[0] == '/' {
      JoinAbsoluteLast(a, b, c);
    } else if b != [] && b[0] == '/' {
      JoinAbsoluteMiddle(a, b, c);
    } else if b == [] {
      JoinEmptyMiddle(a, b, c);
    } else {
      JoinRelative(a, b, c);
    }
  }

  lemma JoinAbsoluteLast(a: string, b: string, c: string)
    requires c != [] && c[0] == '/'
    ensures Join(Join(a, b), c) == Join(a, Join(b, c))
  {
    assert Join(b, c) == c;
  }

  lemma JoinAbsoluteMiddle(a: string, b: string, c: string)
    requires b != [] && b[0] == '/'
    requires c == [] || c[0] != '/'
    ensures Join(Join(a, b), c) == Join(a, Join(b, c))
  {
    assert Join(a, b) == b;
    JoinAbsolute(b, c);
  }

  lemma JoinEmptyMiddle(a: string, b: string, c: string)
    requires b == [] && (c == [] || c[0] != '/')
    ensures Join(Join(a, b), c) == Join(a, Join(b, c))
  {
    assert Join(b, c) == c;
    if a != [] && a[|a| - 1] != '/' {
      var a1 := a + "/";
      assert Join(a, []) == a1;
      assert a1 != [] && a1[|a1| - 1] == '/';
      assert Join(a1, c) == a1 + c;
      assert a1 + c == a + "/" + c;
    } else {
      assert Join(a, []) == a;
    }
  }

  lemma JoinAbsolute(b: string, c: string)
    requires b != [] && b[0] == '/'
    ensures Join(b, c) != [] && Join(b, c)[0] == '/'
  {
  }

  lemma JoinRelative(a: string, b: string, c: string)
    requires b != [] && b[0] != '/'
    requires c == [] || c[0] != '/'
    ensures Join(Join(a, b), c) == Join(a, Join(b, c))
  {
    var sep := if a == [] || a[|a| - 1] == '/' then "" else "/";
    var mid := if b[|b| - 1] == '/' then "" else "/";
    var bc := b + mid + c;
    var ab := a + sep + b;
    JoinAs(a, b, sep);
    JoinAs(b, c, mid);
    assert bc[0] == b[0];
    JoinAs(a, bc, sep);
    assert ab != [] && ab[|ab| - 1] == b[|b| - 1];
    JoinAs(ab, c, mid);
    Regroup(a, sep, b, mid, c);
  }

  lemma Regroup(a: string, sep: string, b: string, mid: string, c: string)
    ensures a + sep + b + mid + c == a + sep + (b + mid + c)
  {
  }

  /** The separator a relative join inserts. */
  lemma JoinAs(a: string, b: string, sep: string)
    requires b == [] || b[0] != '/'
    requires sep == (if a == [] || a[|a| - 1] == '/' then "" else "/")
    ensures Join(a, b) == a + sep + b
  {
  }

  /** A path made by joining a directory (not ending in `/`) and one plain name
      splits back into exactly that directory and that name. */
  lemma SplitJoin(a: string, b: string)
    requires b != [] && '/' !in b
    requires a == [] || a[|a| - 1] != '/'
    ensures Dirname(Join(a, b)) == a
    ensures Basename(Join(a, b)) == b
  {
    assert b[0] in b;
    var p := Join(a, b);
    if a == [] {
      assert p == [] + b;
      SplitPointPlainTail([], b);
    } else {
      var head := a + "/";
      assert p == head + b;
      SplitPointPlainTail(head, b);
      assert p[..|head|] == head;
      assert !AllSlashes(head) by {
        assert head[|a| - 1] == a[|a| - 1];
      }
      assert head[..|a|] == a;
      assert StripTrailingSlashes(head) == StripTrailingSlashes(a);
    }
  }

  /** Two plain names joined form `dir/base`, which splits back into them. */
  lemma PlainPair(dir: string, base: string)
    requires dir != [] && '/' !in dir && base != [] && '/' !in base
    ensures Join(dir, base) == dir + "/" + base
    ensures Dirname(dir + "/" + base) == dir
    ensures Basename(dir + "/" + base) == base
  {
    assert dir[|dir| - 1] in dir;
    assert base[0] in base;
    SplitJoin(dir, base);
  }

  /** Characters after the last `/` do not move the split point. */
  lemma {:induction false} SplitPointPlainTail(u: string, y: string)
    requires '/' !in y
    ensures SplitPoint(u + y) == SplitPoint(u)
    decreases |y|
  {
    if y == [] {
      assert u + y == u;
    } else {
      var w := u + y;
      assert w[|w| - 1] == y[|y| - 1];
      assert w[..|w| - 1] == u + y[..|y| - 1];
      SplitPointPlainTail(u, y[..|y| - 1]);
    }
  }

  /** Joining a plain name onto any directory yields a path that does not end
      in `/` and is longer than the directory. */
  lemma JoinPlainName(a: string, b: string)
    requires b != [] && '/' !in b
    ensures |Join(a, b)| > |a|
    ensures Join(a, b)[|Join(a, b)| - 1] == b[|b| - 1]
  {
    assert b[0] in b;
  }
}
