/** The string operations the calculator relies on: counting points, slice(0, -1) and split('.'). */
module Strings {

  /** The number of '.' characters in s. */
  function Dots(s: string): nat
  {
    if s == "" then 0 else (if s[0] == '.' then 1 else 0) + Dots(s[1..])
  }

  lemma {:induction false} DotsConcat(a: string, b: string)
    ensures Dots(a + b) == Dots(a) + Dots(b)
  {
    if a == "" {
      assert a + b == b;
    } else {
      assert (a + b)[1..] == a[1..] + b;
      DotsConcat(a[1..], b);
    }
  }

  /** s contains a point exactly when its count of points is not zero. */
  lemma {:induction false} DotsZero(s: string)
    ensures Dots(s) == 0 <==> '.' !in s
  {
    if s != "" {
      DotsZero(s[1..]);
      assert s == [s[0]] + s[1..];
    }
  }

  /** A prefix has no more points than the whole text. */
  lemma DotsPrefix(p: string, s: string)
    requires p <= s
    ensures Dots(p) <= Dots(s)
  {
    assert s == p + s[|p|..];
    DotsConcat(p, s[|p|..]);
  }

  /** s with its '.' characters taken out. */
  function WithoutPoints(s: string): string
  {
    if s == "" then "" else (if s[0] == '.' then "" else [s[0]]) + WithoutPoints(s[1..])
  }

  lemma {:induction false} WithoutPointsConcat(a: string, b: string)
    ensures WithoutPoints(a + b) == WithoutPoints(a) + WithoutPoints(b)
  {
    if a == "" {
      assert a + b == b;
    } else {
      assert (a + b)[1..] == a[1..] + b;
      WithoutPointsConcat(a[1..], b);
    }
  }

  /** s.slice(0, -1): every character but the last; the empty string stays empty. */
  function DropLast(s: string): (t: string)
    ensures |t| == if s == "" then 0 else |s| - 1
    ensures t <= s
  {
    if s == "" then s else s[..|s| - 1]
  }

  /** The fields of s between the '.' characters, as s.split('.') gives them. */
  function Split(s: string): (parts: seq<string>)
    ensures |parts| == Dots(s) + 1
    ensures forall i :: 0 <= i < |parts| ==> '.' !in parts[i]
    ensures Join(parts) == s
  {
    if s == "" then [""]
    else
      var rest := Split(s[1..]);
      if s[0] == '.' then
        assert Join([""] + rest) == "" + "." + Join(rest);
        assert s == [s[0]] + s[1..];
        [""] + rest
      else
        var parts := [[s[0]] + rest[0]] + rest[1..];
        assert parts[1..] == rest[1..];
        assert s == [s[0]] + s[1..];
        parts
  }

  /** The fields glued back together with '.' between them. */
  function Join(parts: seq<string>): string
    requires |parts| >= 1
  {
    if |parts| == 1 then parts[0] else parts[0] + "." + Join(parts[1..])
  }

  /** Text without a point in front does not open a new field: it joins the first one. */
  lemma {:induction false} SplitPointFree(a: string, u: string)
    requires '.' !in a
    ensures Split(a + u) == [a + Split(u)[0]] + Split(u)[1..]
  {
    if a == "" {
      assert a + u == u;
      assert a + Split(u)[0] == Split(u)[0];
      assert Split(u) == [Split(u)[0]] + Split(u)[1..];
    } else {
      assert (a + u)[0] == a[0];
      assert (a + u)[1..] == a[1..] + u;
      SplitPointFree(a[1..], u);
      assert [a[0]] + (a[1..] + Split(u)[0]) == a + Split(u)[0];
    }
  }

  /** split('.')[0] is the text before the first point and split('.')[1] the text between the first and the second. */
  lemma SplitAtPoint(a: string, b: string, rest: string)
    requires '.' !in a && '.' !in b
    requires rest == "" || rest[0] == '.'
    ensures |Split(a + "." + b + rest)| >= 2
    ensures Split(a + "." + b + rest)[0] == a
    ensures Split(a + "." + b + rest)[1] == b
  {
    assert a + "." + b + rest == a + ("." + (b + rest));
    SplitPointFree(a, "." + (b + rest));
    assert ("." + (b + rest))[1..] == b + rest;
    SplitPointFree(b, rest);
    if rest != "" {
      assert rest == [rest[0]] + rest[1..];
    }
  }

  /** Without a point, split('.') gives the whole text as its only field. */
  lemma SplitNoPoint(s: string)
    requires '.' !in s
    ensures Split(s) == [s]
  {
    DotsZero(s);
  }
}
