/** Dotted field paths, defined independently of the components: `Join`
    puts a single `.` between consecutive segments, `Split` cuts a path at
    every `.`. They are the reference against which the names built up by
    nested scopes are stated. */
module DottedPath {

  /** `segs[0] + "." + segs[1] + ... + "." + segs[n-1]`; empty for no segment. */
  function Join(segs: seq<string>): string
  {
    if segs == [] then ""
    else if |segs| == 1 then segs[0]
    else segs[0] + "." + Join(segs[1..])
  }

  /** The pieces of `s` between its dots, in order (`""` gives `[""]`). */
  function Split(s: string): (parts: seq<string>)
    ensures |parts| >= 1
    decreases |s|
  {
    if s == [] then [""]
    else
      var rest := Split(s[1..]);
      if s[0] == '.' then [""] + rest
      else [[s[0]] + rest[0]] + rest[1..]
  }

  predicate DotFree(s: string)
  {
    forall i :: 0 <= i < |s| ==> s[i] != '.'
  }

  /** Appending one more segment to a path adds exactly one dot, and only
      when the path already has a segment. */
  lemma {:induction false} JoinSnoc(segs: seq<string>, s: string)
    ensures Join(segs + [s]) == if segs == [] then s else Join(segs) + "." + s
    decreases |segs|
  {
    if |segs| <= 1 {
      if |segs| == 1 {
        assert segs + [s] == [segs[0], s];
        assert [segs[0], s][1..] == [s];
      }
    } else {
      calc {
        Join(segs + [s]);
        { assert (segs + [s])[1..] == segs[1..] + [s]; }
        segs[0] + "." + Join(segs[1..] + [s]);
        { JoinSnoc(segs[1..], s); }
        segs[0] + "." + (Join(segs[1..]) + "." + s);
      }
    }
  }

  /** A dot-free segment followed by a dot splits off as its own piece. */
  lemma {:induction false} SplitSegmentDot(a: string, t: string)
    requires DotFree(a)
    ensures Split(a + "." + t) == [a] + Split(t)
    decreases |a|
  {
    if a == [] {
      assert a + "." + t == ['.'] + t;
      assert (['.'] + t)[1..] == t;
    } else {
      var w := a + "." + t;
      assert w[1..] == a[1..] + "." + t;
      SplitSegmentDot(a[1..], t);
      assert [a[0]] + a[1..] == a;
    }
  }

  /** A dot-free string is a single piece. */
  lemma {:induction false} SplitDotFree(a: string)
    requires DotFree(a)
    ensures Split(a) == [a]
    decreases |a|
  {
    if a != [] {
      SplitDotFree(a[1..]);
      assert [a[0]] + a[1..] == a;
    }
  }

  /** Joining dot-free segments loses nothing: splitting the path gives the
      segments back, so the path has no leading, trailing or doubled dot
      beyond what empty segments put there. */
  lemma {:induction false} SplitJoin(segs: seq<string>)
    requires |segs| >= 1
    requires forall i :: 0 <= i < |segs| ==> DotFree(segs[i])
    ensures Split(Join(segs)) == segs
    decreases |segs|
  {
    if |segs| == 1 {
      SplitDotFree(segs[0]);
    } else {
      SplitSegmentDot(segs[0], Join(segs[1..]));
      SplitJoin(segs[1..]);
      assert [segs[0]] + segs[1..] == segs;
    }
  }

  /** In a path of non-empty dot-free segments no two dots are adjacent and
      the path neither starts nor ends with a dot. */
  lemma {:induction false} JoinHasNoStrayDot(segs: seq<string>)
    requires |segs| >= 1
    requires forall i :: 0 <= i < |segs| ==> segs[i] != "" && DotFree(segs[i])
    ensures Join(segs) != "" && Join(segs)[0] != '.' && Join(segs)[|Join(segs)| - 1] != '.'
    ensures forall i :: 0 <= i < |Join(segs)| - 1 ==> !(Join(segs)[i] == '.' && Join(segs)[i + 1] == '.')
    decreases |segs|
  {
    if |segs| > 1 {
      JoinHasNoStrayDot(segs[1..]);
      var a, t := segs[0], Join(segs[1..]);
      var w := a + "." + t;
      forall i | 0 <= i < |w| - 1
        ensures !(w[i] == '.' && w[i + 1] == '.')
      {
        if i < |a| - 1 {
          assert w[i] == a[i];
        } else if i == |a| - 1 {
          assert w[i] == a[i];
        } else if i == |a| {
          assert w[i + 1] == t[0];
        } else {
          assert w[i] == t[i - |a| - 1] && w[i + 1] == t[i - |a|];
        }
      }
    }
  }
}
