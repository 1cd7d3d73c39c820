/** ASCII string operations of the standard library that the program relies on. */
module Text {
  function LowerChar(c: char): char {
    if 'A' <= c <= 'Z' then c + 32 as char else c
  }

  function ToLower(s: string): (r: string)
    ensures |r| == |s|
    ensures forall i :: 0 <= i < |s| ==> r[i] == LowerChar(s[i])
  {
    seq(|s|, i requires 0 <= i < |s| => LowerChar(s[i]))
  }

  predicate IsSpace(c: char) {
    c == ' ' || '\t' <= c <= '\r'
  }

  function TrimLeft(s: string): (r: string)
    ensures r == [] || !IsSpace(r[0])
  {
    if s != [] && IsSpace(s[0]) then TrimLeft(s[1..]) else s
  }

  function TrimRight(s: string): (r: string)
    ensures r <= s
    ensures r == [] || !IsSpace(r[|r| - 1])
  {
    if s != [] && IsSpace(s[|s| - 1]) then TrimRight(s[..|s| - 1]) else s
  }

  function TrimSpace(s: string): (r: string)
    ensures r == [] || (!IsSpace(r[0]) && !IsSpace(r[|r| - 1]))
    ensures forall c :: c in r ==> c in s
  {
    TrimLeftKeeps(s);
    TrimRight(TrimLeft(s))
  }

  lemma TrimLeftKeeps(s: string)
    ensures forall c :: c in TrimLeft(s) ==> c in s
  {
  }

  /** The characters a trim takes off: tab to carriage return, and space. */
  ghost predicate Blank(s: string) {
    forall c :: c in s ==> c in {' ', '\t', '\n', 11 as char, 12 as char, '\r'}
  }

  /** Trimming takes blanks off both ends and nothing else. */
  lemma TrimSplits(s: string)
    ensures exists pre, post :: Blank(pre) && Blank(post) && s == pre + TrimSpace(s) + post
  {
    var n := LeftBlanks(s);
    var t := TrimLeft(s);
    RightBlanks(t);
    assert s == s[..n] + TrimRight(t) + t[|TrimRight(t)|..];
  }

  lemma {:induction false} LeftBlanks(s: string) returns (n: nat)
    ensures n <= |s| && TrimLeft(s) == s[n..] && Blank(s[..n])
  {
    n := 0;
    if s != [] && IsSpace(s[0]) {
      var m := LeftBlanks(s[1..]);
      n := m + 1;
      assert s[..n] == [s[0]] + s[1..][..m];
    }
  }

  lemma {:induction false} RightBlanks(s: string)
    ensures Blank(s[|TrimRight(s)|..])
  {
    if s != [] && IsSpace(s[|s| - 1]) {
      var front := s[..|s| - 1];
      RightBlanks(front);
      assert s[|TrimRight(s)|..] == front[|TrimRight(front)|..] + [s[|s| - 1]];
    }
  }

  /** Lower-casing maps A to Z onto a to z, in order, and leaves all else. */
  lemma LowerMeans(s: string, i: nat)
    requires i < |s|
    ensures ToLower(s)[i] == if 'A' <= s[i] <= 'Z' then 'a' + (s[i] - 'A') else s[i]
  {
  }

  /** Trimming leaves alone a string without outer spaces. */
  lemma TrimmedIsFixed(s: string)
    requires s == [] || (!IsSpace(s[0]) && !IsSpace(s[|s| - 1]))
    ensures TrimSpace(s) == s
  {
  }

  predicate HasSuffix(s: string, x: string) {
    |x| <= |s| && s[|s| - |x|..] == x
  }

  function Split(s: string, d: char): (r: seq<string>)
    ensures |r| >= 1
    ensures forall i :: 0 <= i < |r| ==> d !in r[i]
  {
    if s == [] then [""]
    else
      var r := Split(s[1..], d);
      if s[0] == d then [""] + r else [[s[0]] + r[0]] + r[1..]
  }

  function Join(xs: seq<string>, d: char): string {
    if xs == [] then "" else if |xs| == 1 then xs[0] else xs[0] + [d] + Join(xs[1..], d)
  }

  lemma {:induction false} SplitOfPlain(s: string, d: char)
    requires d !in s
    ensures Split(s, d) == [s]
  {
    if s != [] {
      SplitOfPlain(s[1..], d);
      assert [s[0]] + s[1..] == s;
    }
  }

  lemma {:induction false} SplitConcat(a: string, b: string, d: char)
    ensures Split(a + [d] + b, d) == Split(a, d) + Split(b, d)
  {
    if a == [] {
      assert a + [d] + b == [d] + b;
    } else {
      assert (a + [d] + b)[1..] == a[1..] + [d] + b;
      SplitConcat(a[1..], b, d);
    }
  }

  lemma {:induction false} SplitJoin(xs: seq<string>, d: char)
    requires |xs| >= 1 && forall i :: 0 <= i < |xs| ==> d !in xs[i]
    ensures Split(Join(xs, d), d) == xs
  {
    SplitOfPlain(xs[0], d);
    if |xs| > 1 {
      SplitConcat(xs[0], Join(xs[1..], d), d);
      SplitJoin(xs[1..], d);
    }
  }

  lemma {:induction false} JoinSplit(s: string, d: char)
    ensures Join(Split(s, d), d) == s
  {
    if s != [] {
      JoinSplit(s[1..], d);
      var r := Split(s[1..], d);
      if s[0] == d {
        assert ([""] + r)[1..] == r;
        assert s == "" + [d] + s[1..];
      } else {
        var q := [[s[0]] + r[0]] + r[1..];
        assert q[1..] == r[1..];
        assert s == [s[0]] + s[1..];
      }
    }
  }

  lemma {:induction false} JoinConcat(xs: seq<string>, ys: seq<string>, d: char)
    requires xs != [] && ys != []
    ensures Join(xs + ys, d) == Join(xs, d) + [d] + Join(ys, d)
  {
    assert (xs + ys)[1..] == xs[1..] + ys;
    if |xs| > 1 {
      JoinConcat(xs[1..], ys, d);
    }
  }

  lemma {:induction false} SplitOnce(s: string, d: char)
    ensures |Split(s, d)| == 1 ==> d !in s
  {
    if s != [] {
      SplitOnce(s[1..], d);
    }
  }

  /** Splitting a join gives at least the joined pieces, and more if one of them
      contains the separator. */
  lemma {:induction false} SplitJoinGrows(xs: seq<string>, d: char)
    requires xs != []
    ensures |Split(Join(xs, d), d)| >= |xs|
    ensures |Split(Join(xs, d), d)| == |xs| ==> forall i :: 0 <= i < |xs| ==> d !in xs[i]
  {
    SplitOnce(xs[0], d);
    if |xs| > 1 {
      SplitConcat(xs[0], Join(xs[1..], d), d);
      SplitJoinGrows(xs[1..], d);
      assert xs == [xs[0]] + xs[1..];
    }
  }

  /** A list of pieces that avoid the separator is the only one of its length with
      its join. */
  lemma JoinInjective(xs: seq<string>, ys: seq<string>, d: char)
    requires |xs| == |ys|
    requires forall i :: 0 <= i < |xs| ==> d !in xs[i]
    requires Join(xs, d) == Join(ys, d)
    ensures xs == ys
  {
    if xs != [] {
      SplitJoin(xs, d);
      SplitJoinGrows(ys, d);
      SplitJoin(ys, d);
    }
  }

  /** A separator inside a piece cannot be told from one between two pieces. */
  lemma {:induction false} JoinForgets(pre: seq<string>, x: string, y: string, post: seq<string>, d: char)
    ensures Join(pre + [x, y] + post, d) == Join(pre + [x + [d] + y] + post, d)
  {
    if pre != [] {
      assert (pre + [x, y] + post)[1..] == pre[1..] + [x, y] + post;
      assert (pre + [x + [d] + y] + post)[1..] == pre[1..] + [x + [d] + y] + post;
      JoinForgets(pre[1..], x, y, post, d);
    } else if post == [] {
      assert Join([y], d) == y && [x, y][1..] == [y];
      assert [] + [x, y] + post == [x, y] && [] + [x + [d] + y] + post == [x + [d] + y];
    } else {
      var two, one := [x, y] + post, [x + [d] + y] + post;
      assert pre + [x, y] + post == two && pre + [x + [d] + y] + post == one;
      assert two[1..] == [y] + post && two[1..][1..] == post && one[1..] == post;
    }
  }
}
