/** Subsequences, and lists of different numbers. */
module PS2Sequences {
  ghost predicate Distinct<T>(s: seq<T>) { forall i, j :: 0 <= i < j < |s| ==> s[i] != s[j] }

  predicate IsSub<T(==)>(a: seq<T>, b: seq<T>) {
    a == [] || (b != [] && ((a[0] == b[0] && IsSub(a[1..], b[1..])) || IsSub(a, b[1..])))
  }

  lemma {:induction false} SubRefl<T>(a: seq<T>)
    ensures IsSub(a, a)
  {
    if a != [] { SubRefl(a[1..]); }
  }

  lemma {:induction false} SubTrans<T>(a: seq<T>, b: seq<T>, c: seq<T>)
    requires IsSub(a, b) && IsSub(b, c)
    ensures IsSub(a, c)
    decreases |b| + |c|
  {
    if a != [] {
      if b[0] == c[0] && IsSub(b[1..], c[1..]) {
        if a[0] == b[0] && IsSub(a[1..], b[1..]) {
          SubTrans(a[1..], b[1..], c[1..]);
        } else {
          SubTrans(a, b[1..], c[1..]);
        }
      } else {
        SubTrans(a, b, c[1..]);
      }
    }
  }

  lemma {:induction false} SubLeft<T>(x: seq<T>, a: seq<T>, b: seq<T>)
    requires IsSub(a, b)
    ensures IsSub(x + a, x + b)
  {
    if x == [] {
      assert x + a == a && x + b == b;
    } else {
      SubLeft(x[1..], a, b);
      assert (x + a)[1..] == x[1..] + a && (x + b)[1..] == x[1..] + b;
    }
  }

  lemma {:induction false} SubRight<T>(a: seq<T>, b: seq<T>, c: seq<T>)
    requires IsSub(a, b)
    ensures IsSub(a + c, b + c)
  {
    if a == [] {
      assert a + c == c;
      SubDrop(b, c);
    } else {
      assert (a + c)[1..] == a[1..] + c && (b + c)[1..] == b[1..] + c;
      if a[0] == b[0] && IsSub(a[1..], b[1..]) {
        SubRight(a[1..], b[1..], c);
        SubMatch(a + c, b + c);
      } else {
        SubRight(a, b[1..], c);
        SubSkip(a + c, b + c);
      }
    }
  }

  lemma SubMatch<T>(a: seq<T>, b: seq<T>)
    requires a != [] && b != [] && a[0] == b[0] && IsSub(a[1..], b[1..])
    ensures IsSub(a, b)
  {
  }

  lemma SubSkip<T>(a: seq<T>, b: seq<T>)
    requires b != [] && IsSub(a, b[1..])
    ensures IsSub(a, b)
  {
  }

  /** Leaving out a middle part. */
  lemma {:induction false} SubDrop<T>(x: seq<T>, y: seq<T>)
    ensures IsSub(y, x + y)
  {
    if x == [] {
      assert x + y == y;
      SubRefl(y);
    } else {
      SubDrop(x[1..], y);
      assert (x + y)[1..] == x[1..] + y;
    }
  }

  lemma {:induction false} SubPrefix<T>(x: seq<T>, y: seq<T>)
    ensures IsSub(x, x + y)
  {
    SubLeft(x, [], y);
    assert x + [] == x;
  }

  lemma SubBoth<T>(a: seq<T>, b: seq<T>, x: seq<T>, y: seq<T>)
    requires IsSub(a, x) && IsSub(b, y)
    ensures IsSub(a + b, x + y)
  {
    SubRight(a, x, b);
    SubLeft(x, b, y);
    SubTrans(a + b, x + b, x + y);
  }

  lemma {:induction false} SubLength<T>(a: seq<T>, b: seq<T>)
    requires IsSub(a, b)
    ensures |a| <= |b|
  {
    if a != [] {
      if a[0] == b[0] && IsSub(a[1..], b[1..]) { SubLength(a[1..], b[1..]); } else { SubLength(a, b[1..]); }
    }
  }

  lemma {:induction false} SubWhole<T>(a: seq<T>, b: seq<T>)
    requires IsSub(a, b) && |a| == |b|
    ensures a == b
  {
    if a != [] {
      if a[0] == b[0] && IsSub(a[1..], b[1..]) {
        SubWhole(a[1..], b[1..]);
        assert a == [a[0]] + a[1..] && b == [b[0]] + b[1..];
      } else {
        SubLength(a, b[1..]);
      }
    }
  }

  lemma SubOfNothing<T>(a: seq<T>)
    requires IsSub(a, [])
    ensures a == []
  {
  }

  // ---------------------------------------------------------------- cancelling

  lemma {:induction false} SubCancelLast<T>(a: seq<T>, b: seq<T>, x: T)
    requires IsSub(a + [x], b + [x])
    ensures IsSub(a, b)
    decreases |b|
  {
    var s, t := a + [x], b + [x];
    if a != [] {
      SubLength(s, t);
      assert s[1..] == a[1..] + [x] && t[1..] == b[1..] + [x];
      if s[0] == t[0] && IsSub(s[1..], t[1..]) {
        SubCancelLast(a[1..], b[1..], x);
        SubMatch(a, b);
      } else {
        SubCancelLast(a, b[1..], x);
        SubSkip(a, b);
      }
    }
  }

  /** A common end decides nothing. */
  lemma {:induction false} SubCancelRight<T>(a: seq<T>, b: seq<T>, c: seq<T>)
    ensures IsSub(a + c, b + c) <==> IsSub(a, b)
  {
    if IsSub(a, b) { SubRight(a, b, c); }
    if c == [] {
      assert a + c == a && b + c == b;
    } else if IsSub(a + c, b + c) {
      var front, last := c[..|c| - 1], c[|c| - 1];
      assert a + c == a + front + [last] && b + c == b + front + [last];
      SubCancelLast(a + front, b + front, last);
      SubCancelRight(a, b, front);
    }
  }

  /** Nor does a common start. */
  lemma {:induction false} SubCancelLeft<T>(x: seq<T>, a: seq<T>, b: seq<T>)
    ensures IsSub(x + a, x + b) <==> IsSub(a, b)
  {
    if IsSub(a, b) { SubLeft(x, a, b); }
    if x == [] {
      assert x + a == a && x + b == b;
    } else if IsSub(x + a, x + b) {
      var more, s, t := x[1..], x + a, x + b;
      assert s[1..] == more + a && t[1..] == more + b;
      if !IsSub(s[1..], t[1..]) {
        SubDrop([x[0]], more + a);
        assert [x[0]] + (more + a) == s;
        SubTrans(more + a, s, more + b);
      }
      SubCancelLeft(more, a, b);
    }
  }
}
