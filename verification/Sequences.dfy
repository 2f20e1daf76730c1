/** Order-preserving thinning of sequences. */
module Sequences {

  /** `a` is what is left of `b` when some elements are removed. */
  ghost predicate Subsequence<T>(a: seq<T>, b: seq<T>)
    decreases |b|
  {
    || a == []
    || (b != []
        && (|| Subsequence(a, b[..|b| - 1])
            || (a[|a| - 1] == b[|b| - 1] && Subsequence(a[..|a| - 1], b[..|b| - 1]))))
  }

  lemma SubsequenceSkip<T>(a: seq<T>, b: seq<T>, x: T)
    requires Subsequence(a, b)
    ensures Subsequence(a, b + [x])
  {
    assert (b + [x])[..|b|] == b;
  }

  lemma SubsequenceKeep<T>(a: seq<T>, b: seq<T>, x: T)
    requires Subsequence(a, b)
    ensures Subsequence(a + [x], b + [x])
  {
    assert (a + [x])[..|a|] == a && (b + [x])[..|b|] == b;
  }

  /** Leaving out the last kept element still thins the same sequence. */
  lemma {:induction false} SubsequenceInit<T>(a: seq<T>, b: seq<T>)
    requires a != [] && Subsequence(a, b)
    ensures Subsequence(a[..|a| - 1], b)
    decreases |b|
  {
    var b' := b[..|b| - 1];
    assert b == b' + [b[|b| - 1]];
    if Subsequence(a, b') {
      SubsequenceInit(a, b');
    }
    SubsequenceSkip(a[..|a| - 1], b', b[|b| - 1]);
  }

  /** A prefix of a thinning is a thinning. */
  lemma {:induction false} SubsequencePrefix<T>(a: seq<T>, b: seq<T>, n: nat)
    requires n <= |a| && Subsequence(a, b)
    ensures Subsequence(a[..n], b)
    decreases |a|
  {
    if n == |a| {
      assert a[..n] == a;
    } else {
      SubsequenceInit(a, b);
      SubsequencePrefix(a[..|a| - 1], b, n);
      assert a[..|a| - 1][..n] == a[..n];
    }
  }

  /** Adding elements at the end keeps every thinning. */
  lemma {:induction false} SubsequenceExtend<T>(a: seq<T>, b: seq<T>, c: seq<T>)
    requires Subsequence(a, b)
    ensures Subsequence(a, b + c)
    decreases |c|
  {
    if c == [] {
      assert b + c == b;
    } else {
      var c' := c[..|c| - 1];
      SubsequenceExtend(a, b, c');
      SubsequenceSkip(a, b + c', c[|c| - 1]);
      assert b + c' + [c[|c| - 1]] == b + c;
    }
  }

  lemma {:induction false} SubsequenceTransitive<T>(a: seq<T>, b: seq<T>, c: seq<T>)
    requires Subsequence(a, b) && Subsequence(b, c)
    ensures Subsequence(a, c)
    decreases |b| + |c|
  {
    if a != [] {
      var b', c' := b[..|b| - 1], c[..|c| - 1];
      assert c == c' + [c[|c| - 1]];
      if Subsequence(b, c') {
        SubsequenceTransitive(a, b, c');
        SubsequenceSkip(a, c', c[|c| - 1]);
      } else if Subsequence(a, b') {
        SubsequenceTransitive(a, b', c');
        SubsequenceSkip(a, c', c[|c| - 1]);
      } else {
        SubsequenceTransitive(a[..|a| - 1], b', c');
      }
    }
  }

  /** The elements that satisfy `keep`, in order. */
  function Select<T>(s: seq<T>, keep: T -> bool): (r: seq<T>)
    ensures |r| <= |s|
  {
    if s == [] then []
    else
      var r := Select(s[..|s| - 1], keep);
      if keep(s[|s| - 1]) then r + [s[|s| - 1]] else r
  }

  lemma SelectAppend<T>(s: seq<T>, x: T, keep: T -> bool)
    ensures keep(x) ==> Select(s + [x], keep) == Select(s, keep) + [x]
    ensures !keep(x) ==> Select(s + [x], keep) == Select(s, keep)
  {
    assert (s + [x])[..|s|] == s;
  }

  lemma {:induction false} SelectConcat<T>(a: seq<T>, b: seq<T>, keep: T -> bool)
    ensures Select(a + b, keep) == Select(a, keep) + Select(b, keep)
    decreases |b|
  {
    if b == [] {
      assert a + b == a;
    } else {
      var b', x := b[..|b| - 1], b[|b| - 1];
      SelectConcat(a, b', keep);
      assert a + b == (a + b') + [x];
      SelectAppend(a + b', x, keep);
    }
  }

  lemma {:induction false} SelectNone<T>(s: seq<T>, keep: T -> bool)
    requires forall i :: 0 <= i < |s| ==> !keep(s[i])
    ensures Select(s, keep) == []
    decreases |s|
  {
    if s != [] {
      SelectNone(s[..|s| - 1], keep);
    }
  }

  lemma {:induction false} SelectAll<T>(s: seq<T>, keep: T -> bool)
    requires forall i :: 0 <= i < |s| ==> keep(s[i])
    ensures Select(s, keep) == s
    decreases |s|
  {
    if s != [] {
      SelectAll(s[..|s| - 1], keep);
    }
  }

  lemma SelectHead<T>(s: seq<T>, keep: T -> bool)
    requires s != []
    ensures keep(s[0]) ==> Select(s, keep) == [s[0]] + Select(s[1..], keep)
    ensures !keep(s[0]) ==> Select(s, keep) == Select(s[1..], keep)
  {
    assert s == [s[0]] + s[1..];
    SelectConcat([s[0]], s[1..], keep);
    assert [s[0]][..0] == [];
  }

  /** When only position `i` qualifies, it alone is selected. */
  lemma SelectOnly<T>(s: seq<T>, i: nat, keep: T -> bool)
    requires i < |s| && keep(s[i])
    requires forall j :: 0 <= j < |s| && j != i ==> !keep(s[j])
    ensures Select(s, keep) == [s[i]]
  {
    hide Select;
    assert s == s[..i] + [s[i]] + s[i + 1..];
    SelectNone(s[..i], keep);
    SelectNone(s[i + 1..], keep);
    SelectAppend(s[..i], s[i], keep);
    SelectConcat(s[..i] + [s[i]], s[i + 1..], keep);
  }

  /** Changing an element that is not selected into another such changes nothing. */
  lemma SelectUpdate<T>(s: seq<T>, i: nat, x: T, keep: T -> bool)
    requires i < |s| && !keep(s[i]) && !keep(x)
    ensures Select(s[i := x], keep) == Select(s, keep)
  {
    hide Select;
    assert s == s[..i] + [s[i]] + s[i + 1..];
    assert s[i := x] == s[..i] + [x] + s[i + 1..];
    SelectAppend(s[..i], s[i], keep);
    SelectAppend(s[..i], x, keep);
    SelectConcat(s[..i] + [s[i]], s[i + 1..], keep);
    SelectConcat(s[..i] + [x], s[i + 1..], keep);
  }

  /** Selecting in two goes, the second of which implies the first. */
  lemma {:induction false} SelectTwice<T(!new)>(s: seq<T>, outer: T -> bool, inner: T -> bool)
    requires forall x :: inner(x) ==> outer(x)
    ensures Select(Select(s, outer), inner) == Select(s, inner)
    decreases |s|
  {
    if s != [] {
      var s', x := s[..|s| - 1], s[|s| - 1];
      SelectTwice(s', outer, inner);
      SelectAppend(Select(s', outer), x, inner);
    }
  }

  /** Selecting from a prefix gives a prefix of the selection. */
  lemma SelectPrefix<T>(s: seq<T>, n: nat, keep: T -> bool)
    requires n <= |s|
    ensures Select(s[..n], keep) <= Select(s, keep)
  {
    hide Select;
    assert s == s[..n] + s[n..];
    SelectConcat(s[..n], s[n..], keep);
  }
}
