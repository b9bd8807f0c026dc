/** Splitting at a separator and joining again, as `slice::split`, `str::split` and `join` do. */
module Splitting {
  /** There is always a part: the empty sequence has one empty part. */
  function Split<T(==)>(s: seq<T>, sep: T): (parts: seq<seq<T>>)
    ensures parts != []
  {
    if s == [] then [[]]
    else if s[0] == sep then [[]] + Split(s[1..], sep)
    else Extend(s[0], Split(s[1..], sep))
  }

  /** One more element at the front of the first part. */
  function Extend<T>(x: T, parts: seq<seq<T>>): (r: seq<seq<T>>)
    requires parts != []
    ensures r != [] && r[0] == [x] + parts[0] && r[1..] == parts[1..]
  {
    [[x] + parts[0]] + parts[1..]
  }

  function JoinWith<T>(parts: seq<seq<T>>, sep: T): seq<T> {
    if parts == [] then []
    else if |parts| == 1 then parts[0]
    else parts[0] + [sep] + JoinWith(parts[1..], sep)
  }

  /** A part that does not hold the separator is split off whole. */
  lemma {:induction false} SplitField<T>(a: seq<T>, b: seq<T>, sep: T)
    requires sep !in a
    ensures Split(a + [sep] + b, sep) == [a] + Split(b, sep)
  {
    if a == [] {
      assert (a + [sep] + b)[1..] == b;
    } else {
      SplitField(a[1..], b, sep);
      assert (a + [sep] + b)[1..] == a[1..] + [sep] + b;
      assert [a[0]] + a[1..] == a;
    }
  }

  lemma AddFront<T>(x: T, a: seq<seq<T>>, b: seq<seq<T>>)
    requires a != []
    ensures Extend(x, a + b) == Extend(x, a) + b
    ensures [[]] + (a + b) == [[]] + a + b
  {
    assert (a + b)[1..] == a[1..] + b;
  }

  /** Splitting either side of a separator. */
  lemma {:induction false} SplitAppend<T>(a: seq<T>, b: seq<T>, sep: T)
    ensures Split(a + [sep] + b, sep) == Split(a, sep) + Split(b, sep)
  {
    if a == [] {
      assert (a + [sep] + b)[1..] == b;
    } else {
      SplitAppend(a[1..], b, sep);
      assert (a + [sep] + b)[1..] == a[1..] + [sep] + b;
      AddFront(a[0], Split(a[1..], sep), Split(b, sep));
    }
  }

  lemma {:induction false} SplitWhole<T>(a: seq<T>, sep: T)
    requires sep !in a
    ensures Split(a, sep) == [a]
  {
    if a != [] {
      SplitWhole(a[1..], sep);
      assert [a[0]] + a[1..] == a;
    }
  }

  /** Joining undoes splitting. */
  lemma {:induction false} JoinSplit<T>(s: seq<T>, sep: T)
    ensures JoinWith(Split(s, sep), sep) == s
  {
    if s != [] {
      JoinSplit(s[1..], sep);
      var rest := Split(s[1..], sep);
      var parts := Split(s, sep);
      assert s == [s[0]] + s[1..];
      if s[0] == sep {
        assert parts[1..] == rest;
      } else if |rest| > 1 {
        assert parts[1..] == rest[1..];
        assert [s[0]] + rest[0] + [sep] + JoinWith(rest[1..], sep) == [s[0]] + (rest[0] + [sep] + JoinWith(rest[1..], sep));
      }
    }
  }

  /** Joining two lists of parts, neither empty. */
  lemma {:induction false} JoinAppend<T>(a: seq<seq<T>>, b: seq<seq<T>>, sep: T)
    requires a != [] && b != []
    ensures JoinWith(a + b, sep) == JoinWith(a, sep) + [sep] + JoinWith(b, sep)
  {
    if |a| == 1 {
      assert (a + b)[1..] == b;
    } else {
      assert (a + b)[1..] == a[1..] + b;
      JoinAppend(a[1..], b, sep);
      assert a[0] + [sep] + (JoinWith(a[1..], sep) + [sep] + JoinWith(b, sep)) == JoinWith(a, sep) + [sep] + JoinWith(b, sep);
    }
  }
}
