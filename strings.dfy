/**
  Sequence and string helpers shared by the map-key serialiser and the SQL
  fragment builders: joining with a separator, the terminated form a buffer
  has before its trailing separator is trimmed, first-occurrence
  deduplication and counting.
*/
module Strings {

  /** The elements of `xs` in order, with `sep` between neighbours. */
  function Join(xs: seq<string>, sep: string): string
    decreases |xs|
  {
    if |xs| == 0 then ""
    else if |xs| == 1 then xs[0]
    else xs[0] + sep + Join(xs[1..], sep)
  }

  /** Joining is a left-to-right fold: appending one more element appends `sep` and it. */
  lemma {:induction false} JoinSnoc(xs: seq<string>, y: string, sep: string)
    requires |xs| > 0
    ensures Join(xs + [y], sep) == Join(xs, sep) + sep + y
    decreases |xs|
  {
    if |xs| == 1 {
      assert xs + [y] == [xs[0], y];
      assert [xs[0], y][1..] == [y];
    } else {
      assert (xs + [y])[1..] == xs[1..] + [y];
      JoinSnoc(xs[1..], y, sep);
    }
  }

  /** One turn of a separator loop: a separator before every element but the first, then the element. */
  lemma JoinStep(xs: seq<string>, i: nat, sep: string)
    requires i < |xs|
    ensures Join(xs[..i + 1], sep) == (if i == 0 then "" else Join(xs[..i], sep) + sep) + xs[i]
  {
    if i == 0 {
      assert xs[..1] == [xs[0]];
    } else {
      assert xs[..i + 1] == xs[..i] + [xs[i]];
      JoinSnoc(xs[..i], xs[i], sep);
    }
  }

  /** A separator loop's buffer after one more turn: `b` followed by the first `i + 1` elements joined. */
  lemma JoinAdvance(b: string, xs: seq<string>, i: nat, sep: string, r: string, r2: string)
    requires i < |xs| && r == b + Join(xs[..i], sep)
    requires r2 == (if i == 0 then r else r + sep) + xs[i]
    ensures r2 == b + Join(xs[..i + 1], sep)
  {
    JoinStep(xs, i, sep);
  }

  /** Every element followed by `t`: the buffer a loop writes before trimming the last `t`. */
  function Terminated(xs: seq<string>, t: string): string
    decreases |xs|
  {
    if xs == [] then "" else Terminated(xs[..|xs| - 1], t) + xs[|xs| - 1] + t
  }

  /** Dropping the final terminator of a non-empty terminated buffer gives the joined form. */
  lemma {:induction false} TerminatedTrim(xs: seq<string>, t: string)
    requires |xs| > 0
    ensures |Terminated(xs, t)| >= |t|
    ensures Terminated(xs, t)[..|Terminated(xs, t)| - |t|] == Join(xs, t)
    decreases |xs|
  {
    var init := xs[..|xs| - 1];
    var last := xs[|xs| - 1];
    assert xs == init + [last];
    if |xs| == 1 {
      assert Terminated(xs, t) == "" + last + t;
    } else {
      TerminatedTrim(init, t);
      JoinSnoc(init, last, t);
      var ti := Terminated(init, t);
      assert ti == ti[..|ti| - |t|] + t;
      assert Terminated(xs, t) == ti + last + t;
    }
  }

  predicate NoDuplicates<T(==)>(xs: seq<T>) {
    forall i, j :: 0 <= i < j < |xs| ==> xs[i] != xs[j]
  }

  /** The elements of `xs`, each once, in order of first occurrence. */
  function Distinct(xs: seq<string>): (r: seq<string>)
    ensures forall x :: x in r <==> x in xs
    ensures NoDuplicates(r)
    ensures |r| <= |xs|
    ensures xs != [] ==> r != []
    decreases |xs|
  {
    if xs == [] then []
    else
      var d := Distinct(xs[..|xs| - 1]);
      var x := xs[|xs| - 1];
      assert forall y :: y in xs <==> y in xs[..|xs| - 1] || y == x by {
        assert xs == xs[..|xs| - 1] + [x];
      }
      if x in xs[..|xs| - 1] then d else d + [x]
  }

  /** A list without duplicates is its own deduplication. */
  lemma {:induction false} DistinctIdentity(xs: seq<string>)
    requires NoDuplicates(xs)
    ensures Distinct(xs) == xs
    decreases |xs|
  {
    if xs != [] {
      var init := xs[..|xs| - 1];
      assert NoDuplicates(init);
      assert xs[|xs| - 1] !in init;
      DistinctIdentity(init);
      assert xs == init + [xs[|xs| - 1]];
    }
  }

  /** The texts a dedup loop has seen: each element followed by the separator. */
  function Seen(xs: seq<string>, t: string): set<string>
    decreases |xs|
  {
    if xs == [] then {} else Seen(xs[..|xs| - 1], t) + {xs[|xs| - 1] + t}
  }

  /** An element's entry has been seen exactly when the element occurred before. */
  lemma {:induction false} SeenEntry(xs: seq<string>, t: string, x: string)
    ensures x + t in Seen(xs, t) <==> x in xs
    decreases |xs|
  {
    if xs != [] {
      var init, last := xs[..|xs| - 1], xs[|xs| - 1];
      assert xs == init + [last];
      SeenEntry(init, t, x);
      if x + t == last + t {
        assert x == (x + t)[..|x|] == (last + t)[..|last|] == last;
      }
    }
  }

  /** Nothing seen before the first element; something seen after it. */
  lemma SeenEmpty(xs: seq<string>, t: string)
    ensures |Seen(xs, t)| == 0 <==> xs == []
  {
    if xs != [] {
      assert xs[|xs| - 1] + t in Seen(xs, t);
    }
  }

  /**
    One turn of a dedup loop over `xs`: the entry of `xs[i]` is dropped when
    already seen, and kept, and remembered, otherwise.
  */
  lemma DedupStep(xs: seq<string>, i: nat, t: string)
    requires i < |xs|
    ensures xs[i] + t in Seen(xs[..i], t) <==> xs[i] in xs[..i]
    ensures Seen(xs[..i + 1], t) == Seen(xs[..i], t) + {xs[i] + t}
    ensures Distinct(xs[..i + 1]) == if xs[i] in xs[..i] then Distinct(xs[..i]) else Distinct(xs[..i]) + [xs[i]]
  {
    assert xs[..i + 1][..i] == xs[..i];
    SeenEntry(xs[..i], t, xs[i]);
  }

  /** A buffer `b` of terminated entries, extended by one more entry and its terminator. */
  lemma DedupKeep(b: string, d: seq<string>, x: string, t: string, r: string, r2: string)
    requires r == b + Terminated(d, t) && r2 == r + (x + t)
    ensures r2 == b + Terminated(d + [x], t)
  {
    assert (d + [x])[..|d|] == d;
    Regroup(b, Terminated(d, t), x, t);
  }

  /**
    One step of a dedup loop over `xs` that keeps a buffer `b + r` of the
    distinct entries so far, each followed by `t`, and the set of entries
    seen: the entry is skipped when seen and added to both otherwise.
  */
  lemma DedupAdvance(b: string, xs: seq<string>, i: nat, t: string, r: string, seen: set<string>, r2: string, seen2: set<string>)
    requires i < |xs|
    requires r == b + Terminated(Distinct(xs[..i]), t) && seen == Seen(xs[..i], t)
    requires xs[i] + t in seen ==> r2 == r && seen2 == seen
    requires xs[i] + t !in seen ==> r2 == r + (xs[i] + t) && seen2 == seen + {xs[i] + t}
    ensures r2 == b + Terminated(Distinct(xs[..i + 1]), t) && seen2 == Seen(xs[..i + 1], t)
  {
    DedupStep(xs, i, t);
    if xs[i] + t !in seen {
      DedupKeep(b, Distinct(xs[..i]), xs[i], t, r, r2);
    }
  }

  /** Regrouping a buffer extended by three pieces. */
  lemma Regroup(a: string, x: string, y: string, z: string)
    ensures a + x + y + z == a + (x + y + z)
  {
  }

  /** Number of occurrences of `x` in `s`. */
  function Count<T(==)>(x: T, s: seq<T>): nat
    decreases |s|
  {
    if s == [] then 0 else Count(x, s[..|s| - 1]) + (if s[|s| - 1] == x then 1 else 0)
  }

  lemma {:induction false} CountAppend<T>(x: T, a: seq<T>, b: seq<T>)
    ensures Count(x, a + b) == Count(x, a) + Count(x, b)
    decreases |b|
  {
    if b == [] {
      assert a + b == a;
    } else {
      assert (a + b)[..|a + b| - 1] == a + b[..|b| - 1];
      CountAppend(x, a, b[..|b| - 1]);
    }
  }

  lemma {:induction false} CountAbsent<T>(x: T, s: seq<T>)
    requires x !in s
    ensures Count(x, s) == 0
    decreases |s|
  {
    if s != [] {
      assert x !in s[..|s| - 1];
      CountAbsent(x, s[..|s| - 1]);
    }
  }

  lemma {:induction false} CountBound<T>(x: T, s: seq<T>)
    ensures Count(x, s) <= |s|
    decreases |s|
  {
    if s != [] {
      CountBound(x, s[..|s| - 1]);
    }
  }
}
