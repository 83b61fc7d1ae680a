/**
  The composite map key that correlates owners with fetched rows
  (internal/map_key.go). Each value of the list is first rendered with `%v`;
  the model takes those renderings as given strings, so a list of values is a
  `seq<string>`. The key is the renderings joined with `"|"`.
*/
module MapKeys {
  import opened Strings

  const Separator: string := "|"

  /** A comparable key wrapping the joined rendering. */
  datatype MapKey = MapKey(iface: string)

  /** The key a list of renderings denotes. */
  function KeyOf(vs: seq<string>): MapKey {
    MapKey(Join(vs, Separator))
  }

  /** The builder loop: a separator before every value but the first, then the value. */
  method NewMapKeyString(vs: seq<string>) returns (s: string)
    ensures s == Join(vs, Separator)
  {
    s := "";
    var i := 0;
    while i < |vs|
      invariant 0 <= i <= |vs|
      invariant s == Join(vs[..i], Separator)
    {
      if i > 0 {
        s := s + Separator;
        assert vs[..i + 1] == vs[..i] + [vs[i]];
        JoinSnoc(vs[..i], vs[i], Separator);
      } else {
        assert vs[..1] == [vs[0]];
      }
      s := s + vs[i];
      i := i + 1;
    }
    assert vs[..i] == vs;
  }

  method NewMapKey(vs: seq<string>) returns (k: MapKey)
    ensures k == KeyOf(vs)
  {
    var s := NewMapKeyString(vs);
    k := MapKey(s);
  }

  /** No rendering contains the separator byte. */
  predicate SeparatorFree(vs: seq<string>) {
    forall i :: 0 <= i < |vs| ==> '|' !in vs[i]
  }

  /** The empty list has the empty key; a single value is its own key, with no separator. */
  lemma KeyOfShortLists(x: string)
    ensures KeyOf([]).iface == ""
    ensures KeyOf([x]).iface == x
  {
  }

  /** Keys extend in list order: one more value adds the separator and its rendering. */
  lemma KeyOfSnoc(xs: seq<string>, y: string)
    requires xs != []
    ensures KeyOf(xs + [y]).iface == KeyOf(xs).iface + "|" + y
  {
    JoinSnoc(xs, y, Separator);
  }

  /** A key of separator-free renderings holds one separator fewer than it has values. */
  lemma {:induction false} SeparatorCount(xs: seq<string>)
    requires xs != []
    requires SeparatorFree(xs)
    ensures Count('|', Join(xs, Separator)) == |xs| - 1
    decreases |xs|
  {
    var init, last := xs[..|xs| - 1], xs[|xs| - 1];
    assert xs == init + [last];
    CountAbsent('|', last);
    if |xs| == 1 {
      assert Join(xs, Separator) == last;
    } else {
      assert SeparatorFree(init) by {
        forall i | 0 <= i < |init| ensures '|' !in init[i] {
          assert init[i] == xs[i];
        }
      }
      SeparatorCount(init);
      JoinSnoc(init, last, Separator);
      CountAppend('|', Join(init, Separator), Separator);
      CountAppend('|', Join(init, Separator) + Separator, last);
    }
  }

  /** In a separator-free head followed by a separator, that separator comes first. */
  lemma FirstSeparator(a: string, c: string)
    requires '|' !in a
    ensures (a + "|" + c)[|a|] == '|'
    ensures forall k :: 0 <= k < |a| ==> (a + "|" + c)[k] != '|'
  {
    forall k | 0 <= k < |a| ensures (a + "|" + c)[k] != '|' {
      assert (a + "|" + c)[k] == a[k];
    }
  }

  /** Two separator-free heads followed by a separator can be split apart again. */
  lemma SplitAtSeparator(a: string, c: string, b: string, d: string)
    requires '|' !in a && '|' !in b
    requires a + "|" + c == b + "|" + d
    ensures a == b && c == d
  {
    var x := a + "|" + c;
    FirstSeparator(a, c);
    FirstSeparator(b, d);
    assert |a| == |b|;
    assert a == x[..|a|] == b;
    assert c == x[|a| + 1..] == d;
  }

  /**
    On non-empty lists of separator-free renderings the key is injective:
    equal keys exactly when the lists are equal, element by element and in order.
  */
  lemma {:induction false} KeyInjective(xs: seq<string>, ys: seq<string>)
    requires xs != [] && ys != []
    requires SeparatorFree(xs) && SeparatorFree(ys)
    ensures KeyOf(xs) == KeyOf(ys) <==> xs == ys
    decreases |xs|
  {
    if KeyOf(xs) == KeyOf(ys) {
      SeparatorCount(xs);
      SeparatorCount(ys);
      assert |xs| == |ys|;
      if |xs| > 1 {
        assert Join(xs, Separator) == xs[0] + "|" + Join(xs[1..], Separator);
        assert Join(ys, Separator) == ys[0] + "|" + Join(ys[1..], Separator);
        assert '|' !in xs[0] && '|' !in ys[0];
        SplitAtSeparator(xs[0], Join(xs[1..], Separator), ys[0], Join(ys[1..], Separator));
        assert SeparatorFree(xs[1..]) by {
          forall i | 0 <= i < |xs[1..]| ensures '|' !in xs[1..][i] {
            assert xs[1..][i] == xs[i + 1];
          }
        }
        assert SeparatorFree(ys[1..]) by {
          forall i | 0 <= i < |ys[1..]| ensures '|' !in ys[1..][i] {
            assert ys[1..][i] == ys[i + 1];
          }
        }
        KeyInjective(xs[1..], ys[1..]);
        assert xs == [xs[0]] + xs[1..];
        assert ys == [ys[0]] + ys[1..];
      }
    }
  }

  /** Equal-length lists of separator-free renderings: equal keys iff pointwise equal renderings. */
  lemma KeyPointwise(xs: seq<string>, ys: seq<string>)
    requires |xs| == |ys|
    requires SeparatorFree(xs) && SeparatorFree(ys)
    ensures KeyOf(xs) == KeyOf(ys) <==> forall i :: 0 <= i < |xs| ==> xs[i] == ys[i]
  {
    if xs != [] {
      KeyInjective(xs, ys);
    }
    if forall i :: 0 <= i < |xs| ==> xs[i] == ys[i] {
      assert xs == ys;
    }
  }

  /** Order matters: swapping two distinct separator-free values changes the key. */
  lemma KeyOrderMatters(a: string, b: string)
    requires a != b && '|' !in a && '|' !in b
    ensures KeyOf([a, b]) != KeyOf([b, a])
  {
    KeyPointwise([a, b], [b, a]);
  }

  /** Without the separator-free condition the key is not injective. */
  lemma KeyCollisions()
    ensures KeyOf(["a|b"]) == KeyOf(["a", "b"]) && ["a|b"] != ["a", "b"]
    ensures KeyOf([]) == KeyOf([""]) && [] != [""]
  {
    assert ["a", "b"][1..] == ["b"];
  }
}
