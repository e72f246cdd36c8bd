/**
 * PHP array helpers shared by the parser and the media importer:
 * array_unique, which keeps the first occurrence of every value in order.
 */
module PhpArray {
  predicate NoDup<T(==)>(s: seq<T>) {
    forall i, j | 0 <= i < j < |s| :: s[i] != s[j]
  }

  function FirstIndex<T(==)>(s: seq<T>, x: T): (i: nat)
    requires x in s
    ensures i < |s| && s[i] == x && x !in s[..i]
  {
    if s[0] == x then 0 else 1 + FirstIndex(s[1..], x)
  }

  /** Every element of r occurs in s, and r lists them by increasing first position in s. */
  predicate InFirstOccurrenceOrder<T(==)>(r: seq<T>, s: seq<T>) {
    (forall k | 0 <= k < |r| :: r[k] in s) &&
    forall i, j | 0 <= i < j < |r| :: FirstIndex(s, r[i]) < FirstIndex(s, r[j])
  }

  lemma {:induction false} FirstIndexSnoc<T>(s: seq<T>, x: T, y: T)
    requires y in s
    ensures FirstIndex(s + [x], y) == FirstIndex(s, y)
  {
    if s[0] != y {
      assert (s + [x])[1..] == s[1..] + [x];
      FirstIndexSnoc(s[1..], x, y);
    }
  }

  lemma OrderInit<T>(d: seq<T>, s: seq<T>)
    requires d != [] && InFirstOccurrenceOrder(d, s)
    ensures InFirstOccurrenceOrder(d[..|d| - 1], s)
  {
    var init := d[..|d| - 1];
    assert forall k | 0 <= k < |init| :: init[k] == d[k];
  }

  lemma OrderSnoc<T>(f: seq<T>, x: T, s: seq<T>)
    requires InFirstOccurrenceOrder(f, s) && x in s
    requires forall k | 0 <= k < |f| :: FirstIndex(s, f[k]) < FirstIndex(s, x)
    ensures InFirstOccurrenceOrder(f + [x], s)
  {
    var g := f + [x];
    assert forall k | 0 <= k < |f| :: g[k] == f[k];
  }

  /** array_unique: the first occurrence of every value, in order. */
  function Unique(s: seq<string>): (r: seq<string>)
    ensures forall x :: x in r <==> x in s
    ensures InFirstOccurrenceOrder(r, s)
  {
    if s == [] then []
    else
      var init := s[..|s| - 1];
      var x := s[|s| - 1];
      var d := Unique(init);
      assert s == init + [x];
      forall y | y in init ensures FirstIndex(s, y) == FirstIndex(init, y) {
        FirstIndexSnoc(init, x, y);
      }
      if x in d then d
      else
        assert FirstIndex(s, x) == |init|;
        d + [x]
  }

  lemma OrderImpliesNoDup<T>(r: seq<T>, s: seq<T>)
    requires InFirstOccurrenceOrder(r, s)
    ensures NoDup(r)
  {
  }
}
