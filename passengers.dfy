/**
 * The values carried by the event bus (the EventBusPassenger variant of
 * Event.h). A passenger is one alternative of a closed variant: a single
 * event object, a vector of objects, or a map between objects, told apart
 * by the C++ type it holds. Before a vector is stored it is sorted with its
 * element type's operator< (sortPassenger); clearPassenger empties vectors
 * and maps and calls Clear() on every other object.
 */
module Passengers {

  /** The data members of one event object; what they mean is not modelled. */
  datatype Elem = Elem(fields: seq<int>)

  datatype Shape = ObjectShape | VectorShape | MapShape

  datatype Value =
    | Object(obj: Elem)
    | Vector(items: seq<Elem>)
    | Map(entries: map<Elem, Elem>)

  /** One alternative of the variant: the shape and the full C++ type name. */
  datatype Alternative = Alternative(shape: Shape, typeName: string)

  datatype Passenger = Passenger(typeName: string, value: Value)

  function ShapeOf(v: Value): Shape {
    match v
    case Object(_) => ObjectShape
    case Vector(_) => VectorShape
    case Map(_) => MapShape
  }

  /** The variant index of a passenger (what EventBusPassenger::index() compares). */
  function AlternativeOf(p: Passenger): Alternative {
    Alternative(ShapeOf(p.value), p.typeName)
  }

  /** operator< on the elements is abstract; it is assumed to be a strict total order. */
  ghost predicate StrictTotalOrder(less: (Elem, Elem) -> bool) {
    && (forall x :: !less(x, x))
    && (forall x, y, z :: less(x, y) && less(y, z) ==> less(x, z))
    && (forall x, y :: x != y ==> less(x, y) || less(y, x))
  }

  /** No element is less than one before it: the order std::sort produces. */
  ghost predicate Sorted(less: (Elem, Elem) -> bool, s: seq<Elem>) {
    forall i, j :: 0 <= i < j < |s| ==> !less(s[j], s[i])
  }

  /** Inserts x before the first element that is not less than it. */
  function Insert(less: (Elem, Elem) -> bool, x: Elem, s: seq<Elem>): (r: seq<Elem>)
    ensures multiset(r) == multiset(s) + multiset{x}
  {
    if s == [] then [x]
    else if less(s[0], x) then
      assert s == [s[0]] + s[1..];
      [s[0]] + Insert(less, x, s[1..])
    else [x] + s
  }

  /**
   * The sorted permutation of s. std::sort is not modelled step by step:
   * under a strict total order the sorted permutation is unique
   * (SortedPermutationIsUnique), so any sorting algorithm yields this value.
   */
  function Sort(less: (Elem, Elem) -> bool, s: seq<Elem>): (r: seq<Elem>)
    ensures multiset(r) == multiset(s)
  {
    if s == [] then []
    else
      assert s == [s[0]] + s[1..];
      Insert(less, s[0], Sort(less, s[1..]))
  }

  /** Under a strict total order "not less than" is transitive. */
  lemma NotLessIsTransitive(less: (Elem, Elem) -> bool, a: Elem, b: Elem, c: Elem)
    requires StrictTotalOrder(less)
    requires !less(b, a) && !less(c, b)
    ensures !less(c, a)
  {
    if a != b {
      assert less(a, b) || less(b, a);
    }
  }

  /** Every element of Insert(less, x, s) is x or an element of s. */
  lemma InsertElements(less: (Elem, Elem) -> bool, x: Elem, s: seq<Elem>, y: Elem)
    requires y in Insert(less, x, s)
    ensures y == x || y in s
  {
    assert y in multiset(Insert(less, x, s));
  }

  lemma TailIsSorted(less: (Elem, Elem) -> bool, s: seq<Elem>)
    requires s != [] && Sorted(less, s)
    ensures Sorted(less, s[1..])
  {
    var tail := s[1..];
    forall i, j | 0 <= i < j < |tail| ensures !less(tail[j], tail[i]) {
      assert tail[j] == s[j + 1] && tail[i] == s[i + 1];
    }
  }

  lemma {:induction false} InsertKeepsSorted(less: (Elem, Elem) -> bool, x: Elem, s: seq<Elem>)
    requires StrictTotalOrder(less) && Sorted(less, s)
    ensures Sorted(less, Insert(less, x, s))
  {
    if s == [] {
    } else if less(s[0], x) {
      var tail := s[1..];
      TailIsSorted(less, s);
      InsertKeepsSorted(less, x, tail);
      var t := Insert(less, x, tail);
      forall y | y in t ensures !less(y, s[0]) {
        InsertElements(less, x, tail, y);
        if y != x {
          var k :| 0 <= k < |tail| && tail[k] == y;
          assert s[k + 1] == y;
        }
      }
      var r := [s[0]] + t;
      forall i, j | 0 <= i < j < |r| ensures !less(r[j], r[i]) {
        if i == 0 {
          assert r[j] == t[j - 1];
          assert r[j] in t;
        } else {
          assert r[j] == t[j - 1] && r[i] == t[i - 1];
        }
      }
      assert Insert(less, x, s) == r;
    } else {
      var r := [x] + s;
      forall i, j | 0 <= i < j < |r| ensures !less(r[j], r[i]) {
        if i == 0 {
          assert r[j] == s[j - 1];
          if j - 1 > 0 {
            NotLessIsTransitive(less, x, s[0], s[j - 1]);
          }
        } else {
          assert r[j] == s[j - 1] && r[i] == s[i - 1];
        }
      }
    }
  }

  lemma {:induction false} SortIsSorted(less: (Elem, Elem) -> bool, s: seq<Elem>)
    requires StrictTotalOrder(less)
    ensures Sorted(less, Sort(less, s))
  {
    if s != [] {
      SortIsSorted(less, s[1..]);
      InsertKeepsSorted(less, s[0], Sort(less, s[1..]));
    }
  }

  /** Two sorted permutations of the same elements start with the same element. */
  lemma SortedPermutationsShareHead(less: (Elem, Elem) -> bool, a: seq<Elem>, b: seq<Elem>)
    requires StrictTotalOrder(less)
    requires Sorted(less, a) && Sorted(less, b)
    requires multiset(a) == multiset(b) && a != [] && b != []
    ensures a[0] == b[0]
  {
    assert a[0] in multiset(b);
    var k :| 0 <= k < |b| && b[k] == a[0];
    assert b[0] in multiset(a);
    var m :| 0 <= m < |a| && a[m] == b[0];
    assert !less(a[0], b[0]) by {
      if k != 0 { assert !less(b[k], b[0]); }
    }
    assert !less(b[0], a[0]) by {
      if m != 0 { assert !less(a[m], a[0]); }
    }
  }

  /** Two sorted permutations of the same elements are equal. */
  lemma {:induction false} SortedPermutationIsUnique(less: (Elem, Elem) -> bool, a: seq<Elem>, b: seq<Elem>)
    requires StrictTotalOrder(less)
    requires Sorted(less, a) && Sorted(less, b)
    requires multiset(a) == multiset(b)
    ensures a == b
  {
    assert |a| == |multiset(a)| == |multiset(b)| == |b|;
    if a != [] {
      SortedPermutationsShareHead(less, a, b);
      var ta, tb := a[1..], b[1..];
      assert a == [a[0]] + ta;
      assert b == [b[0]] + tb;
      assert multiset(ta) == multiset(tb) by {
        assert multiset(a) == multiset{a[0]} + multiset(ta);
        assert multiset(b) == multiset{b[0]} + multiset(tb);
        assert multiset(ta) == multiset(a) - multiset{a[0]};
        assert multiset(tb) == multiset(b) - multiset{b[0]};
      }
      TailIsSorted(less, a);
      TailIsSorted(less, b);
      SortedPermutationIsUnique(less, ta, tb);
    }
  }

  /** sortPassenger: a vector is replaced by its sorted permutation; nothing else changes. */
  function SortPassenger(less: (Elem, Elem) -> bool, p: Passenger): (r: Passenger)
    ensures AlternativeOf(r) == AlternativeOf(p)
    ensures !p.value.Vector? ==> r == p
    ensures p.value.Vector? ==> multiset(r.value.items) == multiset(p.value.items)
  {
    match p.value
    case Vector(items) => Passenger(p.typeName, Vector(Sort(less, items)))
    case _ => p
  }

  /**
   * The stored vector is the one sorted permutation of the input: it is
   * sorted, and any sorted vector of the same alternative and the same
   * elements is equal to it.
   */
  lemma SortPassengerIsTheSortedPermutation(less: (Elem, Elem) -> bool, p: Passenger, q: Passenger)
    requires StrictTotalOrder(less)
    requires p.value.Vector? && AlternativeOf(q) == AlternativeOf(p)
    requires q.value.Vector? && Sorted(less, q.value.items)
    requires multiset(q.value.items) == multiset(p.value.items)
    ensures Sorted(less, SortPassenger(less, p).value.items)
    ensures SortPassenger(less, p) == q
  {
    SortIsSorted(less, p.value.items);
    SortedPermutationIsUnique(less, SortPassenger(less, p).value.items, q.value.items);
  }

  /** Sorting a passenger a second time changes nothing. */
  lemma SortPassengerIsIdempotent(less: (Elem, Elem) -> bool, p: Passenger)
    requires StrictTotalOrder(less)
    ensures SortPassenger(less, SortPassenger(less, p)) == SortPassenger(less, p)
  {
    if p.value.Vector? {
      var once := SortPassenger(less, p);
      SortIsSorted(less, p.value.items);
      SortIsSorted(less, once.value.items);
      SortedPermutationIsUnique(less, SortPassenger(less, once).value.items, once.value.items);
    }
  }

  /**
   * clearPassenger (RootEvent.h): vectors and maps become empty, any other
   * object is reset by its own Clear(), abstracted as clearObject applied to
   * the object's type name and data. The alternative never changes.
   */
  function ClearPassenger(clearObject: (string, Elem) -> Elem, p: Passenger): (r: Passenger)
    ensures AlternativeOf(r) == AlternativeOf(p)
    ensures p.value.Vector? ==> r.value.items == []
    ensures p.value.Map? ==> r.value.entries == map[]
    ensures p.value.Object? ==> r.value.obj == clearObject(p.typeName, p.value.obj)
  {
    match p.value
    case Vector(_) => Passenger(p.typeName, Vector([]))
    case Map(_) => Passenger(p.typeName, Map(map[]))
    case Object(obj) => Passenger(p.typeName, Object(clearObject(p.typeName, obj)))
  }
}
