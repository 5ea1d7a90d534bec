/** Sequence helpers shared by the first-match-or-append merges. */
module Lists {

  /** Takes some element of a non-empty set: the next key of a Go `range` over a map,
      whose order the language leaves unspecified. */
  method Pick<T>(s: set<T>) returns (x: T)
    requires s != {}
    ensures x in s
  {
    x :| x in s;
  }

  /** Extending a prefix by one element. */
  lemma TakeSnoc<T>(s: seq<T>, n: nat)
    requires n < |s|
    ensures s[..n + 1] == s[..n] + [s[n]]
  {
  }

  /** The elements of `incoming` that a first-match-or-append loop adds to a list whose
      keys start as `known`: those not yet present, each at its first occurrence, in order. */
  function Unseen<T(==)>(known: seq<T>, incoming: seq<T>): seq<T>
    decreases |incoming|
  {
    if incoming == [] then []
    else if incoming[0] in known then Unseen(known, incoming[1..])
    else [incoming[0]] + Unseen(known + [incoming[0]], incoming[1..])
  }

  /** Processing one more element extends `Unseen` by that element exactly when it is new. */
  lemma {:induction false} UnseenSnoc<T>(known: seq<T>, incoming: seq<T>, x: T)
    ensures Unseen(known, incoming + [x])
         == Unseen(known, incoming) + (if x in known + Unseen(known, incoming) then [] else [x])
    decreases |incoming|
  {
    if incoming == [] {
      assert incoming + [x] == [x];
    } else {
      var y := incoming[0];
      assert (incoming + [x])[0] == y;
      assert (incoming + [x])[1..] == incoming[1..] + [x];
      if y in known {
        UnseenSnoc(known, incoming[1..], x);
      } else {
        UnseenSnoc(known + [y], incoming[1..], x);
        assert known + [y] + Unseen(known + [y], incoming[1..])
            == known + Unseen(known, incoming);
      }
    }
  }

  /** What `Unseen` adds is genuinely new, free of repeats, and covers every incoming element. */
  lemma {:induction false} UnseenProperties<T>(known: seq<T>, incoming: seq<T>)
    ensures forall x :: x in Unseen(known, incoming) ==> x !in known && x in incoming
    ensures forall i, j :: 0 <= i < j < |Unseen(known, incoming)| ==>
              Unseen(known, incoming)[i] != Unseen(known, incoming)[j]
    ensures forall x :: x in incoming ==> x in known + Unseen(known, incoming)
    decreases |incoming|
  {
    if incoming != [] {
      var y := incoming[0];
      if y in known {
        UnseenProperties(known, incoming[1..]);
        assert incoming == [y] + incoming[1..];
      } else {
        var rest := Unseen(known + [y], incoming[1..]);
        UnseenProperties(known + [y], incoming[1..]);
        assert incoming == [y] + incoming[1..];
        assert Unseen(known, incoming) == [y] + rest;
        forall i, j | 0 <= i < j < |[y] + rest| ensures ([y] + rest)[i] != ([y] + rest)[j] {
          if i == 0 {
            assert ([y] + rest)[j] == rest[j - 1];
            assert rest[j - 1] in rest;
          }
        }
      }
    }
  }

  /** Nothing is added when every incoming element is already known. */
  lemma {:induction false} UnseenOfKnown<T>(known: seq<T>, incoming: seq<T>)
    requires forall x :: x in incoming ==> x in known
    ensures Unseen(known, incoming) == []
    decreases |incoming|
  {
    if incoming != [] {
      assert incoming[0] in incoming;
      UnseenOfKnown(known, incoming[1..]);
    }
  }
}
