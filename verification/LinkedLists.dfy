/** Linked lists as sequences without repetition. */
module LinkedLists {
  type Id = nat

  predicate Distinct(s: seq<Id>) {
    s == [] || (s[0] !in s[1..] && Distinct(s[1..]))
  }

  /** s holds each member of m once. */
  ghost predicate Tracks(s: seq<Id>, m: set<Id>) {
    Distinct(s) && forall x :: x in s <==> x in m
  }

  /** The list after unlinking x. */
  function Without(s: seq<Id>, x: Id): seq<Id> {
    if s == [] then [] else if s[0] == x then s[1..] else [s[0]] + Without(s[1..], x)
  }

  lemma {:induction false} WithoutMembers(s: seq<Id>, x: Id)
    requires Distinct(s)
    ensures Distinct(Without(s, x))
    ensures forall y :: y in Without(s, x) <==> y in s && y != x
  {
    if s != [] {
      assert forall y :: y in s <==> y == s[0] || y in s[1..];
      if s[0] != x {
        WithoutMembers(s[1..], x);
        var r := Without(s, x);
        assert r[1..] == Without(s[1..], x);
        assert forall y :: y in r <==> y == r[0] || y in r[1..];
      }
    }
  }

  lemma {:induction false} WithoutAbsent(s: seq<Id>, x: Id)
    requires x !in s
    ensures Without(s, x) == s
  {
    if s != [] {
      WithoutAbsent(s[1..], x);
    }
  }

  lemma {:induction false} WithoutConcat(s: seq<Id>, t: seq<Id>, x: Id)
    ensures Without(s + t, x) == if x in s then Without(s, x) + t else s + Without(t, x)
  {
    if s == [] {
      assert s + t == t;
    } else {
      assert (s + t)[0] == s[0] && (s + t)[1..] == s[1..] + t;
      if s[0] != x {
        WithoutConcat(s[1..], t, x);
      }
    }
  }

  lemma WithoutTracks(s: seq<Id>, m: set<Id>, x: Id)
    requires Tracks(s, m)
    ensures Tracks(Without(s, x), m - {x})
  {
    WithoutMembers(s, x);
  }

  lemma {:induction false} ConcatDistinct(s: seq<Id>, t: seq<Id>)
    ensures Distinct(s + t) <==> Distinct(s) && Distinct(t) && forall x :: x in s ==> x !in t
  {
    if s == [] {
      assert s + t == t;
    } else {
      assert (s + t)[0] == s[0] && (s + t)[1..] == s[1..] + t;
      ConcatDistinct(s[1..], t);
      assert forall x :: x in s <==> x == s[0] || x in s[1..];
    }
  }

  lemma AppendTracks(s: seq<Id>, m: set<Id>, x: Id)
    requires Tracks(s, m) && x !in m
    ensures Tracks(s + [x], m + {x})
  {
    ConcatDistinct(s, [x]);
  }

  lemma PrependTracks(s: seq<Id>, m: set<Id>, x: Id)
    requires Tracks(s, m) && x !in m
    ensures Tracks([x] + s, m + {x})
  {
    ConcatDistinct([x], s);
  }

  /** Unlinking a member and linking it again at the head. */
  lemma FrontTracks(s: seq<Id>, m: set<Id>, x: Id)
    requires Tracks(s, m) && x in m
    ensures Tracks([x] + Without(s, x), m)
  {
    WithoutTracks(s, m, x);
    PrependTracks(Without(s, x), m - {x}, x);
    assert m - {x} + {x} == m;
  }

  lemma {:induction false} DistinctIndex(s: seq<Id>, i: nat, j: nat)
    requires Distinct(s) && i < j < |s|
    ensures s[i] != s[j]
  {
    if i > 0 {
      DistinctIndex(s[1..], i - 1, j - 1);
    } else {
      assert s[j] == s[1..][j - 1];
    }
  }

  /** Unlinking where the search found x. */
  lemma WithoutAt(s: seq<Id>, i: nat, x: Id)
    requires i < |s| && s[i] == x && x !in s[..i]
    ensures Without(s, x) == s[..i] + s[i + 1..]
  {
    WithoutConcat(s[..i], s[i..], x);
    assert s[..i] + s[i..] == s && s[i..][1..] == s[i + 1..];
  }
}
