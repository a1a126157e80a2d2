/** Values shared by the column tree and the grid: optional values, the
    failures the grid reports, and two small sequence helpers over unit ids. */
module Common {

  datatype Option<T> = None | Some(value: T)

  /** The failures of the grid. Each Java exception class becomes a kind; the
      data that its message names is kept. */
  datatype Error =
    | NullArg(name: string)             // NullPointerException naming the argument
    | StateError                        // IllegalStateException: the key is already set
    | DuplicateKey(key: string)         // IllegalArgumentException: the key is bound to another column
    | InvalidArg(unitKey: Option<string>) // IllegalArgumentException: the unit is not part of this grid

  /** Result of an operation that returns nothing on success. */
  datatype Outcome = Pass | Fail(error: Error)

  /** Result of an operation that returns a value on success. */
  datatype Result<T> = Ok(value: T) | Err(error: Error)

  /** The message text of the failures whose text is fixed. */
  function Message(e: Error): (m: string)
    requires e.NullArg? || (e.InvalidArg? && e.unitKey.Some?)
  {
    if e.NullArg? then e.name + " should not be null"
    else "The column with key '" + e.unitKey.value + "' is not part of this Grid"
  }

  /** No id occurs twice. */
  ghost predicate NoDup(s: seq<nat>) {
    forall i, j :: 0 <= i < j < |s| ==> s[i] != s[j]
  }

  /** `s` with every occurrence of `x` taken out, the rest in order. */
  function Without(s: seq<nat>, x: nat): seq<nat>
  {
    if s == [] then []
    else (if s[0] == x then [] else [s[0]]) + Without(s[1..], x)
  }

  /** Taking `x` out of `s` keeps exactly the other elements, and changes
      nothing when `x` is absent. */
  lemma {:induction false} WithoutMembers(s: seq<nat>, x: nat)
    ensures forall y :: y in Without(s, x) <==> y in s && y != x
    ensures x !in s ==> Without(s, x) == s
  {
    if s != [] {
      WithoutMembers(s[1..], x);
      assert forall y :: y in s <==> y == s[0] || y in s[1..];
    }
  }

  lemma {:induction false} WithoutAppend(s: seq<nat>, t: seq<nat>, x: nat)
    ensures Without(s + t, x) == Without(s, x) + Without(t, x)
  {
    if s == [] {
      assert s + t == t;
    } else {
      assert (s + t)[0] == s[0];
      assert (s + t)[1..] == s[1..] + t;
      WithoutAppend(s[1..], t, x);
      var h := if s[0] == x then [] else [s[0]];
      assert Without(s + t, x) == h + Without(s[1..] + t, x);
    }
  }

  lemma {:induction false} WithoutNoDup(s: seq<nat>, x: nat)
    requires NoDup(s)
    ensures NoDup(Without(s, x))
  {
    if s != [] {
      assert NoDup(s[1..]) by {
        forall i, j | 0 <= i < j < |s[1..]| ensures s[1..][i] != s[1..][j] {
          assert s[1..][i] == s[i + 1] && s[1..][j] == s[j + 1];
        }
      }
      WithoutNoDup(s[1..], x);
      WithoutMembers(s[1..], x);
      var w := Without(s[1..], x);
      assert s[0] !in s[1..] by {
        forall k | 0 <= k < |s[1..]| ensures s[1..][k] != s[0] {
          assert s[1..][k] == s[k + 1];
        }
      }
      assert s[0] !in w;
      var head := if s[0] == x then [] else [s[0]];
      forall i, j | 0 <= i < j < |head + w| ensures (head + w)[i] != (head + w)[j] {
        if head != [] && i == 0 {
          assert (head + w)[j] == w[j - 1];
          assert w[j - 1] in w;
        } else {
          assert (head + w)[i] == w[i - |head|] && (head + w)[j] == w[j - |head|];
        }
      }
    }
  }

  /** Taking out an id that occurs once, at position `p`, closes the gap. */
  lemma {:induction false} WithoutAt(s: seq<nat>, p: nat)
    requires p < |s| && NoDup(s)
    ensures Without(s, s[p]) == s[..p] + s[p + 1..]
  {
    if p == 0 {
      assert s[p] !in s[1..] by {
        forall k | 0 <= k < |s[1..]| ensures s[1..][k] != s[0] {
          assert s[1..][k] == s[k + 1];
        }
      }
      WithoutMembers(s[1..], s[0]);
    } else {
      var t := s[1..];
      assert NoDup(t) by {
        forall i, j | 0 <= i < j < |t| ensures t[i] != t[j] {
          assert t[i] == s[i + 1] && t[j] == s[j + 1];
        }
      }
      assert t[p - 1] == s[p] && s[0] != s[p];
      WithoutAt(t, p - 1);
      assert s[..p] == [s[0]] + t[..p - 1];
      assert s[p + 1..] == t[p..];
    }
  }

  /** Putting a new id `g` at position `pa` and then taking out the id at
      position `pb` leaves the other ids in their order. */
  lemma ReplaceThenRemove(s: seq<nat>, pa: nat, pb: nat, g: nat)
    requires NoDup(s) && pa < |s| && pb < |s| && pa != pb && g !in s
    ensures Without(s[pa := g], s[pb]) ==
      if pa < pb then s[..pa] + [g] + s[pa + 1..pb] + s[pb + 1..]
      else s[..pb] + s[pb + 1..pa] + [g] + s[pa + 1..]
  {
    var t := s[pa := g];
    ReplaceNoDup(s, pa, g);
    assert t[pb] == s[pb];
    WithoutAt(t, pb);
    if pa < pb {
      assert t[..pb] == s[..pa] + [g] + s[pa + 1..pb] by {
        forall k | 0 <= k < pb ensures t[..pb][k] == (s[..pa] + [g] + s[pa + 1..pb])[k] {
          if k > pa {
            assert (s[..pa] + [g] + s[pa + 1..pb])[k] == s[pa + 1..pb][k - pa - 1];
          }
        }
      }
      assert t[pb + 1..] == s[pb + 1..];
    } else {
      assert t[..pb] == s[..pb];
      assert t[pb + 1..] == s[pb + 1..pa] + [g] + s[pa + 1..] by {
        var u := s[pb + 1..pa] + [g] + s[pa + 1..];
        assert |u| == |t| - pb - 1;
        forall k | 0 <= k < |u| ensures t[pb + 1..][k] == u[k] {
          if k > pa - pb - 1 {
            assert u[k] == s[pa + 1..][k - (pa - pb)];
          } else if k < pa - pb - 1 {
            assert u[k] == s[pb + 1..pa][k];
          }
        }
      }
    }
  }

  /** Overwriting one element of a duplicate-free sequence with a value it
      does not hold keeps it duplicate-free. */
  lemma ReplaceNoDup(s: seq<nat>, p: nat, g: nat)
    requires NoDup(s) && p < |s| && g !in s
    ensures NoDup(s[p := g])
  {
    var t := s[p := g];
    forall i, j | 0 <= i < j < |t| ensures t[i] != t[j] {
      if i == p {
        assert s[j] in s;
      } else if j == p {
        assert s[i] in s;
      }
    }
  }

  /** Two repetition-free sequences with no element in common concatenate
      without repetition. */
  lemma NoDupConcat(a: seq<nat>, b: seq<nat>)
    requires NoDup(a) && NoDup(b) && forall x :: x in a ==> x !in b
    ensures NoDup(a + b)
  {
    forall i, j | 0 <= i < j < |a + b| ensures (a + b)[i] != (a + b)[j] {
      if j < |a| {
        assert (a + b)[i] == a[i] && (a + b)[j] == a[j];
      } else if i >= |a| {
        assert (a + b)[i] == b[i - |a|] && (a + b)[j] == b[j - |a|];
      } else {
        assert (a + b)[i] == a[i] && a[i] in a;
        assert (a + b)[j] == b[j - |a|] && b[j - |a|] in b;
      }
    }
  }

  /** A sequence cut around two of its positions. */
  lemma SplitTwo<T>(s: seq<T>, i: nat, j: nat)
    requires i < j < |s|
    ensures s == s[..i] + [s[i]] + s[i + 1..j] + [s[j]] + s[j + 1..]
  {
  }

  /** Position of `x` in `s`. */
  function IndexOf(s: seq<nat>, x: nat): (r: nat)
    requires x in s
    ensures r < |s| && s[r] == x
  {
    if s[0] == x then 0 else 1 + IndexOf(s[1..], x)
  }
}
