/** Small vocabulary shared by the models: optional values and facts about
    sequences without repetition, which stand for the intrusive lists of the
    driver manager and the driver host. */
module Common {

  datatype Option<+T> = None | Some(value: T)

  /** No element occurs twice, as in a list whose nodes are the elements. */
  ghost predicate NoDup<T>(s: seq<T>) {
    forall i, j :: 0 <= i < j < |s| ==> s[i] != s[j]
  }

  /** The list without the (first occurrence of) element `x`. */
  function Erase<T(==)>(s: seq<T>, x: T): (r: seq<T>)
  {
    if s == [] then []
    else if s[0] == x then s[1..]
    else [s[0]] + Erase(s[1..], x)
  }

  lemma {:induction false} EraseSpec<T>(s: seq<T>, x: T)
    requires NoDup(s)
    ensures NoDup(Erase(s, x))
    ensures forall y :: y in Erase(s, x) <==> y in s && y != x
    ensures |Erase(s, x)| == if x in s then |s| - 1 else |s|
  {
    if s == [] {
    } else if s[0] == x {
      assert s == [s[0]] + s[1..];
      forall y | y in s[1..] ensures y != x { }
    } else {
      EraseSpec(s[1..], x);
      assert s == [s[0]] + s[1..];
      var r := Erase(s[1..], x);
      assert s[0] !in s[1..];
      forall i, j | 0 <= i < j < |[s[0]] + r| ensures ([s[0]] + r)[i] != ([s[0]] + r)[j] {
        if i == 0 { assert r[j-1] in r; }
      }
    }
  }

  lemma AppendNoDup<T>(s: seq<T>, x: T)
    requires NoDup(s) && x !in s
    ensures NoDup(s + [x])
  {
  }

  /** `x` stands before `y` in the list. */
  ghost predicate Before<T>(s: seq<T>, x: T, y: T) {
    exists a, b :: 0 <= a < b < |s| && s[a] == x && s[b] == y
  }

  lemma {:induction false} EraseBefore<T>(s: seq<T>, x: T, i: T, j: T)
    requires Before(Erase(s, x), i, j)
    ensures Before(s, i, j)
  {
    var r := Erase(s, x);
    var a, b :| 0 <= a < b < |r| && r[a] == i && r[b] == j;
    if s[0] == x {
      assert s[a + 1] == i && s[b + 1] == j;
    } else {
      var t := s[1..];
      var rt := Erase(t, x);
      assert r == [s[0]] + rt;
      if a == 0 {
        EraseIn(t, x, j);
        var k :| 0 <= k < |t| && t[k] == j;
        assert s[0] == i && s[k + 1] == j;
      } else {
        assert rt[a - 1] == i && rt[b - 1] == j;
        EraseBefore(t, x, i, j);
        var a', b' :| 0 <= a' < b' < |t| && t[a'] == i && t[b'] == j;
        assert s[a' + 1] == i && s[b' + 1] == j;
      }
    }
  }

  lemma {:induction false} EraseIn<T>(s: seq<T>, x: T, j: T)
    requires j in Erase(s, x)
    ensures j in s
  {
    if s == [] || s[0] == x {
    } else {
      assert s == [s[0]] + s[1..];
      if j != s[0] { EraseIn(s[1..], x, j); }
    }
  }

  lemma {:induction false} EraseKeepsIn<T>(s: seq<T>, x: T, j: T)
    requires j in s && j != x
    ensures j in Erase(s, x)
  {
    if s[0] == x || s[0] == j {
    } else {
      EraseKeepsIn(s[1..], x, j);
    }
  }

  lemma {:induction false} EraseKeepsBefore<T>(s: seq<T>, x: T, i: T, j: T)
    requires Before(s, i, j) && i != x && j != x
    ensures Before(Erase(s, x), i, j)
  {
    var a, b :| 0 <= a < b < |s| && s[a] == i && s[b] == j;
    var t, r := s[1..], Erase(s, x);
    if s[0] == x {
      assert r[a - 1] == i && r[b - 1] == j;
    } else if a == 0 {
      assert t[b - 1] == j;
      EraseKeepsIn(t, x, j);
      var k :| 0 <= k < |Erase(t, x)| && Erase(t, x)[k] == j;
      assert r[0] == i && r[k + 1] == j;
    } else {
      assert t[a - 1] == i && t[b - 1] == j;
      EraseKeepsBefore(t, x, i, j);
      var a', b' :| 0 <= a' < b' < |Erase(t, x)| && Erase(t, x)[a'] == i && Erase(t, x)[b'] == j;
      assert r[a' + 1] == i && r[b' + 1] == j;
    }
  }

  lemma AppendBefore<T>(s: seq<T>, z: T, x: T, y: T)
    ensures Before(s + [z], x, y) <==> Before(s, x, y) || (x in s && y == z)
  {
    if x in s && y == z {
      var a :| 0 <= a < |s| && s[a] == x;
      assert (s + [z])[a] == x && (s + [z])[|s|] == y;
    }
    if Before(s, x, y) {
      var a, b :| 0 <= a < b < |s| && s[a] == x && s[b] == y;
      assert (s + [z])[a] == x && (s + [z])[b] == y;
    }
  }

  lemma BeforeIn<T>(s: seq<T>, x: T, y: T)
    requires Before(s, x, y)
    ensures x in s && y in s
  {
  }

  /** `t` is `s` without `x`, in the same order. */
  ghost predicate SameBut<T>(s: seq<T>, x: T, t: seq<T>)
    decreases |s|
  {
    if s == [] then t == []
    else if s[0] == x then SameBut(s[1..], x, t)
    else t != [] && t[0] == s[0] && SameBut(s[1..], x, t[1..])
  }

  lemma {:induction false} SameButNone<T>(s: seq<T>, x: T)
    requires x !in s
    ensures SameBut(s, x, s)
  {
    if s == [] {
    } else {
      SameButNone(s[1..], x);
    }
  }

  lemma {:induction false} EraseSameBut<T>(s: seq<T>, x: T)
    requires NoDup(s)
    ensures SameBut(s, x, Erase(s, x))
  {
    if s == [] {
    } else if s[0] == x {
      assert x !in s[1..];
      SameButNone(s[1..], x);
    } else {
      EraseSameBut(s[1..], x);
    }
  }
}
