/** Results, domain errors and the few facts about finite collections that the
    other modules share. */
module Wrappers {
  datatype Option<+T> = None | Some(value: T)

  datatype Result<+T, +E> = Ok(value: T) | Err(error: E)
}

/** The sentinel errors the services return (domain/errors.go). */
module Domain {
  datatype Error =
    | ErrNotFound
    | ErrAccessDenied
    | ErrInvalidInput
    | ErrNotExist
    | ErrDB
    | ErrAlreadyExists
    | ErrService
    | ErrPostNotFound
    | ErrGrpc  // an error of a remote service, passed on as it came
}

/** The profile service on a directory of profiles: it answers for each id asked. */
module Profiles {
  import opened Wrappers

  datatype Profile<ID> = Profile(userID: ID, fullName: string, avatarPath: Option<string>)

  function Answer<ID>(directory: map<ID, Profile<ID>>, ids: seq<ID>): map<ID, Profile<ID>> {
    map id | id in ids && id in directory :: directory[id]
  }
}

/** strings.TrimSpace, as far as it asks whether anything is left. */
module Text {
  function IsSpace(ch: char): bool {
    ch in {'\t', '\n', '\r', ' ', 11 as char, 12 as char, 0x85 as char, 0xA0 as char, 0x1680 as char,
           0x2028 as char, 0x2029 as char, 0x202F as char, 0x205F as char, 0x3000 as char}
    || 0x2000 <= ch as int <= 0x200A
  }

  /** strings.TrimSpace(text) == "". */
  predicate Blank(text: string) {
    forall i :: 0 <= i < |text| ==> IsSpace(text[i])
  }

  /** strings.TrimSpace: spaces off the front, then off the back. */
  function TrimSpace(text: string): string {
    if text == "" then ""
    else if IsSpace(text[0]) then TrimSpace(text[1..])
    else if IsSpace(text[|text| - 1]) then TrimSpace(text[..|text| - 1])
    else text
  }

  lemma {:induction false} BlankIff(text: string)
    ensures Blank(text) <==> TrimSpace(text) == ""
  {
    if text == "" {
    } else if IsSpace(text[0]) {
      BlankIff(text[1..]);
      assert text == [text[0]] + text[1..];
    } else if IsSpace(text[|text| - 1]) {
      BlankIff(text[..|text| - 1]);
      assert text[..|text| - 1][0] == text[0];
    }
  }

  /** The white space of ASCII, and what is none: every printing character. */
  lemma AsciiSpace(ch: char)
    requires ch as int < 128
    ensures IsSpace(ch) <==> ch == ' ' || 9 <= ch as int <= 13
    ensures '!' <= ch <= '~' ==> !IsSpace(ch)
  {
  }
}

module Collections {

  function Least(a: int, b: int): (m: int)
    ensures m <= a && m <= b && (m == a || m == b)
  {
    if a < b then a else b
  }

  ghost predicate NoDup<T(!new)>(s: seq<T>) {
    forall i, j :: 0 <= i < j < |s| ==> s[i] != s[j]
  }

  ghost function Elems<T(!new)>(s: seq<T>): set<T> {
    set x | x in s
  }

  /** A duplicate-free sequence is as long as the set of its elements. */
  lemma {:induction false} NoDupSize<T(!new)>(s: seq<T>)
    requires NoDup(s)
    ensures |Elems(s)| == |s|
  {
    if s == [] {
      assert Elems(s) == {};
    } else {
      var tail := s[1..];
      NoDupSize(tail);
      assert s == [s[0]] + tail;
      assert s[0] !in Elems(tail);
      assert Elems(s) == {s[0]} + Elems(tail);
    }
  }

  /** Every prefix of a sequence is one of all but its last element, or all of it. */
  lemma PrefixSplit<T(!new)>(s: seq<T>, before: seq<T>, p: seq<T> -> bool)
    requires s != [] && before == s[..|s| - 1]
    ensures (forall i :: 0 <= i <= |s| ==> p(s[..i])) <==> p(s) && forall i :: 0 <= i < |s| ==> p(before[..i])
  {
    assert s[..|s|] == s;
    forall i | 0 <= i < |s|
      ensures p(before[..i]) == p(s[..i])
    {
      assert before[..i] == s[..i];
    }
  }

  lemma Parts<T(!new)>(a: seq<T>, b: seq<T>)
    requires NoDup(a + b)
    ensures NoDup(a) && NoDup(b) && forall n :: n in a ==> n !in b
  {
    assert forall i :: 0 <= i < |a| ==> (a + b)[i] == a[i];
    assert forall i :: 0 <= i < |b| ==> (a + b)[|a| + i] == b[i];
  }

  lemma Joined<T(!new)>(a: seq<T>, b: seq<T>)
    requires NoDup(a) && NoDup(b) && forall n :: n in a ==> n !in b
    ensures NoDup(a + b)
  {
    forall i, j | 0 <= i < j < |a + b|
      ensures (a + b)[i] != (a + b)[j]
    {
      if i < |a| && j >= |a| {
        assert a[i] in a && b[j - |a|] in b;
      }
    }
  }

  /** f maps s one-to-one onto t. */
  ghost predicate Bijection<A(!new), B(!new)>(s: set<A>, t: set<B>, f: A -> B) {
    && (forall x :: x in s ==> f(x) in t)
    && (forall x, y :: x in s && y in s && f(x) == f(y) ==> x == y)
    && (forall y :: y in t ==> exists x :: x in s && f(x) == y)
  }

  lemma {:induction false} BijectionSize<A(!new), B(!new)>(s: set<A>, t: set<B>, f: A -> B)
    requires Bijection(s, t, f)
    ensures |s| == |t|
    decreases |s|
  {
    if s == {} {
      assert t == {};
    } else {
      var a :| a in s;
      BijectionSize(s - {a}, t - {f(a)}, f);
    }
  }

  ghost function Sum<T(!new)>(xs: seq<T>, f: T -> int): int {
    if xs == [] then 0 else f(xs[0]) + Sum(xs[1..], f)
  }

  lemma {:induction false} SumAdds<T(!new)>(xs: seq<T>, f: T -> int, g: T -> int, h: T -> int)
    requires forall x :: x in xs ==> h(x) == f(x) + g(x)
    ensures Sum(xs, h) == Sum(xs, f) + Sum(xs, g)
  {
    if xs != [] {
      SumAdds(xs[1..], f, g, h);
    }
  }

  ghost function Fiber<R(!new), K(!new)>(rows: set<R>, key: R -> K, x: K): set<R> {
    set r | r in rows && key(r) == x
  }

  /** Taking out one group leaves the others as they were. */
  lemma WithoutFiber<R(!new), K(!new)>(rows: set<R>, key: R -> K, x: K)
    ensures |rows| == |Fiber(rows, key, x)| + |rows - Fiber(rows, key, x)|
    ensures forall y :: y != x ==> Fiber(rows - Fiber(rows, key, x), key, y) == Fiber(rows, key, y)
  {
    assert rows == Fiber(rows, key, x) + (rows - Fiber(rows, key, x));
  }

  /** Grouping loses nothing: the group sizes over all keys add up to the number of rows. */
  lemma {:induction false} FibersSum<R(!new), K(!new)>(rows: set<R>, key: R -> K, xs: seq<K>, size: K -> int)
    requires NoDup(xs)
    requires forall r :: r in rows ==> key(r) in xs
    requires forall x :: x in xs ==> size(x) == |Fiber(rows, key, x)|
    ensures Sum(xs, size) == |rows|
  {
    if xs == [] {
      assert rows == {};
    } else {
      var head, tail := xs[0], xs[1..];
      var rest := rows - Fiber(rows, key, head);
      WithoutFiber(rows, key, head);
      assert forall x :: x in xs <==> x == head || x in tail;
      forall x | x in tail
        ensures size(x) == |Fiber(rest, key, x)|
      {
        assert x != head;
      }
      FibersSum(rest, key, tail, size);
    }
  }

  // Ascending enumeration of a finite set: ORDER BY over an integer column.

  ghost predicate Ascending(s: seq<int>) {
    forall i, j :: 0 <= i < j < |s| ==> s[i] < s[j]
  }

  lemma Pick<T(!new)>(s: set<T>) returns (a: T)
    requires s != {}
    ensures a in s
  {
    a :| a in s;
  }

  lemma Inhabited(s: set<int>)
    requires s != {}
    ensures exists x: int :: x in s
  {
    var a := Pick(s);
  }

  ghost function Min(s: set<int>): (m: int)
    requires s != {}
    ensures m in s && forall x :: x in s ==> m <= x
    decreases |s|
  {
    Inhabited(s);
    var a :| a in s;
    if s - {a} == {} then
      assert s == {a};
      a
    else
      var n := Min(s - {a});
      assert forall x :: x in s ==> x == a || x in s - {a};
      if n < a then n else a
  }

  ghost function Sorted(s: set<int>): seq<int>
    decreases |s|
  {
    if s == {} then [] else [Min(s)] + Sorted(s - {Min(s)})
  }

  lemma PrependAscending(m: int, rest: seq<int>)
    requires Ascending(rest) && forall x :: x in rest ==> m < x
    ensures Ascending([m] + rest)
  {
    assert forall i :: 0 <= i < |rest| ==> rest[i] in rest;
  }

  lemma {:induction false} SortedEnumerates(s: set<int>)
    ensures forall x :: x in Sorted(s) <==> x in s
    ensures Ascending(Sorted(s))
    decreases |s|
  {
    if s != {} {
      var m := Min(s);
      var left := s - {m};
      SortedEnumerates(left);
      PrependAscending(m, Sorted(left));
      assert Sorted(s) == [m] + Sorted(left);
    }
  }

  // Descending enumeration by a key: ORDER BY key DESC, ties in any order.

  lemma {:induction false} Highest<T(!new)>(s: set<T>, key: T -> int) returns (a: T)
    requires s != {}
    ensures a in s && forall x :: x in s ==> key(x) <= key(a)
    decreases |s|
  {
    a := Pick(s);
    var rest := s - {a};
    assert forall x :: x in s ==> x == a || x in rest;
    if rest != {} {
      var b := Highest(rest, key);
      if key(a) < key(b) {
        a := b;
      }
    }
  }

  lemma {:induction false} Descending<T(!new)>(s: set<T>, key: T -> int) returns (q: seq<T>)
    ensures NoDup(q) && forall x :: x in q <==> x in s
    ensures forall i, j :: 0 <= i < j < |q| ==> key(q[i]) >= key(q[j])
    decreases |s|
  {
    if s == {} {
      q := [];
    } else {
      var a := Highest(s, key);
      var rest := Descending(s - {a}, key);
      assert forall i :: 0 <= i < |rest| ==> rest[i] in rest;
      q := [a] + rest;
    }
  }
}
