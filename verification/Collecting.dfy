/** List comprehensions with a filter. */
module Collecting {
  import opened Wrappers
  import opened Orders

  /** What `f` makes of the elements it accepts, in their order. */
  function Collect<A, B>(s: seq<A>, f: A -> Option<B>): seq<B> {
    if s == [] then []
    else
      var front := Collect(s[..|s| - 1], f);
      match f(s[|s| - 1])
      case Some(y) => front + [y]
      case None => front
  }

  lemma {:induction false} CollectSnoc<A, B>(s: seq<A>, x: A, f: A -> Option<B>)
    ensures Collect(s + [x], f) == match f(x) case Some(y) => Collect(s, f) + [y] case None => Collect(s, f)
  {
    assert (s + [x])[..|s|] == s;
  }

  lemma {:induction false} CollectConcat<A, B>(a: seq<A>, b: seq<A>, f: A -> Option<B>)
    ensures Collect(a + b, f) == Collect(a, f) + Collect(b, f)
  {
    if b == [] {
      assert a + b == a;
    } else {
      CollectConcat(a, b[..|b| - 1], f);
      assert a + b == (a + b[..|b| - 1]) + [b[|b| - 1]];
      CollectSnoc(a + b[..|b| - 1], b[|b| - 1], f);
    }
  }

  lemma {:induction false} CollectMember<A, B>(s: seq<A>, f: A -> Option<B>, y: B)
    ensures y in Collect(s, f) <==> exists x :: x in s && f(x) == Some(y)
  {
    if s != [] {
      var last := s[|s| - 1];
      CollectMember(s[..|s| - 1], f, y);
      assert s == s[..|s| - 1] + [last];
    }
  }

  /** Collecting from a rearrangement collects a rearrangement. */
  lemma {:induction false} CollectPermutes<A, B>(a: seq<A>, b: seq<A>, f: A -> Option<B>)
    requires multiset(a) == multiset(b)
    ensures multiset(Collect(a, f)) == multiset(Collect(b, f))
    ensures |Collect(a, f)| == |Collect(b, f)|
  {
    if a == [] {
      assert |multiset(b)| == |b|;
    } else {
      var front, back := Extract(a, b);
      var rest := a[1..];
      CollectPermutes(rest, front + back, f);
      assert a == [a[0]] + rest;
      CollectConcat([a[0]], rest, f);
      CollectConcat(front, back, f);
      CollectConcat(front + [a[0]], back, f);
      CollectConcat(front, [a[0]], f);
      MultisetPull(Collect(front, f), Collect([a[0]], f), Collect(back, f));
    }
    assert |Collect(a, f)| == |multiset(Collect(a, f))| && |Collect(b, f)| == |multiset(Collect(b, f))|;
  }

  lemma {:induction false} CollectSame<A, B>(s: seq<A>, f: A -> Option<B>, g: A -> Option<B>)
    requires forall x :: x in s ==> f(x) == g(x)
    ensures Collect(s, f) == Collect(s, g)
  {
    if s != [] {
      CollectSame(s[..|s| - 1], f, g);
    }
  }

  /** Two collections that accept the same elements have the same length. */
  lemma {:induction false} CollectAlike<A, B, C>(s: seq<A>, f: A -> Option<B>, g: A -> Option<C>)
    requires forall x :: x in s ==> f(x).Some? == g(x).Some?
    ensures |Collect(s, f)| == |Collect(s, g)|
  {
    if s != [] {
      CollectAlike(s[..|s| - 1], f, g);
    }
  }

  /** The elements that satisfy a condition, in their order. */
  function Where<T>(s: seq<T>, keep: T -> bool): seq<T> {
    if s == [] then []
    else Where(s[..|s| - 1], keep) + (if keep(s[|s| - 1]) then [s[|s| - 1]] else [])
  }

  lemma {:induction false} WhereMembers<T>(s: seq<T>, keep: T -> bool)
    ensures forall x :: x in Where(s, keep) <==> x in s && keep(x)
  {
    if s != [] {
      WhereMembers(s[..|s| - 1], keep);
      assert s == s[..|s| - 1] + [s[|s| - 1]];
    }
  }

  lemma {:induction false} WhereAll<T>(s: seq<T>, keep: T -> bool)
    requires forall i :: 0 <= i < |s| ==> keep(s[i])
    ensures Where(s, keep) == s
  {
    if s != [] {
      WhereAll(s[..|s| - 1], keep);
      assert s == s[..|s| - 1] + [s[|s| - 1]];
    }
  }

  lemma {:induction false} WhereNone<T>(s: seq<T>, keep: T -> bool)
    requires forall i :: 0 <= i < |s| ==> !keep(s[i])
    ensures Where(s, keep) == []
  {
    if s != [] {
      WhereNone(s[..|s| - 1], keep);
    }
  }
}
