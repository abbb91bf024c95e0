/** Small shared datatypes. */
module Common {

  /** A value the source may leave as `None`. */
  datatype Option<+T> = None | Some(value: T)

  /** A computation that returns a value or raises; the error is the code the source raises with. */
  datatype Result<+T, +E> = Ok(value: T) | Err(error: E) {
    predicate IsFailure() {
      Err?
    }

    function PropagateFailure<U>(): Result<U, E>
      requires Err?
    {
      Err(error)
    }

    function Extract(): T
      requires Ok?
    {
      value
    }
  }

  function Flatten<T>(parts: seq<seq<T>>): (r: seq<T>)
  {
    if parts == [] then [] else parts[0] + Flatten(parts[1..])
  }

  /** Concatenation is associative. */
  lemma Assoc<T>(a: seq<T>, b: seq<T>, c: seq<T>)
    ensures (a + b) + c == a + (b + c)
  {
  }

  /** Taking the head off a concatenation takes it off the left part. */
  lemma TailOfAppend<T>(a: seq<T>, b: seq<T>)
    requires a != []
    ensures (a + b)[0] == a[0] && (a + b)[1..] == a[1..] + b
  {
  }

  lemma TakeDrop<T>(s: seq<T>, n: nat)
    requires n <= |s|
    ensures s[..n] + s[n..] == s
  {
  }

  /** A slice grown by the element behind it. */
  lemma SliceSnoc<T>(s: seq<T>, a: nat, i: nat)
    requires a <= i < |s|
    ensures s[a..i + 1] == s[a..i] + [s[i]]
    ensures s[i..i + 1] == [s[i]] && s[i + 1..i + 1] == []
    ensures s[i..][0] == s[i] && s[i..][1..] == s[i + 1..]
  {
  }

  lemma {:induction false} FlattenAppend<T>(a: seq<seq<T>>, b: seq<seq<T>>)
    ensures Flatten(a + b) == Flatten(a) + Flatten(b)
  {
    if a == [] {
      assert a + b == b;
    } else {
      TailOfAppend(a, b);
      FlattenAppend(a[1..], b);
      Assoc(a[0], Flatten(a[1..]), Flatten(b));
    }
  }

  /** How many elements have a property. */
  ghost function Number<T>(s: seq<T>, p: T -> bool): nat {
    |set i | 0 <= i < |s| && p(s[i])|
  }

  lemma NumberSnoc<T>(s: seq<T>, x: T, p: T -> bool)
    ensures Number(s + [x], p) == Number(s, p) + (if p(x) then 1 else 0)
  {
    var all, before := set i | 0 <= i < |s + [x]| && p((s + [x])[i]), set i | 0 <= i < |s| && p(s[i]);
    assert all == if p(x) then before + {|s|} else before;
  }

  lemma NumberOfNone<T>(s: seq<T>, p: T -> bool)
    requires s == []
    ensures Number(s, p) == 0
  {
    assert (set i | 0 <= i < |s| && p(s[i])) == {};
  }

  lemma {:induction false} NumberAppend<T>(a: seq<T>, b: seq<T>, p: T -> bool)
    ensures Number(a + b, p) == Number(a, p) + Number(b, p)
  {
    if b == [] {
      NumberOfNone(b, p);
      assert a + b == a;
    } else {
      var n := |b| - 1;
      NumberAppend(a, b[..n], p);
      NumberSnoc(b[..n], b[n], p);
      NumberSnoc(a + b[..n], b[n], p);
      assert b == b[..n] + [b[n]];
      Assoc(a, b[..n], [b[n]]);
    }
  }

  lemma RemoveOne<T>(s: seq<T>, k: nat)
    requires k < |s|
    ensures multiset(s) == multiset(s[..k] + s[k + 1..]) + multiset{s[k]}
  {
    assert s == s[..k] + ([s[k]] + s[k + 1..]);
  }

  lemma TakeOut<T>(a: seq<T>, b: seq<T>, k: nat)
    requires a != [] && multiset(a) == multiset(b) && k < |b| && b[k] == a[|a| - 1]
    ensures multiset(a[..|a| - 1]) == multiset(b[..k] + b[k + 1..])
  {
    var n := |a| - 1;
    RemoveOne(a, n);
    RemoveOne(b, k);
    assert a[..n] + a[n + 1..] == a[..n];
    SameWithoutOne(multiset(a[..n]), multiset(b[..k] + b[k + 1..]), b[k]);
  }

  lemma SameWithoutOne<T>(a: multiset<T>, b: multiset<T>, x: T)
    requires a + multiset{x} == b + multiset{x}
    ensures a == b
  {
    assert (a + multiset{x}) - multiset{x} == a && (b + multiset{x}) - multiset{x} == b;
  }

  lemma NumberWithout<T>(b: seq<T>, k: nat, p: T -> bool)
    requires k < |b|
    ensures Number(b, p) == Number(b[..k] + b[k + 1..], p) + (if p(b[k]) then 1 else 0)
  {
    assert b == b[..k] + ([b[k]] + b[k + 1..]);
    NumberAppend(b[..k], [b[k]] + b[k + 1..], p);
    NumberAppend([b[k]], b[k + 1..], p);
    NumberAppend(b[..k], b[k + 1..], p);
    NumberOfOne(b[k], p);
  }

  /** Numbers do not depend on the order of the elements. */
  lemma {:induction false} NumberByMultiset<T>(a: seq<T>, b: seq<T>, p: T -> bool)
    requires multiset(a) == multiset(b)
    ensures Number(a, p) == Number(b, p)
  {
    if a == [] {
      assert |multiset(b)| == 0;
      NumberOfNone(a, p);
      NumberOfNone(b, p);
    } else {
      var n := |a| - 1;
      assert a[n] in multiset(a) && a[n] in multiset(b);
      var k :| 0 <= k < |b| && b[k] == a[n];
      TakeOut(a, b, k);
      NumberByMultiset(a[..n], b[..k] + b[k + 1..], p);
      NumberWithout(b, k, p);
      NumberSnoc(a[..n], a[n], p);
      assert a == a[..n] + [a[n]];
    }
  }

  lemma {:induction false} NumberGrows<T>(s: seq<T>, p: T -> bool, q: T -> bool)
    requires forall i :: 0 <= i < |s| && p(s[i]) ==> q(s[i])
    ensures Number(s, p) <= Number(s, q) <= |s|
    ensures (forall i :: 0 <= i < |s| ==> q(s[i])) ==> Number(s, q) == |s|
    ensures (forall i :: 0 <= i < |s| ==> !p(s[i])) ==> Number(s, p) == 0
  {
    if s == [] {
      NumberOfNone(s, p);
      NumberOfNone(s, q);
    } else {
      var n := |s| - 1;
      NumberGrows(s[..n], p, q);
      NumberSnoc(s[..n], s[n], p);
      NumberSnoc(s[..n], s[n], q);
      assert s == s[..n] + [s[n]];
    }
  }

  lemma NumberOfOne<T>(x: T, p: T -> bool)
    ensures Number([x], p) == if p(x) then 1 else 0
  {
    var none: seq<T> := [];
    NumberSnoc(none, x, p);
    NumberOfNone(none, p);
    assert none + [x] == [x];
  }

  /** The sum of a quantity over all elements. */
  function SumOf<T>(s: seq<T>, f: T -> nat): nat {
    if s == [] then 0 else SumOf(s[..|s| - 1], f) + f(s[|s| - 1])
  }

  lemma SumOfSnoc<T>(s: seq<T>, x: T, f: T -> nat)
    ensures SumOf(s + [x], f) == SumOf(s, f) + f(x)
  {
    assert (s + [x])[..|s|] == s;
  }
}
