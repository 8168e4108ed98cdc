/** The few pieces of Python 3 semantics the resolver relies on: exceptions as a
    failure value, list indexing with negative indices, clamping slices,
    `str.lower`, list comprehensions with a condition, and loops that extend
    an accumulator and let the first exception escape. */
module Py {

  /** The exceptions the modelled code can raise. */
  datatype Error = TypeError | IndexError | AttributeError

  datatype Option<+T> = None | Some(value: T)

  /** A value, or the exception raised while computing it. */
  datatype Result<+T> = Success(value: T) | Failure(error: Error) {
    predicate IsFailure() { Failure? }

    function PropagateFailure<U>(): Result<U>
      requires Failure?
    {
      Failure(error)
    }

    function Extract(): T
      requires Success?
    {
      value
    }
  }

  /** `s[k]` for a Python list: negative indices count from the end. */
  function Index<T>(s: seq<T>, k: int): (r: Result<T>)
    ensures r.Success? <==> -|s| <= k < |s|
    ensures 0 <= k < |s| ==> r == Success(s[k])
    ensures -|s| <= k < 0 ==> r == Success(s[|s| + k])
    ensures r.Failure? ==> r.error == IndexError
  {
    if 0 <= k < |s| then Success(s[k])
    else if -|s| <= k < 0 then Success(s[|s| + k])
    else Failure(IndexError)
  }

  /** `s[:n]`: a slice past the end is clamped, never an error. */
  function SliceTo<T>(s: seq<T>, n: nat): seq<T>
  {
    if n <= |s| then s[..n] else s
  }

  /** `s[lo:hi]` for `0 <= lo`, `0 <= hi`, clamped like Python. */
  function Slice<T>(s: seq<T>, lo: nat, hi: nat): seq<T>
  {
    var h := if hi <= |s| then hi else |s|;
    if lo <= h then s[lo..h] else []
  }

  /** Comparing `long[:len(short)]` with `short` is the prefix test. */
  lemma SliceToEqualsIffPrefix<T>(short: seq<T>, long: seq<T>)
    ensures SliceTo(long, |short|) == short <==> short <= long
  {
    if |short| > |long| {
      assert |SliceTo(long, |short|)| == |long| < |short|;
    }
  }

  function LowerChar(c: char): char
  {
    if 'A' <= c <= 'Z' then (c as int + 32) as char else c
  }

  /** `str.lower()`, restricted to the ASCII letters. */
  function Lower(s: string): string
  {
    seq(|s|, k requires 0 <= k < |s| => LowerChar(s[k]))
  }

  /** `[x for x in s if keep(x)]`. Its properties are the lemmas below. */
  function Filter<T>(s: seq<T>, keep: T -> bool): seq<T>
  {
    if s == [] then []
    else (if keep(s[0]) then [s[0]] else []) + Filter(s[1..], keep)
  }

  lemma {:induction false} FilterMembers<T>(s: seq<T>, keep: T -> bool)
    ensures forall x :: x in Filter(s, keep) <==> x in s && keep(x)
    ensures |Filter(s, keep)| <= |s|
  {
    if s != [] {
      FilterMembers(s[1..], keep);
      assert s == [s[0]] + s[1..];
    }
  }

  /** Filtering keeps the order: it distributes over concatenation. */
  lemma {:induction false} FilterAppend<T>(a: seq<T>, b: seq<T>, keep: T -> bool)
    ensures Filter(a + b, keep) == Filter(a, keep) + Filter(b, keep)
  {
    if a == [] {
      assert a + b == b;
    } else {
      var head := if keep(a[0]) then [a[0]] else [];
      assert (a + b)[0] == a[0] && (a + b)[1..] == a[1..] + b;
      assert Filter(a + b, keep) == head + Filter(a[1..] + b, keep);
      FilterAppend(a[1..], b, keep);
      assert Filter(a, keep) == head + Filter(a[1..], keep);
    }
  }

  /** Every kept element has property `p` exactly when every element that
      `keep` accepts has it. */
  lemma {:induction false} FilterAllIff<T>(s: seq<T>, keep: T -> bool, p: T -> bool)
    ensures (forall k :: 0 <= k < |Filter(s, keep)| ==> p(Filter(s, keep)[k])) <==>
      (forall k :: 0 <= k < |s| && keep(s[k]) ==> p(s[k]))
  {
    if s != [] {
      FilterAllIff(s[1..], keep, p);
      var head := if keep(s[0]) then [s[0]] else [];
      var rest := Filter(s[1..], keep);
      var kept := head + rest;
      assert Filter(s, keep) == kept;
      if forall k :: 0 <= k < |kept| ==> p(kept[k]) {
        forall k | 0 <= k < |rest| ensures p(rest[k]) {
          assert kept[|head| + k] == rest[k];
        }
        forall k | 0 <= k < |s| && keep(s[k]) ensures p(s[k]) {
          if k == 0 {
            assert kept[0] == s[0];
          } else {
            assert s[1..][k - 1] == s[k];
          }
        }
      }
      if forall k :: 0 <= k < |s| && keep(s[k]) ==> p(s[k]) {
        forall k | 0 <= k < |s| - 1 && keep(s[1..][k]) ensures p(s[1..][k]) {
          assert s[1..][k] == s[k + 1];
        }
        forall k | 0 <= k < |kept| ensures p(kept[k]) {
          if k >= |head| {
            assert kept[k] == rest[k - |head|];
          }
        }
      }
    }
  }

  /** Two neighbours that are both kept stay neighbours. */
  lemma FilterKeepsNeighbours<T>(s: seq<T>, k: nat, keep: T -> bool) returns (j: nat)
    requires k + 1 < |s| && keep(s[k]) && keep(s[k + 1])
    ensures j + 1 < |Filter(s, keep)| && Filter(s, keep)[j] == s[k] && Filter(s, keep)[j + 1] == s[k + 1]
  {
    var pair := [s[k], s[k + 1]];
    assert s == s[..k] + pair + s[k + 2..];
    FilterAppend(s[..k] + pair, s[k + 2..], keep);
    FilterAppend(s[..k], pair, keep);
    assert pair[1..] == [s[k + 1]] && [s[k + 1]][1..] == [];
    assert Filter([s[k + 1]], keep) == [s[k + 1]];
    assert Filter(pair, keep) == pair;
    j := |Filter(s[..k], keep)|;
  }

  /** A condition that holds of no element keeps nothing. */
  lemma {:induction false} FilterNone<T>(s: seq<T>, keep: T -> bool)
    requires forall k :: 0 <= k < |s| ==> !keep(s[k])
    ensures Filter(s, keep) == []
  {
    if s != [] {
      FilterNone(s[1..], keep);
    }
  }

  /** A condition that holds of every element keeps everything. */
  lemma {:induction false} FilterAll<T>(s: seq<T>, keep: T -> bool)
    requires forall k :: 0 <= k < |s| ==> keep(s[k])
    ensures Filter(s, keep) == s
  {
    if s != [] {
      FilterAll(s[1..], keep);
      assert s == [s[0]] + s[1..];
    }
  }

  /** Runs `f` on each element in order and concatenates the lists it
      returns; the first failure is the result. This is the shape of a Python
      loop that extends an accumulator and lets an exception escape. */
  function ConcatMap<T, A>(s: seq<T>, f: T -> Result<seq<A>>): Result<seq<A>>
  {
    if s == [] then Success([])
    else
      var prev :- ConcatMap(s[..|s| - 1], f);
      var last :- f(s[|s| - 1]);
      Success(prev + last)
  }

  /** One more loop iteration. */
  lemma ConcatMapStep<T, A>(s: seq<T>, k: nat, f: T -> Result<seq<A>>)
    requires k < |s|
    ensures ConcatMap(s[..k + 1], f) ==
      (match ConcatMap(s[..k], f)
       case Failure(e) => Failure(e)
       case Success(prev) =>
         match f(s[k])
         case Failure(e) => Failure(e)
         case Success(last) => Success(prev + last))
  {
    assert s[..k + 1][..k] == s[..k];
  }

  /** Once a prefix has failed, so has the whole loop, with the same exception. */
  lemma {:induction false} ConcatMapFailureSticks<T, A>(s: seq<T>, k: nat, f: T -> Result<seq<A>>)
    requires k <= |s|
    requires ConcatMap(s[..k], f).Failure?
    ensures ConcatMap(s, f) == ConcatMap(s[..k], f)
    decreases |s| - k
  {
    if k == |s| {
      assert s[..k] == s;
    } else {
      ConcatMapStep(s, k, f);
      ConcatMapFailureSticks(s, k + 1, f);
    }
  }

  /** The loop runs to completion exactly when no iteration raises. */
  lemma {:induction false} ConcatMapSucceeds<T, A>(s: seq<T>, f: T -> Result<seq<A>>)
    ensures ConcatMap(s, f).Success? <==> forall k :: 0 <= k < |s| ==> f(s[k]).Success?
    decreases |s|
  {
    if s != [] {
      var init := s[..|s| - 1];
      ConcatMapSucceeds(init, f);
      assert forall k :: 0 <= k < |init| ==> init[k] == s[k];
    }
  }

  /** A failed loop failed with the exception of one of its iterations. */
  lemma {:induction false} ConcatMapFailureWitness<T, A>(s: seq<T>, f: T -> Result<seq<A>>)
    requires ConcatMap(s, f).Failure?
    ensures exists k :: 0 <= k < |s| && f(s[k]) == Failure(ConcatMap(s, f).error)
    decreases |s|
  {
    var init := s[..|s| - 1];
    if ConcatMap(init, f).Failure? {
      ConcatMapFailureWitness(init, f);
      var k :| 0 <= k < |init| && f(init[k]) == Failure(ConcatMap(init, f).error);
      assert init[k] == s[k];
    } else {
      assert f(s[|s| - 1]) == Failure(ConcatMap(s, f).error);
    }
  }

  /** When every iteration yields nothing, the loop yields nothing. */
  lemma {:induction false} ConcatMapAllEmpty<T, A>(s: seq<T>, f: T -> Result<seq<A>>)
    requires forall k :: 0 <= k < |s| ==> f(s[k]) == Success([])
    ensures ConcatMap(s, f) == Success([])
    decreases |s|
  {
    if s != [] {
      assert forall k :: 0 <= k < |s| - 1 ==> s[..|s| - 1][k] == s[k];
      ConcatMapAllEmpty(s[..|s| - 1], f);
      assert f(s[|s| - 1]) == Success([]);
      var none: seq<A> := [];
      assert none + none == none;
    }
  }

  /** When every iteration yields one element, the loop yields them in order. */
  lemma {:induction false} ConcatMapSingletons<T, A>(s: seq<T>, f: T -> Result<seq<A>>)
    requires forall k :: 0 <= k < |s| ==> f(s[k]).Success? && |f(s[k]).value| == 1
    ensures ConcatMap(s, f).Success?
    ensures |ConcatMap(s, f).value| == |s|
    ensures forall k :: 0 <= k < |s| ==> ConcatMap(s, f).value[k] == f(s[k]).value[0]
    decreases |s|
  {
    if s != [] {
      ConcatMapSingletons(s[..|s| - 1], f);
    }
  }

  /** Running the loop over `a + b` is running it over `a`, then over `b`. */
  lemma {:induction false} ConcatMapAppend<T, A>(a: seq<T>, b: seq<T>, f: T -> Result<seq<A>>)
    ensures ConcatMap(a + b, f) ==
      (match ConcatMap(a, f)
       case Failure(e) => Failure(e)
       case Success(x) =>
         match ConcatMap(b, f)
         case Failure(e) => Failure(e)
         case Success(y) => Success(x + y))
    decreases |b|
  {
    if b == [] {
      assert a + b == a;
      match ConcatMap(a, f)
      case Failure(_) =>
      case Success(x) => assert x + [] == x;
    } else {
      var b' := b[..|b| - 1];
      assert (a + b)[..|a + b| - 1] == a + b';
      assert (a + b)[|a + b| - 1] == b[|b| - 1];
      ConcatMapAppend(a, b', f);
      match ConcatMap(a, f)
      case Failure(_) =>
      case Success(x) =>
        match ConcatMap(b', f)
        case Failure(_) =>
        case Success(y') =>
          match f(b[|b| - 1])
          case Failure(_) =>
          case Success(l) =>
            assert x + y' + l == x + (y' + l);
    }
  }

  /** A loop over four elements, unrolled. */
  lemma ConcatMapFour<T, A>(s: seq<T>, f: T -> Result<seq<A>>)
    requires |s| == 4
    ensures ConcatMap(s, f) ==
      (var a :- f(s[0]); var b :- f(s[1]); var c :- f(s[2]); var d :- f(s[3]); Success(a + b + c + d))
  {
    assert s[..0] == [] && s[..4] == s;
    ConcatMapStep(s, 0, f);
    ConcatMapStep(s, 1, f);
    ConcatMapStep(s, 2, f);
    ConcatMapStep(s, 3, f);
    match f(s[0])
    case Failure(_) =>
    case Success(a) =>
      assert [] + a == a;
  }

  /** Every element the loop yields was yielded by some iteration. */
  lemma {:induction false} ConcatMapElements<T, A>(s: seq<T>, f: T -> Result<seq<A>>, x: A)
    requires ConcatMap(s, f).Success? && x in ConcatMap(s, f).value
    ensures exists k :: 0 <= k < |s| && f(s[k]).Success? && x in f(s[k]).value
    decreases |s|
  {
    var init := s[..|s| - 1];
    if x in ConcatMap(init, f).value {
      ConcatMapElements(init, f, x);
      var k :| 0 <= k < |init| && f(init[k]).Success? && x in f(init[k]).value;
      assert init[k] == s[k];
    } else {
      assert f(s[|s| - 1]).Success? && x in f(s[|s| - 1]).value;
    }
  }
}
